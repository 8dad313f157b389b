/** The round-robin metrics database as a function of the sample history (c/libcr2/metrics.c). */
module Metrics {
  import opened Bytes

  const ROWS := 300
  const METRICS := 8
  const HEARTBEAT_MS := 3000

  /** One point: a value and a validity bit for each series. */
  datatype Row = Row(ts: nat, value: seq<nat>, valid: seq<bool>) {
    predicate Shape() { ts < TWO_64 && |value| == |valid| == METRICS && forall i :: 0 <= i < METRICS ==> value[i] < TWO_64 }
  }

  function Zeros(): (r: seq<nat>)
    ensures |r| == METRICS && forall i :: 0 <= i < METRICS ==> r[i] == 0
  {
    [0, 0, 0, 0, 0, 0, 0, 0]
  }

  function Empty(ts: nat): Row {
    Row(ts, Zeros(), [false, false, false, false, false, false, false, false])
  }

  /** A ring of rows and the sums of the bucket being filled. */
  datatype Archive = Archive(rows: seq<Row>, next: nat, count: nat, step: nat, bucket: nat,
                             quotient: seq<nat>, remainder: seq<nat>, seen: seq<nat>)
  {
    predicate Shape() {
      && |rows| == ROWS && next < ROWS && count <= ROWS && 0 < step <= 60
      && |quotient| == |remainder| == |seen| == METRICS
    }

    function StepMs(): nat { step * 1000 }
  }

  // ---------- Operations ----------

  function NewArchive(step: nat): Archive {
    Archive(seq(ROWS, _ => Empty(0)), 0, 0, step, 0, Zeros(), Zeros(), Zeros())
  }

  function Store(a: Archive, row: Row): (r: Archive)
    requires a.Shape()
    ensures r.Shape() && r == a.(rows := r.rows, next := r.next, count := r.count)
  {
    a.(rows := a.rows[a.next := row], next := (a.next + 1) % ROWS, count := if a.count < ROWS then a.count + 1 else a.count)
  }

  function Fill(a: Archive, begin: nat, end: nat): (r: Archive)
    requires a.Shape()
    ensures r.Shape() && r == a.(rows := r.rows, next := r.next, count := r.count)
    decreases end - begin
  {
    if begin >= end then a else Fill(Store(a, Empty(begin)), begin + a.StepMs(), end)
  }

  /** Empty rows for a pause; only those that can still be retained are written. */
  function Gaps(a: Archive, begin: nat, end: nat): (r: Archive)
    requires a.Shape()
    ensures r.Shape() && r == a.(rows := r.rows, next := r.next, count := r.count)
  {
    if end <= begin then a
    else if (end - begin) / a.StepMs() >= ROWS then
      RoomForRows(end - begin, a.StepMs());
      Fill(a.(next := 0, count := 0), end - ROWS * a.StepMs(), end)
    else Fill(a, begin, end)
  }

  lemma RoomForRows(span: nat, step: nat)
    requires step > 0 && span / step >= ROWS
    ensures ROWS * step <= span
  {
    assert span == span / step * step + span % step;
    MulLe(ROWS, span / step, step);
  }

  /** The finished bucket's point: a series counts only when every second of the bucket was seen. */
  function Average(a: Archive): (r: Row)
    requires a.Shape()
    ensures |r.value| == |r.valid| == METRICS
  {
    Row(a.bucket,
        seq(METRICS, i requires 0 <= i < METRICS =>
          if a.seen[i] == a.step then (a.quotient[i] + a.remainder[i] / a.step) % TWO_64 else 0),
        seq(METRICS, i requires 0 <= i < METRICS => a.seen[i] == a.step))
  }

  function Close(a: Archive, bucket: nat): (r: Archive)
    requires a.Shape()
    ensures r.Shape() && r.step == a.step
  {
    Gaps(Store(a.(quotient := Zeros(), remainder := Zeros(), seen := Zeros()), Average(a)), a.bucket + a.StepMs(), bucket)
    .(bucket := bucket)
  }

  /** Divide before summing: quotients and remainders are added in 64 bits. */
  function Accumulate(a: Archive, row: Row): (r: Archive)
    requires a.Shape() && |row.value| == |row.valid| == METRICS
    ensures r.Shape()
  {
    a.(quotient := seq(METRICS, i requires 0 <= i < METRICS =>
         if row.valid[i] then (a.quotient[i] + row.value[i] / a.step) % TWO_64 else a.quotient[i]),
       remainder := seq(METRICS, i requires 0 <= i < METRICS =>
         if row.valid[i] then (a.remainder[i] + row.value[i] % a.step) % TWO_64 else a.remainder[i]),
       seen := seq(METRICS, i requires 0 <= i < METRICS =>
         if row.valid[i] then (a.seen[i] + 1) % TWO_32 else a.seen[i]))
  }

  /** Where the bucket of a time starts. */
  function BucketOf(ts: nat, step: nat): (r: nat)
    requires step > 0
    ensures r <= ts
  {
    assert ts == ts / step * step + ts % step;
    ts / step * step
  }

  function Consolidate(a: Archive, row: Row, first: bool): (r: Archive)
    requires a.Shape() && row.Shape()
    ensures r.Shape() && r.step == a.step
  {
    var bucket := BucketOf(row.ts, a.StepMs());
    var b := if first then a.(bucket := bucket) else a;
    var c := if bucket != b.bucket then Close(b, bucket) else b;
    Accumulate(c, row)
  }

  // ---------- What is retained ----------

  /** The rows of the ring, oldest first; row index i of the reader. */
  function Retained(a: Archive): (r: seq<Row>)
    requires a.Shape()
    ensures |r| == a.count
  {
    seq(a.count, i requires 0 <= i < a.count => a.rows[(a.next + ROWS - a.count + i) % ROWS])
  }

  function Last(s: seq<Row>, n: nat): seq<Row> {
    if |s| <= n then s else s[|s| - n..]
  }

  /** Storing appends, and drops the oldest row once there are 300. */
  lemma StoreRetains(a: Archive, row: Row)
    requires a.Shape()
    ensures Retained(Store(a, row)) == Last(Retained(a) + [row], ROWS)
  {
    var b := Store(a, row);
    var all := Last(Retained(a) + [row], ROWS);
    forall i | 0 <= i < b.count ensures Retained(b)[i] == all[i] {
      SlotAfter(a.next, a.count, i);
    }
  }

  /** Where the ring's row i lies once another row is stored. */
  lemma SlotAfter(next: nat, count: nat, i: nat)
    requires next < ROWS && count <= ROWS && i < (if count < ROWS then count + 1 else count)
    ensures var (after, more) := ((next + 1) % ROWS, if count < ROWS then count + 1 else count);
      var at := (after + ROWS - more + i) % ROWS;
      && (i == more - 1 ==> at == next)
      && (i < more - 1 ==> at != next && at == (next + ROWS - count + if count < ROWS then i else i + 1) % ROWS)
  {
  }

  lemma LastTwice(s: seq<Row>, t: seq<Row>, n: nat)
    ensures Last(Last(s, n) + t, n) == Last(s + t, n)
  {
  }

  /** n empty rows, one step apart, the first at begin. */
  function Empties(begin: nat, n: nat, step: nat): seq<Row>
    decreases n, step
  {
    if n == 0 then [] else [Empty(begin)] + Empties(begin + step, n - 1, step)
  }

  lemma {:induction false} FillRetains(a: Archive, begin: nat, n: nat)
    requires a.Shape()
    ensures Retained(Fill(a, begin, begin + n * a.StepMs())) == Last(Retained(a) + Empties(begin, n, a.StepMs()), ROWS)
    decreases n
  {
    var step := a.StepMs();
    if n == 0 {
      assert Retained(a) + [] == Retained(a);
    } else {
      var b := Store(a, Empty(begin));
      OneStep(begin, n, step);
      FillRetains(b, begin + step, n - 1);
      StoreRetains(a, Empty(begin));
      EmptiesBehind(Retained(a), begin, n, step);
    }
  }

  lemma OneStep(begin: nat, n: nat, step: nat)
    requires n > 0 && step > 0
    ensures begin + n * step == begin + step + (n - 1) * step > begin
  {
  }

  lemma EmptiesBehind(rows: seq<Row>, begin: nat, n: nat, step: nat)
    requires n > 0
    ensures Last(Last(rows + [Empty(begin)], ROWS) + Empties(begin + step, n - 1, step), ROWS) == Last(rows + Empties(begin, n, step), ROWS)
  {
    LastTwice(rows + [Empty(begin)], Empties(begin + step, n - 1, step), ROWS);
    assert rows + [Empty(begin)] + Empties(begin + step, n - 1, step) == rows + Empties(begin, n, step);
  }

  lemma {:induction false} EmptiesSplit(begin: nat, n: nat, m: nat, step: nat)
    ensures Empties(begin, n + m, step) == Empties(begin, n, step) + Empties(begin + n * step, m, step)
    ensures |Empties(begin, n, step)| == n
    decreases n
  {
    if n > 0 {
      assert begin + n * step == begin + step + (n - 1) * step;
      EmptiesSplit(begin + step, n - 1, m, step);
    }
  }

  /** The last 300 of at least 300 empty rows. */
  lemma LastEmpties(s: seq<Row>, begin: nat, skip: nat, step: nat)
    ensures Last(s + Empties(begin, skip + ROWS, step), ROWS) == Empties(begin + skip * step, ROWS, step)
  {
    EmptiesSplit(begin, skip, ROWS, step);
    var late := Empties(begin + skip * step, ROWS, step);
    EmptiesSplit(begin + skip * step, ROWS, 0, step);
    LastOfThree(s, Empties(begin, skip, step), late);
  }

  lemma LastOfThree(s: seq<Row>, t: seq<Row>, u: seq<Row>)
    ensures Last(s + (t + u), |u|) == u
  {
    assert s + (t + u) == (s + t) + u;
  }

  lemma LongGapRetains(a: Archive, begin: nat, skip: nat)
    requires a.Shape()
    ensures var n := skip + ROWS;
      Retained(Gaps(a, begin, begin + n * a.StepMs())) == Last(Retained(a) + Empties(begin, n, a.StepMs()), ROWS)
  {
    var step := a.StepMs();
    var b := a.(next := 0, count := 0);
    assert b.Shape() && b.StepMs() == step;
    LongGap(a, begin, skip, ROWS);
    FreshRetains(b, begin + skip * step, ROWS);
    LastEmpties(Retained(a), begin, skip, step);
  }

  /** A pause too long to be retained starts the ring afresh, with its last rows only. */
  lemma LongGap(a: Archive, begin: nat, skip: nat, rows: nat)
    requires a.Shape() && rows == ROWS
    ensures var step := a.StepMs();
      Gaps(a, begin, begin + (skip + rows) * step) == Fill(a.(next := 0, count := 0), begin + skip * step, begin + skip * step + rows * step)
  {
    var step, n := a.StepMs(), skip + rows;
    DivMul(n, step);
    MulLe(1, n, step);
    SplitMul(n, skip, rows, step);
  }

  lemma FreshRetains(b: Archive, begin: nat, n: nat)
    requires b.Shape() && b.count == 0 && n == ROWS
    ensures Retained(Fill(b, begin, begin + n * b.StepMs())) == Empties(begin, n, b.StepMs())
  {
    FillRetains(b, begin, n);
    EmptiesSplit(begin, n, 0, b.StepMs());
    assert Retained(b) + Empties(begin, n, b.StepMs()) == Empties(begin, n, b.StepMs());
  }

  /** Filling only what can be retained leaves the same rows as filling the whole pause. */
  lemma GapsRetain(a: Archive, begin: nat, n: nat)
    requires a.Shape()
    ensures Retained(Gaps(a, begin, begin + n * a.StepMs())) == Last(Retained(a) + Empties(begin, n, a.StepMs()), ROWS)
  {
    if n >= ROWS {
      LongGapRetains(a, begin, n - ROWS);
    } else {
      DivMul(n, a.StepMs());
      FillRetains(a, begin, n);
      if n == 0 {
        assert Retained(a) + [] == Retained(a);
      } else {
        MulLe(1, n, a.StepMs());
      }
    }
  }

  lemma DivMul(n: nat, step: nat)
    requires step > 0
    ensures n * step / step == n
  {
    DivUnique(n * step, step, n, 0);
  }

  lemma SplitMul(n: nat, a: nat, b: nat, step: nat)
    requires n == a + b
    ensures n * step == a * step + b * step
  {
  }
}
