/** The archives as the rings and counters that are updated in place (c/libcr2/metrics.c). */
module MetricsState {
  import opened Bytes
  import opened Metrics
  import opened MetricsRuns
  import opened MetricsCollector

  /** The first i elements of s are those of b, the others those of a. */
  ghost predicate Partly(s: seq<nat>, a: seq<nat>, b: seq<nat>, i: nat) {
    |s| == |a| == |b| == METRICS && forall j :: 0 <= j < METRICS ==> s[j] == if j < i then b[j] else a[j]
  }

  lemma AddedAt(a: Archive, row: Row, i: nat)
    requires a.Shape() && |row.value| == |row.valid| == METRICS && i < METRICS
    ensures var b := Accumulate(a, row);
      if row.valid[i] then
        && b.quotient[i] == (a.quotient[i] + row.value[i] / a.step) % TWO_64
        && b.remainder[i] == (a.remainder[i] + row.value[i] % a.step) % TWO_64
        && b.seen[i] == (a.seen[i] + 1) % TWO_32
      else b.quotient[i] == a.quotient[i] && b.remainder[i] == a.remainder[i] && b.seen[i] == a.seen[i]
  {
  }

  class Ring {
    const rows: array<Row>
    const step: nat
    var next: nat
    var count: nat
    var bucket: nat
    var quotient: seq<nat>
    var remainder: seq<nat>
    var seen: seq<nat>

    ghost function Abstract(): Archive
      reads this, rows
    {
      Archive(rows[..], next, count, step, bucket, quotient, remainder, seen)
    }

    constructor (step: nat)
      requires 0 < step <= 60
      ensures fresh(rows) && this.step == step && rows.Length == ROWS
      ensures Abstract() == NewArchive(step)
    {
      rows := new Row[ROWS](_ => Empty(0));
      this.step := step;
      next, count, bucket := 0, 0, 0;
      quotient, remainder, seen := Zeros(), Zeros(), Zeros();
      new;
      assert rows[..] == NewArchive(step).rows;
    }

    /** Clock rollback: the ring becomes a new one. */
    method Reset()
      requires Abstract().Shape()
      modifies this, rows
      ensures Abstract() == NewArchive(step)
    {
      for i := 0 to ROWS
        invariant forall j :: 0 <= j < i ==> rows[j] == Empty(0)
      {
        rows[i] := Empty(0);
      }
      next, count, bucket := 0, 0, 0;
      quotient, remainder, seen := Zeros(), Zeros(), Zeros();
      assert rows[..] == NewArchive(step).rows;
    }

    method StoreRow(row: Row)
      requires Abstract().Shape()
      modifies this`next, this`count, rows
      ensures Abstract() == Store(old(Abstract()), row)
    {
      rows[next] := row;
      next := (next + 1) % ROWS;
      if count < ROWS {
        count := count + 1;
      }
    }

    /** Fills a pause with empty rows, but only those that can still be retained. */
    method FillGaps(from: nat, end: nat)
      requires Abstract().Shape()
      modifies this`next, this`count, rows
      ensures Abstract() == Gaps(old(Abstract()), from, end)
    {
      var stepMs := step * 1000;
      if end <= from {
        return;
      }
      var begin := from;
      if (end - begin) / stepMs >= ROWS {
        RoomForRows(end - begin, stepMs);
        next, count := 0, 0;
        begin := end - ROWS * stepMs;
      }
      while begin < end
        invariant Abstract().Shape()
        invariant Fill(Abstract(), begin, end) == Gaps(old(Abstract()), from, end)
      {
        StoreRow(Empty(begin));
        begin := begin + stepMs;
      }
    }

    method CloseBucket(next: nat)
      requires Abstract().Shape()
      modifies this, rows
      ensures Abstract() == Close(old(Abstract()), next)
    {
      ghost var a := Abstract();
      var value, valid := Zeros(), Empty(0).valid;
      for i := 0 to METRICS
        invariant |value| == |valid| == METRICS
        invariant forall j :: 0 <= j < i ==> value[j] == Average(a).value[j] && valid[j] == Average(a).valid[j]
        invariant forall j :: i <= j < METRICS ==> value[j] == 0 && !valid[j]
      {
        if seen[i] == step {
          valid := valid[i := true];
          value := value[i := (quotient[i] + remainder[i] / step) % TWO_64];
        }
      }
      assert value == Average(a).value && valid == Average(a).valid;
      quotient, remainder, seen := Zeros(), Zeros(), Zeros();
      StoreRow(Row(bucket, value, valid));
      FillGaps(bucket + step * 1000, next);
      bucket := next;
    }

    method AddSample(row: Row)
      requires Abstract().Shape() && |row.value| == |row.valid| == METRICS
      modifies this`quotient, this`remainder, this`seen
      ensures Abstract() == Accumulate(old(Abstract()), row)
    {
      ghost var a := Abstract();
      ghost var b := Accumulate(a, row);
      for i := 0 to METRICS
        invariant Partly(quotient, a.quotient, b.quotient, i)
        invariant Partly(remainder, a.remainder, b.remainder, i)
        invariant Partly(seen, a.seen, b.seen, i)
      {
        AddedAt(a, row, i);
        if row.valid[i] {
          quotient := quotient[i := (quotient[i] + row.value[i] / step) % TWO_64];
          remainder := remainder[i := (remainder[i] + row.value[i] % step) % TWO_64];
          seen := seen[i := (seen[i] + 1) % TWO_32];
        }
      }
      assert quotient == b.quotient && remainder == b.remainder && seen == b.seen;
    }

    method ConsolidateRow(row: Row, first: bool)
      requires Abstract().Shape() && row.Shape()
      modifies this, rows
      ensures Abstract() == Consolidate(old(Abstract()), row, first)
    {
      var start := BucketOf(row.ts, step * 1000);
      if first {
        bucket := start;
      }
      if start != bucket {
        CloseBucket(start);
      }
      AddSample(row);
    }

    method Read(index: nat) returns (r: Option<Row>)
      requires Abstract().Shape()
      ensures r == ReadRow(Abstract(), index)
    {
      if index >= count {
        return None;
      }
      return Some(rows[(next + ROWS - count + index) % ROWS]);
    }
  }

  class Collector {
    const second: Ring
    const ten: Ring
    const minute: Ring
    var base: Baseline

    /** Three rings of their own. */
    ghost predicate Valid()
      reads this, second, ten, minute, second.rows, ten.rows, minute.rows
    {
      && second != ten && second != minute && ten != minute
      && second.rows != ten.rows && second.rows != minute.rows && ten.rows != minute.rows
      && Abstract().Shape()
    }

    ghost function Abstract(): Db
      reads this, second, ten, minute, second.rows, ten.rows, minute.rows
    {
      Db(second.Abstract(), ten.Abstract(), minute.Abstract(), base)
    }

    constructor ()
      ensures Valid() && Abstract() == NewDb()
    {
      second := new Ring(1);
      ten := new Ring(10);
      minute := new Ring(60);
      base := FRESH;
    }

    method Rewind()
      requires Valid()
      modifies this, second, ten, minute, second.rows, ten.rows, minute.rows
      ensures Valid() && Abstract() == NewDb()
    {
      second.Reset();
      ten.Reset();
      minute.Reset();
      base := FRESH;
    }

    /** The one-second ring: empty rows for the pause, then the sample. */
    method RecordSecond(row: Row)
      requires Valid()
      modifies second, second.rows
      ensures Valid()
      ensures Abstract() == old(Abstract()).(second := StoreSecond(old(second.Abstract()), base.lastMs, row, base.started))
    {
      if base.started {
        second.FillGaps(base.lastMs / 1000 * 1000 + 1000, row.ts);
      }
      second.StoreRow(row);
    }

    method RecordCoarse(row: Row)
      requires Valid() && row.Shape()
      modifies ten, minute, ten.rows, minute.rows
      ensures Valid()
      ensures Abstract() == old(Abstract()).(ten := Consolidate(old(ten.Abstract()), row, !base.started),
                                             minute := Consolidate(old(minute.Abstract()), row, !base.started))
    {
      ten.ConsolidateRow(row, !base.started);
      minute.ConsolidateRow(row, !base.started);
    }

    method PushSnapshot(i: Input) returns (accepted: bool)
      requires Valid() && i.Fits()
      modifies this, second, ten, minute, second.rows, ten.rows, minute.rows
      ensures Valid()
      ensures (Abstract(), accepted) == Push(old(Abstract()), i)
    {
      if !Due(base, i.ts) {
        return false;
      }
      if base.started && i.ts < base.lastMs {
        Rewind();
      }
      var row := RowOf(base, i);
      RowIsSample(base, i);
      RecordSecond(row);
      RecordCoarse(row);
      base := Baseline(i.ts, i.netTs, i.rx, i.tx, true, i.net);
      return true;
    }
  }
}
