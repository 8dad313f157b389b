/** What the archives show, in terms of the snapshots alone (c/libcr2/metrics.c). */
module MetricsInputs {
  import opened Bytes
  import opened Metrics
  import opened MetricsHistory
  import opened MetricsRuns
  import opened MetricsCollector

  // ---------- What the snapshots say ----------

  /** The snapshots that matter after one more: the first of its second, or the first after a rollback of the clock. */
  function Keep(kept: seq<Input>, i: Input): seq<Input> {
    if kept == [] then [i]
    else
      var last := kept[|kept| - 1].ts;
      if i.ts < last then [i] else if i.ts / 1000 == last / 1000 then kept else kept + [i]
  }

  function KeepAll(kept: seq<Input>, inputs: seq<Input>): seq<Input>
    decreases |inputs|
  {
    if inputs == [] then kept else KeepAll(Keep(kept, inputs[0]), inputs[1..])
  }

  /** v is the number of units per second, rounded down, of a counter that went from a to b in `elapsed` ms. */
  predicate IsRate(v: nat, a: nat, b: nat, elapsed: nat) {
    && v * elapsed <= (b - a) * 1000
    && (v == MAX64 || (v < MAX64 && (b - a) * 1000 < (v + 1) * elapsed))
  }

  /** Snapshot j says v of series i. */
  predicate Says(kept: seq<Input>, j: nat, i: nat, v: nat)
    requires j < |kept|
  {
    var k := kept[j];
    if i <= 1 then
      && j > 0
      && var before := kept[j - 1];
      && before.net && k.net && before.netTs < k.netTs <= before.netTs + HEARTBEAT_MS
      && (if i == 0 then before.rx <= k.rx && IsRate(v, before.rx, k.rx, k.netTs - before.netTs)
          else before.tx <= k.tx && IsRate(v, before.tx, k.tx, k.netTs - before.netTs))
    else if i == 2 then k.memory && v == k.heapUsed
    else if i == 3 then k.memory && v == k.heapSize
    else if i == 4 then k.taskInfo && v == k.tasks
    else if i == 5 then k.taskInfo && v == k.userTasks
    else if i == 6 then k.taskInfo && v == k.runnable
    else i == 7 && k.taskInfo && v == k.blocked
  }

  ghost predicate SaidIn(kept: seq<Input>, second: nat, i: nat, v: nat) {
    exists j: nat :: j < |kept| && kept[j].ts / 1000 == second && Says(kept, j, i, v)
  }

  ghost predicate SomethingSaid(kept: seq<Input>, second: nat, i: nat) {
    exists v: nat :: SaidIn(kept, second, i, v)
  }

  function Total(vs: seq<nat>): nat {
    if vs == [] then 0 else Total(vs[..|vs| - 1]) + vs[|vs| - 1]
  }

  /** vs holds what the snapshots say of series i in each of k seconds. */
  ghost predicate SaidEach(kept: seq<Input>, lo: nat, k: nat, i: nat, vs: seq<nat>) {
    |vs| == k && forall s: nat :: s < k ==> SaidIn(kept, lo + s, i, vs[s])
  }

  ghost predicate IsMean(value: nat, kept: seq<Input>, lo: nat, k: nat, i: nat)
    requires k > 0
  {
    exists vs: seq<nat> :: SaidEach(kept, lo, k, i, vs) && value == Total(vs) / k
  }

  /** A point of k seconds from second lo shows the snapshots: a series is there exactly when it was reported
      in every second, and then it is the mean of what was reported, rounded down. */
  ghost predicate Shows(r: Row, kept: seq<Input>, lo: nat, k: nat)
    requires k > 0
  {
    && r.ts == lo * 1000 && |r.value| == |r.valid| == METRICS
    && forall i :: 0 <= i < METRICS ==>
      && (r.valid[i] <==> forall s: nat :: lo <= s < lo + k ==> SomethingSaid(kept, s, i))
      && (r.valid[i] ==> IsMean(r.value[i], kept, lo, k, i))
  }

  // ---------- The history is that of the kept snapshots ----------

  function BaseOf(kept: seq<Input>): Baseline {
    if kept == [] then FRESH
    else var k := kept[|kept| - 1]; Baseline(k.ts, k.netTs, k.rx, k.tx, true, k.net)
  }

  function Rows(kept: seq<Input>): (r: seq<Row>)
    ensures |r| == |kept|
  {
    seq(|kept|, j requires 0 <= j < |kept| => RowOf(BaseOf(kept[..j]), kept[j]))
  }

  ghost predicate Tracks(db: Db, samples: seq<Row>, kept: seq<Input>) {
    db.Shape() && db.base == BaseOf(kept) && samples == Rows(kept)
  }

  lemma RowsSnoc(kept: seq<Input>, i: Input)
    ensures Rows(kept + [i]) == Rows(kept) + [RowOf(BaseOf(kept), i)]
  {
    var longer := kept + [i];
    assert longer[..|kept|] == kept;
    forall j | 0 <= j < |kept| ensures Rows(longer)[j] == Rows(kept)[j] {
      assert longer[..j] == kept[..j];
    }
  }

  lemma PushTracks(db: Db, samples: seq<Row>, kept: seq<Input>, i: Input)
    requires Tracks(db, samples, kept) && i.Fits()
    ensures Tracks(Push(db, i).0, NextSamples(db, samples, i), Keep(kept, i))
  {
    RowsSnoc(kept, i);
    RowsSnoc([], i);
    assert [] + [i] == [i] && Rows([]) == [];
    if kept != [] {
      NotEarlier(kept[|kept| - 1].ts, i.ts);
    }
  }

  lemma NotEarlier(last: nat, ts: nat)
    ensures last <= ts ==> last / 1000 <= ts / 1000
  {
  }

  lemma {:induction false} RunTracks(db: Db, samples: seq<Row>, kept: seq<Input>, inputs: seq<Input>)
    requires Tracks(db, samples, kept) && forall j :: 0 <= j < |inputs| ==> inputs[j].Fits()
    ensures Tracks(Run(db, inputs), Samples(db, samples, inputs), KeepAll(kept, inputs))
    decreases |inputs|
  {
    if inputs != [] {
      PushTracks(db, samples, kept, inputs[0]);
      RunTracks(Push(db, inputs[0]).0, NextSamples(db, samples, inputs[0]), Keep(kept, inputs[0]), inputs[1..]);
    }
  }

  // ---------- A sample is what its snapshot says ----------

  lemma RateBrackets(a: nat, b: nat, elapsed: nat)
    requires a <= b && 0 < elapsed
    ensures IsRate(Rate(b - a, elapsed), a, b, elapsed)
  {
    var delta := b - a;
    RateIsExact(delta, elapsed);
    var q, v := delta * 1000 / elapsed, Rate(delta, elapsed);
    assert delta * 1000 == q * elapsed + delta * 1000 % elapsed;
    Distribute(q, 1, elapsed);
    MulLe(v, q, elapsed);
  }

  lemma BaseBefore(kept: seq<Input>, j: nat)
    requires j < |kept|
    ensures var b := BaseOf(kept[..j]);
      if j == 0 then b == FRESH
      else b == Baseline(kept[j - 1].ts, kept[j - 1].netTs, kept[j - 1].rx, kept[j - 1].tx, true, kept[j - 1].net)
  {
  }

  /** A series is valid in a sample exactly when its snapshot says something of it, and then the value is that. */
  lemma SampleSays(kept: seq<Input>, j: nat, i: nat)
    requires j < |kept| && i < METRICS
    ensures var r := Rows(kept)[j];
      && (r.valid[i] ==> Says(kept, j, i, r.value[i]))
      && (!r.valid[i] ==> forall v: nat :: !Says(kept, j, i, v))
  {
    var k, b := kept[j], BaseOf(kept[..j]);
    BaseBefore(kept, j);
    if NetContinues(b, k) {
      if b.rx <= k.rx { RateBrackets(b.rx, k.rx, k.netTs - b.netMs); }
      if b.tx <= k.tx { RateBrackets(b.tx, k.tx, k.netTs - b.netMs); }
    }
  }

  lemma SecondOfSample(kept: seq<Input>, j: nat)
    requires j < |kept|
    ensures Rows(kept)[j].ts == kept[j].ts / 1000 * 1000
  {
  }

  lemma SeenIsSaid(kept: seq<Input>, i: nat, s: nat)
    requires i < METRICS
    ensures SeenAt(Rows(kept), i, s) <==> SomethingSaid(kept, s, i)
  {
    if SeenAt(Rows(kept), i, s) {
      var j :| 0 <= j < |kept| && Rows(kept)[j].ts == s * 1000 && Counts(Rows(kept)[j], i);
      SecondOfSample(kept, j);
      SampleSays(kept, j, i);
      assert SaidIn(kept, s, i, Rows(kept)[j].value[i]);
    }
    if SomethingSaid(kept, s, i) {
      var v: nat :| SaidIn(kept, s, i, v);
      var j: nat :| j < |kept| && kept[j].ts / 1000 == s && Says(kept, j, i, v);
      SecondOfSample(kept, j);
      SampleSays(kept, j, i);
    }
  }

  lemma ValueIsSaid(kept: seq<Input>, r: Row, i: nat, s: nat)
    requires r in Rows(kept) && r.ts / 1000 == s && Counts(r, i) && i < METRICS
    ensures SaidIn(kept, s, i, r.value[i])
  {
    var j :| 0 <= j < |kept| && Rows(kept)[j] == r;
    SecondOfSample(kept, j);
    SampleSays(kept, j, i);
  }

  // ---------- A full bucket has one sample a second ----------

  lemma {:induction false} AllCount(m: seq<Row>, i: nat)
    requires Seen(m, i) == |m|
    ensures forall j :: 0 <= j < |m| ==> Counts(m[j], i)
  {
    if m != [] {
      AllCount(m[..|m| - 1], i);
    }
  }

  lemma {:induction false} SumIsTotal(m: seq<Row>, i: nat, vs: seq<nat>)
    requires |vs| == |m| && forall j :: 0 <= j < |m| ==> Counts(m[j], i) && vs[j] == m[j].value[i]
    ensures Total(vs) == Sum(m, i)
  {
    if m != [] {
      SumIsTotal(m[..|m| - 1], i, vs[..|m| - 1]);
    }
  }

  /** At least k rows of different seconds within k seconds are one a second, in order. */
  lemma {:induction false} OneEach(m: seq<Row>, lo: nat, k: nat)
    requires History(m) && forall j :: 0 <= j < |m| ==> lo <= m[j].ts / 1000 < lo + k
    ensures |m| <= k
    ensures |m| == k ==> forall j :: 0 <= j < k ==> m[j].ts / 1000 == lo + j
  {
    if m != [] {
      var init, last := m[..|m| - 1], m[|m| - 1];
      forall j | 0 <= j < |init| ensures lo <= init[j].ts / 1000 < lo + (last.ts / 1000 - lo) {
        assert m[j].ts < last.ts && m[j].ts % 1000 == 0 && last.ts % 1000 == 0;
      }
      OneEach(init, lo, last.ts / 1000 - lo);
    }
  }

  lemma MembersInSeconds(samples: seq<Row>, no: nat, k: nat, lo: nat)
    requires History(samples) && k > 0 && lo == no * k
    ensures var m := Members(samples, no, k * 1000);
      History(m) && forall j :: 0 <= j < |m| ==> m[j] in samples && lo <= m[j].ts / 1000 < lo + k
  {
    var m := Members(samples, no, k * 1000);
    MembersAre(samples, no, k * 1000);
    forall j | 0 <= j < |m| ensures m[j] in samples && lo <= m[j].ts / 1000 < lo + k {
      assert m[j] in m;
      BucketSeconds(m[j].ts, no, k);
    }
  }

  lemma FullBucket(kept: seq<Input>, m: seq<Row>, lo: nat, k: nat, i: nat)
    requires k > 0 && i < METRICS && History(m) && Seen(m, i) == k
    requires forall j :: 0 <= j < |m| ==> m[j] in Rows(kept) && lo <= m[j].ts / 1000 < lo + k
    ensures IsMean(Sum(m, i) / k, kept, lo, k, i)
  {
    OneEach(m, lo, k);
    FullRows(kept, m, lo, k, i);
  }

  lemma FullRows(kept: seq<Input>, m: seq<Row>, lo: nat, k: nat, i: nat)
    requires k > 0 && i < METRICS && Seen(m, i) == |m| == k
    requires forall j :: 0 <= j < k ==> m[j] in Rows(kept) && m[j].ts / 1000 == lo + j
    ensures IsMean(Sum(m, i) / k, kept, lo, k, i)
  {
    AllCount(m, i);
    var vs: seq<nat> := seq(|m|, j requires 0 <= j < |m| && Counts(m[j], i) => m[j].value[i]);
    SumIsTotal(m, i, vs);
    forall s: nat | s < k ensures SaidIn(kept, lo + s, i, vs[s]) {
      ValueIsSaid(kept, m[s], i, lo + s);
    }
    assert SaidEach(kept, lo, k, i, vs);
  }

  lemma AllSeenIsAllSaid(kept: seq<Input>, i: nat, lo: nat, k: nat)
    requires i < METRICS
    ensures (forall s: nat :: lo <= s < lo + k ==> SeenAt(Rows(kept), i, s))
       <==> (forall s: nat :: lo <= s < lo + k ==> SomethingSaid(kept, s, i))
  {
    forall s: nat ensures SeenAt(Rows(kept), i, s) <==> SomethingSaid(kept, s, i) {
      SeenIsSaid(kept, i, s);
    }
  }

  lemma SeriesShows(r: Row, kept: seq<Input>, no: nat, k: nat, i: nat)
    requires History(Rows(kept)) && k > 0 && i < METRICS && Refines(r, Rows(kept), no, k)
    ensures r.valid[i] <==> forall s: nat :: no * k <= s < no * k + k ==> SomethingSaid(kept, s, i)
    ensures r.valid[i] ==> IsMean(r.value[i], kept, no * k, k, i)
  {
    AllSeenIsAllSaid(kept, i, no * k, k);
    if r.valid[i] {
      EverySecond(Rows(kept), no, k, i);
      MeanOfBucket(kept, no, k, i, no * k);
    }
  }

  lemma MeanOfBucket(kept: seq<Input>, no: nat, k: nat, i: nat, lo: nat)
    requires History(Rows(kept)) && k > 0 && i < METRICS && lo == no * k
    requires Seen(Members(Rows(kept), no, k * 1000), i) == k
    ensures IsMean(Sum(Members(Rows(kept), no, k * 1000), i) / k, kept, lo, k, i)
  {
    MembersInSeconds(Rows(kept), no, k, lo);
    FullBucket(kept, Members(Rows(kept), no, k * 1000), lo, k, i);
  }

  lemma RowShows(r: Row, kept: seq<Input>, no: nat, k: nat)
    requires History(Rows(kept)) && k > 0 && Refines(r, Rows(kept), no, k)
    ensures Shows(r, kept, no * k, k)
  {
    forall i | 0 <= i < METRICS
      ensures r.valid[i] <==> forall s: nat :: no * k <= s < no * k + k ==> SomethingSaid(kept, s, i)
      ensures r.valid[i] ==> IsMean(r.value[i], kept, no * k, k, i)
    {
      SeriesShows(r, kept, no, k, i);
    }
  }

  // ---------- Every point of every archive ----------

  /** The points of an archive, oldest first, are those of the buckets before bucket `end`, one after another,
      back to bucket `first` or to the 300th; each shows the snapshots. */
  ghost predicate ShowsAll(a: Archive, kept: seq<Input>, first: nat, end: nat) {
    && a.Shape() && first <= end && a.count == Min(ROWS, end - first)
    && forall index: nat :: PointShows(ReadRow(a, index), kept, a.count, end, index, a.step)
  }

  function Times(a: nat, b: nat): nat { a * b }

  ghost predicate PointShows(point: Option<Row>, kept: seq<Input>, count: nat, end: nat, index: nat, k: nat)
    requires k > 0 && count <= end
  {
    if index < count then point.Some? && Shows(point.value, kept, Times(end - count + index, k), k) else point.None?
  }

  lemma TrueShows(a: Archive, kept: seq<Input>, first: nat, end: nat)
    requires History(Rows(kept)) && True(a, Rows(kept), first, end)
    ensures ShowsAll(a, kept, first, end)
  {
    forall index: nat ensures PointShows(ReadRow(a, index), kept, a.count, end, index, a.step) {
      if index < a.count { RowShows(ReadRow(a, index).value, kept, end - a.count + index, a.step); }
    }
  }

  lemma SameBuckets(kept: seq<Input>, j: nat, k: nat)
    requires j < |kept| && k > 0
    ensures Bucket(Rows(kept)[j], k) == Quotient(kept[j].ts, k * 1000)
  {
    WholeSecond(kept[j].ts, k);
  }

  lemma WholeSecond(ts: nat, k: nat)
    requires k > 0
    ensures Quotient(ts / 1000 * 1000, k * 1000) == Quotient(ts, k * 1000)
  {
    var no := Quotient(ts, k * 1000);
    assert ts / 1000 * 1000 / 1000 == ts / 1000;
    BucketSeconds(ts, no, k);
    BucketSeconds(ts / 1000 * 1000, no, k);
  }

  /** The archive of k seconds shows the snapshots up to the last one's bucket, or `more` buckets further. */
  ghost predicate Shown(a: Archive, kept: seq<Input>, step: nat, more: nat)
    requires kept != [] && step > 0
  {
    exists first, end ::
      first == Quotient(kept[0].ts, step) && end == Quotient(kept[|kept| - 1].ts, step) + more && ShowsAll(a, kept, first, end)
  }

  ghost predicate DbShows(db: Db, kept: seq<Input>) {
    if kept == [] then db == NewDb()
    else
      && db.Shape()
      && Shown(db.second, kept, 1000, 1) && Shown(db.ten, kept, 10000, 0) && Shown(db.minute, kept, 60000, 0)
  }

  /** Whatever the snapshots: every point read from an archive is what they say of its seconds. */
  lemma ArchivesShowInputs(inputs: seq<Input>)
    requires forall j :: 0 <= j < |inputs| ==> inputs[j].Fits()
    ensures DbShows(Run(NewDb(), inputs), KeepAll([], inputs))
  {
    var db, kept := Run(NewDb(), inputs), KeepAll([], inputs);
    RunTracks(NewDb(), [], [], inputs);
    RunFollows(NewDb(), [], inputs);
    ArchivesAreTrue(inputs);
    TrueIsShown(db, kept);
  }

  lemma ArchiveShows(a: Archive, kept: seq<Input>, k: nat, step: nat, more: nat)
    requires kept != [] && History(Rows(kept)) && k > 0 && a.step == k && step == k * 1000
    requires IsTrue(a, Rows(kept), k, more)
    ensures Shown(a, kept, step, more)
  {
    SameBuckets(kept, 0, k);
    SameBuckets(kept, |kept| - 1, k);
    TrueShows(a, kept, Bucket(Rows(kept)[0], k), Bucket(Rows(kept)[|kept| - 1], k) + more);
  }

  ghost predicate IsTrue(a: Archive, samples: seq<Row>, k: nat, more: nat)
    requires samples != [] && k > 0
  {
    exists first, end ::
      first == Bucket(samples[0], k) && end == Bucket(samples[|samples| - 1], k) + more && True(a, samples, first, end)
  }

  lemma AllAreTrue(db: Db, samples: seq<Row>)
    requires samples != [] && AllTrue(db, samples)
    ensures IsTrue(db.second, samples, 1, 1) && IsTrue(db.ten, samples, 10, 0) && IsTrue(db.minute, samples, 60, 0)
  {
  }

  lemma TrueIsShown(db: Db, kept: seq<Input>)
    requires db.Shape() && History(Rows(kept)) && AllTrue(db, Rows(kept))
    ensures DbShows(db, kept)
  {
    if kept != [] {
      AllAreTrue(db, Rows(kept));
      ArchiveShows(db.second, kept, 1, 1000, 1);
      ArchiveShows(db.ten, kept, 10, 10000, 0);
      ArchiveShows(db.minute, kept, 60, 60000, 0);
    }
  }

  // ---------- Single seconds, and averages between the values reported ----------

  ghost predicate OneASecond(kept: seq<Input>) {
    forall j, l :: 0 <= j < l < |kept| ==> kept[j].ts / 1000 < kept[l].ts / 1000
  }

  lemma {:induction false} KeptOneASecond(kept: seq<Input>, inputs: seq<Input>)
    requires OneASecond(kept)
    ensures OneASecond(KeepAll(kept, inputs))
    decreases |inputs|
  {
    if inputs != [] {
      if kept != [] {
        NotEarlier(kept[|kept| - 1].ts, inputs[0].ts);
      }
      KeptOneASecond(Keep(kept, inputs[0]), inputs[1..]);
    }
  }

  lemma SaidByTheOne(kept: seq<Input>, j: nat, i: nat, v: nat)
    requires OneASecond(kept) && j < |kept|
    ensures SaidIn(kept, kept[j].ts / 1000, i, v) <==> Says(kept, j, i, v)
  {
    if SaidIn(kept, kept[j].ts / 1000, i, v) {
      var l: nat :| l < |kept| && kept[l].ts / 1000 == kept[j].ts / 1000 && Says(kept, l, i, v);
      assert l == j;
    }
  }

  /** A one-second point is its snapshot: each series is there exactly when the snapshot says something of it. */
  lemma SecondIsSnapshot(r: Row, kept: seq<Input>, j: nat, i: nat)
    requires OneASecond(kept) && j < |kept| && i < METRICS && Shows(r, kept, kept[j].ts / 1000, 1)
    ensures r.valid[i] <==> exists v: nat :: Says(kept, j, i, v)
    ensures r.valid[i] ==> Says(kept, j, i, r.value[i])
  {
    var s := kept[j].ts / 1000;
    forall v: nat ensures SaidIn(kept, s, i, v) <==> Says(kept, j, i, v) { SaidByTheOne(kept, j, i, v); }
    SeriesOfSecond(r, kept, s, i);
  }

  lemma SeriesOfSecond(r: Row, kept: seq<Input>, s: nat, i: nat)
    requires i < METRICS && Shows(r, kept, s, 1)
    ensures r.valid[i] <==> SomethingSaid(kept, s, i)
    ensures r.valid[i] ==> SaidIn(kept, s, i, r.value[i])
  {
    assert r.valid[i] <==> forall t: nat :: s <= t < s + 1 ==> SomethingSaid(kept, t, i);
    if r.valid[i] {
      MeanOfOne(r.value[i], kept, s, i);
    }
  }

  lemma MeanOfOne(value: nat, kept: seq<Input>, s: nat, i: nat)
    requires IsMean(value, kept, s, 1, i)
    ensures SaidIn(kept, s, i, value)
  {
    var vs: seq<nat> :| SaidEach(kept, s, 1, i, vs) && value == Total(vs) / 1;
    assert vs[..0] == [] && Total(vs) == vs[0];
    assert SaidIn(kept, s + 0, i, vs[0]);
  }

  lemma {:induction false} TotalBounds(vs: seq<nat>, low: nat, high: nat)
    requires forall j :: 0 <= j < |vs| ==> low <= vs[j] <= high
    ensures Times(low, |vs|) <= Total(vs) <= Times(high, |vs|)
  {
    if vs != [] {
      TotalBounds(vs[..|vs| - 1], low, high);
      TimesNext(low, |vs|);
      TimesNext(high, |vs|);
    }
  }

  lemma TimesNext(a: nat, n: nat)
    requires n > 0
    ensures Times(a, n) == Times(a, n - 1) + a
  {
  }

  /** A point lies between the least and the greatest value reported in its seconds; with one value
      throughout it is that value. */
  lemma MeanIsBetween(r: Row, kept: seq<Input>, lo: nat, k: nat, i: nat, low: nat, high: nat)
    requires k > 0 && i < METRICS && Shows(r, kept, lo, k) && r.valid[i]
    requires forall s: nat, v: nat :: lo <= s < lo + k && SaidIn(kept, s, i, v) ==> low <= v <= high
    ensures low <= r.value[i] <= high
  {
    var vs: seq<nat> :| SaidEach(kept, lo, k, i, vs) && r.value[i] == Total(vs) / k;
    forall j | 0 <= j < |vs| ensures low <= vs[j] <= high {
      assert SaidIn(kept, lo + j, i, vs[j]);
    }
    TotalBounds(vs, low, high);
    Between(Total(vs), k, low, high);
  }

  lemma Between(t: nat, k: nat, low: nat, high: nat)
    requires k > 0 && Times(low, k) <= t <= Times(high, k)
    ensures low <= t / k <= high
  {
    DivMono(low * k, t, k);
    DivMono(t, high * k, k);
    DivMul(low, k);
    DivMul(high, k);
  }

  /** After any snapshots, the newest point of the one-second archive is the last snapshot kept: used and
      whole heap, tasks, user tasks, runnable and blocked ones, each under its own series. */
  lemma NewestSecond(inputs: seq<Input>)
    requires (forall j :: 0 <= j < |inputs| ==> inputs[j].Fits()) && inputs != []
    ensures var db, kept := Run(NewDb(), inputs), KeepAll([], inputs);
      && kept != [] && db.second.count > 0
      && var k, r := kept[|kept| - 1], ReadRow(db.second, db.second.count - 1).value;
      && r.ts == k.ts / 1000 * 1000 && |r.value| == |r.valid| == METRICS
      && r.valid[2] == r.valid[3] == k.memory
      && (k.memory ==> r.value[2] == k.heapUsed && r.value[3] == k.heapSize)
      && r.valid[4] == r.valid[5] == r.valid[6] == r.valid[7] == k.taskInfo
      && (k.taskInfo ==> r.value[4] == k.tasks && r.value[5] == k.userTasks && r.value[6] == k.runnable && r.value[7] == k.blocked)
  {
    var db, kept := Run(NewDb(), inputs), KeepAll([], inputs);
    ArchivesShowInputs(inputs);
    KeptOneASecond([], inputs);
    SomethingKept([], inputs);
    var j, r := |kept| - 1, ReadRow(db.second, db.second.count - 1).value;
    FirstNotLater(kept);
    assert Shows(r, kept, kept[j].ts / 1000, 1);
    Gauges(r, kept, j);
  }

  lemma FirstNotLater(kept: seq<Input>)
    requires OneASecond(kept) && kept != []
    ensures kept[0].ts / 1000 <= kept[|kept| - 1].ts / 1000
  {
  }

  lemma {:induction false} SomethingKept(kept: seq<Input>, inputs: seq<Input>)
    requires kept != [] || inputs != []
    ensures KeepAll(kept, inputs) != []
    decreases |inputs|
  {
    if inputs != [] {
      SomethingKept(Keep(kept, inputs[0]), inputs[1..]);
    }
  }

  lemma Gauges(r: Row, kept: seq<Input>, j: nat)
    requires OneASecond(kept) && j < |kept| && Shows(r, kept, kept[j].ts / 1000, 1)
    ensures var k := kept[j];
      && r.valid[2] == r.valid[3] == k.memory
      && (k.memory ==> r.value[2] == k.heapUsed && r.value[3] == k.heapSize)
      && r.valid[4] == r.valid[5] == r.valid[6] == r.valid[7] == k.taskInfo
      && (k.taskInfo ==> r.value[4] == k.tasks && r.value[5] == k.userTasks && r.value[6] == k.runnable && r.value[7] == k.blocked)
  {
    var k := kept[j];
    assert k.memory ==> Says(kept, j, 2, k.heapUsed) && Says(kept, j, 3, k.heapSize);
    assert k.taskInfo ==> Says(kept, j, 4, k.tasks) && Says(kept, j, 5, k.userTasks);
    assert k.taskInfo ==> Says(kept, j, 6, k.runnable) && Says(kept, j, 7, k.blocked);
    forall i | 2 <= i < METRICS ensures (r.valid[i] ==> Says(kept, j, i, r.value[i])) && (r.valid[i] <==> exists v: nat :: Says(kept, j, i, v)) {
      SecondIsSnapshot(r, kept, j, i);
    }
  }
}
