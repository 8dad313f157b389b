/** Runs of the collector: the three archives follow the history, whatever the clock and the sources do. */
module MetricsRuns {
  import opened Bytes
  import opened Metrics
  import opened MetricsHistory

  function Bucket(r: Row, k: nat): nat
    requires k > 0
  {
    Quotient(r.ts, k * 1000)
  }

  function Quotient(a: nat, b: nat): nat
    requires b > 0
  {
    a / b
  }

  ghost predicate SumsOk(a: Archive, m: seq<Row>) {
    && a.Shape()
    && forall i :: 0 <= i < METRICS ==>
      && a.quotient[i] == Quotients(m, i, a.step)
      && a.remainder[i] == Remainders(m, i, a.step)
      && a.seen[i] == Seen(m, i)
  }

  /** The archive's rows and sums are those of the history. */
  ghost predicate Follows(a: Archive, samples: seq<Row>) {
    && a.Shape() && samples != []
    && var cur, first := Bucket(samples[|samples| - 1], a.step), Bucket(samples[0], a.step);
    && first <= cur && a.bucket == cur * a.StepMs()
    && SumsOk(a, Members(samples, cur, a.StepMs()))
    && Retained(a) == Last(Summaries(samples, first, cur - first, a.step), ROWS)
  }

  lemma DivMono(a: nat, b: nat, d: nat)
    requires d > 0 && a <= b
    ensures a / d <= b / d
  {
    var p, q := a / d, b / d;
    assert a == p * d + a % d && b == q * d + b % d;
    if p > q {
      MulLe(q + 1, p, d);
    }
  }

  lemma MembersSnoc(samples: seq<Row>, r: Row, no: nat, step: nat)
    requires step > 0
    ensures Members(samples + [r], no, step) == Members(samples, no, step) + if r.ts / step == no then [r] else []
  {
    assert (samples + [r])[..|samples|] == samples;
  }

  /** No sample lies in a bucket after the last one's. */
  lemma LaterIsEmpty(samples: seq<Row>, no: nat, step: nat)
    requires History(samples) && step > 0
    requires samples == [] || samples[|samples| - 1].ts / step < no
    ensures Members(samples, no, step) == []
  {
    MembersAre(samples, no, step);
    var m := Members(samples, no, step);
    if m != [] {
      assert m[0] in m;
      var j :| 0 <= j < |samples| && samples[j] == m[0];
      DivMono(samples[j].ts, samples[|samples| - 1].ts, step);
      assert false;
    }
  }

  lemma EmptySummary(samples: seq<Row>, no: nat, k: nat)
    requires k > 0 && Members(samples, no, k * 1000) == []
    ensures Summary(samples, no, k) == Empty(no * (k * 1000))
  {
    assert Summary(samples, no, k).value == Empty(no * (k * 1000)).value;
    assert Summary(samples, no, k).valid == Empty(no * (k * 1000)).valid;
  }

  lemma SummarySnoc(samples: seq<Row>, r: Row, no: nat, k: nat)
    requires k > 0 && Bucket(r, k) != no
    ensures Summary(samples + [r], no, k) == Summary(samples, no, k)
  {
    MembersSnoc(samples, r, no, k * 1000);
    assert Members(samples + [r], no, k * 1000) == Members(samples, no, k * 1000);
  }

  lemma SummariesSnoc(samples: seq<Row>, r: Row, first: nat, n: nat, k: nat)
    requires k > 0 && first + n <= Bucket(r, k)
    ensures Summaries(samples + [r], first, n, k) == Summaries(samples, first, n, k)
  {
    forall j | 0 <= j < n
      ensures Summaries(samples + [r], first, n, k)[j] == Summaries(samples, first, n, k)[j]
    {
      SummarySnoc(samples, r, first + j, k);
    }
  }

  /** Buckets nothing was seen in are empty rows. */
  lemma {:induction false} EmptySummaries(samples: seq<Row>, first: nat, n: nat, k: nat)
    requires k > 0 && forall no :: first <= no < first + n ==> Members(samples, no, k * 1000) == []
    ensures Summaries(samples, first, n, k) == Empties(first * (k * 1000), n, k * 1000)
    decreases n
  {
    if n > 0 {
      EmptySummary(samples, first, k);
      EmptySummaries(samples, first + 1, n - 1, k);
      Distribute(first, 1, k * 1000);
      assert Summaries(samples, first, n, k) == [Summary(samples, first, k)] + Summaries(samples, first + 1, n - 1, k);
    }
  }

  lemma SummariesSplit(samples: seq<Row>, first: nat, n: nat, m: nat, k: nat)
    requires k > 0
    ensures Summaries(samples, first, n + m, k) == Summaries(samples, first, n, k) + Summaries(samples, first + n, m, k)
  {
  }

  /** Exactness for one series of one bucket. */
  lemma BucketIsExact(samples: seq<Row>, no: nat, k: nat, i: nat)
    requires History(samples) && 0 < k <= 60
    ensures var m := Members(samples, no, k * 1000);
      && Seen(m, i) <= k
      && Quotients(m, i, k) < TWO_64 && Remainders(m, i, k) < TWO_64
      && Quotients(m, i, k) + Remainders(m, i, k) / k == Sum(m, i) / k < TWO_64
  {
    var m := Members(samples, no, k * 1000);
    SecondsInBucket(samples, no, k, i);
    MembersAre(samples, no, k * 1000);
    ShapesOf(m);
    ExactAverage(m, i, k);
  }

  lemma ShapesOf(m: seq<Row>)
    requires History(m)
    ensures forall j :: 0 <= j < |m| ==> m[j].Shape()
  {
    forall j | 0 <= j < |m| ensures m[j].Shape() {
      assert SampleShape(m[j]);
    }
  }

  lemma AverageAt(a: Archive, samples: seq<Row>, no: nat, i: nat)
    requires History(samples) && a.Shape() && SumsOk(a, Members(samples, no, a.StepMs())) && i < METRICS
    ensures Average(a).value[i] == Summary(samples, no, a.step).value[i]
  {
    BucketIsExact(samples, no, a.step, i);
    AverageFits(a, i);
  }

  lemma AverageFits(a: Archive, i: nat)
    requires a.Shape() && i < METRICS && a.quotient[i] + a.remainder[i] / a.step < TWO_64
    ensures Average(a).value[i] == if a.seen[i] == a.step then a.quotient[i] + a.remainder[i] / a.step else 0
  {
  }

  /** The finished bucket's average is its summary, with no overflow on the way. */
  lemma AverageIsSummary(a: Archive, samples: seq<Row>, no: nat)
    requires History(samples) && a.Shape() && SumsOk(a, Members(samples, no, a.StepMs())) && a.bucket == no * a.StepMs()
    ensures Average(a) == Summary(samples, no, a.step)
  {
    var average, summary := Average(a), Summary(samples, no, a.step);
    forall i | 0 <= i < METRICS ensures average.value[i] == summary.value[i] { AverageAt(a, samples, no, i); }
    assert average.value == summary.value;
    assert average.valid == summary.valid;
  }

  lemma SumsSnoc(m: seq<Row>, r: Row, i: nat, k: nat)
    requires k > 0
    ensures Seen(m + [r], i) == Seen(m, i) + if Counts(r, i) then 1 else 0
    ensures Quotients(m + [r], i, k) == Quotients(m, i, k) + if Counts(r, i) then r.value[i] / k else 0
    ensures Remainders(m + [r], i, k) == Remainders(m, i, k) + if Counts(r, i) then r.value[i] % k else 0
  {
    assert (m + [r])[..|m|] == m;
  }

  lemma AccumulateAt(a: Archive, m: seq<Row>, r: Row, i: nat)
    requires SumsOk(a, m) && r.Shape() && i < METRICS
    requires Seen(m + [r], i) <= a.step
    requires Quotients(m + [r], i, a.step) < TWO_64 && Remainders(m + [r], i, a.step) < TWO_64
    ensures var b := Accumulate(a, r);
      && b.quotient[i] == Quotients(m + [r], i, a.step)
      && b.remainder[i] == Remainders(m + [r], i, a.step)
      && b.seen[i] == Seen(m + [r], i)
  {
    SumsSnoc(m, r, i, a.step);
  }

  /** Adding a sample to its bucket: the 64-bit sums stay exact. */
  lemma AccumulateOk(a: Archive, samples: seq<Row>, r: Row, no: nat)
    requires History(samples + [r]) && a.Shape() && r.Shape() && Bucket(r, a.step) == no
    requires SumsOk(a, Members(samples, no, a.StepMs()))
    ensures SumsOk(Accumulate(a, r), Members(samples + [r], no, a.StepMs()))
  {
    var m, b := Members(samples, no, a.StepMs()), Accumulate(a, r);
    var m' := m + [r];
    MembersSnoc(samples, r, no, a.StepMs());
    forall i | 0 <= i < METRICS
      ensures b.quotient[i] == Quotients(m', i, a.step) && b.remainder[i] == Remainders(m', i, a.step)
           && b.seen[i] == Seen(m', i)
    {
      BucketIsExact(samples + [r], no, a.step, i);
      AccumulateAt(a, m, r, i);
    }
  }

  function Emptied(a: Archive): Archive { a.(quotient := Zeros(), remainder := Zeros(), seen := Zeros()) }

  /** The finished bucket joins the retained rows. */
  lemma StoreSummary(a: Archive, samples: seq<Row>)
    requires History(samples) && Follows(a, samples)
    ensures var first, cur := Bucket(samples[0], a.step), Bucket(samples[|samples| - 1], a.step);
      Retained(Store(Emptied(a), Average(a))) == Last(Summaries(samples, first, cur + 1 - first, a.step), ROWS)
  {
    var first, cur := Bucket(samples[0], a.step), Bucket(samples[|samples| - 1], a.step);
    AverageIsSummary(a, samples, cur);
    StoreRetains(Emptied(a), Average(a));
    assert Retained(Emptied(a)) == Retained(a);
    var before := Summaries(samples, first, cur - first, a.step);
    SummariesSplit(samples, first, cur - first, 1, a.step);
    assert Summaries(samples, cur, 1, a.step) == [Average(a)];
    LastTwice(before, [Average(a)], ROWS);
  }

  lemma PauseSummaries(samples: seq<Row>, first: nat, cur: nat, next: nat, k: nat)
    requires History(samples) && samples != [] && k > 0 && first <= cur == Bucket(samples[|samples| - 1], k) < next
    ensures Summaries(samples, first, next - first, k)
         == Summaries(samples, first, cur + 1 - first, k) + Empties((cur + 1) * (k * 1000), next - cur - 1, k * 1000)
  {
    forall no | cur + 1 <= no < cur + 1 + (next - cur - 1) ensures Members(samples, no, k * 1000) == [] {
      LaterIsEmpty(samples, no, k * 1000);
    }
    EmptySummaries(samples, cur + 1, next - cur - 1, k);
    SummariesSplit(samples, first, cur + 1 - first, next - cur - 1, k);
  }

  lemma CloseParts(a: Archive, bucket: nat)
    requires a.Shape()
    ensures var g := Gaps(Store(Emptied(a), Average(a)), a.bucket + a.StepMs(), bucket);
      Close(a, bucket) == g.(bucket := bucket) && Retained(Close(a, bucket)) == Retained(g) && SumsOk(Close(a, bucket), [])
  {
  }

  /** The pause after bucket cur, up to bucket next. */
  lemma PauseRetains(s: Archive, cur: nat, next: nat)
    requires s.Shape() && cur < next
    ensures Retained(Gaps(s, cur * s.StepMs() + s.StepMs(), next * s.StepMs()))
         == Last(Retained(s) + Empties((cur + 1) * s.StepMs(), next - cur - 1, s.StepMs()), ROWS)
  {
    var step, pause := s.StepMs(), next - cur - 1;
    Distribute(cur, 1, step);
    SplitMul(next, cur + 1, pause, step);
    GapsRetain(s, (cur + 1) * step, pause);
  }

  lemma CloseRetains(a: Archive, samples: seq<Row>, first: nat, cur: nat, next: nat)
    requires History(samples) && samples != [] && a.Shape() && first <= cur == Bucket(samples[|samples| - 1], a.step) < next
    requires a.bucket == cur * a.StepMs()
    requires Retained(Store(Emptied(a), Average(a))) == Last(Summaries(samples, first, cur + 1 - first, a.step), ROWS)
    ensures Retained(Close(a, next * a.StepMs())) == Last(Summaries(samples, first, next - first, a.step), ROWS)
  {
    var s := Store(Emptied(a), Average(a));
    CloseParts(a, next * a.StepMs());
    PauseRetains(s, cur, next);
    PauseSummaries(samples, first, cur, next, a.step);
    var done := Summaries(samples, first, cur + 1 - first, a.step);
    var pause := Empties((cur + 1) * a.StepMs(), next - cur - 1, a.StepMs());
    LastTwice(done, pause, ROWS);
    assert Summaries(samples, first, next - first, a.step) == done + pause;
  }

  /** A bucket ends: its summary and the empty buckets after it are appended. */
  lemma CloseFollows(a: Archive, samples: seq<Row>, next: nat)
    requires History(samples) && Follows(a, samples) && next > Bucket(samples[|samples| - 1], a.step)
    ensures var first := Bucket(samples[0], a.step);
      var c := Close(a, next * a.StepMs());
      && c.bucket == next * a.StepMs() && SumsOk(c, [])
      && Retained(c) == Last(Summaries(samples, first, next - first, a.step), ROWS)
  {
    StoreSummary(a, samples);
    CloseParts(a, next * a.StepMs());
    CloseRetains(a, samples, Bucket(samples[0], a.step), Bucket(samples[|samples| - 1], a.step), next);
  }

  lemma BucketStart(ts: nat, step: nat)
    requires step > 0
    ensures BucketOf(ts, step) == Quotient(ts, step) * step
  {
  }

  lemma SameBucket(a: nat, b: nat, step: nat)
    requires step > 0
    ensures a * step == b * step <==> a == b
  {
    if a < b {
      MulLe(a + 1, b, step);
      Distribute(a, 1, step);
    } else if b < a {
      MulLe(b + 1, a, step);
      Distribute(b, 1, step);
    }
  }

  lemma SameRetained(a: Archive, b: Archive)
    requires a.Shape() && b.Shape() && a.rows == b.rows && a.next == b.next && a.count == b.count
    ensures Retained(a) == Retained(b)
  {
  }

  /** One more sample: the consolidated archives follow the longer history. */
  lemma ConsolidateFollows(a: Archive, samples: seq<Row>, r: Row)
    requires Follows(a, samples) && History(samples) && History(samples + [r]) && r.Shape()
    ensures Follows(Consolidate(a, r, false), samples + [r])
  {
    var k, step, all := a.step, a.StepMs(), samples + [r];
    var first, cur, next := Bucket(samples[0], k), Bucket(samples[|samples| - 1], k), Bucket(r, k);
    assert all[|samples| - 1].ts < all[|samples|].ts;
    DivMono(samples[|samples| - 1].ts, r.ts, step);
    BucketStart(r.ts, step);
    SameBucket(cur, next, step);
    SummariesSnoc(samples, r, first, next - first, k);
    var c := if next == cur then a else Close(a, next * step);
    if next > cur {
      CloseFollows(a, samples, next);
      LaterIsEmpty(samples, next, step);
    }
    AccumulateOk(c, samples, r, next);
    SameRetained(c, Accumulate(c, r));
    assert all[0] == samples[0];
  }

  lemma FirstSums(b: Archive, r: Row)
    requires b.Shape() && SampleShape(r) && SumsOk(b, [])
    ensures SumsOk(Accumulate(b, r), Members([r], Bucket(r, b.step), b.StepMs()))
  {
    assert [] + [r] == [r];
    AccumulateOk(b, [], r, Bucket(r, b.step));
  }

  lemma FirstFollows(k: nat, r: Row)
    requires 0 < k <= 60 && SampleShape(r)
    ensures Follows(Consolidate(NewArchive(k), r, true), [r])
  {
    var a := NewArchive(k);
    BucketStart(r.ts, a.StepMs());
    var b := a.(bucket := BucketOf(r.ts, a.StepMs()));
    assert SumsOk(b, []);
    FirstSums(b, r);
    SameRetained(b, Accumulate(b, r));
    assert Retained(b) == [];
    assert Summaries([r], Bucket(r, k), 0, k) == [];
  }

  // ---------- The one-second archive ----------

  /** The rows are the seconds from the first sample to the last one. */
  ghost predicate FollowsSeconds(a: Archive, samples: seq<Row>) {
    && a.Shape() && a.step == 1 && samples != []
    && var first, cur := Bucket(samples[0], 1), Bucket(samples[|samples| - 1], 1);
    first <= cur && Retained(a) == Last(Summaries(samples, first, cur + 1 - first, 1), ROWS)
  }

  lemma OneSample(r: Row, i: nat)
    requires SampleShape(r) && i < METRICS
    ensures (Seen([r], i) == 1) == r.valid[i] && (if Seen([r], i) == 1 then Sum([r], i) else 0) == r.value[i]
  {
    assert [r][..0] == [];
  }

  lemma SummaryOfOne(samples: seq<Row>, no: nat, r: Row)
    requires SampleShape(r) && Members(samples, no, 1000) == [r] && r.ts == no * 1000
    ensures Summary(samples, no, 1) == r
  {
    var s := Summary(samples, no, 1);
    forall i | 0 <= i < METRICS ensures s.value[i] == r.value[i] && s.valid[i] == r.valid[i] { OneSample(r, i); }
    assert s.value == r.value && s.valid == r.valid;
  }

  lemma OnSecond(r: Row)
    requires SampleShape(r)
    ensures r.ts == Bucket(r, 1) * 1000
  {
  }

  /** A one-second point is the sample itself. */
  lemma SecondSummary(samples: seq<Row>, r: Row)
    requires SampleShape(r) && Members(samples, Bucket(r, 1), 1000) == []
    ensures Summary(samples + [r], Bucket(r, 1), 1) == r
  {
    MembersSnoc(samples, r, Bucket(r, 1), 1000);
    OnSecond(r);
    SummaryOfOne(samples + [r], Bucket(r, 1), r);
  }

  function StoreSecond(a: Archive, previous: nat, row: Row, started: bool): (r: Archive)
    requires a.Shape()
    ensures r.Shape() && r.step == a.step
  {
    Store(if started then Gaps(a, previous / 1000 * 1000 + 1000, row.ts) else a, row)
  }

  lemma SecondGap(a: Archive, samples: seq<Row>, r: Row)
    requires FollowsSeconds(a, samples) && History(samples) && History(samples + [r]) && SampleShape(r)
    ensures var first, next := Bucket(samples[0], 1), Bucket(r, 1);
      && Bucket(samples[|samples| - 1], 1) < next
      && Retained(Gaps(a, samples[|samples| - 1].ts + 1000, r.ts)) == Last(Summaries(samples, first, next - first, 1), ROWS)
  {
    var last := samples[|samples| - 1];
    var first, cur, next := Bucket(samples[0], 1), Bucket(last, 1), Bucket(r, 1);
    LaterSecond(samples, r);
    PauseSummaries(samples, first, cur, next, 1);
    PauseBehind(a, Summaries(samples, first, cur + 1 - first, 1), cur, next);
  }

  /** A pause of seconds behind what is retained of the rows before it. */
  lemma PauseBehind(a: Archive, rows: seq<Row>, cur: nat, next: nat)
    requires a.Shape() && a.step == 1 && cur < next && Retained(a) == Last(rows, ROWS)
    ensures Retained(Gaps(a, cur * 1000 + 1000, next * 1000)) == Last(rows + Empties((cur + 1) * 1000, next - cur - 1, 1000), ROWS)
  {
    PauseRetains(a, cur, next);
    LastTwice(rows, Empties((cur + 1) * 1000, next - cur - 1, 1000), ROWS);
  }

  lemma LaterSecond(samples: seq<Row>, r: Row)
    requires samples != [] && History(samples) && History(samples + [r]) && SampleShape(r)
    ensures var last := samples[|samples| - 1];
      last.ts == Bucket(last, 1) * 1000 && r.ts == Bucket(r, 1) * 1000 && Bucket(last, 1) < Bucket(r, 1)
  {
    assert (samples + [r])[|samples| - 1].ts < (samples + [r])[|samples|].ts;
    OnSecond(samples[|samples| - 1]);
    OnSecond(r);
  }

  lemma SecondsSnoc(samples: seq<Row>, r: Row, first: nat)
    requires samples != [] && History(samples) && History(samples + [r]) && SampleShape(r)
    requires first <= Bucket(r, 1) && Bucket(samples[|samples| - 1], 1) < Bucket(r, 1)
    ensures var n := Bucket(r, 1) - first;
      Summaries(samples + [r], first, n + 1, 1) == Summaries(samples, first, n, 1) + [r]
  {
    var next := Bucket(r, 1);
    LaterIsEmpty(samples, next, 1000);
    SecondSummary(samples, r);
    SummariesSnoc(samples, r, first, next - first, 1);
    SummariesSplit(samples + [r], first, next - first, 1, 1);
    assert Summaries(samples + [r], next, 1, 1) == [r];
  }

  /** The stored second behind what is retained of the rows before it. */
  lemma StoreBehind(a: Archive, rows: seq<Row>, r: Row)
    requires a.Shape() && Retained(a) == Last(rows, ROWS)
    ensures Retained(Store(a, r)) == Last(rows + [r], ROWS)
  {
    StoreRetains(a, r);
    LastTwice(rows, [r], ROWS);
  }

  lemma StoreSecondFollows(a: Archive, samples: seq<Row>, previous: nat, r: Row)
    requires FollowsSeconds(a, samples) && History(samples) && History(samples + [r]) && SampleShape(r)
    requires previous / 1000 * 1000 == samples[|samples| - 1].ts
    ensures FollowsSeconds(StoreSecond(a, previous, r, true), samples + [r])
  {
    var first, next := Bucket(samples[0], 1), Bucket(r, 1);
    StoreSecondIs(a, previous, r, samples[|samples| - 1].ts);
    SecondGap(a, samples, r);
    StoreBehind(Gaps(a, samples[|samples| - 1].ts + 1000, r.ts), Summaries(samples, first, next - first, 1), r);
    SecondsSnoc(samples, r, first);
    Ends(samples, r);
  }

  lemma StoreSecondIs(a: Archive, previous: nat, r: Row, ts: nat)
    requires a.Shape() && previous / 1000 * 1000 == ts
    ensures StoreSecond(a, previous, r, true) == Store(Gaps(a, ts + 1000, r.ts), r)
  {
  }

  lemma Ends(samples: seq<Row>, r: Row)
    requires samples != []
    ensures (samples + [r])[0] == samples[0] && (samples + [r])[|samples + [r]| - 1] == r
  {
  }

  lemma FirstSecondFollows(r: Row)
    requires SampleShape(r)
    ensures FollowsSeconds(StoreSecond(NewArchive(1), 0, r, false), [r])
  {
    assert [] + [r] == [r];
    SecondSummary([], r);
    StoreRetains(NewArchive(1), r);
    assert Retained(NewArchive(1)) == [];
    assert Summaries([r], Bucket(r, 1), 1, 1) == [r];
  }
}
