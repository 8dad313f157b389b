/** Every retained point of every archive is a summary of the full sample history. */
module MetricsHistory {
  import opened Bytes
  import opened Metrics

  // ---------- Samples and summaries ----------

  /** Accepted samples: whole seconds, strictly increasing; a series that is not valid holds 0. */
  ghost predicate History(samples: seq<Row>) {
    && (forall j :: 0 <= j < |samples| ==> SampleShape(samples[j]))
    && (forall j, l :: 0 <= j < l < |samples| ==> samples[j].ts < samples[l].ts)
  }

  predicate SampleShape(r: Row) {
    r.Shape() && r.ts % 1000 == 0 && forall i :: 0 <= i < METRICS && !r.valid[i] ==> r.value[i] == 0
  }

  /** The samples of bucket number no, for buckets of `step` milliseconds. */
  function Members(samples: seq<Row>, no: nat, step: nat): (r: seq<Row>)
    requires step > 0
    ensures forall j :: 0 <= j < |r| ==> r[j] in samples
  {
    if samples == [] then []
    else
      var init, last := samples[..|samples| - 1], samples[|samples| - 1];
      Members(init, no, step) + if last.ts / step == no then [last] else []
  }

  predicate Counts(r: Row, i: nat) { i < |r.valid| && i < |r.value| && r.valid[i] }

  function Seen(rows: seq<Row>, i: nat): (n: nat)
    ensures n <= |rows|
  {
    if rows == [] then 0 else Seen(rows[..|rows| - 1], i) + if Counts(rows[|rows| - 1], i) then 1 else 0
  }

  function Sum(rows: seq<Row>, i: nat): nat {
    if rows == [] then 0
    else Sum(rows[..|rows| - 1], i) + if Counts(rows[|rows| - 1], i) then rows[|rows| - 1].value[i] else 0
  }

  function Quotients(rows: seq<Row>, i: nat, k: nat): nat
    requires k > 0
  {
    if rows == [] then 0
    else Quotients(rows[..|rows| - 1], i, k) + if Counts(rows[|rows| - 1], i) then rows[|rows| - 1].value[i] / k else 0
  }

  function Remainders(rows: seq<Row>, i: nat, k: nat): nat
    requires k > 0
  {
    if rows == [] then 0
    else Remainders(rows[..|rows| - 1], i, k) + if Counts(rows[|rows| - 1], i) then rows[|rows| - 1].value[i] % k else 0
  }

  /** The point of bucket no of k seconds: exact integer average where every second was seen. */
  function Summary(samples: seq<Row>, no: nat, k: nat): Row
    requires k > 0
  {
    var m := Members(samples, no, k * 1000);
    Row(no * (k * 1000),
        seq(METRICS, i requires 0 <= i < METRICS => if Seen(m, i) == k then Sum(m, i) / k else 0),
        seq(METRICS, i requires 0 <= i < METRICS => Seen(m, i) == k))
  }

  /** The points of n consecutive buckets. */
  function Summaries(samples: seq<Row>, first: nat, n: nat, k: nat): seq<Row>
    requires k > 0
  {
    seq(n, j requires 0 <= j < n => Summary(samples, first + j, k))
  }

  // ---------- Sums never overflow ----------

  lemma {:induction false} SumParts(rows: seq<Row>, i: nat, k: nat)
    requires k > 0 && forall j :: 0 <= j < |rows| ==> rows[j].Shape()
    ensures Sum(rows, i) == Quotients(rows, i, k) * k + Remainders(rows, i, k)
    ensures Sum(rows, i) <= Seen(rows, i) * (TWO_64 - 1)
    ensures Remainders(rows, i, k) <= Seen(rows, i) * (k - 1)
  {
    if rows != [] {
      var init, last := rows[..|rows| - 1], rows[|rows| - 1];
      SumParts(init, i, k);
      if Counts(last, i) {
        var v := last.value[i];
        AddParts(Sum(init, i), Quotients(init, i, k), Remainders(init, i, k), v, k);
        Distribute(Seen(init, i), 1, k - 1);
        assert Sum(rows, i) == Sum(init, i) + v && Seen(rows, i) == Seen(init, i) + 1;
        assert Quotients(rows, i, k) == Quotients(init, i, k) + v / k;
        assert Remainders(rows, i, k) == Remainders(init, i, k) + v % k;
      }
    }
  }

  lemma AddParts(sum: nat, q: nat, r: nat, v: nat, k: nat)
    requires k > 0 && sum == q * k + r
    ensures sum + v == (q + v / k) * k + (r + v % k) && v % k <= k - 1
  {
    Distribute(q, v / k, k);
    assert v == v / k * k + v % k;
  }

  lemma AverageBounds(rows: seq<Row>, i: nat, k: nat)
    requires 0 < k <= 60 && (forall j :: 0 <= j < |rows| ==> rows[j].Shape()) && Seen(rows, i) <= k
    ensures Sum(rows, i) <= k * (TWO_64 - 1) && Remainders(rows, i, k) < TWO_64
  {
    SumParts(rows, i, k);
    MulLe(Seen(rows, i), k, TWO_64 - 1);
    MulLe(Seen(rows, i), 60, k - 1);
  }

  /** With at most k values, quotients and remainders fit 64 bits and give the exact average. */
  lemma ExactAverage(rows: seq<Row>, i: nat, k: nat)
    requires 0 < k <= 60 && (forall j :: 0 <= j < |rows| ==> rows[j].Shape()) && Seen(rows, i) <= k
    ensures Quotients(rows, i, k) < TWO_64 && Remainders(rows, i, k) < TWO_64
    ensures Quotients(rows, i, k) + Remainders(rows, i, k) / k == Sum(rows, i) / k < TWO_64
  {
    SumParts(rows, i, k);
    AverageBounds(rows, i, k);
    SplitAverage(Quotients(rows, i, k), Remainders(rows, i, k), Sum(rows, i), k);
  }

  lemma SplitAverage(q: nat, r: nat, sum: nat, k: nat)
    requires k > 0 && sum == q * k + r && sum <= k * (TWO_64 - 1)
    ensures q + r / k == sum / k < TWO_64 && q < TWO_64
  {
    assert r == r / k * k + r % k;
    Distribute(q, r / k, k);
    DivUnique(sum, k, q + r / k, r % k);
    QuotientBound(q + r / k, k, TWO_64);
  }

  lemma QuotientBound(q: nat, k: nat, bound: nat)
    requires k > 0 && bound > 0
    ensures q * k <= k * (bound - 1) ==> q < bound
  {
    if q >= bound {
      MulLe(bound, q, k);
      Distribute(bound - 1, 1, k);
    }
  }

  // ---------- At most one sample a second ----------

  /** The seconds of bucket no at which series i was observed. */
  ghost function SecondsOf(rows: seq<Row>, i: nat): set<nat> {
    set j | 0 <= j < |rows| && Counts(rows[j], i) :: rows[j].ts / 1000
  }

  function Interval(lo: nat, n: nat): (r: set<nat>)
    ensures forall s :: s in r <==> lo <= s < lo + n
  {
    if n == 0 then {} else Interval(lo, n - 1) + {lo + n - 1}
  }

  lemma {:induction false} IntervalSize(lo: nat, n: nat)
    ensures |Interval(lo, n)| == n
  {
    if n == 0 {
    } else {
      IntervalSize(lo, n - 1);
    }
  }

  /** All seconds but the last row's are before it. */
  lemma EarlierSecond(rows: seq<Row>, i: nat, s: nat)
    requires History(rows) && rows != [] && s in SecondsOf(rows[..|rows| - 1], i)
    ensures s < rows[|rows| - 1].ts / 1000
  {
    var init, last := rows[..|rows| - 1], rows[|rows| - 1];
    var j :| 0 <= j < |init| && Counts(init[j], i) && init[j].ts / 1000 == s;
    assert rows[j].ts < last.ts && rows[j].ts % 1000 == 0 && last.ts % 1000 == 0;
  }

  lemma SecondsSnoc(rows: seq<Row>, i: nat)
    requires rows != []
    ensures var last := rows[|rows| - 1];
      SecondsOf(rows, i) == SecondsOf(rows[..|rows| - 1], i) + if Counts(last, i) then {last.ts / 1000} else {}
  {
  }

  lemma {:induction false} SeenIsSeconds(rows: seq<Row>, i: nat)
    requires History(rows)
    ensures |SecondsOf(rows, i)| == Seen(rows, i)
  {
    if rows != [] {
      var init, last := rows[..|rows| - 1], rows[|rows| - 1];
      SeenIsSeconds(init, i);
      SecondsSnoc(rows, i);
      if last.ts / 1000 in SecondsOf(init, i) { EarlierSecond(rows, i, last.ts / 1000); }
    }
  }

  lemma {:induction false} MembersAre(samples: seq<Row>, no: nat, step: nat)
    requires History(samples) && step > 0
    ensures History(Members(samples, no, step))
    ensures forall r :: r in Members(samples, no, step) <==> r in samples && r.ts / step == no
  {
    if samples != [] {
      var init, last := samples[..|samples| - 1], samples[|samples| - 1];
      MembersAre(init, no, step);
      var m := Members(init, no, step);
      forall j | 0 <= j < |m| ensures m[j].ts < last.ts {
        assert m[j] in init;
      }
      assert samples == init + [last];
    }
  }

  lemma BucketSeconds(ts: nat, no: nat, k: nat)
    requires k > 0
    ensures ts / (k * 1000) == no <==> no * k <= ts / 1000 < no * k + k
  {
    var step := k * 1000;
    var p := ts / step;
    assert ts == p * step + ts % step;
    assert p * step == p * k * 1000 && no * step == no * k * 1000;
    if p < no {
      MulLe(p + 1, no, k);
      Distribute(p, 1, k);
    } else if p > no {
      MulLe(no + 1, p, k);
      Distribute(no, 1, k);
    }
  }

  lemma SecondInBucket(samples: seq<Row>, no: nat, k: nat, i: nat, s: nat)
    requires History(samples) && k > 0 && s in SecondsOf(Members(samples, no, k * 1000), i)
    ensures s in Interval(no * k, k)
  {
    var m := Members(samples, no, k * 1000);
    MembersAre(samples, no, k * 1000);
    var j :| 0 <= j < |m| && Counts(m[j], i) && m[j].ts / 1000 == s;
    assert m[j] in m;
    BucketSeconds(m[j].ts, no, k);
  }

  /** A bucket's samples lie in its seconds, so there are at most k of each series. */
  lemma SecondsInBucket(samples: seq<Row>, no: nat, k: nat, i: nat)
    requires History(samples) && k > 0
    ensures var m := Members(samples, no, k * 1000);
      && SecondsOf(m, i) <= Interval(no * k, k) && Seen(m, i) == |SecondsOf(m, i)| <= k
  {
    var m := Members(samples, no, k * 1000);
    MembersAre(samples, no, k * 1000);
    SeenIsSeconds(m, i);
    forall s | s in SecondsOf(m, i) ensures s in Interval(no * k, k) {
      SecondInBucket(samples, no, k, i, s);
    }
    IntervalSize(no * k, k);
    SubsetSize(SecondsOf(m, i), Interval(no * k, k));
  }

  lemma {:induction false} SubsetSize(a: set<nat>, b: set<nat>)
    requires a <= b
    ensures |a| <= |b| && (|a| == |b| ==> a == b)
  {
    if a != {} {
      var x :| x in a;
      SubsetSize(a - {x}, b - {x});
    }
  }

  ghost predicate SeenAt(samples: seq<Row>, i: nat, second: nat) {
    exists j :: 0 <= j < |samples| && samples[j].ts == second * 1000 && Counts(samples[j], i)
  }

  lemma MemberIsSample(samples: seq<Row>, m: seq<Row>, i: nat, s: nat)
    requires History(m) && (forall r :: r in m ==> r in samples) && s in SecondsOf(m, i)
    ensures SeenAt(samples, i, s)
  {
    var j :| 0 <= j < |m| && Counts(m[j], i) && m[j].ts / 1000 == s;
    assert SampleShape(m[j]) && m[j] in m;
    var l :| 0 <= l < |samples| && samples[l] == m[j];
    assert samples[l].ts == s * 1000;
  }

  lemma SampleIsMember(m: seq<Row>, r: Row, i: nat)
    requires r in m && Counts(r, i)
    ensures r.ts / 1000 in SecondsOf(m, i)
  {
    var l :| 0 <= l < |m| && m[l] == r;
  }

  lemma SeenAtIsSecond(samples: seq<Row>, no: nat, k: nat, i: nat, s: nat)
    requires History(samples) && k > 0 && no * k <= s < no * k + k && SeenAt(samples, i, s)
    ensures s in SecondsOf(Members(samples, no, k * 1000), i)
  {
    var j :| 0 <= j < |samples| && samples[j].ts == s * 1000 && Counts(samples[j], i);
    InBucket(samples, no, k, j);
    SampleIsMember(Members(samples, no, k * 1000), samples[j], i);
  }

  lemma InBucket(samples: seq<Row>, no: nat, k: nat, j: nat)
    requires History(samples) && k > 0 && j < |samples| && no * k <= samples[j].ts / 1000 < no * k + k
    ensures samples[j] in Members(samples, no, k * 1000)
  {
    BucketSeconds(samples[j].ts, no, k);
    MembersAre(samples, no, k * 1000);
  }

  lemma SecondIsSeenAt(samples: seq<Row>, no: nat, k: nat, i: nat, s: nat)
    requires History(samples) && k > 0 && s in SecondsOf(Members(samples, no, k * 1000), i)
    ensures SeenAt(samples, i, s)
  {
    MembersAre(samples, no, k * 1000);
    MemberIsSample(samples, Members(samples, no, k * 1000), i, s);
  }

  /** The count reaches k exactly when every second of the bucket has a sample with the series. */
  lemma EverySecond(samples: seq<Row>, no: nat, k: nat, i: nat)
    requires History(samples) && k > 0
    ensures Seen(Members(samples, no, k * 1000), i) == k
        <==> forall s: nat :: no * k <= s < no * k + k ==> SeenAt(samples, i, s)
  {
    var lo := no * k;
    SecondsInBucket(samples, no, k, i);
    SecondsIff(samples, no, k, i, lo);
    FullWhenAllSeen(samples, i, lo, k, SecondsOf(Members(samples, no, k * 1000), i));
  }

  lemma SecondsIff(samples: seq<Row>, no: nat, k: nat, i: nat, lo: nat)
    requires History(samples) && k > 0 && lo == no * k
    ensures var seconds := SecondsOf(Members(samples, no, k * 1000), i);
      forall s: nat :: lo <= s < lo + k ==> (s in seconds <==> SeenAt(samples, i, s))
  {
    forall s: nat | lo <= s < lo + k
      ensures s in SecondsOf(Members(samples, no, k * 1000), i) <==> SeenAt(samples, i, s)
    {
      SecondIff(samples, no, k, i, s);
    }
  }

  lemma SecondIff(samples: seq<Row>, no: nat, k: nat, i: nat, s: nat)
    requires History(samples) && k > 0 && no * k <= s < no * k + k
    ensures s in SecondsOf(Members(samples, no, k * 1000), i) <==> SeenAt(samples, i, s)
  {
    if s in SecondsOf(Members(samples, no, k * 1000), i) {
      SecondIsSeenAt(samples, no, k, i, s);
    } else if SeenAt(samples, i, s) {
      SeenAtIsSecond(samples, no, k, i, s);
    }
  }

  lemma FullWhenAllSeen(samples: seq<Row>, i: nat, lo: nat, k: nat, seconds: set<nat>)
    requires seconds <= Interval(lo, k)
    requires forall s: nat :: lo <= s < lo + k ==> (s in seconds <==> SeenAt(samples, i, s))
    ensures |seconds| == k <==> forall s: nat :: lo <= s < lo + k ==> SeenAt(samples, i, s)
  {
    var all := Interval(lo, k);
    IntervalSize(lo, k);
    SubsetSize(seconds, all);
    if forall s: nat :: lo <= s < lo + k ==> SeenAt(samples, i, s) {
      assert seconds == all;
    }
  }
}
