/** The collector: snapshots in, three archives out (c/libcr2/metrics.c). */
module MetricsCollector {
  import opened Bytes
  import opened Metrics
  import opened MetricsHistory
  import opened MetricsRuns

  const MAX64 := TWO_64 - 1

  datatype Input = Input(ts: nat, netTs: nat, rx: nat, tx: nat, heapUsed: nat, heapSize: nat,
                         tasks: nat, userTasks: nat, runnable: nat, blocked: nat,
                         net: bool, memory: bool, taskInfo: bool)
  {
    predicate Fits() {
      && ts < TWO_64 && netTs < TWO_64 && rx < TWO_64 && tx < TWO_64 && heapUsed < TWO_64 && heapSize < TWO_64
      && tasks < TWO_64 && userTasks < TWO_64 && runnable < TWO_64 && blocked < TWO_64
    }
  }

  /** The counters and flags that outlive a snapshot. */
  datatype Baseline = Baseline(lastMs: nat, netMs: nat, rx: nat, tx: nat, started: bool, haveNet: bool)

  datatype Db = Db(second: Archive, ten: Archive, minute: Archive, base: Baseline) {
    predicate Shape() {
      && second.Shape() && ten.Shape() && minute.Shape()
      && second.step == 1 && ten.step == 10 && minute.step == 60
    }
  }

  const FRESH := Baseline(0, 0, 0, 0, false, false)

  function NewDb(): (r: Db)
    ensures r.Shape()
  {
    Db(NewArchive(1), NewArchive(10), NewArchive(60), FRESH)
  }

  predicate Due(b: Baseline, now: nat) { !b.started || now < b.lastMs || now / 1000 > b.lastMs / 1000 }

  /** Units per second of less than one unit a millisecond. */
  function PerSecond(rest: nat, elapsed: nat): nat
    requires elapsed > 0
  {
    rest * 1000 / elapsed
  }

  /** Units per second, saturating. */
  function Rate(delta: nat, elapsed: nat): nat
    requires elapsed > 0
  {
    var whole, fraction := delta / elapsed, PerSecond(delta % elapsed, elapsed);
    if whole > MAX64 / 1000 || whole * 1000 > MAX64 - fraction then MAX64 else whole * 1000 + fraction
  }

  /** The split computation is the exact rate, cut off at the largest 64-bit number. */
  lemma RateIsExact(delta: nat, elapsed: nat)
    requires 0 < elapsed
    ensures Rate(delta, elapsed) == if delta * 1000 / elapsed > MAX64 then MAX64 else delta * 1000 / elapsed
    ensures elapsed <= HEARTBEAT_MS ==> (delta % elapsed) * 1000 < TWO_64
  {
    var whole, rest := delta / elapsed, delta % elapsed;
    var fraction := rest * 1000 / elapsed;
    assert delta == whole * elapsed + rest;
    assert rest * 1000 == fraction * elapsed + rest * 1000 % elapsed;
    Distribute(whole * 1000, fraction, elapsed);
    assert whole * 1000 * elapsed == whole * elapsed * 1000;
    DivUnique(delta * 1000, elapsed, whole * 1000 + fraction, rest * 1000 % elapsed);
  }

  /** Whether the network counters of this snapshot continue those of the last. */
  predicate NetContinues(b: Baseline, i: Input) {
    i.net && b.haveNet && i.netTs > b.netMs && i.netTs - b.netMs <= HEARTBEAT_MS
  }

  function RowOf(b: Baseline, i: Input): (r: Row)
    ensures |r.value| == |r.valid| == METRICS
  {
    var rx, tx := NetContinues(b, i) && i.rx >= b.rx, NetContinues(b, i) && i.tx >= b.tx;
    Row(i.ts / 1000 * 1000,
        [if rx then Rate(i.rx - b.rx, i.netTs - b.netMs) else 0, if tx then Rate(i.tx - b.tx, i.netTs - b.netMs) else 0,
         if i.memory then i.heapUsed else 0, if i.memory then i.heapSize else 0,
         if i.taskInfo then i.tasks else 0, if i.taskInfo then i.userTasks else 0,
         if i.taskInfo then i.runnable else 0, if i.taskInfo then i.blocked else 0],
        [rx, tx, i.memory, i.memory, i.taskInfo, i.taskInfo, i.taskInfo, i.taskInfo])
  }

  lemma RowIsSample(b: Baseline, i: Input)
    requires i.Fits()
    ensures SampleShape(RowOf(b, i))
  {
    if NetContinues(b, i) {
      if i.rx >= b.rx {
        RateIsExact(i.rx - b.rx, i.netTs - b.netMs);
      }
      if i.tx >= b.tx {
        RateIsExact(i.tx - b.tx, i.netTs - b.netMs);
      }
    }
  }

  /** Clock rollback starts a fresh history. */
  function Rewound(db: Db, i: Input): (r: Db)
    requires db.Shape()
    ensures r.Shape()
  {
    if db.base.started && i.ts < db.base.lastMs then NewDb() else db
  }

  function Push(db: Db, i: Input): (r: (Db, bool))
    requires db.Shape() && i.Fits()
    ensures r.0.Shape()
  {
    if !Due(db.base, i.ts) then (db, false)
    else
      var d := Rewound(db, i);
      var row := RowOf(d.base, i);
      RowIsSample(d.base, i);
      (Db(StoreSecond(d.second, d.base.lastMs, row, d.base.started),
          Consolidate(d.ten, row, !d.base.started),
          Consolidate(d.minute, row, !d.base.started),
          Baseline(i.ts, i.netTs, i.rx, i.tx, true, i.net)), true)
  }

  /** Point `index` of an archive, oldest first. */
  function ReadRow(a: Archive, index: nat): (r: Option<Row>)
    requires a.Shape()
    ensures r == if index < |Retained(a)| then Some(Retained(a)[index]) else None
  {
    if index >= a.count then None else Some(a.rows[(a.next + ROWS - a.count + index) % ROWS])
  }

  // ---------- Runs ----------

  function Run(db: Db, inputs: seq<Input>): (r: Db)
    requires db.Shape() && forall j :: 0 <= j < |inputs| ==> inputs[j].Fits()
    ensures r.Shape()
    decreases |inputs|
  {
    if inputs == [] then db else Run(Push(db, inputs[0]).0, inputs[1..])
  }

  /** The accepted samples after one more snapshot; a clock rollback forgets the earlier ones. */
  function NextSamples(db: Db, samples: seq<Row>, i: Input): seq<Row>
    requires db.Shape()
  {
    var d := Rewound(db, i);
    if !Due(db.base, i.ts) then samples
    else (if d.base.started then samples else []) + [RowOf(d.base, i)]
  }

  /** The samples accepted since the last clock rollback. */
  function Samples(db: Db, samples: seq<Row>, inputs: seq<Input>): seq<Row>
    requires db.Shape() && forall j :: 0 <= j < |inputs| ==> inputs[j].Fits()
    decreases |inputs|
  {
    if inputs == [] then samples
    else Samples(Push(db, inputs[0]).0, NextSamples(db, samples, inputs[0]), inputs[1..])
  }

  ghost predicate DbInv(db: Db, samples: seq<Row>) {
    && db.Shape() && History(samples)
    && (if db.base.started then
          && samples != [] && samples[|samples| - 1].ts == db.base.lastMs / 1000 * 1000
          && FollowsSeconds(db.second, samples) && Follows(db.ten, samples) && Follows(db.minute, samples)
        else db == NewDb() && samples == [])
  }

  lemma FirstPush(db: Db, i: Input)
    requires db == NewDb() && i.Fits()
    ensures DbInv(Push(db, i).0, [RowOf(db.base, i)])
  {
    var row := RowOf(db.base, i);
    RowIsSample(db.base, i);
    FirstSecondFollows(row);
    FirstFollows(10, row);
    FirstFollows(60, row);
  }

  lemma HistorySnoc(samples: seq<Row>, r: Row)
    requires History(samples) && SampleShape(r) && (samples != [] ==> samples[|samples| - 1].ts < r.ts)
    ensures History(samples + [r])
  {
  }

  lemma NextPush(db: Db, samples: seq<Row>, i: Input)
    requires DbInv(db, samples) && i.Fits() && db.base.started && Due(db.base, i.ts) && i.ts >= db.base.lastMs
    ensures DbInv(Push(db, i).0, samples + [RowOf(db.base, i)])
  {
    var row := RowOf(db.base, i);
    RowIsSample(db.base, i);
    HistorySnoc(samples, row);
    StoreSecondFollows(db.second, samples, db.base.lastMs, row);
    ConsolidateFollows(db.ten, samples, row);
    ConsolidateFollows(db.minute, samples, row);
  }

  lemma PushFollows(db: Db, samples: seq<Row>, i: Input)
    requires DbInv(db, samples) && i.Fits()
    ensures DbInv(Push(db, i).0, NextSamples(db, samples, i))
  {
    if Due(db.base, i.ts) {
      var d := Rewound(db, i);
      if d.base.started {
        NextPush(db, samples, i);
      } else {
        FirstPush(d, i);
        assert [] + [RowOf(d.base, i)] == [RowOf(d.base, i)];
        assert Push(db, i).0 == Push(d, i).0;
      }
    }
  }

  lemma {:induction false} RunFollows(db: Db, samples: seq<Row>, inputs: seq<Input>)
    requires DbInv(db, samples) && forall j :: 0 <= j < |inputs| ==> inputs[j].Fits()
    ensures DbInv(Run(db, inputs), Samples(db, samples, inputs))
    decreases |inputs|
  {
    if inputs != [] {
      PushFollows(db, samples, inputs[0]);
      RunFollows(Push(db, inputs[0]).0, NextSamples(db, samples, inputs[0]), inputs[1..]);
    }
  }

  // ---------- What a reader sees ----------

  /** Row j of n consecutive summaries cut to the last 300, counted from the newest end. */
  lemma RetainedRow(samples: seq<Row>, first: nat, n: nat, k: nat, j: nat)
    requires k > 0 && j < |Last(Summaries(samples, first, n, k), ROWS)|
    ensures var rows := Last(Summaries(samples, first, n, k), ROWS);
      |rows| <= ROWS && |rows| <= n && rows[j] == Summary(samples, first + n - |rows| + j, k)
  {
  }

  /** A point of bucket no means: valid iff every second was observed, and then the exact floor average. */
  ghost predicate Refines(r: Row, samples: seq<Row>, no: nat, k: nat)
    requires k > 0
  {
    && r.ts == no * (k * 1000) && |r.value| == |r.valid| == METRICS
    && forall i :: 0 <= i < METRICS ==>
      && (r.valid[i] <==> forall s: nat :: no * k <= s < no * k + k ==> SeenAt(samples, i, s))
      && (r.valid[i] ==> r.value[i] == Sum(Members(samples, no, k * 1000), i) / k)
  }

  lemma SummaryRefines(samples: seq<Row>, no: nat, k: nat)
    requires History(samples) && k > 0
    ensures Refines(Summary(samples, no, k), samples, no, k)
  {
    forall i | 0 <= i < METRICS
      ensures Summary(samples, no, k).valid[i] <==> forall s: nat :: no * k <= s < no * k + k ==> SeenAt(samples, i, s)
    {
      EverySecond(samples, no, k, i);
    }
  }

  /** The archive's points, oldest first, are one step apart, the newest that of bucket end - 1; all since
      bucket first are there, up to 300 of them, and each refines the history. */
  ghost predicate True(a: Archive, samples: seq<Row>, first: nat, end: nat) {
    && a.Shape() && first <= end && a.count == Min(ROWS, end - first)
    && forall index: nat :: index < a.count ==>
         end - a.count + index >= 0 && Refines(ReadRow(a, index).value, samples, end - a.count + index, a.step)
  }

  lemma RowRefines(a: Archive, samples: seq<Row>, first: nat, end: nat, index: nat)
    requires a.Shape() && History(samples) && first <= end && index < a.count
    requires Retained(a) == Last(Summaries(samples, first, end - first, a.step), ROWS)
    ensures end - a.count + index >= 0
    ensures Refines(ReadRow(a, index).value, samples, end - a.count + index, a.step)
  {
    RetainedRow(samples, first, end - first, a.step, index);
    SummaryRefines(samples, end - a.count + index, a.step);
  }

  lemma AllRowsRefine(a: Archive, samples: seq<Row>, first: nat, end: nat)
    requires a.Shape() && History(samples) && first <= end
    requires Retained(a) == Last(Summaries(samples, first, end - first, a.step), ROWS)
    ensures True(a, samples, first, end)
  {
    assert a.count == |Retained(a)|;
    forall index: nat | index < a.count
      ensures end - a.count + index >= 0 && Refines(ReadRow(a, index).value, samples, end - a.count + index, a.step)
    {
      RowRefines(a, samples, first, end, index);
    }
  }

  ghost predicate AllTrue(db: Db, samples: seq<Row>) {
    if samples == [] then db == NewDb()
    else
      var first, last := samples[0], samples[|samples| - 1];
      && True(db.second, samples, Bucket(first, 1), Bucket(last, 1) + 1)
      && True(db.ten, samples, Bucket(first, 10), Bucket(last, 10))
      && True(db.minute, samples, Bucket(first, 60), Bucket(last, 60))
  }

  lemma InvIsTrue(db: Db, samples: seq<Row>)
    requires DbInv(db, samples)
    ensures AllTrue(db, samples)
  {
    if samples != [] {
      var first, last := samples[0], samples[|samples| - 1];
      AllRowsRefine(db.second, samples, Bucket(first, 1), Bucket(last, 1) + 1);
      AllRowsRefine(db.ten, samples, Bucket(first, 10), Bucket(last, 10));
      AllRowsRefine(db.minute, samples, Bucket(first, 60), Bucket(last, 60));
    }
  }

  /** After any snapshots whatever, with pauses and rollbacks: each archive's points, oldest first, are
      one step apart, end at the last finished bucket (the last sample, for the one-second archive),
      number at most 300, and each refines the history of samples since the last rollback. */
  lemma ArchivesAreTrue(inputs: seq<Input>)
    requires forall j :: 0 <= j < |inputs| ==> inputs[j].Fits()
    ensures AllTrue(Run(NewDb(), inputs), Samples(NewDb(), [], inputs))
  {
    RunFollows(NewDb(), [], inputs);
    InvIsTrue(Run(NewDb(), inputs), Samples(NewDb(), [], inputs));
  }
}
