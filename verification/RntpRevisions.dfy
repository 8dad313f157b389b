/** When a revision number comes back (c/rntp/sessions.c): exactly when, over every run, and a run in
    which it does although the committed image has changed. */
module RntpRevisions {
  import opened Bytes
  import opened RntpProtocol
  import opened RntpSessions
  import opened RntpTheorems

  const LAST := TWO_64 - 1

  // ---------- Accounting for every run ----------

  /** The events of the run that publish at the last revision, by direct writes or by commits. */
  ghost function Rollovers(s: State, es: seq<Event>, direct: bool): nat
    requires s.Shape()
    decreases |es|
  {
    if es == [] then 0
    else
      One(RollsOver(s, es[0], direct)) + Rollovers(Step(s, es[0]).0, es[1..], direct)
  }

  ghost predicate RollsOver(s: State, e: Event, direct: bool)
    requires s.Shape()
  {
    s.revision == LAST && Publishes(s, e) && (WritesThrough(s, e) <==> direct)
  }

  function One(b: bool): nat { if b then 1 else 0 }

  lemma FirstStep(s: State, es: seq<Event>)
    requires s.Shape() && es != []
    ensures var t := Step(s, es[0]).0;
      && Run(s, es) == Run(t, es[1..])
      && Publications(s, es) == One(Publishes(s, es[0])) + Publications(t, es[1..])
  {
  }

  lemma FirstRollover(s: State, es: seq<Event>, direct: bool)
    requires s.Shape() && es != []
    ensures Rollovers(s, es, direct)
            == One(RollsOver(s, es[0], direct)) + Rollovers(Step(s, es[0]).0, es[1..], direct)
  {
  }

  /** One step and the rest of a run, added up. */
  lemma AddUp(start: int, first: int, last: int, p: int, q: int, a: int, b: int, c: int, d: int)
    requires first == start + p - TWO_64 * a - LAST * b && last == first + q - TWO_64 * c - LAST * d
    ensures last == start + (p + q) - TWO_64 * (a + c) - LAST * (b + d)
  {
  }

  lemma StepAccount(s: State, e: Event)
    requires Inv(s) && s.revision < TWO_64
    ensures Inv(Step(s, e).0) && Step(s, e).0.revision < TWO_64
    ensures Step(s, e).0.revision == s.revision + One(Publishes(s, e)) - TWO_64 * One(RollsOver(s, e, true)) - LAST * One(RollsOver(s, e, false))
  {
    StepEffect(s, e);
  }

  /** A rollover takes the revision back by 2^64 in exclusive mode and by 2^64 - 1 in shared mode, which
      leaves out 0; nothing else takes it back. */
  lemma {:induction false} RevisionAccount(s: State, es: seq<Event>)
    requires Inv(s) && s.revision < TWO_64
    ensures Run(s, es).revision < TWO_64
    ensures Run(s, es).revision
            == s.revision + Publications(s, es) - TWO_64 * Rollovers(s, es, true) - LAST * Rollovers(s, es, false)
    decreases |es|
  {
    if es != [] {
      var e, t, rest := es[0], Step(s, es[0]).0, es[1..];
      StepAccount(s, e);
      RevisionAccount(t, rest);
      FirstStep(s, es);
      FirstRollover(s, es, true);
      FirstRollover(s, es, false);
      AddUp(s.revision, t.revision, Run(t, rest).revision, One(Publishes(s, e)), Publications(t, rest),
            One(RollsOver(s, e, true)), One(RollsOver(s, e, false)),
            Rollovers(t, rest, true), Rollovers(t, rest, false));
    }
  }

  /** Two states of a run have the same revision exactly when what was published between them is made up
      of whole rounds: 2^64 for each that a direct write ended, 2^64 - 1 for each that a commit ended. */
  lemma RevisionReturnsIff(s: State, es: seq<Event>, fs: seq<Event>)
    requires Inv(s) && s.revision < TWO_64
    ensures var t := Run(s, es);
      Run(s, es).revision == Run(s, es + fs).revision
      <==> Publications(t, fs) == TWO_64 * Rollovers(t, fs, true) + LAST * Rollovers(t, fs, false)
  {
    RunInv(s, es);
    RevisionAccount(s, es);
    RunSplit(s, es, fs);
    RevisionAccount(Run(s, es), fs);
  }

  lemma {:induction false} SharedSplit(s: State, es: seq<Event>, fs: seq<Event>)
    requires s.Shape()
    ensures SharedOnly(s, es + fs) <==> SharedOnly(s, es) && SharedOnly(Run(s, es), fs)
    decreases |es|
  {
    if es == [] {
      assert es + fs == fs;
    } else {
      assert (es + fs)[0] == es[0] && (es + fs)[1..] == es[1..] + fs;
      SharedSplit(Step(s, es[0]).0, es[1..], fs);
    }
  }

  lemma CycleReturns(revision: nat, n: nat)
    requires 1 <= revision < TWO_64
    ensures 1 <= Cycle(revision, n) < TWO_64
    ensures Cycle(revision, n) == revision <==> n % LAST == 0
  {
    var k := revision - 1;
    assert k + n == k + n % LAST + n / LAST * LAST;
    WholeRounds(k + n % LAST, n / LAST);
    SmallRound(k + n % LAST);
  }

  lemma WholeRounds(a: nat, rounds: nat)
    ensures (a + rounds * LAST) % LAST == a % LAST
  {
  }

  lemma SmallRound(a: nat)
    requires a < 2 * LAST
    ensures a % LAST == if a < LAST then a else a - LAST
  {
  }

  /** In shared mode the revision returns after every 2^64 - 1 commits and at no other time. */
  lemma SharedRevisionReturnsIff(s: State, es: seq<Event>, fs: seq<Event>)
    requires Inv(s) && 1 <= s.revision < TWO_64 && SharedOnly(s, es + fs)
    ensures Run(s, es).revision == Run(s, es + fs).revision <==> Publications(Run(s, es), fs) % LAST == 0
  {
    SharedSplit(s, es, fs);
    RunSplit(s, es, fs);
    RunInv(s, es);
    RevisionCycle(s, es);
    CycleReturns(s.revision, Publications(s, es));
    var t := Run(s, es);
    RevisionCycle(t, fs);
    CycleReturns(t.revision, Publications(t, fs));
  }

  // ---------- A run that comes back to its revision with another image ----------

  /** A request of peer 0 with a payload that fills the rest of the frame. */
  function Message(op: nat, lba: nat, generation: nat, payload: seq<byte>): (f: Frame)
    requires op < 256 && |payload| <= BATCH_BYTES && lba < TWO_64 && generation < TWO_64
    ensures Decode(f) == Some(Header(op, 0, |payload|, 1, lba, generation)) && f[HEADER..] == payload
  {
    var h := Header(op, 0, |payload|, 1, lba, generation);
    DecodeEncode(h, payload);
    Encode(h) + payload
  }

  function Attach(): Event { Request(0, Message(HELLO_SHARED, 0, 0, [])) }

  function Lock(generation: nat): Event
    requires generation < TWO_64
  {
    Request(0, Message(LOCK, 0, generation, []))
  }

  function WriteFirst(generation: nat, data: Sector): Event
    requires generation < TWO_64
  {
    Request(0, Message(WRITE, 1, generation, data))
  }

  function Unlock(generation: nat): Event
    requires generation < TWO_64
  {
    Request(0, Message(UNLOCK, 0, generation, []))
  }

  /** Peer 0 is attached in shared mode and nothing is under way. */
  ghost predicate Idle(s: State) {
    Inv(s) && s.peers[0] == 2 && s.locked == -1 && !s.modified && s.generation < TWO_64 && |s.image| > 1
  }

  lemma AttachStep(s: State)
    requires Inv(s) && s.peers[0] == 0 && s.legacy == -1 && s.locked == -1 && !s.modified
    requires s.generation < TWO_64 && |s.image| > 1
    ensures var t := Step(s, Attach()).0;
      Idle(t) && t == s.(peers := t.peers) && !Publishes(s, Attach())
  {
    StepEffect(s, Attach());
  }

  lemma LockStep(s: State)
    requires Idle(s)
    ensures Step(s, Lock(s.generation)).0 == s.(locked := 0) && !Publishes(s, Lock(s.generation))
    ensures Inv(s.(locked := 0))
  {
    var h := Header(LOCK, 0, 0, 1, 0, s.generation);
    assert LockOp(s, 0, h).0 == s.(locked := 0);
  }

  lemma WriteStep(s: State, data: Sector)
    requires Inv(s) && s.peers[0] == 2 && s.locked == 0 && s.generation < TWO_64 && |s.image| > 1
    ensures var t := Step(s, WriteFirst(s.generation, data)).0;
      && Inv(t) && t == s.(image := t.image, undo := t.undo, dirty := t.dirty, modified := true)
      && t.image == s.image[1 := data] && !Publishes(s, WriteFirst(s.generation, data))
  {
    var f := Message(WRITE, 1, s.generation, data);
    var h := Decode(f).value;
    SharedWriteStep(s, h, f, data);
    SharedWriteKeeps(s, h, f);
    ServedWrite(s, h, f);
  }

  lemma ServedWrite(s: State, h: Header, f: Frame)
    requires s.Shape() && s.peers[0] == 2 && s.locked == 0
    requires Decode(f) == Some(h) && h == Header(WRITE, 0, SECTOR, 1, 1, s.generation)
    ensures Step(s, Request(0, f)).0 == SharedWrite(s, h, f).0
  {
    assert Dispatch(s, 0, h, f) == SharedWrite(s, h, f);
    assert Attend(s, 0, h, f) == Dispatch(s, 0, h, f);
  }

  lemma SharedWriteStep(s: State, h: Header, f: Frame, data: Sector)
    requires Inv(s) && |s.image| > 1 && s.generation < TWO_64
    requires Decode(f) == Some(h) && h == Header(WRITE, 0, SECTOR, 1, 1, s.generation) && f[HEADER..] == data
    ensures var t := SharedWrite(s, h, f).0; t.image == s.image[1 := data] && t.modified
  {
    assert Targets(h, f) == [1];
    assert f[HEADER..HEADER + SECTOR] == data;
    RememberAllKeeps(s, [1]);
    PerformWrite(s.image, s.generation, h, f);
  }

  lemma UnlockStep(s: State)
    requires Inv(s) && s.peers[0] == 2 && s.locked == 0 && s.modified && s.generation < TWO_64 && |s.image| > 1
    ensures var t := Step(s, Unlock(s.generation)).0;
      Idle(t) && t.image == s.image && t.generation == s.generation && Unlocks(s, Unlock(s.generation))
  {
    FinishEffect(s, true);
    var h := Header(UNLOCK, 0, 0, 1, 0, s.generation);
    assert LockOp(s, 0, h).0 == Finish(s, true);
  }

  /** One transaction that writes sector 1. */
  function Commit(generation: nat, data: Sector): seq<Event>
    requires generation < TWO_64
  {
    [Lock(generation), WriteFirst(generation, data), Unlock(generation)]
  }

  /** What n transactions come to. */
  ghost predicate Came(s: State, es: seq<Event>, image: Image, n: nat)
    requires s.Shape()
  {
    var t := Run(s, es);
    Idle(t) && t.generation == s.generation && t.image == image && Publications(s, es) == n && SharedOnly(s, es)
  }

  lemma RunStep(s: State, e: Event, es: seq<Event>)
    requires s.Shape()
    ensures Run(s, [e] + es) == Run(Step(s, e).0, es)
    ensures Publications(s, [e] + es) == (if Publishes(s, e) then 1 else 0) + Publications(Step(s, e).0, es)
    ensures SharedOnly(s, [e] + es) <==> !WritesThrough(s, e) && SharedOnly(Step(s, e).0, es)
  {
    assert ([e] + es)[1..] == es;
  }

  lemma OneCommit(s: State, data: Sector)
    requires Idle(s)
    ensures Came(s, Commit(s.generation, data), s.image[1 := data], 1)
  {
    var g := s.generation;
    LockStep(s);
    WriteAndUnlock(s.(locked := 0), data);
    QuietStep(s, Lock(g), [WriteFirst(g, data), Unlock(g)]);
    assert [Lock(g)] + [WriteFirst(g, data), Unlock(g)] == Commit(g, data);
  }

  lemma WriteAndUnlock(s: State, data: Sector)
    requires Inv(s) && s.peers[0] == 2 && s.locked == 0 && s.generation < TWO_64 && |s.image| > 1
    ensures Came(s, [WriteFirst(s.generation, data), Unlock(s.generation)], s.image[1 := data], 1)
  {
    var g := s.generation;
    WriteStep(s, data);
    var t := Step(s, WriteFirst(g, data)).0;
    UnlockStep(t);
    LastStep(t, Unlock(g));
    QuietStep(s, WriteFirst(g, data), [Unlock(g)]);
    assert [WriteFirst(g, data)] + [Unlock(g)] == [WriteFirst(g, data), Unlock(g)];
  }

  /** What a quiet step ahead of a run adds to it: nothing. */
  lemma QuietStep(s: State, e: Event, es: seq<Event>)
    requires s.Shape() && !Publishes(s, e)
    ensures var t := Step(s, e).0;
      && Run(s, [e] + es) == Run(t, es) && Publications(s, [e] + es) == Publications(t, es)
      && (SharedOnly(t, es) ==> SharedOnly(s, [e] + es))
  {
    RunStep(s, e, es);
  }

  lemma LastStep(s: State, e: Event)
    requires s.Shape() && Unlocks(s, e)
    ensures Run(s, [e]) == Step(s, e).0 && Publications(s, [e]) == 1 && SharedOnly(s, [e])
  {
    RunStep(s, e, []);
    assert [e] + [] == [e];
  }

  lemma CommitAfter(s: State, es: seq<Event>, image: Image, n: nat, data: Sector)
    requires Inv(s) && s.generation < TWO_64 && Came(s, es, image, n) && |image| > 1
    ensures Came(s, es + Commit(s.generation, data), image[1 := data], n + 1)
  {
    OneCommit(Run(s, es), data);
    RunSplit(s, es, Commit(s.generation, data));
    SharedSplit(s, es, Commit(s.generation, data));
  }

  lemma OneMore(s: State, es: seq<Event>, data: Sector, n: nat)
    requires Idle(s) && Came(s, es, After(s.image, data, n), n)
    ensures Came(s, es + Commit(s.generation, data), After(s.image, data, n + 1), n + 1)
  {
    AfterOneMore(s.image, data, n);
    CommitAfter(s, es, After(s.image, data, n), n, data);
  }

  lemma NoCommits(s: State)
    requires Idle(s)
    ensures Came(s, [], s.image, 0)
  {
  }

  lemma {:induction false} ManyCommits(s: State, data: Sector, n: nat) returns (es: seq<Event>)
    requires Idle(s)
    ensures Came(s, es, After(s.image, data, n), n)
    decreases n, |data|
  {
    if n > 0 {
      var fs := ManyCommits(s, data, n - 1);
      OneMore(s, fs, data, n - 1);
      es := fs + Commit(s.generation, data);
    } else {
      NoCommits(s);
      es := [];
    }
  }

  function After(image: Image, data: Sector, n: nat): Image
    requires |image| > 1
  {
    if n == 0 then image else image[1 := data]
  }

  lemma AfterOneMore(image: Image, data: Sector, n: nat)
    requires |image| > 1
    ensures |After(image, data, n)| == |image| && After(image, data, n)[1 := data] == After(image, data, n + 1)
  {
  }

  /** The bound of RevisionSound cannot be raised: on every image a server accepts there is a shared run
      of 2^64 - 1 commits after which the revision is the first one again and the image is another. */
  lemma RevisionComesBack(image: Image, undo: Image, generation: nat, data: Sector) returns (fs: seq<Event>)
    requires |undo| == |image| > 1 && Init(image, undo, generation).Some? && generation < TWO_64
    requires data != image[1]
    ensures var s := Init(image, undo, generation).value;
      && SharedOnly(s, fs) && Publications(s, fs) == LAST
      && Run(s, fs).revision == s.revision
      && Committed(s) == image && Committed(Run(s, fs)) == image[1 := data] != image
  {
    var s := Init(image, undo, generation).value;
    InitInv(image, undo, generation);
    AttachStep(s);
    var t := Step(s, Attach()).0;
    var es := ManyCommits(t, data, LAST);
    fs := [Attach()] + es;
    RunStep(s, Attach(), es);
    CleanIsCommitted(Run(t, es));
    RevisionCycle(t, es);
    CycleReturns(t.revision, LAST);
    assert image[1 := data][1] == data;
  }
}
