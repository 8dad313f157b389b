/** What runs of the session server guarantee: rollback, isolation, sound revisions and figures. */
module RntpTheorems {
  import opened Bytes
  import opened RntpProtocol
  import opened RntpSessions

  // ---------- Rollback ----------

  /** p keeps the lock through every event of es. */
  ghost predicate LockHeld(s: State, es: seq<Event>, p: nat)
    requires s.Shape()
    decreases |es|
  {
    s.locked == p && (es == [] || LockHeld(Step(s, es[0]).0, es[1..], p))
  }

  lemma HeldStepIsQuiet(s: State, e: Event)
    requires Inv(s) && s.locked >= 0
    requires !Unlocks(s, e)
    ensures Quiet(s, Step(s, e).0)
  {
    StepEffect(s, e);
  }

  lemma UnlockEndsLock(s: State, e: Event)
    requires Inv(s) && Unlocks(s, e)
    ensures Step(s, e).0.locked == -1
  {
    LockOpEffect(s, e.peer, Decode(e.frame).value);
  }

  lemma {:induction false} HeldRunIsQuiet(s: State, es: seq<Event>, p: nat)
    requires Inv(s) && LockHeld(s, es, p)
    ensures Quiet(s, Run(s, es)) && Run(s, es).locked == p
    decreases |es|
  {
    if es != [] {
      if Unlocks(s, es[0]) {
        UnlockEndsLock(s, es[0]);
      }
      HeldStepIsQuiet(s, es[0]);
      HeldRunIsQuiet(Step(s, es[0]).0, es[1..], p);
    }
  }

  /** A transaction is all or nothing: whatever p and the others did while p held the lock, the event
      that ends p's hold leaves either p's live image (UNLOCK) or, byte for byte, the image at LOCK time. */
  lemma TransactionIsAtomic(s: State, lock: Event, es: seq<Event>, end: Event, p: nat)
    requires Inv(s) && s.locked == -1
    requires LockHeld(Step(s, lock).0, es, p)
    requires Step(Run(Step(s, lock).0, es), end).0.locked != p
    ensures var held := Run(Step(s, lock).0, es);
      Step(held, end).0.image == if Unlocks(held, end) then held.image else s.image
  {
    var s1 := Step(s, lock).0;
    CleanIsCommitted(s);
    StepEffect(s, lock);
    var held := Run(s1, es);
    HeldRunIsQuiet(s1, es, p);
    StepEffect(held, end);
    if !Unlocks(held, end) {
      var t := Step(held, end).0;
      LockLeavesOwner(held, end);
      assert Quiet(held, t);
      CleanIsCommitted(t);
      if Publishes(s, lock) {
        UnlocksNeedsLock(s, lock);
        LegacyNeverLocks(s, lock);
      }
    }
  }

  lemma UnlocksNeedsLock(s: State, e: Event)
    requires Inv(s) && s.locked == -1
    ensures !Unlocks(s, e)
  {
  }

  lemma LegacyNeverLocks(s: State, e: Event)
    requires Inv(s) && WritesThrough(s, e)
    ensures Step(s, e).0.locked == -1
  {
    DirectBlockEffect(s, Decode(e.frame).value, e.frame);
  }

  /** The lock passes to nobody directly: an event that takes it from its owner frees it. */
  lemma LockLeavesOwner(s: State, e: Event)
    requires Inv(s) && s.locked >= 0
    ensures Step(s, e).0.locked in {s.locked, -1}
  {
    match e {
      case Release(peer) =>
        FinishEffect(s, false);
      case Request(peer, frame) =>
        if Admitted(s, peer, frame) {
          var h := Decode(frame).value;
          if h.op == LOCK || h.op == UNLOCK || h.op == ABORT {
            FinishEffect(s, h.op == UNLOCK);
          } else if IsWrite(h.op) && s.peers[peer] == 2 && s.locked == peer {
            SharedWriteKeeps(s, h, frame);
          } else if h.op != HELLO && h.op != HELLO_SHARED && (s.locked == peer || !IsBlock(h.op)) {
            DirectBlockEffect(s, h, frame);
          }
        }
    }
  }

  /** The owner's ABORT and the owner's release, at any moment, both end the hold without committing. */
  lemma AbortAndReleaseRollBack(s: State, p: nat, frame: Frame)
    requires Inv(s) && s.locked == p
    ensures var t := Step(s, Release(p)).0; t.locked == -1 && t.image == Committed(s) && t.revision == s.revision
    ensures Admitted(s, p, frame) && Decode(frame).value.op == ABORT
            && Decode(frame).value.length == 0 && Decode(frame).value.lba == 0 ==>
      var t := Step(s, Request(p, frame)).0; t.locked == -1 && t.image == Committed(s) && t.revision == s.revision
  {
    FinishEffect(s, false);
  }

  // ---------- Isolation ----------

  /** Two states that differ at most in what the lock owner wrote and has not committed. */
  ghost predicate Similar(s: State, t: State) {
    && Inv(s) && Inv(t)
    && s.locked >= 0
    && Committed(s) == Committed(t)
    && t == s.(image := t.image, undo := t.undo, dirty := t.dirty, modified := t.modified)
  }

  /** Requests that are not block operations never look at the image or change it. */
  lemma PerformIgnoresImage(a: Image, b: Image, generation: nat, h: Header, frame: Frame)
    requires |a| == |b| > 0 && Decode(frame) == Some(h)
    requires !IsBlock(h.op) && h.op != HELLO && !(h.op == STAT && h.length == 0 && h.lba == 0)
    ensures Perform(a, generation, true, h, frame).0 == a
    ensures Perform(a, generation, true, h, frame).1 == Perform(b, generation, true, h, frame).1
  {
  }

  /** Any other peer's request gets the same bytes in both states and touches neither image, undo nor dirty. */
  lemma OthersSeeCommitted(s: State, t: State, e: Event)
    requires Similar(s, t) && e.peer != s.locked
    ensures Step(s, e).1 == Step(t, e).1
    ensures Similar(Step(s, e).0, Step(t, e).0)
    ensures var u := Step(s, e).0; u == s.(peers := u.peers)
  {
    match e {
      case Release(peer) =>
      case Request(peer, frame) =>
        if peer < PEERS && Decode(frame).Some? {
          var h := Decode(frame).value;
          if h.op == HELLO || h.op == HELLO_SHARED {
            HelloSeesCommitted(s, t, peer, h);
          } else if Admitted(s, peer, frame) {
            DispatchSeesCommitted(s, t, peer, h, frame);
          }
        }
    }
  }

  lemma HelloSeesCommitted(s: State, t: State, peer: nat, h: Header)
    requires Similar(s, t) && peer != s.locked && peer < PEERS && (h.op == HELLO || h.op == HELLO_SHARED)
    ensures Hello(s, peer, h).1 == Hello(t, peer, h).1
    ensures Similar(Hello(s, peer, h).0, Hello(t, peer, h).0)
    ensures var u := Hello(s, peer, h).0; u == s.(peers := u.peers)
  {
    assert s.image[0] == Committed(s)[0] == Committed(t)[0] == t.image[0];
    HelloEffect(s, peer, h);
    HelloEffect(t, peer, h);
  }

  lemma DispatchSeesCommitted(s: State, t: State, peer: nat, h: Header, frame: Frame)
    requires Similar(s, t) && peer != s.locked && Decode(frame) == Some(h) && Admitted(s, peer, frame)
    requires h.op != HELLO
    ensures Dispatch(s, peer, h, frame).1 == Dispatch(t, peer, h, frame).1
    ensures Dispatch(s, peer, h, frame).0 == s && Dispatch(t, peer, h, frame).0 == t
  {
    if !IsBlock(h.op) && h.op != HELLO && !(h.op == STAT && h.length == 0 && h.lba == 0) {
      PerformIgnoresImage(s.image, t.image, s.generation, h, frame);
      PerformIgnoresImage(t.image, s.image, s.generation, h, frame);
    }
  }

  /** As long as the owner keeps the lock, nothing it asks for shows outside its transaction. */
  lemma OwnerIsInvisible(s: State, e: Event)
    requires Inv(s) && s.locked >= 0 && e.peer == s.locked && Step(s, e).0.locked == s.locked
    ensures Similar(s, Step(s, e).0)
  {
    match e {
      case Release(peer) =>
        FinishEffect(s, false);
      case Request(peer, frame) =>
        if Decode(frame).Some? {
          var h := Decode(frame).value;
          if h.op == HELLO || h.op == HELLO_SHARED || !Admitted(s, peer, frame) {
          } else if h.op == LOCK || h.op == UNLOCK || h.op == ABORT {
            FinishEffect(s, h.op == UNLOCK);
          } else if IsWrite(h.op) {
            SharedWriteKeeps(s, h, frame);
          } else {
            DirectBlockEffect(s, h, frame);
          }
        }
    }
  }

  /** The run without p's events. */
  function Purge(es: seq<Event>, p: nat): seq<Event> {
    if es == [] then []
    else (if es[0].peer == p then [] else [es[0]]) + Purge(es[1..], p)
  }

  /** The replies everyone but p receives, in order. */
  function Observed(s: State, es: seq<Event>, p: nat): seq<(Event, seq<byte>)>
    requires s.Shape()
    decreases |es|
  {
    if es == [] then []
    else
      var (t, reply) := Step(s, es[0]);
      (if es[0].peer == p then [] else [(es[0], reply)]) + Observed(t, es[1..], p)
  }

  /** Noninterference: while p holds the lock, everyone else receives exactly the replies
      they would receive had p sent nothing at all. */
  lemma {:induction false} Noninterference(s: State, t: State, es: seq<Event>, p: nat)
    requires Similar(s, t) && LockHeld(s, es, p)
    ensures Observed(s, es, p) == Observed(t, Purge(es, p), p)
    ensures Similar(Run(s, es), Run(t, Purge(es, p)))
    decreases |es|
  {
    if es != [] {
      var e, s1 := es[0], Step(s, es[0]).0;
      assert s1.locked == p;
      if e.peer == p {
        OwnerIsInvisible(s, e);
        Noninterference(s1, t, es[1..], p);
        assert Purge(es, p) == Purge(es[1..], p);
      } else {
        OthersSeeCommitted(s, t, e);
        Noninterference(s1, Step(t, e).0, es[1..], p);
        assert Purge(es, p) == [e] + Purge(es[1..], p);
        assert Purge(es, p)[0] == e && Purge(es, p)[1..] == Purge(es[1..], p);
      }
    }
  }

  // ---------- Revisions ----------

  /** How many events of the run publish a new committed image. */
  ghost function Publications(s: State, es: seq<Event>): nat
    requires s.Shape()
    decreases |es|
  {
    if es == [] then 0
    else (if Publishes(s, es[0]) then 1 else 0) + Publications(Step(s, es[0]).0, es[1..])
  }

  lemma {:induction false} RunInv(s: State, es: seq<Event>)
    requires Inv(s)
    ensures Inv(Run(s, es)) && |Run(s, es).image| == |s.image|
    decreases |es|
  {
    if es != [] {
      StepEffect(s, es[0]);
      RunInv(Step(s, es[0]).0, es[1..]);
    }
  }

  lemma {:induction false} RunSplit(s: State, es: seq<Event>, fs: seq<Event>)
    requires s.Shape()
    ensures Run(s, es + fs) == Run(Run(s, es), fs)
    ensures Publications(s, es + fs) == Publications(s, es) + Publications(Run(s, es), fs)
    decreases |es|
  {
    if es == [] {
      assert es + fs == fs;
    } else {
      assert (es + fs)[0] == es[0] && (es + fs)[1..] == es[1..] + fs;
      RunSplit(Step(s, es[0]).0, es[1..], fs);
    }
  }

  lemma {:induction false} RevisionCounts(s: State, es: seq<Event>)
    requires Inv(s) && s.revision + Publications(s, es) < TWO_64
    ensures Run(s, es).revision == s.revision + Publications(s, es)
    ensures Publications(s, es) == 0 ==> Committed(Run(s, es)) == Committed(s)
    decreases |es|
  {
    if es != [] {
      StepEffect(s, es[0]);
      RevisionCounts(Step(s, es[0]).0, es[1..]);
    }
  }

  /** Over fewer than 2^64 - 1 publications since start-up, equal revisions mean equal committed images. */
  lemma RevisionSound(image: Image, undo: Image, generation: nat, es: seq<Event>, fs: seq<Event>)
    requires |undo| == |image| && Init(image, undo, generation).Some?
    requires var s := Init(image, undo, generation).value;
      && Publications(s, es + fs) < TWO_64 - 1
      && Run(s, es).revision == Run(s, es + fs).revision
    ensures var s := Init(image, undo, generation).value;
      Committed(Run(s, es)) == Committed(Run(s, es + fs))
  {
    var s := Init(image, undo, generation).value;
    InitInv(image, undo, generation);
    RunSplit(s, es, fs);
    RunInv(s, es);
    RevisionCounts(s, es);
    RevisionCounts(Run(s, es), fs);
  }

  ghost predicate SharedOnly(s: State, es: seq<Event>)
    requires s.Shape()
    decreases |es|
  {
    es == [] || (!WritesThrough(s, es[0]) && SharedOnly(Step(s, es[0]).0, es[1..]))
  }

  /** The revision n commits after a given one: the values 1 to 2^64 - 1 in turn. */
  function Cycle(revision: nat, n: nat): nat
    requires revision >= 1
  {
    1 + (revision - 1 + n) % (TWO_64 - 1)
  }

  lemma CycleStep(revision: nat, n: nat)
    requires 1 <= revision < TWO_64
    ensures Cycle(BumpCommit(revision), n) == Cycle(revision, 1 + n)
  {
    if revision == TWO_64 - 1 {
      var m := TWO_64 - 1;
      assert (m + n) % m == n % m;
    }
  }

  /** What a shared step does to the revision, and how many publications it is. */
  lemma SharedStep(s: State, e: Event)
    requires Inv(s) && 1 <= s.revision < TWO_64 && !WritesThrough(s, e)
    ensures var t := Step(s, e).0;
      Inv(t) && t.revision == if Publishes(s, e) then BumpCommit(s.revision) else s.revision
  {
    StepEffect(s, e);
  }

  /** In a shared run the revision is where the number of commits puts it on the cycle. */
  lemma {:induction false} RevisionCycle(s: State, es: seq<Event>)
    requires Inv(s) && 1 <= s.revision < TWO_64 && SharedOnly(s, es)
    ensures Run(s, es).revision == Cycle(s.revision, Publications(s, es))
    decreases |es|
  {
    if es != [] {
      SharedStep(s, es[0]);
      var t := Step(s, es[0]).0;
      var n := Publications(t, es[1..]);
      SharedFirst(s, es);
      RevisionCycle(t, es[1..]);
      if Publishes(s, es[0]) {
        CycleStep(s.revision, n);
      }
    }
  }

  lemma SharedFirst(s: State, es: seq<Event>)
    requires s.Shape() && es != [] && SharedOnly(s, es)
    ensures var t := Step(s, es[0]).0;
      && Run(s, es) == Run(t, es[1..]) && SharedOnly(t, es[1..]) && !WritesThrough(s, es[0])
      && Publications(s, es) == (if Publishes(s, es[0]) then 1 else 0) + Publications(t, es[1..])
  {
  }

  // ---------- Published free space ----------

  /** The latest committed image of the run whose boot sector parses; `last` is the latest before it. */
  ghost function LatestParsed(s: State, es: seq<Event>, last: Image): Image
    requires s.Shape()
    decreases |es|
  {
    if es == [] then last
    else
      var t := Step(s, es[0]).0;
      LatestParsed(t, es[1..], if FreeSpace(Committed(t)).Some? then Committed(t) else last)
  }

  /** committedFree is always the free space of the latest committed image that parses. */
  lemma {:induction false} CommittedFreeIsCurrent(s: State, es: seq<Event>, last: Image)
    requires Inv(s) && FreeSpace(last) == Some(s.committedFree)
    requires FreeSpace(Committed(s)).Some? ==> last == Committed(s)
    ensures FreeSpace(LatestParsed(s, es, last)) == Some(Run(s, es).committedFree)
    decreases |es|
  {
    if es != [] {
      StepEffect(s, es[0]);
      var t := Step(s, es[0]).0;
      CommittedFreeIsCurrent(t, es[1..], if FreeSpace(Committed(t)).Some? then Committed(t) else last);
    }
  }

  /** A commit cannot lose the figures: sector 0, and with it the geometry, is never dirty. */
  lemma CommitStillParses(s: State)
    requires Inv(s) && FreeSpace(Committed(s)).Some?
    ensures FreeSpace(s.image).Some?
  {
    assert s.image[0] == Committed(s)[0];
  }

  /** With shared peers only, the published figure is the free space of the committed image itself. */
  lemma {:induction false} SharedFreeSpace(s: State, es: seq<Event>)
    requires Inv(s) && FreeSpace(Committed(s)) == Some(s.committedFree) && SharedOnly(s, es)
    ensures var t := Run(s, es); FreeSpace(Committed(t)) == Some(t.committedFree)
    decreases |es|
  {
    if es != [] {
      StepEffect(s, es[0]);
      CommitStillParses(s);
      SharedFreeSpace(Step(s, es[0]).0, es[1..]);
    }
  }

  // ---------- Batches ----------

  /** A shared WRITE_BATCH applies every record in order, or changes nothing at all; either way each
      dirty sector's undo copy is still its contents from before the transaction. */
  lemma BatchIsAtomic(s: State, p: nat, frame: Frame)
    requires Inv(s) && s.locked == p && Admitted(s, p, frame) && Decode(frame).value.op == WRITE_BATCH
    ensures var h := Decode(frame).value;
      var (t, reply) := Step(s, Request(p, frame));
      && |reply| == HEADER &&
      if WriteShape(h, frame) && Writable(Targets(h, frame), |s.image|) then
        && Decode(reply) == Some(Header(Response(WRITE_BATCH), OK, 0, h.id, 0, s.generation))
        && RecordsBelow(frame, BatchCount(h, frame), |s.image|)
        && t.image == ApplyRecords(s.image, frame, BatchCount(h, frame))
        && t.modified
        && (forall x :: x in t.dirty <==> x in s.dirty || x in Targets(h, frame))
        && (forall x <- t.dirty :: t.undo[x] == Committed(s)[x])
      else
        && t == s
        && Decode(reply) == Some(Header(Response(WRITE_BATCH), INVALID, 0, h.id, h.lba, s.generation))
  {
    BatchState(s, p, frame);
    BatchReply(s, p, frame);
  }

  lemma BatchState(s: State, p: nat, frame: Frame)
    requires Inv(s) && s.locked == p && Admitted(s, p, frame) && Decode(frame).value.op == WRITE_BATCH
    ensures var h := Decode(frame).value;
      var t := Step(s, Request(p, frame)).0;
      if WriteShape(h, frame) && Writable(Targets(h, frame), |s.image|) then
        && RecordsBelow(frame, BatchCount(h, frame), |s.image|)
        && t.image == ApplyRecords(s.image, frame, BatchCount(h, frame))
        && t.modified
        && (forall x :: x in t.dirty <==> x in s.dirty || x in Targets(h, frame))
        && (forall x <- t.dirty :: t.undo[x] == Committed(s)[x])
      else t == s
  {
    var h := Decode(frame).value;
    if WriteShape(h, frame) && Writable(Targets(h, frame), |s.image|) {
      var lbas := Targets(h, frame);
      RememberAllKeeps(s, lbas);
      var m := RememberAll(s, lbas);
      PerformWrite(s.image, s.generation, h, frame);
      RecordTargets(h, frame, |s.image|);
      forall x | x in m.dirty ensures m.undo[x] == Committed(s)[x] {
        assert Committed(m)[x] == m.undo[x];
      }
    }
  }

  lemma BatchReply(s: State, p: nat, frame: Frame)
    requires Inv(s) && s.locked == p && Admitted(s, p, frame) && Decode(frame).value.op == WRITE_BATCH
    ensures var h := Decode(frame).value;
      var reply := Step(s, Request(p, frame)).1;
      |reply| == HEADER && Decode(reply) ==
        if WriteShape(h, frame) && Writable(Targets(h, frame), |s.image|)
        then Some(Header(Response(WRITE_BATCH), OK, 0, h.id, 0, s.generation))
        else Some(Header(Response(WRITE_BATCH), INVALID, 0, h.id, h.lba, s.generation))
  {
    var h := Decode(frame).value;
    BatchAnswer(s, p, frame);
    DecodeEncode(Header(Response(h.op), OK, 0, h.id, 0, s.generation), []);
    DecodeEncode(Header(Response(h.op), INVALID, 0, h.id, h.lba, s.generation), []);
  }

  lemma BatchAnswer(s: State, p: nat, frame: Frame)
    requires Inv(s) && s.locked == p && Admitted(s, p, frame) && Decode(frame).value.op == WRITE_BATCH
    ensures var h := Decode(frame).value;
      Step(s, Request(p, frame)).1 == Reply(h, s.generation,
        if WriteShape(h, frame) && Writable(Targets(h, frame), |s.image|) then Answer(OK, 0, []) else Refusal(h, INVALID))
  {
    var h := Decode(frame).value;
    if WriteShape(h, frame) && Writable(Targets(h, frame), |s.image|) {
      RememberAllKeeps(s, Targets(h, frame));
      PerformWrite(s.image, s.generation, h, frame);
    }
    assert Attend(s, p, h, frame) == SharedWrite(s, h, frame);
  }
}
