/** Shared and exclusive sessions over one image: lock, undo log, commit and rollback (c/rntp/sessions.c). */
module RntpSessions {
  import opened Bytes
  import opened RntpProtocol

  const PEERS := 8
  const MAX_SECTORS := 131072

  function NoMessage(): (f: seq<byte>)
    ensures Complete(f) && Decode(f).None?
  {
    var f := seq(HEADER, _ => 0);
    assert f[0] != MAGIC[0];
    f
  }

  /** A receive buffer holding one whole message. */
  type Frame = f: seq<byte> | Complete(f) witness NoMessage()

  datatype State = State(
    image: Image, undo: Image, dirty: set<nat>, modified: bool,
    locked: int, legacy: int, peers: seq<nat>,
    generation: nat, revision: nat, committedFree: nat)
  {
    predicate Shape() {
      && |undo| == |image| > 0
      && |peers| == PEERS
      && forall lba <- dirty :: lba < |image|
    }
  }

  datatype Event = Request(peer: nat, frame: Frame) | Release(peer: nat)

  // ---------- Operations ----------

  /** The image with the undo copies laid over the given sectors. */
  function Overlay(image: Image, undo: Image, dirty: set<nat>): (r: Image)
    requires |undo| == |image|
    ensures |r| == |image|
  {
    seq(|image|, i requires 0 <= i < |image| => if i in dirty then undo[i] else image[i])
  }

  function FreeSpaceOr(image: Image, previous: nat): nat {
    match FreeSpace(image) case Some(bytes) => bytes case None => previous
  }

  function BumpCommit(revision: nat): nat {
    if revision + 1 == TWO_64 then 1 else revision + 1
  }

  function BumpLegacy(revision: nat): nat {
    if revision + 1 == TWO_64 then 0 else revision + 1
  }

  function Finish(s: State, commit: bool): (r: State)
    requires s.Shape()
    ensures r.Shape()
  {
    var t :=
      if !s.modified then s
      else if !commit then s.(image := Overlay(s.image, s.undo, s.dirty))
      else s.(revision := BumpCommit(s.revision), committedFree := FreeSpaceOr(s.image, s.committedFree));
    t.(dirty := {}, modified := false, locked := -1)
  }

  function Init(image: Image, undo: Image, generation: nat): (r: Option<State>)
    requires |undo| == |image|
    ensures r.Some? ==> r.value.Shape()
  {
    if generation == 0 || |image| == 0 || |image| > MAX_SECTORS || FreeSpace(image).None? then None
    else Some(State(image, undo, {}, false, -1, -1, seq(PEERS, _ => 0), generation, 1, FreeSpace(image).value))
  }

  function Drop(s: State, peer: nat): (r: State)
    requires s.Shape()
    ensures r.Shape()
  {
    if peer >= PEERS then s
    else
      var t := if s.locked == peer then Finish(s, false) else s;
      t.(legacy := if t.legacy == peer then -1 else t.legacy, peers := t.peers[peer := 0])
  }

  function Remember(s: State, lba: nat): (r: State)
    requires s.Shape() && lba < |s.image|
    ensures r.Shape()
  {
    (if lba in s.dirty then s else s.(undo := s.undo[lba := s.image[lba]], dirty := s.dirty + {lba}))
    .(modified := true)
  }

  predicate AllBelow(lbas: seq<nat>, n: nat) { forall i :: 0 <= i < |lbas| ==> lbas[i] < n }

  function RememberAll(s: State, lbas: seq<nat>): (r: State)
    requires s.Shape() && AllBelow(lbas, |s.image|)
    ensures r.Shape() && r.image == s.image
  {
    if lbas == [] then s else Remember(RememberAll(s, lbas[..|lbas| - 1]), lbas[|lbas| - 1])
  }

  function Refuse(s: State, h: Header, status: nat): (State, Answer) {
    (s, Refusal(h, status))
  }

  function Hello(s: State, peer: nat, h: Header): (r: (State, Answer))
    requires s.Shape() && peer < PEERS
    ensures r.0.Shape()
  {
    if h.length != 0 || h.lba != 0 || h.generation != 0 || s.peers[peer] != 0 then Refuse(s, h, INVALID)
    else
      var shared := h.op == HELLO_SHARED;
      if s.legacy >= 0 || (!shared && exists i :: 0 <= i < PEERS && s.peers[i] != 0) then Refuse(s, h, BUSY)
      else
        (s.(peers := s.peers[peer := if shared then 2 else 1], legacy := if shared then s.legacy else peer),
         Answer(OK, |s.image|, s.image[0]))
  }

  function LockOp(s: State, peer: nat, h: Header): (r: (State, Answer))
    requires s.Shape() && peer < PEERS
    ensures r.0.Shape()
  {
    if s.peers[peer] != 2 || h.length != 0 || h.lba != 0 then Refuse(s, h, INVALID)
    else if h.op == LOCK && s.locked >= 0 then Refuse(s, h, BUSY)
    else if h.op != LOCK && s.locked != peer then Refuse(s, h, INVALID)
    else
      var t := if h.op == LOCK then s.(locked := peer) else Finish(s, h.op == UNLOCK);
      (t, Answer(OK, 0, PutNumber(t.revision, 8)))
  }

  predicate IsWrite(op: nat) { op == WRITE || op == WRITE_BATCH }

  predicate IsBlock(op: nat) { IsWrite(op) || op == READ || op == READ_BATCH }

  /** The shape test made on a shared write before any record is looked at. */
  predicate WriteShape(h: Header, frame: seq<byte>)
    requires |frame| >= HEADER + h.length
  {
    if h.op == WRITE then h.length == SECTOR else BatchShape(h, frame)
  }

  /** The sectors a well-shaped write names, in order. */
  function Targets(h: Header, frame: seq<byte>): (r: seq<nat>)
    requires |frame| >= HEADER + h.length && WriteShape(h, frame)
  {
    if h.op == WRITE then [h.lba]
    else seq(BatchCount(h, frame), i requires 0 <= i < BatchCount(h, frame) => RecordLba(frame, i))
  }

  /** Sector 0 is immutable in shared mode. */
  predicate Writable(lbas: seq<nat>, sectors: nat) {
    forall i :: 0 <= i < |lbas| ==> 0 < lbas[i] < sectors
  }

  /** The image after a well-shaped write. */
  function Written(image: Image, h: Header, frame: seq<byte>): (r: Image)
    requires |frame| >= HEADER + h.length && WriteShape(h, frame) && AllBelow(Targets(h, frame), |image|)
    ensures |r| == |image|
  {
    if h.op == WRITE then
      assert Targets(h, frame)[0] == h.lba;
      image[h.lba := frame[HEADER..HEADER + SECTOR]]
    else
      RecordTargets(h, frame, |image|);
      ApplyRecords(image, frame, BatchCount(h, frame))
  }

  lemma RecordTargets(h: Header, frame: seq<byte>, n: nat)
    requires |frame| >= HEADER + h.length && WriteShape(h, frame) && h.op != WRITE
    ensures AllBelow(Targets(h, frame), n) <==> RecordsBelow(frame, BatchCount(h, frame), n)
  {
    var count := BatchCount(h, frame);
    assert forall i :: 0 <= i < count ==> Targets(h, frame)[i] == RecordLba(frame, i);
  }

  function SharedWrite(s: State, h: Header, frame: Frame): (r: (State, Answer))
    requires s.Shape() && Decode(frame) == Some(h)
    ensures r.0.Shape()
  {
    if !WriteShape(h, frame) || !Writable(Targets(h, frame), |s.image|) then
      Refuse(s, h, INVALID)
    else
      var t := RememberAll(s, Targets(h, frame));
      var (image, answer) := Perform(t.image, t.generation, true, h, frame);
      (t.(image := image), answer)
  }

  function DirectBlock(s: State, h: Header, frame: Frame): (r: (State, Answer))
    requires s.Shape() && Decode(frame) == Some(h)
    ensures r.0.Shape()
  {
    var (image, answer) := Perform(s.image, s.generation, true, h, frame);
    var t := s.(image := image);
    if IsWrite(h.op) && answer.status == OK
    then (t.(revision := BumpLegacy(s.revision), committedFree := FreeSpaceOr(image, s.committedFree)), answer)
    else (t, answer)
  }

  /** A request from an attached peer that names the current generation. */
  function Dispatch(s: State, peer: nat, h: Header, frame: Frame): (r: (State, Answer))
    requires s.Shape() && peer < PEERS && Decode(frame) == Some(h)
    ensures r.0.Shape()
  {
    if h.op == CAPS && h.length == 0 && h.lba == 0 then
      (s, Answer(OK, 0, PutNumber(CAP_ALL, 8)))
    else if h.op == LOCK || h.op == UNLOCK || h.op == ABORT then LockOp(s, peer, h)
    else if h.op == STAT && h.length == 0 && h.lba == 0 then
      (s, Answer(OK, 0, PutNumber(s.committedFree, STAT_BYTES)))
    else if IsBlock(h.op) && s.peers[peer] == 2 && s.locked != peer then Refuse(s, h, BUSY)
    else if IsWrite(h.op) && s.peers[peer] == 2 then SharedWrite(s, h, frame)
    else DirectBlock(s, h, frame)
  }

  /** A request whose header was accepted. */
  function Attend(s: State, peer: nat, h: Header, frame: Frame): (r: (State, Answer))
    requires s.Shape() && peer < PEERS && Decode(frame) == Some(h)
    ensures r.0.Shape()
  {
    if h.id == 0 || h.status != 0 || h.op >= RESPONSE then Refuse(s, h, INVALID)
    else if h.op == HELLO || h.op == HELLO_SHARED then Hello(s, peer, h)
    else if s.peers[peer] == 0 then Refuse(s, h, BUSY)
    else if h.generation != s.generation then Refuse(s, h, STALE)
    else Dispatch(s, peer, h, frame)
  }

  function Serve(s: State, peer: nat, frame: Frame): (r: (State, seq<byte>))
    requires s.Shape()
    ensures r.0.Shape()
  {
    if peer >= PEERS || Decode(frame).None? then (s, [])
    else
      var h := Decode(frame).value;
      var (t, answer) := Attend(s, peer, h, frame);
      (t, Reply(h, s.generation, answer))
  }

  function Step(s: State, e: Event): (r: (State, seq<byte>))
    requires s.Shape()
    ensures r.0.Shape()
  {
    match e
    case Request(peer, frame) => Serve(s, peer, frame)
    case Release(peer) => (Drop(s, peer), [])
  }

  function Run(s: State, es: seq<Event>): (r: State)
    requires s.Shape()
    ensures r.Shape()
    decreases |es|
  {
    if es == [] then s else Run(Step(s, es[0]).0, es[1..])
  }

  // ---------- The committed image ----------

  /** What every other peer is entitled to see: the live image with uncommitted sectors undone. */
  function Committed(s: State): (r: Image)
    requires s.Shape()
    ensures |r| == |s.image|
  {
    Overlay(s.image, s.undo, s.dirty)
  }

  ghost predicate Inv(s: State) {
    && s.Shape()
    && 0 !in s.dirty
    && (s.modified <==> s.dirty != {})
    && (s.modified ==> s.locked >= 0)
    && -1 <= s.locked < PEERS && (s.locked >= 0 ==> s.peers[s.locked] == 2)
    && -1 <= s.legacy < PEERS
    && (forall p :: 0 <= p < PEERS ==> s.peers[p] in {0, 1, 2} && (s.peers[p] == 1 <==> s.legacy == p))
    && (s.legacy >= 0 ==> forall p :: 0 <= p < PEERS && p != s.legacy ==> s.peers[p] == 0)
  }

  lemma InitInv(image: Image, undo: Image, generation: nat)
    requires |undo| == |image| && Init(image, undo, generation).Some?
    ensures Inv(Init(image, undo, generation).value)
    ensures Committed(Init(image, undo, generation).value) == image
  {
  }

  lemma CleanIsCommitted(s: State)
    requires Inv(s) && !s.modified
    ensures Committed(s) == s.image
  {
  }

  lemma RememberKeeps(s: State, lba: nat)
    requires s.Shape() && lba < |s.image|
    ensures Committed(Remember(s, lba)) == Committed(s)
    ensures Remember(s, lba) == s.(undo := Remember(s, lba).undo, dirty := s.dirty + {lba}, modified := true)
  {
    assert lba in s.dirty ==> s.dirty + {lba} == s.dirty;
  }

  lemma {:induction false} RememberAllKeeps(s: State, lbas: seq<nat>)
    requires s.Shape() && AllBelow(lbas, |s.image|)
    ensures Committed(RememberAll(s, lbas)) == Committed(s)
    ensures var t := RememberAll(s, lbas);
      t == s.(undo := t.undo, dirty := t.dirty, modified := s.modified || lbas != [])
    ensures forall x :: x in RememberAll(s, lbas).dirty <==> x in s.dirty || x in lbas
  {
    if lbas != [] {
      var init, last := lbas[..|lbas| - 1], lbas[|lbas| - 1];
      RememberAllKeeps(s, init);
      RememberKeeps(RememberAll(s, init), last);
      assert lbas == init + [last];
    }
  }

  /** A well-shaped write changes only the sectors it names. */
  lemma WrittenElsewhere(image: Image, h: Header, frame: seq<byte>, lba: nat)
    requires |frame| >= HEADER + h.length && WriteShape(h, frame) && AllBelow(Targets(h, frame), |image|)
    requires lba < |image| && lba !in Targets(h, frame)
    ensures Written(image, h, frame)[lba] == image[lba]
  {
    if h.op != WRITE {
      RecordTargets(h, frame, |image|);
      var count := BatchCount(h, frame);
      forall j | 0 <= j < count ensures RecordLba(frame, j) != lba {
        assert Targets(h, frame)[j] in Targets(h, frame);
      }
      ApplyRecordsAt(image, frame, count, lba, -1);
    } else {
      assert Targets(h, frame)[0] in Targets(h, frame);
    }
  }

  /** The session's validation implies the second one: the write is applied whole and reported so. */
  lemma PerformWrite(image: Image, generation: nat, h: Header, frame: Frame)
    requires Decode(frame) == Some(h) && h.id != 0 && h.status == 0 && h.op < RESPONSE && h.generation == generation
    requires IsWrite(h.op) && |image| > 0
    requires WriteShape(h, frame) && AllBelow(Targets(h, frame), |image|)
    ensures Perform(image, generation, true, h, frame) == (Written(image, h, frame), Answer(OK, h.lba, []))
  {
    if h.op == WRITE {
      assert Targets(h, frame)[0] == h.lba;
    } else {
      RecordTargets(h, frame, |image|);
    }
  }

  lemma PerformRefusesWrite(image: Image, generation: nat, h: Header, frame: Frame)
    requires Decode(frame) == Some(h) && |image| > 0
    requires !IsWrite(h.op) || !WriteShape(h, frame) || !AllBelow(Targets(h, frame), |image|)
    ensures Perform(image, generation, true, h, frame).0 == image
    ensures IsWrite(h.op) ==> Perform(image, generation, true, h, frame).1.status != OK
  {
    if h.op == WRITE_BATCH && WriteShape(h, frame) {
      RecordTargets(h, frame, |image|);
    } else if h.op == WRITE && WriteShape(h, frame) {
      assert Targets(h, frame)[0] == h.lba;
    }
  }

  // ---------- Every step ----------

  /** The request reaches the operation it names: well-formed header, known peer, right generation. */
  ghost predicate Admitted(s: State, peer: nat, frame: Frame)
    requires s.Shape()
  {
    && peer < PEERS && Decode(frame).Some?
    && var h := Decode(frame).value;
    h.id != 0 && h.status == 0 && h.op < RESPONSE && s.peers[peer] != 0 && h.generation == s.generation
  }

  /** The owner ends a transaction that wrote something by UNLOCK. */
  ghost predicate Unlocks(s: State, e: Event)
    requires s.Shape()
  {
    && e.Request? && Admitted(s, e.peer, e.frame) && s.locked == e.peer && s.peers[e.peer] == 2
    && var h := Decode(e.frame).value;
    h.op == UNLOCK && h.length == 0 && h.lba == 0 && s.modified
  }

  /** The exclusive peer stores sectors directly. */
  ghost predicate WritesThrough(s: State, e: Event)
    requires s.Shape()
  {
    && e.Request? && Admitted(s, e.peer, e.frame) && s.peers[e.peer] == 1
    && var h := Decode(e.frame).value;
    IsWrite(h.op) && WriteShape(h, e.frame) && AllBelow(Targets(h, e.frame), |s.image|)
  }

  ghost predicate Publishes(s: State, e: Event)
    requires s.Shape()
  {
    Unlocks(s, e) || WritesThrough(s, e)
  }

  lemma SharedWriteKeeps(s: State, h: Header, frame: Frame)
    requires Inv(s) && s.locked >= 0
    requires Decode(frame) == Some(h) && h.id != 0 && h.status == 0 && h.op < RESPONSE && h.generation == s.generation && IsWrite(h.op)
    ensures var t := SharedWrite(s, h, frame).0;
      && Inv(t) && Committed(t) == Committed(s)
      && t == s.(image := t.image, undo := t.undo, dirty := t.dirty, modified := t.modified)
  {
    if WriteShape(h, frame) && Writable(Targets(h, frame), |s.image|) {
      var lbas := Targets(h, frame);
      RememberAllKeeps(s, lbas);
      var m := RememberAll(s, lbas);
      PerformWrite(s.image, s.generation, h, frame);
      var t := SharedWrite(s, h, frame).0;
      forall lba | 0 <= lba < |s.image| ensures Committed(t)[lba] == Committed(m)[lba] {
        if lba !in m.dirty {
          WrittenElsewhere(s.image, h, frame, lba);
        }
      }
      assert lbas[0] in lbas;
    }
  }

  lemma DirectBlockEffect(s: State, h: Header, frame: Frame)
    requires Inv(s) && Decode(frame) == Some(h) && h.id != 0 && h.status == 0 && h.op < RESPONSE && h.generation == s.generation
    requires IsWrite(h.op) ==> !s.modified && s.legacy >= 0
    ensures var t := DirectBlock(s, h, frame).0;
      && Inv(t)
      && (if IsWrite(h.op) && WriteShape(h, frame) && AllBelow(Targets(h, frame), |s.image|)
          then t == s.(image := Written(s.image, h, frame), revision := BumpLegacy(s.revision),
                       committedFree := FreeSpaceOr(t.image, s.committedFree))
          else t == s)
  {
    if IsWrite(h.op) && WriteShape(h, frame) && AllBelow(Targets(h, frame), |s.image|) {
      PerformWrite(s.image, s.generation, h, frame);
    } else {
      PerformRefusesWrite(s.image, s.generation, h, frame);
    }
  }

  lemma FinishEffect(s: State, commit: bool)
    requires Inv(s)
    ensures var t := Finish(s, commit);
      && Inv(t) && !t.modified && t.locked == -1
      && t.image == (if commit then s.image else Committed(s))
      && t == s.(image := t.image, dirty := {}, modified := false, locked := -1, revision := t.revision, committedFree := t.committedFree)
      && (if commit && s.modified
          then t.revision == BumpCommit(s.revision) && t.committedFree == FreeSpaceOr(s.image, s.committedFree)
          else t.revision == s.revision && t.committedFree == s.committedFree)
  {
    if !s.modified {
      CleanIsCommitted(s);
    }
  }

  /** Nothing was published between s and t. */
  ghost predicate Quiet(s: State, t: State)
    requires s.Shape()
  {
    && Inv(t) && t.generation == s.generation && |t.image| == |s.image|
    && Committed(t) == Committed(s) && t.revision == s.revision && t.committedFree == s.committedFree
  }

  /** The live image of t became the committed one, with a new revision. */
  ghost predicate Published(s: State, t: State, revision: nat) {
    && Inv(t) && t.generation == s.generation && |t.image| == |s.image|
    && Committed(t) == t.image && t.revision == revision && t.committedFree == FreeSpaceOr(t.image, s.committedFree)
  }

  lemma DropEffect(s: State, peer: nat)
    requires Inv(s)
    ensures Quiet(s, Drop(s, peer))
  {
    if s.locked == peer {
      FinishEffect(s, false);
      CleanIsCommitted(Finish(s, false));
    }
  }

  lemma HelloEffect(s: State, peer: nat, h: Header)
    requires Inv(s) && peer < PEERS && (h.op == HELLO || h.op == HELLO_SHARED)
    ensures Quiet(s, Hello(s, peer, h).0)
  {
  }

  lemma LockOpEffect(s: State, peer: nat, h: Header)
    requires Inv(s) && peer < PEERS && (h.op == LOCK || h.op == UNLOCK || h.op == ABORT)
    ensures var t := LockOp(s, peer, h).0;
      if h.op == UNLOCK && s.locked == peer && h.length == 0 && h.lba == 0 && s.modified
      then Published(s, t, BumpCommit(s.revision)) && t.image == s.image
      else Quiet(s, t)
  {
    FinishEffect(s, h.op == UNLOCK);
    CleanIsCommitted(Finish(s, h.op == UNLOCK));
    if !s.modified {
      CleanIsCommitted(s);
    }
  }

  lemma DispatchEffect(s: State, peer: nat, h: Header, frame: Frame)
    requires Inv(s) && Admitted(s, peer, frame) && Decode(frame) == Some(h)
    requires h.op != LOCK && h.op != UNLOCK && h.op != ABORT
    ensures var t := Dispatch(s, peer, h, frame).0;
      if WritesThrough(s, Request(peer, frame)) then Published(s, t, BumpLegacy(s.revision)) else Quiet(s, t)
  {
    if IsWrite(h.op) && s.peers[peer] == 2 {
      if s.locked == peer {
        SharedWriteKeeps(s, h, frame);
      }
    } else if IsBlock(h.op) && s.peers[peer] == 2 && s.locked != peer {
    } else {
      DirectBlockEffect(s, h, frame);
      if IsWrite(h.op) {
        CleanIsCommitted(DirectBlock(s, h, frame).0);
      }
    }
  }

  lemma AttendEffect(s: State, peer: nat, h: Header, frame: Frame)
    requires Inv(s) && peer < PEERS && Decode(frame) == Some(h)
    ensures var t := Attend(s, peer, h, frame).0;
      if Unlocks(s, Request(peer, frame)) then Published(s, t, BumpCommit(s.revision)) && t.image == s.image
      else if WritesThrough(s, Request(peer, frame)) then Published(s, t, BumpLegacy(s.revision))
      else Quiet(s, t)
  {
    if h.op == HELLO || h.op == HELLO_SHARED {
      HelloEffect(s, peer, h);
    } else if Admitted(s, peer, frame) {
      if h.op == LOCK || h.op == UNLOCK || h.op == ABORT {
        LockOpEffect(s, peer, h);
      } else {
        DispatchEffect(s, peer, h, frame);
      }
    }
  }

  /** What one event does to the committed image and its published figures. */
  lemma StepEffect(s: State, e: Event)
    requires Inv(s)
    ensures var t := Step(s, e).0;
      if Unlocks(s, e) then Published(s, t, BumpCommit(s.revision)) && t.image == s.image
      else if WritesThrough(s, e) then Published(s, t, BumpLegacy(s.revision))
      else Quiet(s, t)
  {
    match e {
      case Release(peer) =>
        DropEffect(s, peer);
      case Request(peer, frame) =>
        if peer < PEERS && Decode(frame).Some? {
          AttendEffect(s, peer, Decode(frame).value, frame);
        }
    }
  }
}
