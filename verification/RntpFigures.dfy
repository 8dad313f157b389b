/** The figures in the server's replies: free space and revision, as a client decodes them (c/rntp/sessions.c). */
module RntpFigures {
  import opened Bytes
  import opened RntpProtocol
  import opened RntpSessions
  import opened RntpTheorems

  /** Both figures fit the eight bytes they are sent in. */
  ghost predicate Small(s: State) { s.revision < TWO_64 && s.committedFree < TWO_64 }

  lemma FreeSpaceIsSmall(image: Image, previous: nat)
    requires previous < TWO_64
    ensures FreeSpaceOr(image, previous) < TWO_64
  {
    if FreeSpace(image).Some? { FreeSpaceBound(image); }
  }

  lemma {:induction false} RunIsSmall(s: State, es: seq<Event>)
    requires Inv(s) && Small(s)
    ensures Inv(Run(s, es)) && Small(Run(s, es)) && Run(s, es).generation == s.generation
    decreases |es|
  {
    if es != [] {
      StepEffect(s, es[0]);
      var t := Step(s, es[0]).0;
      FreeSpaceIsSmall(t.image, s.committedFree);
      RunIsSmall(t, es[1..]);
    }
  }

  lemma StartIsSmall(image: Image, undo: Image, generation: nat)
    requires |undo| == |image| && Init(image, undo, generation).Some?
    ensures var s := Init(image, undo, generation).value;
      Inv(s) && Small(s) && Committed(s) == image && FreeSpace(image) == Some(s.committedFree) && s.revision == 1 && s.generation == generation
  {
    InitInv(image, undo, generation);
    FreeSpaceBound(image);
  }

  /** A reply that reports a number: accepted, to the operation and the request it answers. */
  ghost predicate Reports(reply: seq<byte>, h: Header, generation: nat, figure: nat) {
    && |reply| == HEADER + 8 && h.op < RESPONSE
    && Decode(reply) == Some(Header(h.op + RESPONSE, OK, 8, h.id, 0, generation))
    && GetNumber(reply[HEADER..]) == figure
  }

  lemma ReplyReports(h: Header, generation: nat, figure: nat)
    requires h.Fits() && h.op < RESPONSE && generation < TWO_64 && figure < TWO_64
    ensures Reports(Reply(h, generation, Answer(OK, 0, PutNumber(figure, 8))), h, generation, figure)
  {
    DecodeEncode(Header(h.op + RESPONSE, OK, 8, h.id, 0, generation), PutNumber(figure, 8));
    Widths();
    GetPut(figure, 8);
  }

  /** A plain request without payload, for an operation on no sector. */
  ghost predicate Plain(s: State, peer: nat, frame: Frame, op: nat)
    requires s.Shape()
  {
    Admitted(s, peer, frame) && Decode(frame).value.op == op && Decode(frame).value.length == 0 && Decode(frame).value.lba == 0
  }

  lemma StatStep(s: State, peer: nat, frame: Frame)
    requires Inv(s) && Small(s) && Plain(s, peer, frame, STAT)
    ensures var (t, reply) := Step(s, Request(peer, frame));
      t == s && Reports(reply, Decode(frame).value, s.generation, s.committedFree)
  {
    ReplyReports(Decode(frame).value, s.generation, s.committedFree);
  }

  /**
   * At any moment since start-up a STAT is answered with the free space of the latest committed
   * image that parses; with shared peers only, of the image now committed.
   */
  lemma StatReportsFreeSpace(image: Image, undo: Image, generation: nat, es: seq<Event>, peer: nat, frame: Frame)
    requires |undo| == |image| && Init(image, undo, generation).Some?
    requires Plain(Run(Init(image, undo, generation).value, es), peer, frame, STAT)
    ensures var s := Init(image, undo, generation).value;
      var now, free := Run(s, es), FreeSpace(LatestParsed(s, es, image));
      var (t, reply) := Step(now, Request(peer, frame));
      && t == now && free.Some? && Reports(reply, Decode(frame).value, generation, free.value)
      && (SharedOnly(s, es) ==> FreeSpace(Committed(now)) == free)
  {
    var s := Init(image, undo, generation).value;
    StartIsSmall(image, undo, generation);
    RunIsSmall(s, es);
    CommittedFreeIsCurrent(s, es, image);
    if SharedOnly(s, es) { SharedFreeSpace(s, es); }
    StatStep(Run(s, es), peer, frame);
  }

  /** Whether this peer may do this: take a lock nobody holds, or give up its own. */
  ghost predicate MayLockOp(s: State, peer: nat, frame: Frame, op: nat)
    requires s.Shape()
  {
    && op in {LOCK, UNLOCK, ABORT} && Plain(s, peer, frame, op) && s.peers[peer] == 2
    && if op == LOCK then s.locked < 0 else s.locked == peer
  }

  lemma LockStep(s: State, peer: nat, frame: Frame, op: nat)
    requires Inv(s) && Small(s) && MayLockOp(s, peer, frame, op)
    ensures var (t, reply) := Step(s, Request(peer, frame));
      Small(t) && Reports(reply, Decode(frame).value, s.generation, t.revision)
  {
    var t := Step(s, Request(peer, frame)).0;
    RunIsSmall(s, [Request(peer, frame)]);
    assert Run(s, [Request(peer, frame)]) == Run(t, []);
    ReplyReports(Decode(frame).value, s.generation, t.revision);
  }

  /**
   * LOCK, UNLOCK and ABORT are answered with the revision after them: one more than the publications since
   * start-up, the one just made included.
   */
  lemma LockReportsRevision(image: Image, undo: Image, generation: nat, es: seq<Event>, peer: nat, frame: Frame, op: nat)
    requires |undo| == |image| && Init(image, undo, generation).Some?
    requires MayLockOp(Run(Init(image, undo, generation).value, es), peer, frame, op)
    requires Publications(Init(image, undo, generation).value, es + [Request(peer, frame)]) < TWO_64 - 1
    ensures var s := Init(image, undo, generation).value;
      var reply := Step(Run(s, es), Request(peer, frame)).1;
      Reports(reply, Decode(frame).value, generation, 1 + Publications(s, es + [Request(peer, frame)]))
  {
    var s, e := Init(image, undo, generation).value, Request(peer, frame);
    StartIsSmall(image, undo, generation);
    RunIsSmall(s, es);
    RevisionCounts(s, es + [e]);
    RunSplit(s, es, [e]);
    assert Run(Run(s, es), [e]) == Run(Step(Run(s, es), e).0, []);
    LockStep(Run(s, es), peer, frame, op);
  }

  /** Whether a peer gets the lock: a shared peer, exactly when nobody holds it, and it is told. */
  lemma LockIsGranted(s: State, peer: nat, frame: Frame)
    requires Inv(s) && Small(s) && Plain(s, peer, frame, LOCK) && s.generation < TWO_64
    ensures var (t, reply) := Step(s, Request(peer, frame));
      && Decode(reply).Some?
      && Decode(reply).value.status == (if s.peers[peer] != 2 then INVALID else if s.locked >= 0 then BUSY else OK)
      && t == if s.peers[peer] == 2 && s.locked < 0 then s.(locked := peer) else s
  {
    if s.peers[peer] == 2 && s.locked < 0 {
      LockStep(s, peer, frame, LOCK);
    } else {
      LockIsRefused(s, peer, frame);
    }
  }

  lemma LockIsRefused(s: State, peer: nat, frame: Frame)
    requires Inv(s) && Plain(s, peer, frame, LOCK) && s.generation < TWO_64 && (s.peers[peer] != 2 || s.locked >= 0)
    ensures var (t, reply) := Step(s, Request(peer, frame));
      t == s && Decode(reply).Some? && Decode(reply).value.status == if s.peers[peer] != 2 then INVALID else BUSY
  {
    var h, status := Decode(frame).value, if s.peers[peer] != 2 then INVALID else BUSY;
    DecodeEncode(Header(Response(h.op), status, 0, h.id, 0, s.generation), []);
    assert Step(s, Request(peer, frame)).1 == Reply(h, s.generation, Refusal(h, status));
  }
}
