/** A write on its way through the whole system: from the kernel's request to the server's image, whatever
    the network does meanwhile. */
module RntpJoinedWrites {
  import opened Bytes
  import opened RntpProtocol
  import opened RntpSessions
  import opened RntpTheorems
  import opened RntpClient
  import opened RntpWrites
  import opened RntpLease
  import opened RntpJoined
  import Net = RntpConnection

  /** Events of the session that leave a request under way, and the image of the peer who may write, alone. */
  predicate Passing(e: TimedEvent, me: nat) { e.Tick? || e.Consume? || (e.Other? && e.event.peer != me) }

  /** The figures that decide what becomes of the request. */
  ghost predicate SameTarget(s: State, t: State, me: nat)
    requires s.Shape() && t.Shape() && me < PEERS
  {
    t.image == s.image && t.generation == s.generation && t.peers[me] == s.peers[me]
  }

  lemma OthersLeavePeer(s: State, me: nat, e: Event)
    requires s.Shape() && me < PEERS && e.peer != me
    ensures Step(s, e).0.peers[me] == s.peers[me]
  {
    match e
    case Release(peer) =>
    case Request(peer, frame) =>
      if peer < PEERS && Decode(frame).Some? { AttendLeavesPeer(s, peer, Decode(frame).value, frame, me); }
  }

  lemma AttendLeavesPeer(s: State, peer: nat, h: Header, frame: Frame, me: nat)
    requires s.Shape() && peer < PEERS && Decode(frame) == Some(h) && me < PEERS && peer != me
    ensures Attend(s, peer, h, frame).0.peers[me] == s.peers[me]
  {
    if IsWrite(h.op) { SharedWriteLeavesPeers(s, h, frame); }
  }

  lemma SharedWriteLeavesPeers(s: State, h: Header, frame: Frame)
    requires s.Shape() && Decode(frame) == Some(h)
    ensures SharedWrite(s, h, frame).0.peers == s.peers
  {
    if WriteShape(h, frame) && Writable(Targets(h, frame), |s.image|) {
      RememberAllKeeps(s, Targets(h, frame));
    }
  }

  lemma OtherKeepsTarget(s: State, me: nat, e: Event)
    requires Writer(s, me) && e.peer != me
    ensures var t := Step(s, e).0; Writer(t, me) && SameTarget(s, t, me)
  {
    StepEffect(s, e);
    OthersLeaveOwner(s, me, e);
    OthersLeavePeer(s, me, e);
  }

  /** The request is on its way to a server that will take it. */
  ghost predicate UnderWay(t: Timed, frame: Frame) {
    t.s.wire == ToServer(frame) && t.held && !t.closing && Writer(t.s.server, t.s.me)
  }

  lemma PassingStep(t: Timed, frame: Frame, e: TimedEvent)
    requires UnderWay(t, frame) && Passing(e, t.s.me)
    ensures var u := TimedStep(t, e).0; UnderWay(u, frame) && u.s.me == t.s.me && SameTarget(t.s.server, u.s.server, t.s.me)
  {
    if e.Other? { OtherKeepsTarget(t.s.server, t.s.me, e.event); }
  }

  lemma AbsStep(j: Joined, e: Happening)
    requires JoinedInv(j)
    ensures JoinedInv(JoinedStep(j, e).0) && Abs(j).s.server.Shape()
    ensures TimedStep(Abs(j), Shadow(j, e)) == (Abs(JoinedStep(j, e).0), JoinedStep(j, e).1)
  {
    JoinedKeeps(j, e);
  }

  /** The joined system after a run. */
  ghost function After(j: Joined, run: seq<Happening>): (k: Joined)
    requires JoinedInv(j)
    ensures JoinedInv(k)
    decreases |run|
  {
    if run == [] then j
    else
      AbsStep(j, run[0]);
      After(JoinedStep(j, run[0]).0, run[1..])
  }

  /** Until the server is handed the request: time passes, the network does what it likes, and others go on. */
  ghost predicate OnItsWay(j: Joined, run: seq<Happening>, me: nat)
    requires JoinedInv(j)
    decreases |run|
  {
    run == [] ||
    (AbsStep(j, run[0]);
     Passing(Shadow(j, run[0]), me) && OnItsWay(JoinedStep(j, run[0]).0, run[1..], me))
  }

  lemma {:induction false} StaysUnderWay(j: Joined, frame: Frame, run: seq<Happening>)
    requires JoinedInv(j) && UnderWay(Abs(j), frame) && OnItsWay(j, run, j.t.s.me)
    ensures var k := After(j, run);
      UnderWay(Abs(k), frame) && k.t.s.me == j.t.s.me && SameTarget(j.t.s.server, k.t.s.server, j.t.s.me)
    decreases |run|
  {
    if run != [] {
      AbsStep(j, run[0]);
      PassingStep(Abs(j), frame, Shadow(j, run[0]));
      StaysUnderWay(JoinedStep(j, run[0]).0, frame, run[1..]);
    }
  }

  /** The client may issue the kernel's next write. */
  ghost predicate MayIssueWrite(j: Joined) {
    JoinedInv(j) && MayAsk(Abs(j).s) && j.t.held && !j.t.closing && j.net.a.e.tx == [] && !RntpLease.Due(Abs(j))
  }

  lemma BatchIsUnderWay(j: Joined, id: nat, writes: seq<(nat, Sector)>)
    requires MayIssueWrite(j) && j.t.s.client.batchCapable && Encodable(id, writes)
    ensures var k := JoinedStep(j, Issue(Batch(id, writes))).0;
      && JoinedInv(k) && k.t.s.server == j.t.s.server && k.t.s.me == j.t.s.me
      && Abs(k).s.wire.ToServer? && IsBatch(Abs(k).s.wire.frame, id, j.t.s.server.generation, writes)
      && UnderWay(Abs(k), Abs(k).s.wire.frame)
  {
    AbsStep(j, Issue(Batch(id, writes)));
    IssuedCarries(Abs(j).s, id, writes);
  }

  /** A request that is handed up is served. */
  lemma AnswerServes(j: Joined, e: Happening, frame: Frame)
    requires JoinedInv(j) && UnderWay(Abs(j), frame) && Shadow(j, e) == TimedEvent.Answer
    ensures var k := JoinedStep(j, e).0;
      var (server, reply) := Serve(j.t.s.server, j.t.s.me, frame);
      JoinedInv(k) && (Complete(reply) ==> k.t.s.server == server && Abs(k).s.wire == ToClient(reply))
  {
    AbsStep(j, e);
  }

  /**
   * End to end: a batch the client issues, segmented, lost, repeated and reordered on its way as it may be, lands
   * in the server's image, sector by sector, at the moment the server is handed it, or is refused there.
   */
  lemma BatchLandsEndToEnd(j: Joined, id: nat, writes: seq<(nat, Sector)>, run: seq<Happening>)
    requires MayIssueWrite(j) && j.t.s.client.batchCapable && Encodable(id, writes)
    ensures var k := JoinedStep(j, Issue(Batch(id, writes))).0;
      && JoinedInv(k)
      && (OnItsWay(k, run, j.t.s.me) && Shadow(After(k, run), ServerPoll) == TimedEvent.Answer ==>
            var m := JoinedStep(After(k, run), ServerPoll).0;
            && Abs(m).s.wire.ToClient? && Decode(Abs(m).s.wire.reply).Some?
            && if MayWrite(j.t.s.server, j.t.s.me, writes) then
                 Decode(Abs(m).s.wire.reply).value.status == OK && Landed(j.t.s.server.image, m.t.s.server.image, writes)
               else Decode(Abs(m).s.wire.reply).value.status == INVALID && m.t.s.server.image == j.t.s.server.image)
  {
    BatchIsUnderWay(j, id, writes);
    var k := JoinedStep(j, Issue(Batch(id, writes))).0;
    var frame := Abs(k).s.wire.frame;
    if OnItsWay(k, run, j.t.s.me) && Shadow(After(k, run), ServerPoll) == TimedEvent.Answer {
      StaysUnderWay(k, frame, run);
      var m := After(k, run);
      BatchServed(m.t.s.server, m.t.s.me, frame, id, writes);
      AnswerServes(m, ServerPoll, frame);
    }
  }

  /** The same for one sector. */
  lemma WriteLandsEndToEnd(j: Joined, p: Pending, run: seq<Happening>)
    requires MayIssueWrite(j) && p.Fits() && p.op == WRITE && p.id > 0
    ensures var k := JoinedStep(j, Issue(Ask(p))).0;
      && JoinedInv(k)
      && (OnItsWay(k, run, j.t.s.me) && Shadow(After(k, run), ServerPoll) == TimedEvent.Answer ==>
            var m := JoinedStep(After(k, run), ServerPoll).0;
            && Abs(m).s.wire.ToClient? && Decode(Abs(m).s.wire.reply).Some?
            && if MayWriteAt(j.t.s.server, j.t.s.me, p.lba) then
                 && Decode(Abs(m).s.wire.reply).value.status == OK
                 && m.t.s.server.image == j.t.s.server.image[p.lba := p.data]
               else Decode(Abs(m).s.wire.reply).value.status == INVALID && m.t.s.server.image == j.t.s.server.image)
  {
    WriteIsUnderWay(j, p);
    var k := JoinedStep(j, Issue(Ask(p))).0;
    var frame := Abs(k).s.wire.frame;
    if OnItsWay(k, run, j.t.s.me) && Shadow(After(k, run), ServerPoll) == TimedEvent.Answer {
      StaysUnderWay(k, frame, run);
      var m := After(k, run);
      WriteServed(m.t.s.server, m.t.s.me, frame, p.id, p.lba, p.data);
      AnswerServes(m, ServerPoll, frame);
    }
  }

  lemma WriteIsUnderWay(j: Joined, p: Pending)
    requires MayIssueWrite(j) && p.Fits() && p.op == WRITE && p.id > 0
    ensures var k := JoinedStep(j, Issue(Ask(p))).0;
      && JoinedInv(k) && k.t.s.server == j.t.s.server && k.t.s.me == j.t.s.me
      && Abs(k).s.wire.ToServer? && var frame := Abs(k).s.wire.frame;
      && IsOneWrite(frame, p.id, j.t.s.server.generation, p.lba, p.data) && UnderWay(Abs(k), frame)
  {
    AbsStep(j, Issue(Ask(p)));
    IssuedWrite(Abs(j).s, p);
  }
}
