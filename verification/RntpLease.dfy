/**
 * The session with its clocks (c/rntp/main.c): the server may give up a client that knows nothing of it,
 * but never one that could still answer a read from its buffer.
 */
module RntpLease {
  import opened Bytes
  import opened RntpProtocol
  import opened RntpServer
  import opened RntpSessions
  import opened RntpReadAhead
  import opened RntpTheorems
  import opened RntpClient

  const EXCHANGE_TIMEOUT := 5000
  const HEARTBEAT_MS := 2000
  const LEASE_TIMEOUT := 10000

  /**
   * The session, live being the client's side of it and held the server's; closing once a refusal is
   * on its way after which the server closes. The two clocks are in milliseconds: activity is the server's
   * time of the last bytes it took from the client, heard the client's time at that moment; start and
   * lastStat are the client's times of its current exchange and of the last figures it got.
   */
  datatype Timed = Timed(s: System, held: bool, closing: bool, client: nat, server: nat,
                         activity: nat, heard: nat, start: nat, lastStat: nat)

  datatype TimedEvent =
    | Tick(client: nat, server: nat)
    | Local(input: Input)       // the client's own steps
    | Consume                   // part of a request arrives
    | Answer                    // a whole request arrives and is answered
    | Expire
    | Close
    | Gone                      // the server learns that the client is gone
    | Other(event: Event)

  /** The server's clock may run up to 10/7 times as fast as the client's. */
  predicate Passes(client: nat, server: nat) { 7 * server <= 10 * client }

  function Release(t: Timed): Timed
    requires t.s.server.Shape()
  {
    t.(held := false, s := t.s.(server := Drop(t.s.server, t.s.me)))
  }

  /** Figures are due when the disk is not mounted yet and every two seconds after. */
  predicate Due(t: Timed) { !t.s.client.attached || t.client - t.lastStat >= HEARTBEAT_MS }

  predicate Late(t: Timed) { t.client - t.start >= EXCHANGE_TIMEOUT }

  /** The client goes its way; an exchange it issues starts now. */
  function Issued(t: Timed, input: Input): (Timed, Answered)
    requires t.s.server.Shape()
  {
    var (s, a) := RntpClient.Next(t.s, input);
    (t.(s := s, start := if s.client.waiting && !t.s.client.waiting then t.client else t.start), a)
  }

  /** A reply taken in in time; the figures' moment is remembered. */
  function Taken(t: Timed, oldKernel: bool): (Timed, Answered)
    requires t.s.server.Shape() && t.s.wire.ToClient?
  {
    var (s, a) := ReceiveReply(t.s, t.s.wire.reply, oldKernel);
    var figures := t.s.client.expectedOp == STAT && s.live && !s.client.waiting;
    (t.(s := s.(wire := Idle), lastStat := if figures then t.client else t.lastStat), a)
  }

  function LocalStep(t: Timed, input: Input): (Timed, Answered)
    requires t.s.server.Shape()
  {
    match input
    case Control => if Due(t) then Issued(t, input) else (t, Nothing)
    case Batch(_, _) => if Due(t) then (t, Nothing) else Issued(t, input)
    case Ask(_) => if Due(t) then (t, Nothing) else Issued(t, input)
    case Retry => Issued(t, input)
    case Receive(oldKernel) =>
      if !t.s.live || !t.s.client.waiting then (t, Nothing)
      else if Late(t) then (t.(s := Quit(t.s).0), Nothing)
      else if t.s.wire.ToClient? then Taken(t, oldKernel)
      else (t, Nothing)
    case ServerTurn => (t, Nothing)
    case OtherPeer(_) => (t, Nothing)
    case Disconnect => (t.(s := Quit(t.s).0), Nothing)
  }

  /** A refusal after which the server closes the connection: any but a busy LOCK. */
  predicate Closes(op: nat, reply: Frame) {
    Decode(reply).Some? && Decode(reply).value.status != OK && !(op == LOCK && Decode(reply).value.status == BUSY)
  }

  function AnswerRequest(t: Timed): Timed
    requires t.s.server.Shape() && t.s.wire.ToServer?
  {
    var (server, reply) := Serve(t.s.server, t.s.me, t.s.wire.frame);
    var u := t.(s := t.s.(server := server), activity := t.server, heard := t.client);
    if !Complete(reply) then Release(u.(s := u.s.(wire := Idle)))
    else
      u.(s := u.s.(wire := ToClient(reply)),
         closing := Decode(t.s.wire.frame).Some? && Closes(Decode(t.s.wire.frame).value.op, reply))
  }

  /** One event; one whose guard fails changes nothing. */
  function TimedStep(t: Timed, e: TimedEvent): (r: (Timed, Answered))
    requires t.s.server.Shape()
  {
    match e
    case Tick(client, server) =>
      (if Passes(client, server) then t.(client := t.client + client, server := t.server + server) else t, Nothing)
    case Local(input) => LocalStep(t, input)
    case Consume => (if t.held then t.(activity := t.server, heard := t.client) else t, Nothing)
    case Answer => (if t.held && !t.closing && t.s.wire.ToServer? then AnswerRequest(t) else t, Nothing)
    case Expire => (if t.held && t.server - t.activity >= LEASE_TIMEOUT then Release(t) else t, Nothing)
    case Close => (if t.held && t.closing then Release(t) else t, Nothing)
    case Gone => (if t.held && !t.s.live then Release(t) else t, Nothing)
    case Other(event) =>
      (if event.peer == t.s.me then t else t.(s := t.s.(server := Step(t.s.server, event).0)), Nothing)
  }

  // ---------- The invariant ----------

  /** The reply under way, if any, ends the client's session. */
  predicate Refused(t: Timed) { t.s.wire.ToClient? && t.s.client.waiting && Closes(t.s.client.expectedOp, t.s.wire.reply) }

  /** Nothing the client does now makes it answer a read, unless the server answers it first. */
  predicate Mute(t: Timed) {
    if t.s.client.waiting then t.s.wire.ToClient? ==> Refused(t) || Late(t) else Due(t)
  }

  ghost predicate ClocksOk(t: Timed) {
    && t.heard <= t.client && t.activity <= t.server
    && Passes(t.client - t.heard, t.server - t.activity)
  }

  /** What the client's two moments are worth: the server was heard from since the exchange started. */
  ghost predicate MomentsOk(t: Timed) {
    && t.start <= t.client
    && (t.s.client.attached ==> t.lastStat <= t.client && t.lastStat < t.heard + EXCHANGE_TIMEOUT)
    && (t.s.wire.ToClient? ==> t.start <= t.heard)
  }

  ghost predicate LeaseInv(t: Timed) {
    && Inv(t.s.server) && t.s.me < PEERS && ClocksOk(t)
    && (t.s.live ==>
        && MomentsOk(t)
        && (!t.s.wire.Idle? ==> t.s.client.waiting)
        && (t.held ==> SysInv(t.s))
        && (t.held && t.closing ==> Refused(t))
        && (!t.held ==> Mute(t)))
  }

  /** The lease outlives the buffer: when the server may give the client up, the client answers nothing. */
  lemma LeaseOutlivesBuffer(t: Timed)
    requires LeaseInv(t) && t.s.live && t.server - t.activity >= LEASE_TIMEOUT
    ensures Mute(t)
  {
  }

  lemma ReleaseKeeps(t: Timed)
    requires LeaseInv(t) && (t.s.live ==> Mute(t))
    ensures LeaseInv(Release(t))
  {
    DropEffect(t.s.server, t.s.me);
  }

  // ---------- Steps ----------

  lemma TickKeeps(t: Timed, client: nat, server: nat)
    requires LeaseInv(t)
    ensures LeaseInv(TimedStep(t, Tick(client, server)).0)
  {
  }

  lemma ServerMoved(t: Timed, server: State)
    requires LeaseInv(t) && Inv(server)
    requires t.s.live && t.held ==> SysInv(t.s.(server := server))
    ensures LeaseInv(t.(s := t.s.(server := server)))
  {
  }

  lemma OtherKeeps(t: Timed, event: Event)
    requires LeaseInv(t)
    ensures LeaseInv(TimedStep(t, Other(event)).0)
  {
    if event.peer != t.s.me {
      StepEffect(t.s.server, event);
      if t.s.live && t.held {
        OtherPeerKeeps(t.s, event);
      }
      ServerMoved(t, Step(t.s.server, event).0);
    }
  }

  /** A read that ends is answered by a server that still holds the session, with its sectors. */
  ghost predicate ReadIsSafe(t: Timed, a: Answered) {
    a.ReadDone? ==>
      && t.held && t.server - t.activity < LEASE_TIMEOUT
      && Current(t.s.server.image, a.lba, a.run)
  }

  /** The client's requests while the server holds the session. */
  lemma IssuedKeeps(t: Timed, input: Input)
    requires LeaseInv(t) && t.held && (input.Control? || input.Batch? || input.Ask? || input.Retry?)
    requires input.Batch? || input.Ask? ==> !Due(t)
    ensures var (u, a) := Issued(t, input); LeaseInv(u) && ReadIsSafe(t, a)
  {
    if t.s.live {
      NextKeeps(t.s, input);
      IssuedShape(t.s, input);
    }
  }

  /** What issuing leaves as it is. */
  lemma IssuedShape(s: System, input: Input)
    requires s.server.Shape() && (input.Control? || input.Batch? || input.Ask? || input.Retry?)
    ensures var (u, a) := RntpClient.Next(s, input);
      && u.server == s.server && u.me == s.me && (u.live ==> s.live)
      && u.client.attached == s.client.attached
      && (u.wire == s.wire || u.wire.ToServer?)
      && (u.wire != s.wire ==> u.client.waiting)
      && (s.client.waiting ==> u.client.waiting && u.client.expectedOp == s.client.expectedOp && !a.ReadDone?)
      && (!u.client.waiting ==> u.wire == s.wire)
      && (a.ReadDone? ==> input.Ask? && s.live && s.client.attached)
  {
  }

  /** When the server has given the client up, the client ends up waiting for nobody. */
  lemma IssuedMute(t: Timed, input: Input)
    requires LeaseInv(t) && !t.held && (input.Control? || input.Batch? || input.Ask? || input.Retry?)
    requires input.Batch? || input.Ask? ==> !Due(t)
    ensures var (u, a) := Issued(t, input); LeaseInv(u) && !a.ReadDone?
  {
    IssuedShape(t.s, input);
  }

  /** What taking a reply in leaves as it is. */
  lemma TakenShape(s: System, oldKernel: bool)
    requires s.server.Shape() && s.live && s.client.waiting && s.wire.ToClient?
    ensures var (u, a) := ReceiveReply(s, s.wire.reply, oldKernel);
      && u.server == s.server && u.me == s.me
      && (u.live && u.client.attached && !s.client.attached ==> s.client.expectedOp == STAT && !u.client.waiting)
      && (Closes(s.client.expectedOp, s.wire.reply) ==> !u.live && !a.ReadDone?)
      && (u.live ==> u.wire == Idle)
      && (!u.live ==> !a.ReadDone?)
  {
  }

  lemma TakenKeeps(t: Timed, oldKernel: bool)
    requires LeaseInv(t) && t.s.live && t.s.client.waiting && t.s.wire.ToClient? && !Late(t)
    ensures var (u, a) := Taken(t, oldKernel); LeaseInv(u) && ReadIsSafe(t, a)
  {
    TakenShape(t.s, oldKernel);
    if t.held {
      ReceiveKeeps(t.s, t.s.wire.reply, oldKernel);
    }
  }

  lemma LocalKeeps(t: Timed, input: Input)
    requires LeaseInv(t)
    ensures var (u, a) := LocalStep(t, input); LeaseInv(u) && ReadIsSafe(t, a)
  {
    match input
    case Control => if Due(t) { IssuedBoth(t, input); }
    case Batch(_, _) => if !Due(t) { IssuedBoth(t, input); }
    case Ask(_) => if !Due(t) { IssuedBoth(t, input); }
    case Retry => IssuedBoth(t, input);
    case Receive(oldKernel) =>
      if t.s.live && t.s.client.waiting && !Late(t) && t.s.wire.ToClient? {
        TakenKeeps(t, oldKernel);
      }
    case _ =>
  }

  lemma IssuedBoth(t: Timed, input: Input)
    requires LeaseInv(t) && (input.Control? || input.Batch? || input.Ask? || input.Retry?)
    requires input.Batch? || input.Ask? ==> !Due(t)
    ensures var (u, a) := Issued(t, input); LeaseInv(u) && ReadIsSafe(t, a)
  {
    if t.held {
      IssuedKeeps(t, input);
    } else {
      IssuedMute(t, input);
    }
  }

  lemma AnswerKeeps(t: Timed)
    requires LeaseInv(t) && t.held && !t.closing && t.s.wire.ToServer?
    ensures LeaseInv(AnswerRequest(t))
  {
    StepEffect(t.s.server, Request(t.s.me, t.s.wire.frame));
    var (server, reply) := Serve(t.s.server, t.s.me, t.s.wire.frame);
    if Complete(reply) {
      AnsweredKeeps(t, server, reply);
    } else {
      DropEffect(server, t.s.me);
    }
  }

  lemma AnsweredKeeps(t: Timed, server: State, reply: Frame)
    requires LeaseInv(t) && t.held && !t.closing && t.s.wire.ToServer? && Inv(server)
    requires Serve(t.s.server, t.s.me, t.s.wire.frame) == (server, reply)
    ensures LeaseInv(AnswerRequest(t))
  {
    if t.s.live { ServerTurnKeeps(t.s); }
  }

  lemma TimedKeeps(t: Timed, e: TimedEvent)
    requires LeaseInv(t)
    ensures var (u, a) := TimedStep(t, e); LeaseInv(u) && ReadIsSafe(t, a)
  {
    match e
    case Tick(client, server) => TickKeeps(t, client, server);
    case Local(input) => LocalKeeps(t, input);
    case Consume =>
    case Answer => if t.held && !t.closing && t.s.wire.ToServer? { AnswerKeeps(t); }
    case Expire =>
      if t.held && t.server - t.activity >= LEASE_TIMEOUT {
        if t.s.live { LeaseOutlivesBuffer(t); }
        ReleaseKeeps(t);
      }
    case Close => if t.held && t.closing { ReleaseKeeps(t); }
    case Gone => if t.held && !t.s.live { ReleaseKeeps(t); }
    case Other(event) => OtherKeeps(t, event);
  }

  // ---------- Runs ----------

  /** Both sides just connected, the first HELLO on its way. */
  function TimedStart(server: State, me: nat, hello: nat, bridge: bool, client: nat, clock: nat): Timed
    requires hello == HELLO || hello == HELLO_SHARED
  {
    Timed(Start(server, me, hello, bridge), true, false, client, clock, clock, client, client, 0)
  }

  lemma StartInv(server: State, me: nat, hello: nat, bridge: bool, client: nat, clock: nat)
    requires Inv(server) && me < PEERS && (hello == HELLO || hello == HELLO_SHARED)
    ensures LeaseInv(TimedStart(server, me, hello, bridge, client, clock))
  {
  }

  ghost predicate ReadsAreSafe(t: Timed, run: seq<TimedEvent>)
    requires t.s.server.Shape()
    decreases |run|
  {
    run == [] ||
    (var (u, a) := TimedStep(t, run[0]);
     ReadIsSafe(t, a) && u.s.server.Shape() && ReadsAreSafe(u, run[1..]))
  }

  lemma {:induction false} RunIsSafe(t: Timed, run: seq<TimedEvent>)
    requires LeaseInv(t)
    ensures ReadsAreSafe(t, run)
    decreases |run|
  {
    if run != [] {
      TimedKeeps(t, run[0]);
      RunIsSafe(TimedStep(t, run[0]).0, run[1..]);
    }
  }

  /** Every read of every run, whatever either side gives up and when, is answered while the server holds the
      session within its lease, and with the sectors it holds at that moment. */
  lemma LeaseIsSafe(server: State, me: nat, hello: nat, bridge: bool, client: nat, clock: nat, run: seq<TimedEvent>)
    requires Inv(server) && me < PEERS && (hello == HELLO || hello == HELLO_SHARED)
    ensures ReadsAreSafe(TimedStart(server, me, hello, bridge, client, clock), run)
  {
    StartInv(server, me, hello, bridge, client, clock);
    RunIsSafe(TimedStart(server, me, hello, bridge, client, clock), run);
  }
}
