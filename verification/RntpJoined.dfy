/**
 * Client, server and the connection between them in one system: requests and replies are messages of two
 * byte streams over a network that loses, repeats and reorders segments. Whatever it does, the client
 * and the server behave as if one whole message at a time passed between them.
 */
module RntpJoined {
  import opened Bytes
  import opened RntpProtocol
  import opened RntpSessions
  import opened RntpReadAhead
  import opened RntpClient
  import opened RntpLease
  import RntpStream
  import Net = RntpConnection

  // ---------- Every request and every reply is one message ----------

  lemma ReplyIsMessage(h: Header, generation: nat, a: RntpProtocol.Answer)
    requires h.op < 256 && a.status < TWO_16 && |a.payload| <= BATCH_BYTES
    ensures Net.IsMessage(Reply(h, generation, a))
  {
    var out := Header(Response(h.op), a.status, |a.payload|, h.id, a.lba, generation);
    EncodeFields(out, a.payload);
    Widths();
    GetPut(0, 4);
    GetPut(|a.payload|, 4);
  }

  lemma AnswerFits(s: State, me: nat, h: Header, frame: Frame)
    requires Inv(s) && me < PEERS && Decode(frame) == Some(h)
    ensures var a := Attend(s, me, h, frame).1; a.status <= STALE && |a.payload| <= BATCH_BYTES
  {
    if Reads(h.op) {
      AttendRead(s, me, h, frame);
    }
  }

  lemma ServedIsMessage(s: State, me: nat, frame: Frame)
    requires Inv(s) && Complete(Serve(s, me, frame).1)
    ensures Net.IsMessage(Serve(s, me, frame).1)
  {
    var h := Decode(frame).value;
    AnswerFits(s, me, h, frame);
    ReplyIsMessage(h, s.generation, Attend(s, me, h, frame).1);
  }

  /** What a client with nothing under way issues. */
  lemma IssuedIsMessage(s: System, input: Input)
    requires s.server.Shape() && s.wire.Idle? && RntpClient.Next(s, input).0.wire.ToServer?
    ensures Net.IsMessage(RntpClient.Next(s, input).0.wire.frame)
  {
  }

  // ---------- What the connection does to the histories ----------

  /** The message under way, read off what was sent and what was handed up; a is the client's end. */
  ghost function WireOf(net: Net.System): Wire {
    if |net.a.sent| > |net.b.got| then ToServer(net.a.sent[|net.b.got|])
    else if |net.b.sent| > |net.a.got| then ToClient(net.b.sent[|net.a.got|])
    else Idle
  }

  ghost predicate OneUnderWay(net: Net.System) {
    && net.b.got <= net.a.sent && net.a.got <= net.b.sent
    && |net.a.sent| + |net.b.sent| <= |net.a.got| + |net.b.got| + 1
  }

  ghost predicate Carries(net: Net.System, w: Wire) { Net.Inv(net) && OneUnderWay(net) && WireOf(net) == w }

  /** The connection keeps its invariant and carries at most one message. */
  ghost predicate NetOk(net: Net.System) { exists w :: Carries(net, w) }

  lemma Unwrap(net: Net.System)
    requires NetOk(net)
    ensures Net.Runnable(net) && OneUnderWay(net)
  {
  }

  /** The connection's next state carries w if its histories say so. */
  lemma StillOk(net: Net.System, step: Net.Step, w: Wire)
    requires NetOk(net) && Net.Runnable(net)
    requires OneUnderWay(Net.Next(net, step)) && WireOf(Net.Next(net, step)) == w
    ensures NetOk(Net.Next(net, step))
  {
    Net.NextKeeps(net, step);
    assert Carries(Net.Next(net, step), w);
  }

  lemma Prefixes(net: Net.System, step: Net.Step)
    requires NetOk(net) && Net.Runnable(net)
    ensures var k := Net.Next(net, step); k.b.got <= k.a.sent && k.a.got <= k.b.sent
  {
    Net.NextKeeps(net, step);
    var k := Net.Next(net, step);
    Net.Delivered(k.a, k.b, k.ab);
    Net.Delivered(k.b, k.a, k.ba);
  }

  lemma PollHistory(x: Net.Side)
    requires x.e.Ok() && RntpStream.InProgress(x.e.rx)
    ensures var t := Net.ActPoll(x).0;
      && t.sent == x.sent && t.e.tx == x.e.tx
      && (t.got == x.got || (|t.got| == |x.got| + 1 && t.got[..|x.got|] == x.got))
  {
    Net.IncomingKeeps(x.e);
  }

  /** The steps of the connection that hand nothing over. */
  predicate Silent(step: Net.Step) { step.action.Pass? || step.action.Hear? || step.action.Ack? }

  lemma SilentHistory(x: Net.Side, inbox: set<Net.Segment>, action: Net.Action)
    requires x.e.Ok() && RntpStream.InProgress(x.e.rx) && (action.Pass? || action.Hear? || action.Ack?)
    ensures var t := Net.Act(x, inbox, action).0; t.sent == x.sent && t.got == x.got
  {
  }

  lemma SilentNet(net: Net.System, step: Net.Step)
    requires NetOk(net) && Net.Runnable(net) && Silent(step)
    ensures NetOk(Net.Next(net, step)) && WireOf(Net.Next(net, step)) == WireOf(net)
  {
    Unwrap(net);
    if step.ByA? {
      SilentHistory(net.a, net.ba, step.action);
    } else {
      SilentHistory(net.b, net.ab, step.action);
    }
    StillOk(net, step, WireOf(net));
  }

  /** A message given to one end of the connection while nothing is under way. */
  lemma SayByA(net: Net.System, m: Net.Message)
    requires NetOk(net) && Net.Runnable(net) && WireOf(net).Idle? && net.a.e.tx == []
    ensures NetOk(Net.Next(net, Net.ByA(Net.Say(m)))) && WireOf(Net.Next(net, Net.ByA(Net.Say(m)))) == ToServer(m)
  {
    Unwrap(net);
    assert net.a.sent == net.b.got;
    StillOk(net, Net.ByA(Net.Say(m)), ToServer(m));
  }

  lemma SayByB(net: Net.System, m: Net.Message)
    requires NetOk(net) && Net.Runnable(net) && WireOf(net).Idle? && net.b.e.tx == []
    ensures NetOk(Net.Next(net, Net.ByB(Net.Say(m)))) && WireOf(Net.Next(net, Net.ByB(Net.Say(m)))) == ToClient(m)
  {
    Unwrap(net);
    assert net.a.sent == net.b.got && net.b.sent == net.a.got;
    StillOk(net, Net.ByB(Net.Say(m)), ToClient(m));
  }

  /** What is handed up is the message under way. */
  lemma PollByA(net: Net.System)
    requires NetOk(net) && Net.Runnable(net)
    ensures var k := Net.Next(net, Net.ByA(Net.Poll));
      && NetOk(k)
      && if |k.a.got| > |net.a.got| then WireOf(net) == ToClient(k.a.got[|net.a.got|]) && WireOf(k).Idle?
         else WireOf(k) == WireOf(net)
  {
    Unwrap(net);
    PollHistory(net.a);
    Prefixes(net, Net.ByA(Net.Poll));
    StillOk(net, Net.ByA(Net.Poll), WireOf(Net.Next(net, Net.ByA(Net.Poll))));
  }

  lemma PollByB(net: Net.System)
    requires NetOk(net) && Net.Runnable(net)
    ensures var k := Net.Next(net, Net.ByB(Net.Poll));
      && NetOk(k) && k.b.e.tx == net.b.e.tx
      && if |k.b.got| > |net.b.got| then WireOf(net) == ToServer(k.b.got[|net.b.got|]) && WireOf(k).Idle?
         else WireOf(k) == WireOf(net)
  {
    Unwrap(net);
    PollHistory(net.b);
    Prefixes(net, Net.ByB(Net.Poll));
    StillOk(net, Net.ByB(Net.Poll), WireOf(Net.Next(net, Net.ByB(Net.Poll))));
  }

  // ---------- The joined system ----------

  /** The session, whose wire is not used and stays idle, and the connection under it; `retry` remembers a
      busy LOCK. */
  datatype Joined = Joined(t: Timed, net: Net.System, retry: bool)

  datatype Happening =
    | Clock(client: nat, server: nat)
    | Issue(input: Input)          // the client's own steps
    | ClientPoll(oldKernel: bool)
    | ServerPoll
    | Network(step: Net.Step)
    | Leave                        // the client gives up by itself
    | Expire
    | Close
    | Gone
    | Other(event: Event)

  function WithWire(t: Timed, wire: Wire): Timed { t.(s := t.s.(wire := wire)) }

  /** The session as RntpLease sees it: with whole messages passing. */
  ghost function Abs(j: Joined): Timed { WithWire(j.t, WireOf(j.net)) }

  /** j does what the session t does. */
  ghost predicate Matches(j: Joined, t: Timed) {
    && Abs(j) == t && LeaseInv(t) && NetOk(j.net) && j.t.s.wire.Idle?
    && (j.retry && j.t.s.live ==> WireOf(j.net).Idle? && j.t.s.client.waiting)
  }

  ghost predicate JoinedInv(j: Joined) { exists t :: Matches(j, t) }

  lemma Unpack(j: Joined)
    requires JoinedInv(j)
    ensures Matches(j, Abs(j))
  {
  }

  /** What every step needs of it. */
  lemma Basics(j: Joined)
    requires JoinedInv(j)
    ensures j.t.s.server.Shape() && Net.Runnable(j.net) && NetOk(j.net) && j.t.s.wire.Idle?
    ensures j.retry && j.t.s.live ==> WireOf(j.net).Idle? && j.t.s.client.waiting
  {
    Unwrap(j.net);
  }

  lemma ServerIsSound(j: Joined)
    requires JoinedInv(j)
    ensures Inv(j.t.s.server)
  {
  }

  predicate Issues(input: Input) { input.Control? || input.Batch? || input.Ask? || input.Retry? }

  /** The client may issue a request: its end of the connection has sent everything. */
  ghost predicate MayIssue(j: Joined, input: Input) {
    j.net.a.e.tx == [] && (input.Retry? ==> j.retry) && Issues(input)
  }

  /** The client issues a request by giving its bytes to its end of the connection. */
  ghost function IssueStep(j: Joined, input: Input): (Joined, Answered)
    requires JoinedInv(j) && MayIssue(j, input)
  {
    Basics(j);
    var (u, a) := LocalStep(j.t, input);
    if u.s.wire.ToServer? then
      IssuedIsMessage(j.t.s, input);
      (Joined(WithWire(u, Idle), Net.Next(j.net, Net.ByA(Net.Say(u.s.wire.frame))), j.retry && !input.Retry?), a)
    else (j.(t := u), a)
  }

  /** The client waits for a reply. */
  ghost predicate Listens(j: Joined) { j.t.s.live && j.t.s.client.waiting }

  /** The client reads its end; a whole message is the reply. */
  ghost function ClientStep(j: Joined, oldKernel: bool): (Joined, Answered)
    requires JoinedInv(j) && Listens(j)
  {
    Basics(j);
    if Late(j.t) then (j.(t := j.t.(s := Quit(j.t.s).0)), Nothing)
    else
      var net := Net.Next(j.net, Net.ByA(Net.Poll));
      if |net.a.got| <= |j.net.a.got| then (j.(net := net), Nothing)
      else TakeStep(j, net, oldKernel)
  }

  ghost function TakeStep(j: Joined, net: Net.System, oldKernel: bool): (Joined, Answered)
    requires JoinedInv(j) && |net.a.got| > |j.net.a.got|
  {
    Basics(j);
    var (u, a) := Taken(WithWire(j.t, ToClient(net.a.got[|j.net.a.got|])), oldKernel);
    (Joined(u, net, j.retry || (u.s.live && u.s.client.waiting)), a)
  }

  /** The server reads on when its last reply has gone out. */
  ghost predicate Serves(j: Joined) { j.t.held && !j.t.closing && j.net.b.e.tx == [] }

  /** The server reads its end; a whole message is served at once. */
  ghost function ServerStep(j: Joined): Joined
    requires JoinedInv(j) && Serves(j)
  {
    Basics(j);
    PollByB(j.net);
    PolledStep(j, Net.Next(j.net, Net.ByB(Net.Poll)))
  }

  /** Bytes it took renew the lease. */
  ghost function PolledStep(j: Joined, net: Net.System): Joined
    requires JoinedInv(j) && NetOk(net)
  {
    Basics(j);
    if |net.b.got| > |j.net.b.got| then ServedStep(j, net)
    else if net.b.e.received == j.net.b.e.received then j.(net := net)
    else j.(t := TimedStep(j.t, Consume).0, net := net)
  }

  /** What that is for the session. */
  ghost function Polled(j: Joined, net: Net.System): TimedEvent {
    if |net.b.got| > |j.net.b.got| then TimedEvent.Answer
    else if net.b.e.received == j.net.b.e.received then STILL else Consume
  }

  ghost function ServedStep(j: Joined, net: Net.System): Joined
    requires JoinedInv(j) && NetOk(net) && |net.b.got| > |j.net.b.got|
  {
    Basics(j);
    Unwrap(net);
    var u := AnswerRequest(WithWire(j.t, ToServer(net.b.got[|j.net.b.got|])));
    if u.s.wire.ToClient? then
      ServerIsSound(j);
      ServedIsMessage(j.t.s.server, j.t.s.me, net.b.got[|j.net.b.got|]);
      j.(t := WithWire(u, Idle), net := Net.Next(net, Net.ByB(Net.Say(u.s.wire.reply))))
    else j.(t := u, net := net)
  }

  /** Nothing happens. */
  const STILL := Tick(0, 0)

  /** What a step that leaves the connection alone is for the session. */
  ghost function Alone(j: Joined, e: Happening): TimedEvent {
    match e
    case Clock(client, server) => Tick(client, server)
    case Leave => Local(Disconnect)
    case Expire => TimedEvent.Expire
    case Close => if j.net.b.e.tx != [] then STILL else TimedEvent.Close
    case Gone => TimedEvent.Gone
    case Other(event) => TimedEvent.Other(event)
    case _ => STILL
  }

  /** One step; one whose guard fails changes nothing. */
  ghost function JoinedStep(j: Joined, e: Happening): (Joined, Answered)
    requires JoinedInv(j)
  {
    Basics(j);
    match e
    case Issue(input) => if MayIssue(j, input) then IssueStep(j, input) else (j, Nothing)
    case ClientPoll(oldKernel) => if Listens(j) then ClientStep(j, oldKernel) else (j, Nothing)
    case ServerPoll => (if Serves(j) then ServerStep(j) else j, Nothing)
    case Network(step) => (if Silent(step) then j.(net := Net.Next(j.net, step)) else j, Nothing)
    case _ => (j.(t := TimedStep(j.t, Alone(j, e)).0), Nothing)
  }

  // ---------- The joined system is the session ----------

  /** What one step of the joined system is for the session with whole messages. */
  ghost function Shadow(j: Joined, e: Happening): TimedEvent
    requires JoinedInv(j)
  {
    Basics(j);
    match e
    case Issue(input) => if MayIssue(j, input) then Local(input) else STILL
    case ClientPoll(oldKernel) =>
      if Listens(j) && (Late(j.t) || |Net.Next(j.net, Net.ByA(Net.Poll)).a.got| > |j.net.a.got|)
      then Local(Receive(oldKernel)) else STILL
    case ServerPoll =>
      if Serves(j) then Polled(j, Net.Next(j.net, Net.ByB(Net.Poll))) else STILL
    case _ => Alone(j, e)
  }

  /** The event takes the session that j does to the one that k does, with the same answer to the kernel. */
  ghost predicate Simulates(j: Joined, e: TimedEvent, k: Joined, a: Answered) {
    exists t, u :: Matches(j, t) && Matches(k, u) && TimedStep(t, e) == (u, a)
  }

  /** All that is left to show of a step once it is known to be the session's. */
  lemma Kept(j: Joined, k: Joined, e: TimedEvent, a: Answered)
    requires JoinedInv(j) && Abs(j).s.server.Shape() && TimedStep(Abs(j), e) == (Abs(k), a)
    requires NetOk(k.net) && k.t.s.wire.Idle?
    requires k.retry && k.t.s.live ==> WireOf(k.net).Idle? && k.t.s.client.waiting
    ensures Simulates(j, e, k, a)
  {
    Unpack(j);
    TimedKeeps(Abs(j), e);
    assert Matches(k, Abs(k));
  }

  /** Issuing with the wire left out is issuing with it. */
  lemma IssueSame(t: Timed, wire: Wire, input: Input)
    requires t.s.server.Shape() && t.s.wire.Idle? && Issues(input)
    requires wire.Idle? || !t.s.live || (t.s.client.waiting && !input.Retry?)
    ensures var (u, a) := LocalStep(t, input);
      && LocalStep(WithWire(t, wire), input) == (if u.s.wire.ToServer? then u else WithWire(u, wire), a)
      && (u.s.wire.ToServer? ==> wire.Idle? && t.s.live && u.s.client.waiting && (t.s.client.waiting ==> input.Retry?))
      && !u.s.wire.ToClient?
      && (u.s.live ==> t.s.live) && (t.s.client.waiting ==> u.s.client.waiting)
  {
    IssuedShape(t.s, input);
    IssuedShape(WithWire(t, wire).s, input);
  }

  /** A client that may issue something has nothing under way. */
  lemma QuietWire(j: Joined, input: Input)
    requires JoinedInv(j) && MayIssue(j, input)
    ensures WireOf(j.net).Idle? || !j.t.s.live || (j.t.s.client.waiting && !input.Retry?)
    ensures j.retry && j.t.s.live && (j.t.s.client.waiting ==> input.Retry?) ==> input.Retry?
  {
    Unpack(j);
  }

  lemma MessageSent(j: Joined, u: Timed, net: Net.System, input: Input, a: Answered)
    requires JoinedInv(j) && Abs(j).s.server.Shape() && LocalStep(Abs(j), input) == (u, a)
    requires u.s.wire.ToServer? && NetOk(net) && WireOf(net) == u.s.wire
    ensures Simulates(j, Local(input), Joined(WithWire(u, Idle), net, false), a)
  {
    var k := Joined(WithWire(u, Idle), net, false);
    assert Abs(k) == u;
    Kept(j, k, Local(input), a);
  }

  lemma IssueKeeps(j: Joined, input: Input)
    requires JoinedInv(j) && MayIssue(j, input)
    ensures var (k, a) := IssueStep(j, input); Simulates(j, Local(input), k, a)
  {
    Basics(j);
    QuietWire(j, input);
    IssueSame(j.t, WireOf(j.net), input);
    var (u, a) := LocalStep(j.t, input);
    if u.s.wire.ToServer? {
      IssuedIsMessage(j.t.s, input);
      SayByA(j.net, u.s.wire.frame);
      MessageSent(j, u, Net.Next(j.net, Net.ByA(Net.Say(u.s.wire.frame))), input, a);
    } else {
      Kept(j, j.(t := u), Local(input), a);
    }
  }

  lemma TakeKeeps(j: Joined, net: Net.System, oldKernel: bool)
    requires JoinedInv(j) && Listens(j) && !Late(j.t) && NetOk(net) && |net.a.got| > |j.net.a.got|
    requires WireOf(j.net) == ToClient(net.a.got[|j.net.a.got|]) && WireOf(net).Idle?
    ensures var (k, a) := TakeStep(j, net, oldKernel); Simulates(j, Local(Receive(oldKernel)), k, a)
  {
    Basics(j);
    var (k, a) := TakeStep(j, net, oldKernel);
    assert LocalStep(Abs(j), Receive(oldKernel)) == (Abs(k), a);
    Kept(j, k, Local(Receive(oldKernel)), a);
  }

  lemma ClientKeeps(j: Joined, oldKernel: bool)
    requires JoinedInv(j) && Listens(j)
    ensures var (k, a) := ClientStep(j, oldKernel); Simulates(j, Shadow(j, ClientPoll(oldKernel)), k, a)
  {
    if Late(j.t) {
      LateKeeps(j, oldKernel);
    } else {
      Basics(j);
      PollByA(j.net);
      var net := Net.Next(j.net, Net.ByA(Net.Poll));
      if |net.a.got| > |j.net.a.got| {
        TakeKeeps(j, net, oldKernel);
      } else {
        SameWire(j, net);
      }
    }
  }

  lemma LateKeeps(j: Joined, oldKernel: bool)
    requires JoinedInv(j) && Listens(j) && Late(j.t)
    ensures Simulates(j, Local(Receive(oldKernel)), ClientStep(j, oldKernel).0, Nothing)
  {
    Basics(j);
    Kept(j, ClientStep(j, oldKernel).0, Local(Receive(oldKernel)), Nothing);
  }

  /** The connection went on by itself. */
  lemma SameWire(j: Joined, net: Net.System)
    requires JoinedInv(j) && NetOk(net) && WireOf(net) == WireOf(j.net)
    ensures Simulates(j, STILL, j.(net := net), Nothing)
  {
    Basics(j);
    Kept(j, j.(net := net), STILL, Nothing);
  }

  lemma ServedKeeps(j: Joined, net: Net.System)
    requires JoinedInv(j) && Serves(j) && NetOk(net) && net.b.e.tx == [] && |net.b.got| > |j.net.b.got|
    requires WireOf(j.net) == ToServer(net.b.got[|j.net.b.got|]) && WireOf(net).Idle?
    ensures Simulates(j, TimedEvent.Answer, ServedStep(j, net), Nothing)
  {
    Basics(j);
    Unwrap(net);
    var u := AnswerRequest(Abs(j));
    AnswerShape(Abs(j));
    AnswerIs(Abs(j));
    if u.s.wire.ToClient? {
      ServerIsSound(j);
      ServedIsMessage(j.t.s.server, j.t.s.me, net.b.got[|j.net.b.got|]);
      SayByB(net, u.s.wire.reply);
      ServedIs(j, u, Net.Next(net, Net.ByB(Net.Say(u.s.wire.reply))));
    } else {
      ServedIs(j, u, net);
    }
  }

  lemma AnswerShape(t: Timed)
    requires t.s.server.Shape() && t.s.wire.ToServer?
    ensures var u := AnswerRequest(t); !u.s.wire.ToServer? && u.s.live == t.s.live && u.s.client == t.s.client
  {
  }

  lemma AnswerIs(t: Timed)
    requires t.s.server.Shape() && t.held && !t.closing && t.s.wire.ToServer?
    ensures TimedStep(t, TimedEvent.Answer) == (AnswerRequest(t), Nothing)
  {
  }

  /** The session's answer, with what it sends on its way in the connection. */
  lemma ServedIs(j: Joined, u: Timed, net: Net.System)
    requires JoinedInv(j) && Abs(j).s.server.Shape() && TimedStep(Abs(j), TimedEvent.Answer) == (u, Nothing)
    requires NetOk(net) && WireOf(net) == u.s.wire && u.s.live == j.t.s.live
    ensures Simulates(j, TimedEvent.Answer, j.(t := WithWire(u, Idle), net := net), Nothing)
  {
    var k := j.(t := WithWire(u, Idle), net := net);
    Basics(j);
    assert Abs(k) == u;
    Kept(j, k, TimedEvent.Answer, Nothing);
  }

  lemma ConsumedKeeps(j: Joined, net: Net.System)
    requires JoinedInv(j) && j.t.s.server.Shape() && NetOk(net) && WireOf(net) == WireOf(j.net)
    ensures Simulates(j, Consume, j.(t := TimedStep(j.t, Consume).0, net := net), Nothing)
  {
    Basics(j);
    Kept(j, j.(t := TimedStep(j.t, Consume).0, net := net), Consume, Nothing);
  }

  lemma ServerKeeps(j: Joined)
    requires JoinedInv(j) && Net.Runnable(j.net) && Serves(j)
    ensures Simulates(j, Polled(j, Net.Next(j.net, Net.ByB(Net.Poll))), ServerStep(j), Nothing)
  {
    Basics(j);
    PollByB(j.net);
    var net := Net.Next(j.net, Net.ByB(Net.Poll));
    PolledKeeps(j, net);
    assert ServerStep(j) == PolledStep(j, net);
  }

  lemma PolledKeeps(j: Joined, net: Net.System)
    requires JoinedInv(j) && Serves(j) && NetOk(net) && net.b.e.tx == []
    requires if |net.b.got| > |j.net.b.got| then WireOf(j.net) == ToServer(net.b.got[|j.net.b.got|]) && WireOf(net).Idle?
             else WireOf(net) == WireOf(j.net)
    ensures Simulates(j, Polled(j, net), PolledStep(j, net), Nothing)
  {
    Basics(j);
    if |net.b.got| > |j.net.b.got| {
      ServedKeeps(j, net);
    } else if net.b.e.received == j.net.b.e.received {
      SameWire(j, net);
    } else {
      ConsumedKeeps(j, net);
    }
  }

  lemma SilentKeeps(j: Joined, step: Net.Step)
    requires JoinedInv(j) && Net.Runnable(j.net) && Silent(step)
    ensures Simulates(j, STILL, j.(net := Net.Next(j.net, step)), Nothing)
  {
    Basics(j);
    SilentNet(j.net, step);
    SameWire(j, Net.Next(j.net, step));
  }

  /** The wire has no part in these events. */
  lemma WireAside(t: Timed, wire: Wire, e: TimedEvent)
    requires t.s.server.Shape() && !e.Answer? && (e.Local? ==> e.input.Disconnect?)
    ensures TimedStep(WithWire(t, wire), e).0 == WithWire(TimedStep(t, e).0, wire)
    ensures TimedStep(WithWire(t, wire), e).1 == TimedStep(t, e).1 == Nothing
    ensures var u := TimedStep(t, e).0; u.s.wire == t.s.wire && (u.s.live ==> t.s.live) && u.s.client == t.s.client
  {
  }

  lemma AloneKeeps(j: Joined, e: TimedEvent)
    requires JoinedInv(j) && j.t.s.server.Shape() && !e.Answer? && (e.Local? ==> e.input.Disconnect?)
    ensures Simulates(j, e, j.(t := TimedStep(j.t, e).0), Nothing)
  {
    Basics(j);
    WireAside(j.t, WireOf(j.net), e);
    Kept(j, j.(t := TimedStep(j.t, e).0), e, Nothing);
  }

  /** Every step of the joined system is one of the session, with the same answers to the kernel. */
  lemma JoinedKeeps(j: Joined, e: Happening)
    requires JoinedInv(j)
    ensures var (k, a) := JoinedStep(j, e); Simulates(j, Shadow(j, e), k, a)
  {
    Basics(j);
    match e
    case Issue(input) => if MayIssue(j, input) { IssueKeeps(j, input); } else { AloneKeeps(j, STILL); }
    case ClientPoll(oldKernel) => if Listens(j) { ClientKeeps(j, oldKernel); } else { AloneKeeps(j, STILL); }
    case ServerPoll => if Serves(j) { ServerKeeps(j); } else { AloneKeeps(j, STILL); }
    case Network(step) => if Silent(step) { SilentKeeps(j, step); } else { AloneKeeps(j, STILL); }
    case _ => AloneKeeps(j, Alone(j, e));
  }

  // ---------- Runs ----------

  /** Along the run every step is one of the session, and every read completed is safe. */
  ghost predicate AllReadsAreSafe(j: Joined, run: seq<Happening>)
    requires JoinedInv(j)
    decreases |run|
  {
    run == [] ||
    (JoinedKeeps(j, run[0]);
     var (k, a) := JoinedStep(j, run[0]);
     Simulates(j, Shadow(j, run[0]), k, a) && ReadIsSafe(Abs(j), a) && AllReadsAreSafe(k, run[1..]))
  }

  lemma {:induction false} JoinedReads(j: Joined, run: seq<Happening>)
    requires JoinedInv(j)
    ensures AllReadsAreSafe(j, run)
    decreases |run|
  {
    if run != [] {
      Unpack(j);
      JoinedKeeps(j, run[0]);
      TimedKeeps(Abs(j), Shadow(j, run[0]));
      JoinedReads(JoinedStep(j, run[0]).0, run[1..]);
    }
  }

  function Quiet(windowA: nat, windowB: nat): Net.System {
    Net.System(Net.Opened(windowA, true), Net.Opened(windowB, true), {}, {})
  }

  lemma QuietOk(windowA: nat, windowB: nat)
    ensures var net := Quiet(windowA, windowB); NetOk(net) && Net.Runnable(net) && WireOf(net).Idle?
  {
    var net := Quiet(windowA, windowB);
    Net.OpenedInv(net.a, net.b);
    Net.OpenedInv(net.b, net.a);
    assert Carries(net, Idle);
  }

  lemma HelloIsMessage(hello: nat)
    requires hello == HELLO || hello == HELLO_SHARED
    ensures Net.IsMessage(MakeRequest(hello, 1, 0, 0, []))
  {
  }

  /** Both ends just connected, the first HELLO given to the client's. */
  ghost function JoinedStart(t: Timed, windowA: nat, windowB: nat): Joined
    requires t.s.wire.ToServer? && Net.IsMessage(t.s.wire.frame)
  {
    Joined(WithWire(t, Idle), Net.Next(Quiet(windowA, windowB), Net.ByA(Net.Say(t.s.wire.frame))), false)
  }

  lemma StartKeeps(t: Timed, windowA: nat, windowB: nat)
    requires LeaseInv(t) && t.s.wire.ToServer? && Net.IsMessage(t.s.wire.frame)
    ensures var j := JoinedStart(t, windowA, windowB); JoinedInv(j) && Abs(j) == t
  {
    QuietOk(windowA, windowB);
    SayByA(Quiet(windowA, windowB), t.s.wire.frame);
    assert Matches(JoinedStart(t, windowA, windowB), t);
  }

  /** End to end: over a network that loses, repeats and reorders segments, with other peers, timeouts and
      disconnections at any moment, the two programs go through a run of the session with whole messages, and
      every sector the kernel is told was read is the one the server holds at that moment. */
  lemma ReadsAreCurrentEndToEnd(server: State, me: nat, hello: nat, bridge: bool, client: nat, clock: nat,
                                windowA: nat, windowB: nat, run: seq<Happening>)
    requires Inv(server) && me < PEERS && (hello == HELLO || hello == HELLO_SHARED)
    ensures var t := TimedStart(server, me, hello, bridge, client, clock);
      && Net.IsMessage(t.s.wire.frame) && Abs(JoinedStart(t, windowA, windowB)) == t
      && JoinedInv(JoinedStart(t, windowA, windowB))
      && AllReadsAreSafe(JoinedStart(t, windowA, windowB), run)
  {
    var t := TimedStart(server, me, hello, bridge, client, clock);
    HelloIsMessage(hello);
    StartInv(server, me, hello, bridge, client, clock);
    StartKeeps(t, windowA, windowB);
    JoinedReads(JoinedStart(t, windowA, windowB), run);
  }
}
