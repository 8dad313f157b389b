/** Where the stream stops being reliable: after exactly 2^32 bytes a stale segment, or a stale
    acknowledgment, passes for a fresh one. The runs are runs of the transport: one side sends, the other
    takes in and answers nothing, and the message, a PING with 24 bytes of payload, is whole as far as
    the framing is concerned, though an RNTP server would refuse it and close. */
module RntpAliasing {
  import opened Bytes
  import opened RntpProtocol
  import opened RntpStream
  import opened RntpConnection

  const UNIT := 64
  /** As many messages of 64 bytes as make 2^32 bytes. */
  const ROUND := 0x400_0000

  /** A message of 64 bytes, sent over and over. */
  type Unit = m: Message | |m| == UNIT ghost witness (IsUnit(); Filler())

  function Filler(): seq<byte> { Encode(Header(PING, 0, 24, 1, 0, 0)) + seq(24, _ => 0) }

  lemma IsUnit()
    ensures IsMessage(Filler()) && |Filler()| == UNIT
  {
    DecodeEncode(Header(PING, 0, 24, 1, 0, 0), seq(24, _ => 0));
  }

  function Copies(m: Unit, n: nat): seq<Message> { seq(n, _ => m) }

  lemma {:induction false} FlatCopies(m: Unit, n: nat)
    ensures |Flat(Copies(m, n))| == UNIT * n
  {
    if n > 0 {
      assert Copies(m, n) == Copies(m, n - 1) + [m];
      FlatSnoc(Copies(m, n - 1), m);
      FlatCopies(m, n - 1);
    }
  }

  // ---------- Reachability ----------

  ghost predicate Reaches(s: System, t: System) { Inv(s) && Inv(t) && exists steps :: Run(s, steps) == t }

  lemma {:induction false} RunAppend(s: System, steps: seq<Step>, more: seq<Step>)
    requires Inv(s)
    ensures Inv(Run(s, steps)) && Run(s, steps + more) == Run(Run(s, steps), more)
    decreases |steps|
  {
    if steps == [] {
      assert steps + more == more;
    } else {
      NextKeeps(s, steps[0]);
      var t := Next(s, steps[0]);
      assert (steps + more)[1..] == steps[1..] + more;
      RunAppend(t, steps[1..], more);
    }
  }

  // ---------- One message there and its acknowledgment back ----------

  lemma BurstOne(e: Endpoint, f: Endpoint)
    requires e.txPos == 0 && e.flight == 0 && |e.tx| == UNIT && e.peerWindow >= UNIT && f == SendNew(e, UNIT, 0)
    ensures Burst(e, MAX_PAYLOAD, 0, 8) == (f, [NewOut(e, UNIT)])
  {
    assert NewAmount(e, MAX_PAYLOAD) == UNIT;
    assert Burst(f, MAX_PAYLOAD, 0, 7) == (f, []);
    assert [NewOut(e, UNIT)] + [] == [NewOut(e, UNIT)];
  }

  lemma PassSends(x: Side, m: Unit)
    requires TxOk(x) && x.e.tx == m && x.e.txPos == 0 && x.e.flight == 0 && x.e.peerWindow >= UNIT
    ensures var (t, launched) := ActPass(x, MAX_PAYLOAD, 0);
      && t == x.(e := t.e) && t.e.tx == m && t.e.txPos == 0 && t.e.flight == UNIT
      && t.e.rx == x.e.rx && t.e.received == x.e.received
      && exists g <- launched :: g.at == x.Base() && g.packet.data == m
  {
    var e := x.e;
    var f := SendNew(e, UNIT, 0);
    assert TakeAck(e, 0) == e && Repeat(e, MAX_PAYLOAD, 0) == (e, []) && Probe(f, 0) == (f, []);
    BurstOne(e, f);
    assert [] + [NewOut(e, UNIT)] + [] == [NewOut(e, UNIT)];
    assert Pump(e, MAX_PAYLOAD, 0) == (f, [NewOut(e, UNIT)]);
    var s := x.(e := f);
    assert m[0..UNIT] == m && Forget(f) == f;
    var o := NewOut(e, UNIT);
    assert Segment(s.Base() + o.off, s.Got(), o.packet) in Launch(s, [o]);
  }

  /** A whole message that arrives where nothing waits, whatever stream position it had. */
  lemma HearTakes(y: Side, g: Segment, m: Unit)
    requires y.e.Ok() && y.e.rx == [] && y.e.received == [] && g.packet.data == m && g.packet.seqNum == y.e.ackNum
    ensures var (t, launched) := ActHear(y, g);
      && t.got == y.got && t.sent == y.sent && t.e.tx == y.e.tx && t.e.rx == [] && t.e.received == m
      && exists r <- launched :: r.packet.data == [] && r.ackAt == y.Got() + UNIT && r.packet.window == CAPACITY - UNIT
  {
    var t := ActHear(y, g).0;
    assert m[..UNIT] == m;
    assert OnPacket(y.e, g.packet).1 == [t.e.PureAck()];
    var o := t.e.PureAck();
    assert Segment(t.Base() + o.off, t.Got(), o.packet) in Launch(t, [o]);
  }

  lemma IncomingWhole(e: Endpoint, m: Unit)
    requires e.rx == [] && e.received == m
    ensures InProgress(e.rx) && Incoming(e).0 == e.(rx := m, received := []) && Incoming(e).1 == Ready
  {
    var f := e.(rx := m[..HEADER], received := m[HEADER..]);
    assert [] + m[..HEADER] == m[..HEADER] && m[..HEADER] + m[HEADER..] == m;
    DecodePrefix(m[..HEADER], m[HEADER..]);
    assert Need(f.rx) == Some(UNIT);
    var g := e.(rx := m, received := []);
    assert m[HEADER..][..UNIT - HEADER] == m[HEADER..] && m[HEADER..][UNIT - HEADER..] == [];
    assert Incoming(g) == (g, Ready, []);
    assert Incoming(f).0 == g && Incoming(f).1 == Ready;
  }

  lemma PollHandsUp(y: Side, m: Unit)
    requires y.e.rx == [] && y.e.received == m
    ensures InProgress(y.e.rx)
    ensures var t := ActPoll(y).0;
      t.got == y.got + [m] && t.sent == y.sent && t.e.tx == y.e.tx && t.e.rx == [] && t.e.received == []
  {
    IncomingWhole(y.e, m);
  }

  /** An acknowledgment that reads as the end of the flight, fresh or stale, ends it. */
  lemma HearAcknowledges(x: Side, g: Segment)
    requires TxOk(x) && x.e.txPos == 0 && x.e.flight == UNIT && x.ackedAt == x.Base()
    requires g.packet.ackNum == x.e.seqNum && g.packet.data == []
    ensures var t := ActHear(x, g).0;
      t == x.(e := x.e.(txAcked := x.e.seqNum, peerWindow := g.packet.window), ackedAt := x.SentTo())
  {
    AckRange(x, g.packet.ackNum);
    SeqMinus(x.SentTo(), x.ackedAt);
    SmallMod(UNIT);
  }

  lemma PassForgets(x: Side, m: Unit)
    requires TxOk(x) && x.e.tx == m && x.e.txPos == 0 && x.e.flight == UNIT && x.ackedAt == x.SentTo()
    ensures var t := ActPass(x, MAX_PAYLOAD, 0).0;
      && t == x.(e := t.e) && t.e.tx == [] && t.e.txPos == 0 && t.e.flight == 0 && t.e.peerWindow == x.e.peerWindow
      && t.e.rx == x.e.rx && t.e.received == x.e.received
  {
    AckedAmount(x);
    var f := TakeAck(x.e, 0);
    assert f.txPos == UNIT && f.flight == 0;
    assert Burst(f, MAX_PAYLOAD, 0, 8) == (f, []);
    assert Pump(x.e, MAX_PAYLOAD, 0).0 == f;
  }

  // ---------- The run ----------

  ghost predicate Sent(gs: set<Segment>, at: nat, m: Unit) { exists g <- gs :: g.at == at && g.packet.data == m }

  ghost predicate Acknowledged(gs: set<Segment>, at: nat) {
    exists g <- gs :: g.ackAt == at && g.packet.data == [] && g.packet.window == CAPACITY - UNIT
  }

  /** The sender with n messages acknowledged, and none, or one more, given to it. */
  ghost predicate Sender(x: Side, m: Unit, n: nat, more: nat) {
    && x.sent == Copies(m, n + more) && more <= 1
    && x.e.tx == (if more == 0 then [] else m) && x.ackedAt == UNIT * n && x.e.txPos == 0
  }

  /** The receiver with n messages handed up and nothing waiting. */
  ghost predicate Receiver(y: Side, m: Unit, n: nat) {
    y.got == Copies(m, n) && y.e.rx == [] && y.e.received == []
  }

  /** The first message and its acknowledgment are in the network for good. */
  ghost predicate Stale(s: System, m: Unit, n: nat) { n > 0 ==> Sent(s.ab, 0, m) && Acknowledged(s.ba, UNIT) }

  ghost predicate Quiet(s: System, m: Unit, n: nat) {
    Sender(s.a, m, n, 0) && s.a.e.flight == 0 && s.a.e.peerWindow >= UNIT && Receiver(s.b, m, n) && Stale(s, m, n)
  }

  ghost predicate Given(s: System, m: Unit, n: nat) {
    Sender(s.a, m, n, 1) && s.a.e.flight == 0 && s.a.e.peerWindow >= UNIT && Receiver(s.b, m, n) && Stale(s, m, n)
  }

  ghost predicate Flying(s: System, m: Unit, n: nat) {
    && Sender(s.a, m, n, 1) && s.a.e.flight == UNIT && Receiver(s.b, m, n) && Stale(s, m, n)
    && Sent(s.ab, UNIT * n, m)
  }

  ghost predicate Arrived(s: System, m: Unit, n: nat) {
    && Sender(s.a, m, n, 1) && s.a.e.flight == UNIT && Stale(s, m, n + 1) && Acknowledged(s.ba, UNIT * (n + 1))
    && s.b.got == Copies(m, n) && s.b.e.rx == [] && s.b.e.received == m
  }

  ghost predicate HandedUp(s: System, m: Unit, n: nat) {
    && Sender(s.a, m, n, 1) && s.a.e.flight == UNIT && Stale(s, m, n + 1) && Acknowledged(s.ba, UNIT * (n + 1))
    && Receiver(s.b, m, n + 1)
  }

  ghost predicate Answered(s: System, m: Unit, n: nat) {
    && s.a.sent == Copies(m, n + 1) && s.a.e.tx == m && s.a.e.txPos == 0 && s.a.e.flight == UNIT
    && s.a.ackedAt == UNIT * (n + 1) && s.a.e.peerWindow >= UNIT
    && Receiver(s.b, m, n + 1) && Stale(s, m, n + 1)
  }

  lemma CopiesSnoc(m: Unit, n: nat)
    ensures Copies(m, n) + [m] == Copies(m, n + 1)
  {
  }

  lemma CopiesLength(m: Unit, n: nat)
    ensures |Flat(Copies(m, n))| == UNIT * n && |Flat(Copies(m, n + 1))| == UNIT * n + UNIT
  {
    FlatCopies(m, n);
    FlatCopies(m, n + 1);
  }

  lemma SayStep(t: System, m: Unit, n: nat)
    requires Inv(t) && Quiet(t, m, n)
    ensures Given(Next(t, ByA(Say(m))), m, n)
  {
    CopiesSnoc(m, n);
  }

  lemma SendStep(t: System, m: Unit, n: nat)
    requires Inv(t) && Given(t, m, n)
    ensures Flying(Next(t, ByA(Pass(MAX_PAYLOAD, 0))), m, n)
  {
    CopiesLength(m, n);
    PassSends(t.a, m);
    assert t.a.Base() == UNIT * n;
  }

  lemma HearStep(t: System, m: Unit, n: nat) returns (step: Step)
    requires Inv(t) && Flying(t, m, n)
    ensures Arrived(Next(t, step), m, n)
  {
    var g :| g in t.ab && g.at == UNIT * n && g.packet.data == m;
    Arrival(t.b, t.a, g, m, n);
    var (y, launched) := ActHear(t.b, g);
    Taken(t.b, g, m, UNIT * (n + 1));
    Wider(t.ba, launched, UNIT);
    Wider(t.ba, launched, UNIT * (n + 1));
    step := ByB(Hear(g));
    HeardByB(t, g);
  }

  lemma HeardByB(t: System, g: Segment)
    requires Runnable(t) && g in t.ab && g.at == t.b.Got()
    ensures Next(t, ByB(Hear(g))) == t.(b := ActHear(t.b, g).0, ba := t.ba + ActHear(t.b, g).1)
  {
    assert Deliverable(t.b, t.ab, g);
  }

  lemma HeardByA(t: System, g: Segment)
    requires Runnable(t) && g in t.ba && g.packet.data == []
    ensures Next(t, ByA(Hear(g))) == t.(a := ActHear(t.a, g).0, ab := t.ab + ActHear(t.a, g).1)
  {
    assert Deliverable(t.a, t.ba, g);
  }

  lemma Wider(gs: set<Segment>, more: set<Segment>, at: nat)
    ensures Acknowledged(gs, at) || Acknowledged(more, at) ==> Acknowledged(gs + more, at)
  {
  }

  lemma Taken(y: Side, g: Segment, m: Unit, at: nat)
    requires y.e.Ok() && y.e.rx == [] && y.e.received == [] && g.packet.data == m && g.packet.seqNum == y.e.ackNum
    requires at == y.Got() + UNIT
    ensures var (t, launched) := ActHear(y, g);
      t.got == y.got && t.e.rx == [] && t.e.received == m && Acknowledged(launched, at)
  {
    HearTakes(y, g, m);
  }

  lemma Arrival(y: Side, x: Side, g: Segment, m: Unit, n: nat)
    requires RxOk(y, x) && SegmentOk(x, g) && Receiver(y, m, n) && g.at == UNIT * n
    ensures g.packet.seqNum == y.e.ackNum && y.Got() == g.at
  {
    FlatCopies(m, n);
  }

  lemma PollStep(t: System, m: Unit, n: nat)
    requires Inv(t) && Arrived(t, m, n)
    ensures HandedUp(Next(t, ByB(Poll)), m, n)
  {
    CopiesSnoc(m, n);
    PollHandsUp(t.b, m);
  }

  lemma AckStep(t: System, m: Unit, n: nat) returns (step: Step)
    requires Inv(t) && HandedUp(t, m, n)
    ensures Answered(Next(t, step), m, n)
  {
    var g :| g in t.ba && g.ackAt == UNIT * (n + 1) && g.packet.data == [] && g.packet.window == CAPACITY - UNIT;
    Answer(t.a, t.b, g, m, n);
    step := ByA(Hear(g));
    HeardByA(t, g);
  }

  /** An acknowledgment for the end of message n + 1, or for a position a multiple of 2^32 away. */
  lemma Answer(x: Side, y: Side, g: Segment, m: Unit, n: nat)
    requires TxOk(x) && Sender(x, m, n, 1) && x.e.flight == UNIT
    requires SegmentOk(y, g) && Seq32(g.ackAt) == Seq32(UNIT * (n + 1)) && g.packet.data == []
    ensures ActHear(x, g).0 == x.(e := x.e.(txAcked := x.e.seqNum, peerWindow := g.packet.window), ackedAt := UNIT * (n + 1))
    ensures x.SentTo() == UNIT * (n + 1)
  {
    CopiesLength(m, n);
    HearAcknowledges(x, g);
  }

  lemma ForgetStep(t: System, m: Unit, n: nat)
    requires Inv(t) && Answered(t, m, n)
    ensures Quiet(Next(t, ByA(Pass(MAX_PAYLOAD, 0))), m, n + 1)
  {
    CopiesLength(m, n);
    PassForgets(t.a, m);
  }

  /** One message, from being given to the sender to its acknowledgment. */
  lemma Lap(s: System, t: System, m: Unit, n: nat) returns (r: System)
    requires Reaches(s, t) && Quiet(t, m, n)
    ensures Reaches(s, r) && Quiet(r, m, n + 1)
  {
    r := Launches(s, t, m, n);
    var step := HearStep(r, m, n);
    r := Onward(s, r, step);
    PollStep(r, m, n);
    r := Onward(s, r, ByB(Poll));
    step := AckStep(r, m, n);
    r := Onward(s, r, step);
    ForgetStep(r, m, n);
    r := Onward(s, r, ByA(Pass(MAX_PAYLOAD, 0)));
  }

  lemma Launches(s: System, t: System, m: Unit, n: nat) returns (r: System)
    requires Reaches(s, t) && Quiet(t, m, n)
    ensures Reaches(s, r) && Flying(r, m, n)
  {
    SayStep(t, m, n);
    r := Onward(s, t, ByA(Say(m)));
    SendStep(r, m, n);
    r := Onward(s, r, ByA(Pass(MAX_PAYLOAD, 0)));
  }

  lemma Onward(s: System, t: System, step: Step) returns (r: System)
    requires Reaches(s, t)
    ensures r == Next(t, step) && Reaches(s, r)
  {
    var steps :| Run(s, steps) == t;
    RunAppend(s, steps, [step]);
    NextKeeps(t, step);
    r := Next(t, step);
    assert Run(t, [step]) == Run(r, []) == r;
    assert Run(s, steps + [step]) == r;
  }

  function Start(window: nat): System { System(Opened(window, true), Opened(window, true), {}, {}) }

  lemma StartQuiet(window: nat, m: Unit)
    requires window >= UNIT
    ensures Reaches(Start(window), Start(window)) && Quiet(Start(window), m, 0)
  {
    var s := Start(window);
    OpenedInv(s.a, s.b);
    assert Run(s, []) == s;
  }

  lemma {:induction false} RunOfCopies(window: nat, m: Unit, n: nat) returns (t: System)
    requires window >= UNIT
    ensures Reaches(Start(window), t) && Quiet(t, m, n)
    decreases n, |m|
  {
    if n == 0 {
      StartQuiet(window, m);
      t := Start(window);
    } else {
      t := RunOfCopies(window, m, n - 1);
      t := Lap(Start(window), t, m, n - 1);
    }
  }

  /** After 2^32 bytes the first segment is still in the network and passes for the next one: the peer
      hands up one message more than it was sent. */
  lemma StaleSegmentIsDelivered(window: nat, m: Unit) returns (t: System, g: Segment)
    requires window >= UNIT
    ensures Reaches(Start(window), t) && g in t.ab && Aliases(t.b, g)
    ensures t.a.sent == t.b.got == Copies(m, ROUND) && DeliversTooMuch(t, g)
  {
    t := RunOfCopies(window, m, ROUND);
    g := StaleSegment(t, m);
  }

  /** Heard and polled, the segment makes the messages handed up no prefix of those sent. */
  ghost predicate DeliversTooMuch(t: System, g: Segment)
    requires Inv(t)
  {
    var y := ActHear(t.b, g).0;
    InProgress(y.e.rx) && !(ActPoll(y).0.got <= t.a.sent)
  }

  lemma StaleSegment(t: System, m: Unit) returns (g: Segment)
    requires Inv(t) && Quiet(t, m, ROUND)
    ensures g in t.ab && Aliases(t.b, g) && DeliversTooMuch(t, g)
  {
    g :| g in t.ab && g.at == 0 && g.packet.data == m;
    FlatCopies(m, ROUND);
    assert t.b.Got() == TWO_32;
    InOrder(t.b, t.a, g);
    HearTakes(t.b, g, m);
    PollHandsUp(ActHear(t.b, g).0, m);
  }

  /** The same for acknowledgments: an old one passes for that of a message which is still on its way,
      and the sender forgets it, never to send it again. */
  lemma StaleAckIsTaken(window: nat, m: Unit) returns (t: System)
    requires window >= UNIT
    ensures Reaches(Start(window), t)
    ensures t.a.e.tx == [] && t.a.sent == t.b.got + [m] && t.a.ackedAt > t.b.Got()
  {
    t := RunOfCopies(window, m, ROUND);
    t := Launches(Start(window), t, m, ROUND);
    var step := StaleAckStep(t, m, ROUND);
    t := Onward(Start(window), t, step);
    CopiesSnoc(m, ROUND);
    CopiesLength(m, ROUND);
    PassForgets(t.a, m);
    t := Onward(Start(window), t, ByA(Pass(MAX_PAYLOAD, 0)));
  }

  /** Message n + 1 counts as acknowledged, and it has not arrived. */
  ghost predicate Misled(s: System, m: Unit, n: nat) {
    && s.a.sent == Copies(m, n + 1) && s.a.e.tx == m && s.a.e.txPos == 0 && s.a.e.flight == UNIT
    && s.a.ackedAt == UNIT * (n + 1) && Receiver(s.b, m, n)
  }

  lemma OnceRound()
    ensures Seq32(UNIT) == Seq32(UNIT * (ROUND + 1))
  {
  }

  lemma StaleAckStep(t: System, m: Unit, n: nat) returns (step: Step)
    requires Inv(t) && Flying(t, m, n) && n == ROUND
    ensures Misled(Next(t, step), m, n)
  {
    var g :| g in t.ba && g.ackAt == UNIT && g.packet.data == [] && g.packet.window == CAPACITY - UNIT;
    OnceRound();
    Answer(t.a, t.b, g, m, n);
    step := ByA(Hear(g));
    HeardByA(t, g);
  }
}
