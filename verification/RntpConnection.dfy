/** Two RNTP endpoints over a network that loses, duplicates and reorders segments at will. */
module RntpConnection {
  import opened Bytes
  import opened RntpProtocol
  import opened RntpStream

  // ---------- Messages ----------

  predicate IsMessage(m: seq<byte>) {
    |m| >= HEADER && Decode(m).Some? && |m| == HEADER + Decode(m).value.length
  }

  function Ping(): (m: seq<byte>)
    ensures IsMessage(m)
  {
    DecodeEncode(Header(PING, 0, 0, 1, 0, 0), []);
    var m := Encode(Header(PING, 0, 0, 1, 0, 0));
    assert m + [] == m;
    m
  }

  type Message = m: seq<byte> | IsMessage(m) witness Ping()

  function Flat(ms: seq<Message>): seq<byte> {
    if ms == [] then [] else ms[0] + Flat(ms[1..])
  }

  lemma {:induction false} FlatAppend(ms: seq<Message>, more: seq<Message>)
    ensures Flat(ms + more) == Flat(ms) + Flat(more)
  {
    if ms == [] {
      assert ms + more == more;
    } else {
      assert (ms + more)[1..] == ms[1..] + more;
      FlatAppend(ms[1..], more);
    }
  }

  lemma FlatSnoc(ms: seq<Message>, m: Message)
    ensures Flat(ms + [m]) == Flat(ms) + m
  {
    FlatAppend(ms, [m]);
    assert Flat([m]) == m + Flat([m][1..]) == m;
  }

  lemma Regroup(a: seq<byte>, b: seq<byte>, c: seq<byte>, d: seq<byte>, e: seq<byte>)
    requires b + c == d + e
    ensures a + b + c == a + d + e && |b| + |c| == |d| + |e|
  {
    assert a + b + c == a + (b + c);
    assert a + d + e == a + (d + e);
    assert |b + c| == |d + e|;
  }

  /** A message is recognisable from its own first bytes. */
  lemma SelfDelimiting(m: Message, n: Message, bytes: seq<byte>)
    requires m <= bytes && n <= bytes
    ensures m == n
  {
    DecodePrefix(m, bytes[|m|..]);
    DecodePrefix(n, bytes[|n|..]);
    assert m + bytes[|m|..] == bytes == n + bytes[|n|..];
  }

  /** Message lists agree as soon as their bytes do. */
  lemma {:induction false} FlatPrefix(got: seq<Message>, sent: seq<Message>)
    requires Flat(got) <= Flat(sent)
    ensures got <= sent
  {
    if got != [] {
      if sent == [] {
        assert false;
      } else {
        assert got[0] <= Flat(got) <= Flat(sent) && sent[0] <= Flat(sent);
        SelfDelimiting(got[0], sent[0], Flat(sent));
        assert Flat(got[1..]) == Flat(got)[|got[0]|..] && Flat(sent[1..]) == Flat(sent)[|got[0]|..];
        FlatPrefix(got[1..], sent[1..]);
      }
    }
  }

  /** Appending the next bytes of a stream to what was received of it. */
  lemma NextBytes(all: seq<byte>, got: seq<byte>, rx: seq<byte>, received: seq<byte>, data: seq<byte>, take: nat)
    requires got + rx + received <= all
    requires data <= all[|got + rx + received|..] && take <= |data|
    ensures got + rx + (received + data[..take]) == all[..|got + rx + received| + take]
  {
    assert got + rx + (received + data[..take]) == (got + rx + received) + data[..take];
  }

  // ---------- The system ----------

  /** An endpoint and its history: what it was asked to send, what it handed up, and how many of its own
      bytes it takes for acknowledged (-1: not even its SYN). */
  datatype Side = Side(e: Endpoint, sent: seq<Message>, got: seq<Message>, ackedAt: int) {
    function Base(): int { |Flat(sent)| - |e.tx| }

    function SentTo(): int { Base() + e.txPos + e.flight }

    function Got(): nat { |Flat(got)| + |e.rx| + |e.received| }
  }

  /** A packet in the network, with the stream positions it stands for. */
  datatype Segment = Segment(at: int, ackAt: nat, packet: Packet)

  datatype System = System(a: Side, b: Side, ab: set<Segment>, ba: set<Segment>)

  /** Both handshakes use initial sequence number 0, so stream byte i is sequence number i + 1. */
  function Seq32(at: int): nat { (1 + at) % TWO_32 }

  datatype Action =
    | Say(message: Message)
    | Pass(mss: nat, now: nat)
    | Hear(segment: Segment)
    | Poll
    | Ack

  function Launch(s: Side, outs: seq<Out>): set<Segment> {
    set o | o in outs :: Segment(s.Base() + o.off, s.Got(), o.packet)
  }

  function ActSay(s: Side, m: Message): (Side, set<Segment>) {
    if s.e.tx != [] then (s, {}) else (s.(e := Outgoing(s.e, m), sent := s.sent + [m]), {})
  }

  function ActPass(s: Side, mss: nat, now: nat): (Side, set<Segment>)
    requires s.e.Ok()
  {
    if mss == 0 || mss > MAX_PAYLOAD then (s, {})
    else
      var (d, outs) := Pump(s.e, mss, now);
      (s.(e := Forget(d)), Launch(s.(e := d), outs))
  }

  function ActHear(s: Side, g: Segment): (Side, set<Segment>)
    requires s.e.Ok()
  {
    var (d, outs) := OnPacket(s.e, g.packet);
    var t := s.(e := d, ackedAt := s.ackedAt + if NewAck(s.e, g.packet.ackNum) then Sub32(g.packet.ackNum, s.e.txAcked) else 0);
    (t, Launch(t, outs))
  }

  function HandUp(s: Side, progress: Progress): Side {
    if progress == Ready && IsMessage(s.e.rx) then s.(e := s.e.(rx := []), got := s.got + [s.e.rx]) else s
  }

  function ActPoll(s: Side): (Side, set<Segment>)
    requires InProgress(s.e.rx)
  {
    var (d, progress, outs) := Incoming(s.e);
    var t := s.(e := d);
    (HandUp(t, progress), Launch(t, outs))
  }

  /** Old bytes whose sequence number has come round to be the next one, with room to take them. */
  predicate Aliases(s: Side, g: Segment) {
    && g.packet.data != [] && |s.e.received| < CAPACITY
    && g.at != s.Got() && (s.Got() - g.at) % TWO_32 == 0
  }

  /** The network delivers anything the peer ever sent, however old and any number of times, but for
      bytes whose sequence number has come round exactly to the next one. */
  predicate Deliverable(s: Side, inbox: set<Segment>, g: Segment) { g in inbox && !Aliases(s, g) }

  /** One action of a side. */
  function Act(s: Side, inbox: set<Segment>, action: Action): (Side, set<Segment>)
    requires s.e.Ok() && InProgress(s.e.rx)
  {
    match action
    case Say(m) => ActSay(s, m)
    case Pass(mss, now) => ActPass(s, mss, now)
    case Hear(g) => if Deliverable(s, inbox, g) then ActHear(s, g) else (s, {})
    case Poll => ActPoll(s)
    case Ack => (s, Launch(s, [s.e.PureAck()]))
  }

  // ---------- The invariant ----------

  ghost predicate TxOk(x: Side) {
    && x.e.Ok() && x.Base() >= 0 && x.e.tx == Flat(x.sent)[x.Base()..]
    && x.e.seqNum == Seq32(x.SentTo()) && x.e.txAcked == Seq32(x.ackedAt)
    && (x.Base() + x.e.txPos <= x.ackedAt <= x.SentTo() || (x.ackedAt == -1 && x.Base() + x.e.txPos == 0))
  }

  ghost predicate RxOk(y: Side, x: Side) {
    && y.e.Ok() && InProgress(y.e.rx)
    && y.Got() <= x.SentTo() <= |Flat(x.sent)|
    && Flat(y.got) + y.e.rx + y.e.received == Flat(x.sent)[..y.Got()]
    && y.e.ackNum == Seq32(y.Got())
  }

  ghost predicate SegmentOk(x: Side, g: Segment) {
    && 0 <= g.at && g.at + |g.packet.data| <= x.SentTo() <= |Flat(x.sent)|
    && g.packet.data == Flat(x.sent)[g.at..g.at + |g.packet.data|]
    && g.packet.seqNum == Seq32(g.at)
    && g.ackAt <= x.Got() && g.packet.ackNum == Seq32(g.ackAt)
  }

  /** Everything about the bytes that flow from x to y. */
  ghost predicate DirInv(x: Side, y: Side, xy: set<Segment>) {
    TxOk(x) && RxOk(y, x) && forall g <- xy :: SegmentOk(x, g)
  }

  ghost predicate Inv(s: System) {
    DirInv(s.a, s.b, s.ab) && DirInv(s.b, s.a, s.ba)
  }

  lemma SameSeq(a: int, b: int)
    ensures Seq32(a) == Seq32(b) <==> (a - b) % TWO_32 == 0
  {
  }

  lemma SeqPlus(at: int, n: int)
    ensures (Seq32(at) + n) % TWO_32 == Seq32(at + n)
  {
  }

  lemma SeqMinus(a: int, b: int)
    ensures Sub32(Seq32(a), Seq32(b)) == (a - b) % TWO_32
  {
    var i, j := (1 + a) / TWO_32, (1 + b) / TWO_32;
    assert Seq32(a) - Seq32(b) == a - b + (j - i) * TWO_32;
  }

  lemma SmallMod(d: int)
    requires -TWO_32 <= d < TWO_32
    ensures d % TWO_32 == if d < 0 then d + TWO_32 else d
  {
  }

  lemma SliceOfTail(all: seq<byte>, base: nat, off: nat, n: nat)
    requires base + off + n <= |all|
    ensures all[base..][off..off + n] == all[base + off..base + off + n]
  {
  }

  // ---------- What one side's action keeps ----------

  /** x' is x with more history: what was sent and received before stands. */
  ghost predicate Grows(x: Side, x': Side) {
    && Flat(x.sent) <= Flat(x'.sent) && x.SentTo() <= x'.SentTo() <= |Flat(x'.sent)|
    && x.Got() <= x'.Got()
  }

  lemma SegmentStays(x: Side, x': Side, g: Segment)
    requires SegmentOk(x, g) && Grows(x, x')
    ensures SegmentOk(x', g)
  {
  }

  /** The peer's view of what it received does not change when the sender goes on. */
  lemma ReceivedStays(y: Side, x: Side, x': Side)
    requires RxOk(y, x) && Grows(x, x')
    ensures RxOk(y, x')
  {
    assert Flat(x'.sent)[..y.Got()] == Flat(x.sent)[..y.Got()];
  }

  lemma OutIsSegment(x: Side, o: Out)
    requires TxOk(x) && Names(x.e, o) && x.e.ackNum == Seq32(x.Got())
    ensures SegmentOk(x, Segment(x.Base() + o.off, x.Got(), o.packet))
  {
    var all := Flat(x.sent);
    var at := x.Base() + o.off;
    assert |x.e.tx| == |all| - x.Base();
    SliceOfTail(all, x.Base(), o.off, |o.packet.data|);
    SeqPlus(x.SentTo(), at - x.SentTo());
    assert o.packet.seqNum == Seq32(at);
  }

  lemma LaunchOk(x: Side, outs: seq<Out>)
    requires TxOk(x) && x.e.ackNum == Seq32(x.Got()) && forall o <- outs :: Names(x.e, o)
    ensures forall g <- Launch(x, outs) :: SegmentOk(x, g)
  {
    forall o | o in outs ensures SegmentOk(x, Segment(x.Base() + o.off, x.Got(), o.packet)) {
      OutIsSegment(x, o);
    }
  }

  lemma SayKeeps(x: Side, m: Message)
    requires TxOk(x) && x.e.tx == []
    ensures var t := ActSay(x, m).0;
      TxOk(t) && Grows(x, t) && t.SentTo() == x.SentTo()
  {
    FlatSnoc(x.sent, m);
  }

  /** The difference the transmitter computes is the number of newly acknowledged bytes, or, before the
      SYN is acknowledged, a number larger than any flight. */
  lemma AckedAmount(x: Side)
    requires TxOk(x) && x.e.flight > 0
    ensures var acked := x.ackedAt - (x.Base() + x.e.txPos);
      Sub32(x.e.txAcked, x.e.flightSeq) == if acked >= 0 then acked else TWO_32 - 1
    ensures x.e.flight < TWO_32 - 1 && x.e.flightSeq == Seq32(x.Base() + x.e.txPos)
  {
    var start := x.Base() + x.e.txPos;
    SeqPlus(x.SentTo(), 0 - x.e.flight);
    assert x.e.flightSeq == Seq32(start);
    SeqMinus(x.ackedAt, start);
    SmallMod(x.ackedAt - start);
  }

  /** Acknowledged bytes leave the flight; the rest stays where it was. */
  lemma TakeAckKeeps(x: Side, now: nat)
    requires TxOk(x)
    ensures TxOk(x.(e := TakeAck(x.e, now)))
    ensures x.(e := TakeAck(x.e, now)).SentTo() == x.SentTo()
  {
    if x.e.flight > 0 {
      AckedAmount(x);
      var start := x.Base() + x.e.txPos;
      var acked := x.ackedAt - start;
      if 0 < acked {
        var f := TakeAck(x.e, now);
        assert f.txPos == x.e.txPos + acked && f.flight == x.e.flight - acked;
        SeqPlus(start, acked);
        SeqPlus(x.SentTo(), 0 - f.flight);
      }
    }
  }

  lemma AdvanceKeeps(x: Side, f: Endpoint)
    requires TxOk(x) && Advanced(x.e, f) && f.txPos == x.e.txPos
    ensures TxOk(x.(e := f)) && Grows(x, x.(e := f))
  {
    var t := x.(e := f);
    assert t.Base() == x.Base() && t.SentTo() == x.SentTo() + (f.flight - x.e.flight);
    SeqPlus(x.SentTo(), f.flight - x.e.flight);
  }

  lemma PumpKeeps(x: Side, mss: nat, now: nat)
    requires TxOk(x) && mss > 0
    ensures TxOk(x.(e := Pump(x.e, mss, now).0)) && Grows(x, x.(e := Pump(x.e, mss, now).0))
  {
    var a := TakeAck(x.e, now);
    TakeAckAdvances(x.e, now);
    TakeAckKeeps(x, now);
    var (b, resent) := Repeat(a, mss, now);
    RepeatAdvances(a, mss, now);
    BurstAdvances(b, mss, now, 8);
    var c := Burst(b, mss, now, 8).0;
    ProbeAdvances(c, now);
    var d := Probe(c, now).0;
    AdvancedTwice(b, c, d);
    AdvancedTwice(a, b, d);
    AdvanceKeeps(x.(e := a), d);
  }

  lemma ForgetKeeps(x: Side)
    requires TxOk(x)
    ensures var t := x.(e := Forget(x.e));
      TxOk(t) && t.SentTo() == x.SentTo() && t.Got() == x.Got()
  {
  }

  // ---------- Receiving ----------

  /** The test for the next packet is right, at any age, exactly when the packet is the next one or its
      distance from it is no multiple of 2^32 bytes. */
  lemma InOrder(y: Side, x: Side, g: Segment)
    requires RxOk(y, x) && SegmentOk(x, g)
    ensures g.packet.seqNum == y.e.ackNum <==> (y.Got() - g.at) % TWO_32 == 0
    ensures (g.packet.seqNum == y.e.ackNum <==> g.at == y.Got()) <==> (g.at == y.Got() || (y.Got() - g.at) % TWO_32 != 0)
  {
    SameSeq(y.Got(), g.at);
  }

  /** Bytes are taken in the wrong place exactly when they alias the next ones. */
  lemma TakenWronglyIff(y: Side, x: Side, g: Segment)
    requires RxOk(y, x) && SegmentOk(x, g)
    ensures g.at != y.Got() && OnPacket(y.e, g.packet).0.received != y.e.received <==> Aliases(y, g)
  {
    InOrder(y, x, g);
    var d := OnPacket(y.e, g.packet).0;
    if Aliases(y, g) { assert |d.received| > |y.e.received|; }
  }

  /** The test for a new acknowledgment, for acknowledgments of any age: it is right exactly when the
      acknowledgment is new, or repeats the latest one, or its distance from it is not within the
      unacknowledged bytes modulo 2^32. */
  lemma AckIsNew(x: Side, y: Side, g: Segment)
    requires TxOk(x) && SegmentOk(y, g) && g.ackAt <= x.SentTo()
    ensures var ahead, unacked := g.ackAt - x.ackedAt, x.SentTo() - x.ackedAt;
      && (NewAck(x.e, g.packet.ackNum) <==> 0 < ahead % TWO_32 <= unacked)
      && ((NewAck(x.e, g.packet.ackNum) <==> ahead > 0)
          <==> (ahead > 0 || ahead % TWO_32 == 0 || ahead % TWO_32 > unacked))
  {
    var ahead, unacked := g.ackAt - x.ackedAt, x.SentTo() - x.ackedAt;
    SeqMinus(g.ackAt, x.ackedAt);
    AckRange(x, g.packet.ackNum);
    if ahead > 0 { SmallMod(ahead); }
  }

  /** An acknowledgment that is taken, rightly or not, covers no more than was sent. */
  lemma AckRange(x: Side, ack: nat)
    requires TxOk(x)
    ensures var unacked := x.SentTo() - x.ackedAt;
      0 <= unacked <= FRAME + 1 && (NewAck(x.e, ack) <==> 0 < Sub32(ack, x.e.txAcked) <= unacked)
  {
    SeqMinus(x.SentTo(), x.ackedAt);
    SmallMod(x.SentTo() - x.ackedAt);
  }

  lemma HearKeepsTx(x: Side, g: Segment, d: Endpoint, ackedAt: int)
    requires TxOk(x) && g.packet.ackNum < TWO_32 && d == OnPacket(x.e, g.packet).0
    requires ackedAt == x.ackedAt + if NewAck(x.e, g.packet.ackNum) then Sub32(g.packet.ackNum, x.e.txAcked) else 0
    ensures TxOk(x.(e := d, ackedAt := ackedAt)) && x.(e := d, ackedAt := ackedAt).SentTo() == x.SentTo()
  {
    AckRange(x, g.packet.ackNum);
    AckAdds(x.ackedAt, g.packet.ackNum);
    AckedKeeps(x, x.(e := d, ackedAt := ackedAt));
  }

  /** More bytes taken for acknowledged, up to all that was sent. */
  lemma AckedKeeps(x: Side, t: Side)
    requires TxOk(x) && SameSender(x, t.(e := t.e.(txAcked := x.e.txAcked), ackedAt := x.ackedAt))
    requires |t.e.received| <= CAPACITY && t.e.txAcked == Seq32(t.ackedAt) && x.ackedAt <= t.ackedAt <= x.SentTo()
    ensures TxOk(t) && t.SentTo() == x.SentTo()
  {
  }

  lemma AckAdds(at: int, ack: nat)
    requires ack < TWO_32
    ensures Seq32(at + Sub32(ack, Seq32(at))) == ack
  {
    SeqPlus(at, Sub32(ack, Seq32(at)));
    SubThenAdd(ack, Seq32(at));
  }

  lemma SubThenAdd(ack: nat, seqNum: nat)
    requires ack < TWO_32
    ensures (seqNum + Sub32(ack, seqNum)) % TWO_32 == ack
  {
    var d := ack - seqNum;
    assert d == d / TWO_32 * TWO_32 + d % TWO_32;
    assert seqNum + d % TWO_32 == ack - d / TWO_32 * TWO_32;
  }

  lemma AppendKeepsRx(x: Side, y: Side, g: Segment, d: Endpoint, take: nat)
    requires RxOk(x, y) && SegmentOk(y, g) && g.at == x.Got() && take <= |g.packet.data|
    requires d.Ok() && d.rx == x.e.rx && d.received == x.e.received + g.packet.data[..take]
    requires d.ackNum == Add32(g.packet.seqNum, take)
    ensures RxOk(x.(e := d), y)
  {
    SeqPlus(x.Got(), take);
    NextBytes(Flat(y.sent), Flat(x.got), x.e.rx, x.e.received, g.packet.data, take);
    ReceiverGrew(x.(e := d), y);
  }

  lemma ReceiverGrew(t: Side, y: Side)
    requires t.e.Ok() && InProgress(t.e.rx) && t.e.ackNum == Seq32(t.Got()) && t.Got() <= y.SentTo() <= |Flat(y.sent)|
    requires Flat(t.got) + t.e.rx + t.e.received == Flat(y.sent)[..t.Got()]
    ensures RxOk(t, y)
  {
  }

  lemma HearKeepsRx(x: Side, y: Side, g: Segment, d: Endpoint)
    requires RxOk(x, y) && SegmentOk(y, g) && !Aliases(x, g)
    requires d == OnPacket(x.e, g.packet).0 && d.Ok()
    ensures RxOk(x.(e := d), y) && x.Got() <= x.(e := d).Got()
  {
    InOrder(x, y, g);
    if g.packet.data != [] && g.at == x.Got() {
      AppendKeepsRx(x, y, g, d, Min(|g.packet.data|, CAPACITY - |x.e.received|));
    } else {
      TakenWronglyIff(x, y, g);
      NothingTaken(x.e, g.packet);
      ReceiverMoved(x, x.(e := d), y);
    }
  }

  /** A packet none of whose bytes are taken leaves the numbers as they are. */
  lemma NothingTaken(e: Endpoint, p: Packet)
    requires e.Ok() && e.ackNum < TWO_32 && OnPacket(e, p).0.received == e.received
    ensures var d := OnPacket(e, p).0; d.received == e.received && d.rx == e.rx && d.ackNum == e.ackNum
  {
    if p.data != [] && p.seqNum == e.ackNum {
      var take := Min(|p.data|, CAPACITY - |e.received|);
      assert |e.received + p.data[..take]| == |e.received| + take;
    }
  }

  /** Polling moves bytes from the socket to the message and changes nothing else. */
  ghost predicate Polled(e: Endpoint, f: Endpoint, progress: Progress) {
    && InProgress(f.rx) && f.rx + f.received == e.rx + e.received
    && f == e.(rx := f.rx, received := f.received) && |f.received| <= |e.received|
    && (progress == Ready ==> IsMessage(f.rx))
    && (progress == Broken ==> Need(f.rx).None?)
  }

  /** A bare acknowledgment of everything e has received. */
  ghost predicate BareAck(e: Endpoint, o: Out) {
    o.off == e.txPos + e.flight && o.packet == Packet(e.seqNum, e.ackNum, o.packet.window, [])
  }

  lemma {:induction false} IncomingKeeps(e: Endpoint)
    requires InProgress(e.rx)
    ensures var (f, progress, outs) := Incoming(e);
      Polled(e, f, progress) && forall o <- outs :: BareAck(e, o)
    decreases |e.received|
  {
    if Need(e.rx).Some? && |e.rx| != Need(e.rx).value && e.received != [] {
      var need := Need(e.rx).value;
      var take := Min(need - |e.rx|, |e.received|);
      Grown(e.rx, e.received[..take], need);
      var d := e.(rx := e.rx + e.received[..take], received := e.received[take..]);
      IncomingKeeps(d);
      MovedPolled(e, d, take, Incoming(d).0, Incoming(d).1);
      MovedAcks(e, d, take, Incoming(d).2);
    }
  }

  lemma MovedAcks(e: Endpoint, d: Endpoint, take: nat, outs: seq<Out>)
    requires take <= |e.received| && d == e.(rx := e.rx + e.received[..take], received := e.received[take..])
    requires forall o <- outs :: BareAck(d, o)
    ensures forall o <- [d.PureAck()] + outs :: BareAck(e, o)
  {
  }

  lemma MovedPolled(e: Endpoint, d: Endpoint, take: nat, f: Endpoint, progress: Progress)
    requires take <= |e.received| && d == e.(rx := e.rx + e.received[..take], received := e.received[take..])
    requires Polled(d, f, progress)
    ensures Polled(e, f, progress)
  {
    MoveBytes(e.rx, e.received, take);
  }

  lemma MoveBytes(a: seq<byte>, b: seq<byte>, take: nat)
    requires take <= |b|
    ensures a + b[..take] + b[take..] == a + b
  {
  }

  lemma Assemble(x: Side, t: Side, y: Side, xy: set<Segment>, yx: set<Segment>, launched: set<Segment>)
    requires DirInv(x, y, xy) && DirInv(y, x, yx)
    requires TxOk(t) && RxOk(t, y) && RxOk(y, t) && Grows(x, t) && forall g <- launched :: SegmentOk(t, g)
    ensures DirInv(t, y, xy + launched) && DirInv(y, t, yx)
  {
    forall g | g in xy ensures SegmentOk(t, g) {
      SegmentStays(x, t, g);
    }
  }

  lemma AllStay(x: Side, t: Side, gs: set<Segment>)
    requires Grows(x, t) && forall g <- gs :: SegmentOk(x, g)
    ensures forall g <- gs :: SegmentOk(t, g)
  {
    forall g | g in gs ensures SegmentOk(t, g) {
      SegmentStays(x, t, g);
    }
  }

  lemma ForgetIsInvisible(x: Side, y: Side)
    requires TxOk(x) && RxOk(x, y)
    ensures var t := x.(e := Forget(x.e)); TxOk(t) && RxOk(t, y) && Grows(x, t)
  {
    ForgetKeeps(x);
  }

  lemma PumpIsInvisible(x: Side, y: Side, d: Endpoint)
    requires TxOk(x) && RxOk(x, y) && Advanced(x.e, d)
    ensures RxOk(x.(e := d), y)
  {
  }

  lemma PureAckNames(e: Endpoint)
    requires e.Ok()
    ensures Names(e, e.PureAck())
  {
  }

  lemma OnPacketNames(e: Endpoint, p: Packet)
    requires e.Ok() && OnPacket(e, p).0.Ok()
    ensures forall o <- OnPacket(e, p).1 :: Names(OnPacket(e, p).0, o)
  {
    PureAckNames(OnPacket(e, p).0);
  }

  lemma BareAckNames(e: Endpoint, d: Endpoint, progress: Progress, o: Out)
    requires e.Ok() && Polled(e, d, progress) && BareAck(e, o)
    ensures Names(d, o)
  {
  }

  lemma PassKeeps(x: Side, y: Side, xy: set<Segment>, yx: set<Segment>, mss: nat, now: nat)
    requires DirInv(x, y, xy) && DirInv(y, x, yx) && 0 < mss <= MAX_PAYLOAD
    ensures var (t, launched) := ActPass(x, mss, now);
      DirInv(t, y, xy + launched) && DirInv(y, t, yx)
  {
    var (d, outs) := Pump(x.e, mss, now);
    var s := x.(e := d);
    PumpedOk(x, y, s, mss, now);
    PumpedKeeps(x, s, y, xy, yx, Launch(s, outs));
  }

  lemma PumpedOk(x: Side, y: Side, s: Side, mss: nat, now: nat)
    requires TxOk(x) && RxOk(x, y) && mss > 0 && s == x.(e := Pump(x.e, mss, now).0)
    ensures TxOk(s) && RxOk(s, y) && Grows(x, s)
    ensures forall g <- Launch(s, Pump(x.e, mss, now).1) :: SegmentOk(s, g)
  {
    PumpAdvances(x.e, mss, now);
    PumpKeeps(x, mss, now);
    PumpIsInvisible(x, y, s.e);
    LaunchOk(s, Pump(x.e, mss, now).1);
  }

  lemma PumpedKeeps(x: Side, s: Side, y: Side, xy: set<Segment>, yx: set<Segment>, launched: set<Segment>)
    requires DirInv(x, y, xy) && DirInv(y, x, yx) && TxOk(s) && RxOk(s, y) && Grows(x, s)
    requires s == x.(e := s.e) && forall g <- launched :: SegmentOk(s, g)
    ensures var t := s.(e := Forget(s.e)); DirInv(t, y, xy + launched) && DirInv(y, t, yx)
  {
    var t := s.(e := Forget(s.e));
    ForgetIsInvisible(s, y);
    AllStay(s, t, launched);
    ReceivedStays(y, x, t);
    Assemble(x, t, y, xy, yx, launched);
  }

  lemma HearKeeps(x: Side, y: Side, xy: set<Segment>, yx: set<Segment>, g: Segment)
    requires DirInv(x, y, xy) && DirInv(y, x, yx) && Deliverable(x, yx, g)
    ensures var (t, launched) := ActHear(x, g);
      DirInv(t, y, xy + launched) && DirInv(y, t, yx)
  {
    var (d, outs) := OnPacket(x.e, g.packet);
    var (t, launched) := ActHear(x, g);
    HearKeepsTx(x, g, d, t.ackedAt);
    HearKeepsRx(x, y, g, d);
    ReceiverMoved(x.(e := d), t, y);
    OnPacketNames(x.e, g.packet);
    LaunchOk(t, outs);
    ReceivedStays(y, x, t);
    Assemble(x, t, y, xy, yx, launched);
  }

  lemma PolledKeeps(x: Side, y: Side, d: Endpoint, progress: Progress)
    requires TxOk(x) && RxOk(x, y) && Polled(x.e, d, progress)
    ensures var t := x.(e := d); TxOk(t) && RxOk(t, y) && t.Got() == x.Got() && t.SentTo() == x.SentTo()
  {
    Regroup(Flat(x.got), x.e.rx, x.e.received, d.rx, d.received);
  }

  /** A whole message moves from the receive buffer to the history of messages handed up. */
  lemma HandUpKeeps(x: Side, y: Side, progress: Progress)
    requires TxOk(x) && RxOk(x, y)
    ensures var t := HandUp(x, progress);
      TxOk(t) && RxOk(t, y) && t.Got() == x.Got() && t.SentTo() == x.SentTo() && t.ackedAt == x.ackedAt && t.sent == x.sent
  {
    if progress == Ready && IsMessage(x.e.rx) {
      var t := HandUp(x, progress);
      FlatSnoc(x.got, x.e.rx);
      SenderMoved(x, t);
      MessageMoved(Flat(x.got), x.e.rx, x.e.received);
      NothingInProgress();
      ReceiverMoved(x, t, y);
    }
  }

  lemma MessageMoved(got: seq<byte>, rx: seq<byte>, received: seq<byte>)
    ensures (got + rx) + [] + received == got + rx + received
  {
  }

  /** The sending half of a side: all that TxOk speaks of. */
  ghost predicate SameSender(x: Side, t: Side) {
    && t.sent == x.sent && t.ackedAt == x.ackedAt && t.e.tx == x.e.tx && t.e.txPos == x.e.txPos
    && t.e.flight == x.e.flight && t.e.flightSeq == x.e.flightSeq
    && t.e.seqNum == x.e.seqNum && t.e.txAcked == x.e.txAcked
  }

  lemma SenderMoved(x: Side, t: Side)
    requires TxOk(x) && SameSender(x, t) && |t.e.received| <= CAPACITY
    ensures TxOk(t) && t.SentTo() == x.SentTo()
  {
  }

  lemma NothingInProgress()
    ensures InProgress([])
  {
  }

  lemma ReceiverMoved(x: Side, t: Side, y: Side)
    requires RxOk(x, y) && t.e.Ok() && InProgress(t.e.rx) && t.Got() == x.Got() && t.e.ackNum == x.e.ackNum
    requires Flat(t.got) + t.e.rx + t.e.received == Flat(x.got) + x.e.rx + x.e.received
    ensures RxOk(t, y)
  {
  }

  lemma PollKeeps(x: Side, y: Side, xy: set<Segment>, yx: set<Segment>)
    requires DirInv(x, y, xy) && DirInv(y, x, yx)
    ensures var (t, launched) := ActPoll(x);
      DirInv(t, y, xy + launched) && DirInv(y, t, yx)
  {
    IncomingKeeps(x.e);
    var (d, progress, outs) := Incoming(x.e);
    var s := x.(e := d);
    PolledKeeps(x, y, d, progress);
    forall o | o in outs ensures Names(d, o) {
      BareAckNames(x.e, d, progress, o);
    }
    LaunchOk(s, outs);
    HandUpKeeps(s, y, progress);
    var t := HandUp(s, progress);
    AllStay(s, t, Launch(s, outs));
    ReceivedStays(y, x, t);
    Assemble(x, t, y, xy, yx, Launch(s, outs));
  }

  lemma SayKeepsBoth(x: Side, y: Side, xy: set<Segment>, yx: set<Segment>, m: Message)
    requires DirInv(x, y, xy) && DirInv(y, x, yx) && x.e.tx == []
    ensures var (t, launched) := ActSay(x, m);
      DirInv(t, y, xy + launched) && DirInv(y, t, yx)
  {
    SayKeeps(x, m);
    var t := ActSay(x, m).0;
    ReceivedStays(y, x, t);
    ReceiverStays(x, t, y);
    Assemble(x, t, y, xy, yx, {});
  }

  /** What a side received does not change when it takes on another message to send. */
  lemma ReceiverStays(x: Side, t: Side, y: Side)
    requires RxOk(x, y) && t.e.Ok() && t == x.(e := t.e, sent := t.sent)
    requires t.e.rx == x.e.rx && t.e.received == x.e.received && t.e.ackNum == x.e.ackNum
    ensures RxOk(t, y)
  {
  }

  lemma AckKeeps(x: Side, y: Side, xy: set<Segment>, yx: set<Segment>)
    requires DirInv(x, y, xy) && DirInv(y, x, yx)
    ensures DirInv(x, y, xy + Launch(x, [x.e.PureAck()]))
  {
    PureAckNames(x.e);
    LaunchOk(x, [x.e.PureAck()]);
  }

  lemma ActKeeps(x: Side, y: Side, xy: set<Segment>, yx: set<Segment>, action: Action)
    requires DirInv(x, y, xy) && DirInv(y, x, yx)
    ensures var (t, launched) := Act(x, yx, action);
      DirInv(t, y, xy + launched) && DirInv(y, t, yx)
  {
    assert xy + {} == xy;
    match action {
      case Say(m) =>
        if x.e.tx == [] {
          SayKeepsBoth(x, y, xy, yx, m);
        }
      case Pass(mss, now) =>
        if 0 < mss <= MAX_PAYLOAD {
          PassKeeps(x, y, xy, yx, mss, now);
        }
      case Hear(g) =>
        if Deliverable(x, yx, g) {
          HearKeeps(x, y, xy, yx, g);
        }
      case Poll =>
        PollKeeps(x, y, xy, yx);
      case Ack =>
        AckKeeps(x, y, xy, yx);
    }
  }

  // ---------- Runs ----------

  datatype Step = ByA(action: Action) | ByB(action: Action)

  ghost predicate Runnable(s: System) {
    s.a.e.Ok() && InProgress(s.a.e.rx) && s.b.e.Ok() && InProgress(s.b.e.rx)
  }

  ghost function Next(s: System, step: Step): System
    requires Runnable(s)
  {
    match step
    case ByA(action) =>
      var (t, launched) := Act(s.a, s.ba, action);
      s.(a := t, ab := s.ab + launched)
    case ByB(action) =>
      var (t, launched) := Act(s.b, s.ab, action);
      s.(b := t, ba := s.ba + launched)
  }

  lemma NextKeeps(s: System, step: Step)
    requires Inv(s)
    ensures Inv(Next(s, step))
  {
    match step
    case ByA(action) => ActKeeps(s.a, s.b, s.ab, s.ba, action);
    case ByB(action) => ActKeeps(s.b, s.a, s.ba, s.ab, action);
  }

  ghost function Run(s: System, steps: seq<Step>): System
    requires Inv(s)
    decreases |steps|
  {
    if steps == [] then s
    else
      NextKeeps(s, steps[0]);
      Run(Next(s, steps[0]), steps[1..])
  }

  lemma {:induction false} RunKeeps(s: System, steps: seq<Step>)
    requires Inv(s)
    ensures Inv(Run(s, steps))
    decreases |steps|
  {
    if steps != [] {
      NextKeeps(s, steps[0]);
      RunKeeps(Next(s, steps[0]), steps[1..]);
    }
  }

  /** A side just after its handshake; the peer may or may not have acknowledged its SYN. */
  function Opened(window: nat, synAcked: bool): Side {
    Side(Endpoint([], 0, 0, 0, 0, 1, if synAcked then 1 else 0, window, 1, [], []), [], [], if synAcked then 0 else -1)
  }

  lemma OpenedInv(x: Side, y: Side)
    requires exists w, b :: x == Opened(w, b)
    requires exists w, b :: y == Opened(w, b)
    ensures DirInv(x, y, {})
  {
  }

  lemma HeadIsPrefix(all: seq<byte>, got: seq<byte>, rx: seq<byte>, received: seq<byte>)
    requires got + rx + received <= all
    ensures got <= all
  {
    assert got == (got + rx + received)[..|got|];
  }

  /** In every state the messages handed up are the first of the messages sent, in order and unchanged,
      and the framing never breaks. */
  lemma Delivered(x: Side, y: Side, xy: set<Segment>)
    requires DirInv(x, y, xy)
    ensures y.got <= x.sent
    ensures Incoming(y.e).1 != Broken
  {
    HeadIsPrefix(Flat(x.sent), Flat(y.got), y.e.rx, y.e.received);
    FlatPrefix(y.got, x.sent);
    NeverBroken(x, y);
  }

  /** The beginning of the next message, as far as it has come, has that message's header. */
  lemma PartialMessage(rx: seq<byte>, rest: seq<Message>)
    requires rx <= Flat(rest) && |rx| >= HEADER
    ensures Decode(rx).Some?
  {
    var m := rest[0];
    assert Flat(rest) == m + Flat(rest[1..]);
    DecodePrefix(rx, Flat(rest)[|rx|..]);
    DecodePrefix(m, Flat(rest[1..]));
    assert Flat(rest) == rx + Flat(rest)[|rx|..];
  }

  lemma NeverBroken(x: Side, y: Side)
    requires TxOk(x) && RxOk(y, x) && y.got <= x.sent
    ensures Incoming(y.e).1 != Broken
  {
    IncomingKeeps(y.e);
    var (d, progress, outs) := Incoming(y.e);
    if progress == Broken {
      Regroup(Flat(y.got), y.e.rx, y.e.received, d.rx, d.received);
      var rest := x.sent[|y.got|..];
      assert x.sent == y.got + rest;
      FlatAppend(y.got, rest);
      RestStarts(Flat(x.sent), Flat(y.got), d.rx, d.received, Flat(rest));
      PartialMessage(d.rx, rest);
    }
  }

  lemma RestStarts(all: seq<byte>, got: seq<byte>, rx: seq<byte>, received: seq<byte>, rest: seq<byte>)
    requires got + rx + received <= all && all == got + rest
    ensures rx <= rest
  {
    assert rest == all[|got|..];
    assert rx == (got + rx + received)[|got|..|got| + |rx|];
  }

  /** End to end: whatever the network loses, repeats or reorders, however the bytes are segmented,
      retransmitted or refused for lack of buffer space, each side hands up a prefix of what the other
      was given to send. */
  lemma StreamIsReliable(windowA: nat, ackedA: bool, windowB: nat, ackedB: bool, steps: seq<Step>)
    ensures var s := System(Opened(windowA, ackedA), Opened(windowB, ackedB), {}, {});
      Inv(s) && var t := Run(s, steps);
      && Inv(t)
      && t.b.got <= t.a.sent && t.a.got <= t.b.sent
      && Incoming(t.a.e).1 != Broken && Incoming(t.b.e).1 != Broken
  {
    var s := System(Opened(windowA, ackedA), Opened(windowB, ackedB), {}, {});
    OpenedInv(s.a, s.b);
    OpenedInv(s.b, s.a);
    RunKeeps(s, steps);
    var t := Run(s, steps);
    Delivered(t.a, t.b, t.ab);
    Delivered(t.b, t.a, t.ba);
  }
}
