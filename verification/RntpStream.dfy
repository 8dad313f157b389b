/** One side of an RNTP connection: the message stream and the TCP socket under it
    (c/rntp/main.c, c/libcr2/net.c). Sequence numbers are 32-bit and wrap. */
module RntpStream {
  import opened Bytes
  import opened RntpProtocol

  const CAPACITY := 32768
  const MAX_PAYLOAD := 1460
  const RETRANSMIT_MS := 250

  datatype Packet = Packet(seqNum: nat, ackNum: nat, window: nat, data: seq<byte>)

  /** A packet sent, and the offset of its bytes in the message being transmitted. */
  datatype Out = Out(off: nat, packet: Packet)

  datatype Endpoint = Endpoint(
    tx: seq<byte>, txPos: nat, flight: nat, flightSeq: nat, sentAt: nat,
    seqNum: nat, txAcked: nat, peerWindow: nat,
    ackNum: nat, received: seq<byte>, rx: seq<byte>)
  {
    /** What every operation keeps of one side by itself. */
    predicate Ok() {
      && txPos + flight <= |tx| <= FRAME
      && (flight > 0 ==> flightSeq == Sub32(seqNum, flight))
      && seqNum < TWO_32 && txAcked < TWO_32
      && |received| <= CAPACITY
    }

    function Window(): int { CAPACITY - |received| }

    /** The header send_tcp_packet puts on bytes sent at a sequence number. */
    function Pack(seqNum: nat, data: seq<byte>): Packet {
      Packet(seqNum, ackNum, if Window() < 0 then 0 else Window(), data)
    }

    function PureAck(): Out { Out(txPos + flight, Pack(seqNum, [])) }
  }

  // ---------- Transmission ----------

  function Outgoing(e: Endpoint, message: seq<byte>): Endpoint {
    e.(tx := message, txPos := 0, flight := 0)
  }

  /** Cumulative acknowledgment of part of the flight. */
  function TakeAck(e: Endpoint, now: nat): Endpoint {
    var acked := Sub32(e.txAcked, e.flightSeq);
    if e.flight > 0 && 0 < acked <= e.flight then
      e.(txPos := e.txPos + acked, flightSeq := Add32(e.flightSeq, acked), flight := e.flight - acked, sentAt := now)
    else e
  }

  /** The flight from offset pos on, again, in segments of at most mss bytes. */
  function Resend(e: Endpoint, mss: nat, pos: nat): seq<Out>
    requires e.txPos + e.flight <= |e.tx| && pos <= e.flight && mss > 0
    decreases e.flight - pos
  {
    if pos == e.flight then []
    else
      var amount := if e.flight - pos > mss then mss else e.flight - pos;
      [Out(e.txPos + pos, e.Pack(Add32(e.flightSeq, pos), e.tx[e.txPos + pos..e.txPos + pos + amount]))]
      + Resend(e, mss, pos + amount)
  }

  /** How much the next new segment carries. */
  function NewAmount(e: Endpoint, mss: nat): (n: nat)
    requires e.txPos + e.flight < |e.tx| && e.flight < e.peerWindow && mss > 0
    ensures 0 < n <= |e.tx| - e.txPos - e.flight && n <= e.peerWindow - e.flight && n <= mss
  {
    Min(Min(|e.tx| - e.txPos - e.flight, mss), e.peerWindow - e.flight)
  }

  /** One new segment: what is on the wire, and the sender after it. */
  function SendNew(e: Endpoint, amount: nat, now: nat): Endpoint {
    (if e.flight == 0 then e.(flightSeq := e.seqNum, sentAt := now) else e)
    .(seqNum := Add32(e.seqNum, amount), flight := e.flight + amount)
  }

  function NewOut(e: Endpoint, amount: nat): Out
    requires e.txPos + e.flight + amount <= |e.tx|
  {
    var at := e.txPos + e.flight;
    Out(at, e.Pack(e.seqNum, e.tx[at..at + amount]))
  }

  /** Up to n new segments within the peer's window. */
  function Burst(e: Endpoint, mss: nat, now: nat, n: nat): (r: (Endpoint, seq<Out>))
    requires e.txPos + e.flight <= |e.tx| && mss > 0
    ensures r.0.txPos == e.txPos && r.0.txPos + r.0.flight <= |r.0.tx|
    decreases n, mss
  {
    if n == 0 || e.txPos + e.flight == |e.tx| || e.flight >= e.peerWindow then (e, [])
    else
      var amount := NewAmount(e, mss);
      var (g, outs) := Burst(SendNew(e, amount, now), mss, now, n - 1);
      (g, [NewOut(e, amount)] + outs)
  }

  predicate Expired(e: Endpoint, now: nat) { (now - e.sentAt) % TWO_64 >= RETRANSMIT_MS }

  function Repeat(e: Endpoint, mss: nat, now: nat): (r: (Endpoint, seq<Out>))
    requires e.txPos + e.flight <= |e.tx| && mss > 0
  {
    if e.flight > 0 && Expired(e, now) then (e.(sentAt := now), Resend(e, mss, 0)) else (e, [])
  }

  /** A closed window is probed by a bare acknowledgment. */
  function Probe(e: Endpoint, now: nat): (Endpoint, seq<Out>) {
    if e.flight == 0 && e.txPos < |e.tx| && e.peerWindow == 0 && Expired(e, now)
    then (e.(sentAt := now), [e.PureAck()]) else (e, [])
  }

  function Forget(e: Endpoint): Endpoint {
    if |e.tx| > 0 && e.txPos == |e.tx| && e.flight == 0 then e.(tx := [], txPos := 0) else e
  }

  /** One pass of the transmitter, up to the point where a finished message is forgotten. */
  function Pump(e: Endpoint, mss: nat, now: nat): (Endpoint, seq<Out>)
    requires e.Ok() && mss > 0
  {
    var a := TakeAck(e, now);
    var (b, resent) := Repeat(a, mss, now);
    var (c, news) := Burst(b, mss, now, 8);
    var (d, probes) := Probe(c, now);
    (d, resent + news + probes)
  }

  function Transmit(e: Endpoint, mss: nat, now: nat): (Endpoint, seq<Out>)
    requires e.Ok() && mss > 0
  {
    var (d, outs) := Pump(e, mss, now);
    (Forget(d), outs)
  }

  // ---------- Reception ----------

  /** An acknowledgment counts only if it is new and covers nothing that was not sent. */
  predicate NewAck(e: Endpoint, ack: nat) {
    0 < Sub32(ack, e.txAcked) < 0x8000_0000 && Sub32(ack, e.txAcked) <= Sub32(e.seqNum, e.txAcked)
  }

  /** The established-state part of the packet handler, for packets without RST and FIN. */
  function OnPacket(e: Endpoint, p: Packet): (r: (Endpoint, seq<Out>))
    requires |e.received| <= CAPACITY
    ensures |r.0.received| <= CAPACITY
  {
    var a := e.(peerWindow := p.window, txAcked := if NewAck(e, p.ackNum) then p.ackNum else e.txAcked);
    if p.data == [] then (a, [])
    else
      var take := if p.seqNum == e.ackNum then Min(|p.data|, CAPACITY - |e.received|) else 0;
      var b := if p.seqNum == e.ackNum
               then a.(received := e.received + p.data[..take], ackNum := Add32(p.seqNum, take)) else a;
      (b, [b.PureAck()])
  }

  /** How many bytes the message being received needs in all, or nothing when its header is bad. */
  function Need(rx: seq<byte>): Option<nat> {
    if |rx| < HEADER then Some(HEADER)
    else
      match Decode(rx)
      case None => None
      case Some(h) => Some(HEADER + h.length)
  }

  datatype Progress = Broken | Waiting | Ready

  predicate InProgress(rx: seq<byte>) {
    Need(rx).Some? ==> |rx| <= Need(rx).value
  }

  /** Moves bytes from the socket into the message being received until it is whole or they run out. */
  function Incoming(e: Endpoint): (r: (Endpoint, Progress, seq<Out>))
    requires InProgress(e.rx)
    decreases |e.received|
  {
    match Need(e.rx)
    case None => (e, Broken, [])
    case Some(need) =>
      if |e.rx| == need then (e, Ready, [])
      else if e.received == [] then (e, Waiting, [])
      else
        var take := Min(need - |e.rx|, |e.received|);
        var f := e.(rx := e.rx + e.received[..take], received := e.received[take..]);
        Grown(e.rx, e.received[..take], need);
        var (g, progress, outs) := Incoming(f);
        (g, progress, [f.PureAck()] + outs)
  }

  lemma Grown(rx: seq<byte>, more: seq<byte>, need: nat)
    requires Need(rx) == Some(need) && |rx| + |more| <= need
    ensures InProgress(rx + more)
  {
    if |rx| >= HEADER {
      DecodePrefix(rx, more);
    }
  }

  /** The header depends on the first 40 bytes only. */
  lemma DecodePrefix(frame: seq<byte>, more: seq<byte>)
    requires |frame| >= HEADER
    ensures Decode(frame + more) == Decode(frame)
  {
    var f := frame + more;
    assert f[..5] == frame[..5] && f[6..8] == frame[6..8] && f[8..12] == frame[8..12] && f[12..16] == frame[12..16];
    assert f[16..24] == frame[16..24] && f[24..32] == frame[24..32] && f[32..40] == frame[32..40];
  }

  // ---------- What the transmitter keeps ----------

  /** The packet carries the bytes of the current message at its offset, under their own sequence number. */
  ghost predicate Names(e: Endpoint, o: Out) {
    && o.off + |o.packet.data| <= e.txPos + e.flight <= |e.tx|
    && o.packet.data == e.tx[o.off..o.off + |o.packet.data|]
    && o.packet.seqNum == Sub32(e.seqNum, e.txPos + e.flight - o.off)
    && o.packet.ackNum == e.ackNum
  }

  /** f is e after sending some more and having some acknowledged. */
  ghost predicate Advanced(e: Endpoint, f: Endpoint) {
    && f.Ok() && f.tx == e.tx && e.txPos <= f.txPos && e.txPos + e.flight <= f.txPos + f.flight
    && f.seqNum == Add32(e.seqNum, f.txPos + f.flight - (e.txPos + e.flight))
    && f.txAcked == e.txAcked && f.ackNum == e.ackNum && f.received == e.received && f.rx == e.rx
  }

  lemma TakeAckAdvances(e: Endpoint, now: nat)
    requires e.Ok()
    ensures Advanced(e, TakeAck(e, now))
  {
    var acked := Sub32(e.txAcked, e.flightSeq);
    if e.flight > 0 && 0 < acked <= e.flight {
      FlightMoves(e.seqNum, e.flight, acked);
    }
    assert Add32(e.seqNum, 0) == e.seqNum;
  }

  /** The flight's start moves up with what is acknowledged. */
  lemma FlightMoves(seqNum: nat, flight: nat, acked: nat)
    requires acked <= flight
    ensures Add32(Sub32(seqNum, flight), acked) == Sub32(seqNum, flight - acked)
  {
    var s := seqNum - flight;
    assert s == s / TWO_32 * TWO_32 + s % TWO_32;
  }

  lemma {:induction false} ResendNames(e: Endpoint, mss: nat, pos: nat)
    requires e.Ok() && mss > 0 && pos <= e.flight && e.flight > 0
    ensures forall o <- Resend(e, mss, pos) :: Names(e, o)
    decreases e.flight - pos
  {
    if pos < e.flight {
      var amount := if e.flight - pos > mss then mss else e.flight - pos;
      ResendNames(e, mss, pos + amount);
      assert Add32(e.flightSeq, pos) == Sub32(e.seqNum, e.flight - pos);
    }
  }

  lemma AdvancedTwice(e: Endpoint, f: Endpoint, g: Endpoint)
    requires Advanced(e, f) && Advanced(f, g)
    ensures Advanced(e, g)
  {
  }

  lemma NamesAdvance(e: Endpoint, f: Endpoint, o: Out)
    requires Advanced(e, f) && Names(e, o)
    ensures Names(f, o)
  {
    AddThenSub(e.seqNum, f.txPos + f.flight - (e.txPos + e.flight), e.txPos + e.flight - o.off);
  }

  lemma SendNewAdvances(e: Endpoint, amount: nat, now: nat)
    requires e.Ok() && 0 < amount && e.txPos + e.flight + amount <= |e.tx|
    ensures Advanced(e, SendNew(e, amount, now)) && Names(SendNew(e, amount, now), NewOut(e, amount))
  {
    var g := SendNew(e, amount, now);
    AddThenSub(e.seqNum, amount, e.flight);
    AddThenSub(e.seqNum, amount, 0);
    assert e.seqNum == Sub32(e.seqNum, 0);
  }

  lemma AddThenSub(seqNum: nat, amount: nat, back: nat)
    ensures Sub32(Add32(seqNum, amount), back + amount) == Sub32(seqNum, back)
  {
    var s := seqNum + amount;
    assert s == s / TWO_32 * TWO_32 + s % TWO_32;
  }

  lemma {:induction false} BurstAdvances(e: Endpoint, mss: nat, now: nat, n: nat)
    requires e.Ok() && mss > 0
    ensures var (f, outs) := Burst(e, mss, now, n);
      && Advanced(e, f) && f.txPos == e.txPos && (forall o <- outs :: Names(f, o))
      && f.peerWindow == e.peerWindow && (f.flight > e.flight ==> f.flight <= e.peerWindow)
    decreases n
  {
    if n > 0 && e.txPos + e.flight < |e.tx| && e.flight < e.peerWindow {
      var amount := NewAmount(e, mss);
      SendNewAdvances(e, amount, now);
      var g := SendNew(e, amount, now);
      BurstAdvances(g, mss, now, n - 1);
      var f := Burst(g, mss, now, n - 1).0;
      AdvancedTwice(e, g, f);
      NamesAdvance(g, f, NewOut(e, amount));
    }
  }

  lemma RepeatAdvances(e: Endpoint, mss: nat, now: nat)
    requires e.Ok() && mss > 0
    ensures var (f, outs) := Repeat(e, mss, now);
      Advanced(e, f) && f == e.(sentAt := f.sentAt) && forall o <- outs :: Names(f, o)
  {
    if e.flight > 0 {
      ResendNames(e, mss, 0);
    }
  }

  lemma ProbeAdvances(e: Endpoint, now: nat)
    requires e.Ok()
    ensures var (f, outs) := Probe(e, now);
      Advanced(e, f) && f == e.(sentAt := f.sentAt) && forall o <- outs :: Names(f, o)
  {
  }

  /** One pass only ever moves forward, stays within the peer's window when it sends anything new, and
      every byte it sends, first or again, carries the sequence number it always had. */
  lemma PumpAdvances(e: Endpoint, mss: nat, now: nat)
    requires e.Ok() && mss > 0
    ensures var (f, outs) := Pump(e, mss, now);
      && Advanced(e, f) && (forall o <- outs :: Names(f, o))
      && (f.txPos + f.flight > e.txPos + e.flight ==> f.flight <= f.peerWindow)
  {
    var a := TakeAck(e, now);
    TakeAckAdvances(e, now);
    var (b, resent) := Repeat(a, mss, now);
    RepeatAdvances(a, mss, now);
    var (c, news) := Burst(b, mss, now, 8);
    BurstAdvances(b, mss, now, 8);
    var (d, probes) := Probe(c, now);
    ProbeAdvances(c, now);
    AdvancedTwice(b, c, d);
    AdvancedTwice(a, b, d);
    AdvancedTwice(e, a, d);
    forall o | o in resent + news + probes ensures Names(d, o) {
      if o in resent {
        NamesAdvance(b, d, o);
      } else if o in news {
        NamesAdvance(c, d, o);
      }
    }
  }
}
