/**
 * What is lost is sent again (c/rntp/main.c, c/libcr2/net.c): a pass whose timer has expired repeats every
 * outstanding byte, and from any state, whatever was lost, both streams can be brought to their ends,
 * exactly unless one of two things has happened that nothing repairs.
 */
module RntpRecovery {
  import opened Bytes
  import opened RntpProtocol
  import opened RntpStream
  import opened RntpConnection
  import RntpAliasing

  // ---------- One pass ----------

  /** The packet carries the byte at this offset of the message. */
  predicate Covers(o: Out, off: nat) { o.off <= off < o.off + |o.packet.data| }

  lemma {:induction false} ResendCovers(e: Endpoint, mss: nat, pos: nat, off: nat)
    requires e.Ok() && mss > 0 && pos <= e.flight && e.txPos + pos <= off < e.txPos + e.flight
    ensures exists o :: o in Resend(e, mss, pos) && Covers(o, off)
    decreases e.flight - pos
  {
    var amount := if e.flight - pos > mss then mss else e.flight - pos;
    var first := Resend(e, mss, pos)[0];
    if off < e.txPos + pos + amount {
      assert first in Resend(e, mss, pos) && Covers(first, off);
    } else {
      ResendCovers(e, mss, pos + amount, off);
      var o :| o in Resend(e, mss, pos + amount) && Covers(o, off);
      assert o in Resend(e, mss, pos);
    }
  }

  /** No part of the flight has been acknowledged. */
  predicate NothingAcked(e: Endpoint) { !(e.flight > 0 && 0 < Sub32(e.txAcked, e.flightSeq) <= e.flight) }

  /** A pass whose timer has expired, with nothing acknowledged, sends every outstanding byte again, each under its
      own sequence number. */
  lemma PassRepeats(e: Endpoint, mss: nat, now: nat, off: nat)
    requires e.Ok() && mss > 0 && NothingAcked(e) && Expired(e, now)
    requires e.txPos <= off < e.txPos + e.flight
    ensures exists o :: o in Pump(e, mss, now).1 && Covers(o, off) && Names(Pump(e, mss, now).0, o)
  {
    PumpAdvances(e, mss, now);
    ResendCovers(e, mss, 0, off);
    var o :| o in Resend(e, mss, 0) && Covers(o, off);
    assert o in Pump(e, mss, now).1;
  }

  /** What an expired pass puts on the wire: the start of the flight, or of the new bytes, or a probe. */
  lemma PassSpeaks(e: Endpoint, mss: nat, now: nat) returns (o: Out)
    requires e.Ok() && mss > 0 && NothingAcked(e) && Expired(e, now) && e.txPos < |e.tx|
    ensures o in Pump(e, mss, now).1
    ensures e.flight > 0 || e.peerWindow > 0 ==> o.off == e.txPos && 0 < |o.packet.data| <= mss
    ensures !(e.flight > 0 || e.peerWindow > 0) ==> o.packet.data == []
    ensures o.packet.window == CAPACITY - |e.received|
  {
    if e.flight > 0 {
      o := Resend(e, mss, 0)[0];
      assert o in Resend(e, mss, 0);
    } else if e.peerWindow > 0 {
      o := NewOut(e, NewAmount(e, mss));
      assert Repeat(e, mss, now) == (e, []);
      assert o == Burst(e, mss, now, 8).1[0];
    } else {
      assert Repeat(e, mss, now) == (e, []) && Burst(e, mss, now, 8) == (e, []);
      o := e.PureAck();
      assert Probe(e, now).1 == [o];
    }
  }

  /** Every byte a pass sends lies behind what is acknowledged. */
  lemma {:induction false} ResendFrom(e: Endpoint, mss: nat, pos: nat)
    requires e.Ok() && mss > 0 && pos <= e.flight
    ensures forall o <- Resend(e, mss, pos) :: o.off >= e.txPos
    decreases e.flight - pos
  {
    if pos < e.flight {
      ResendFrom(e, mss, pos + if e.flight - pos > mss then mss else e.flight - pos);
    }
  }

  lemma {:induction false} BurstFrom(e: Endpoint, mss: nat, now: nat, n: nat)
    requires e.txPos + e.flight <= |e.tx| && mss > 0
    ensures forall o <- Burst(e, mss, now, n).1 :: o.off >= e.txPos
    decreases n
  {
    if n > 0 && e.txPos + e.flight < |e.tx| && e.flight < e.peerWindow {
      BurstFrom(SendNew(e, NewAmount(e, mss), now), mss, now, n - 1);
    }
  }

  lemma PumpFrom(e: Endpoint, mss: nat, now: nat)
    requires e.Ok() && mss > 0
    ensures forall o <- Pump(e, mss, now).1 :: o.packet.data != [] ==> o.off >= TakeAck(e, now).txPos
  {
    var a := TakeAck(e, now);
    TakeAckAdvances(e, now);
    ResendFrom(a, mss, 0);
    BurstFrom(Repeat(a, mss, now).0, mss, now, 8);
  }

  // ---------- One side ----------

  /** Everything given to this side is sent and acknowledged, whether or not the transmitter has noticed. */
  ghost predicate Idle(x: Side) {
    x.SentTo() == |Flat(x.sent)| && (x.e.flight == 0 || x.ackedAt == x.SentTo())
  }

  /** The transmitter has taken in every acknowledgment. */
  ghost predicate Settled(x: Side) { x.e.flight > 0 ==> x.ackedAt <= x.Base() + x.e.txPos }

  /** Outstanding bytes or an open window: something to send whenever there is something left. */
  ghost predicate NotBlocked(x: Side) {
    Idle(x) || x.e.peerWindow > 0 || (x.e.flight > 0 && x.ackedAt < x.SentTo())
  }

  /** The parts of a side that its own passes leave alone. */
  ghost predicate SameButSending(x: Side, t: Side) {
    && t.sent == x.sent && t.got == x.got && t.ackedAt == x.ackedAt && t.e.rx == x.e.rx && t.e.received == x.e.received
    && t.e.ackNum == x.e.ackNum && t.e.peerWindow == x.e.peerWindow
  }

  lemma PumpShape(e: Endpoint, mss: nat, now: nat)
    requires e.Ok() && mss > 0
    ensures var d, a := Pump(e, mss, now).0, TakeAck(e, now);
      && d.tx == e.tx && d.txPos == a.txPos && a.flight <= d.flight && d.txPos + d.flight <= |d.tx|
      && d.peerWindow == e.peerWindow && d.rx == e.rx && d.received == e.received && d.ackNum == e.ackNum
  {
    var a := TakeAck(e, now);
    TakeAckAdvances(e, now);
    RepeatAdvances(a, mss, now);
    BurstAdvances(Repeat(a, mss, now).0, mss, now, 8);
    ProbeAdvances(Burst(Repeat(a, mss, now).0, mss, now, 8).0, now);
    PumpAdvances(e, mss, now);
  }

  /** Where the transmitter is once it has taken in the acknowledgments. */
  lemma TakeAckShape(x: Side, now: nat)
    requires TxOk(x)
    ensures var f := TakeAck(x.e, now);
      && x.Base() + f.txPos + f.flight == x.SentTo() && f.tx == x.e.tx
      && (if x.e.flight > 0 && x.ackedAt > x.Base() + x.e.txPos then x.Base() + f.txPos == x.ackedAt else f == x.e)
  {
    if x.e.flight > 0 { AckedAmount(x); }
  }

  lemma PassShape(x: Side, now: nat)
    requires TxOk(x)
    ensures var t := ActPass(x, MAX_PAYLOAD, now).0;
      SameButSending(x, t) && Settled(t) && (Idle(t) <==> Idle(x)) && (NotBlocked(x) ==> NotBlocked(t))
  {
    TakeAckShape(x, now);
    PumpShape(x.e, MAX_PAYLOAD, now);
    AfterPump(x, Pump(x.e, MAX_PAYLOAD, now).0, TakeAck(x.e, now));
  }

  lemma AfterPump(x: Side, d: Endpoint, a: Endpoint)
    requires TxOk(x) && d.tx == a.tx == x.e.tx && d.txPos == a.txPos && a.flight <= d.flight && d.txPos + d.flight <= |d.tx|
    requires d.peerWindow == x.e.peerWindow && d.rx == x.e.rx && d.received == x.e.received && d.ackNum == x.e.ackNum
    requires x.Base() + a.txPos + a.flight == x.SentTo()
    requires if x.e.flight > 0 && x.ackedAt > x.Base() + x.e.txPos then x.Base() + a.txPos == x.ackedAt else a == x.e
    ensures var t := x.(e := Forget(d));
      SameButSending(x, t) && Settled(t) && (Idle(t) <==> Idle(x)) && (NotBlocked(x) ==> NotBlocked(t))
  {
  }

  /** A side with something left speaks when its timer has expired. */
  lemma LoudPass(x: Side, now: nat) returns (g: Segment)
    requires TxOk(x) && Settled(x) && !Idle(x) && Expired(x.e, now)
    ensures g in ActPass(x, MAX_PAYLOAD, now).1
    ensures g.packet.window == CAPACITY - |x.e.received| && g.ackAt == x.Got()
    ensures x.e.flight > 0 || x.e.peerWindow > 0 ==> g.at == x.Base() + x.e.txPos && 0 < |g.packet.data| <= MAX_PAYLOAD
    ensures !(x.e.flight > 0 || x.e.peerWindow > 0) ==> g.packet.data == []
  {
    SettledTookAll(x);
    var o := PassSpeaks(x.e, MAX_PAYLOAD, now);
    PumpShape(x.e, MAX_PAYLOAD, now);
    var (d, outs) := Pump(x.e, MAX_PAYLOAD, now);
    g := Segment(x.Base() + o.off, x.Got(), o.packet);
    IsLaunched(x, d, outs, o);
  }

  lemma IsLaunched(x: Side, d: Endpoint, outs: seq<Out>, o: Out)
    requires o in outs && |d.tx| == |x.e.tx| && d.rx == x.e.rx && d.received == x.e.received
    ensures Segment(x.Base() + o.off, x.Got(), o.packet) in Launch(x.(e := d), outs)
  {
    var s := x.(e := d);
    assert s.Base() == x.Base() && s.Got() == x.Got();
  }

  lemma SettledTookAll(x: Side)
    requires TxOk(x) && Settled(x)
    ensures NothingAcked(x.e)
  {
    if x.e.flight > 0 { AckedAmount(x); }
  }

  lemma SentAtAgo(at: nat)
    ensures (at + RETRANSMIT_MS - at) % TWO_64 >= RETRANSMIT_MS
  {
  }

  /** An acknowledgment that is not behind the latest one is taken for what it is. */
  lemma HearAck(x: Side, y: Side, g: Segment)
    requires TxOk(x) && RxOk(y, x) && SegmentOk(y, g) && x.ackedAt <= g.ackAt
    ensures var t := ActHear(x, g).0;
      && t.ackedAt == g.ackAt && t.e.peerWindow == g.packet.window && t.sent == x.sent && t.got == x.got && t.e.rx == x.e.rx
      && t.e.tx == x.e.tx && t.e.txPos == x.e.txPos && t.e.flight == x.e.flight
      && (g.packet.data == [] ==> t.e.received == x.e.received)
  {
    FreshAck(x, y, g);
  }

  lemma FreshAck(x: Side, y: Side, g: Segment)
    requires TxOk(x) && RxOk(y, x) && SegmentOk(y, g) && x.ackedAt <= g.ackAt
    ensures NewAck(x.e, g.packet.ackNum) <==> x.ackedAt < g.ackAt
    ensures Sub32(g.packet.ackNum, x.e.txAcked) == g.ackAt - x.ackedAt
  {
    AckRange(x, g.packet.ackNum);
    SeqMinus(g.ackAt, x.ackedAt);
    SmallMod(g.ackAt - x.ackedAt);
  }

  /** Bytes that arrive where nothing waits are taken if they are the next ones, and answered in any case. */
  lemma HearData(y: Side, x: Side, g: Segment) returns (r: Segment)
    requires RxOk(y, x) && SegmentOk(x, g) && y.e.received == [] && 0 < |g.packet.data| <= MAX_PAYLOAD && !Aliases(y, g)
    ensures var (t, launched) := ActHear(y, g);
      && r in launched && r.packet.data == [] && r.ackAt == t.Got() && r.packet.window >= CAPACITY - MAX_PAYLOAD
      && t.e.received == (if g.at == y.Got() then g.packet.data else []) && t.Got() == y.Got() + |t.e.received|
  {
    InOrder(y, x, g);
    var (d, outs) := OnPacket(y.e, g.packet);
    var t := ActHear(y, g).0;
    assert g.packet.data[..|g.packet.data|] == g.packet.data;
    assert outs == [d.PureAck()];
    var o := d.PureAck();
    r := Segment(t.Base() + o.off, t.Got(), o.packet);
    assert r in Launch(t, [o]);
  }

  // ---------- Polling until nothing more can be handed up ----------

  /** Nothing waits, and the message being received is not whole. */
  predicate Drained(y: Side) { y.e.received == [] && Need(y.e.rx).Some? && |y.e.rx| != Need(y.e.rx).value }

  function Mu(e: Endpoint): nat { 2 * |e.received| + |e.rx| }

  lemma {:induction false} IncomingWaits(e: Endpoint)
    requires InProgress(e.rx) && Incoming(e).1 == Waiting
    ensures Incoming(e).0.received == [] && InProgress(Incoming(e).0.rx) && Incoming(Incoming(e).0) == (Incoming(e).0, Waiting, [])
    decreases |e.received|
  {
    if e.received != [] {
      var take := Min(Need(e.rx).value - |e.rx|, |e.received|);
      Grown(e.rx, e.received[..take], Need(e.rx).value);
      IncomingWaits(e.(rx := e.rx + e.received[..take], received := e.received[take..]));
    }
  }

  /** The first bytes taken are answered with an open window. */
  lemma IncomingTells(e: Endpoint) returns (o: Out)
    requires InProgress(e.rx) && Need(e.rx).Some? && |e.rx| != Need(e.rx).value && 0 < |e.received| <= CAPACITY
    ensures o in Incoming(e).2 && o.packet.data == [] && o.packet.window > 0
  {
    var take := Min(Need(e.rx).value - |e.rx|, |e.received|);
    Grown(e.rx, e.received[..take], Need(e.rx).value);
    var f := e.(rx := e.rx + e.received[..take], received := e.received[take..]);
    o := f.PureAck();
    assert o == Incoming(e).2[0];
  }

  /** The sending half of a side and what it received in all. */
  ghost predicate SameButReceiving(y: Side, t: Side) {
    && SameSender(y, t) && t.e.sentAt == y.e.sentAt && t.e.peerWindow == y.e.peerWindow && t.Got() == y.Got()
    && y.got <= t.got
  }

  lemma PollShape(y: Side, x: Side)
    requires TxOk(x) && TxOk(y) && RxOk(y, x) && y.got <= x.sent
    ensures var t := ActPoll(y).0; SameButReceiving(y, t) && (Mu(t.e) < Mu(y.e) || (t == y && Drained(y)))
  {
    NeverBroken(x, y);
    IncomingKeeps(y.e);
    var (d, progress, outs) := Incoming(y.e);
    Regroup(Flat(y.got), y.e.rx, y.e.received, d.rx, d.received);
    if progress == Ready {
      FlatSnoc(y.got, d.rx);
    } else {
      IncomingWaits(y.e);
      if y.e.received == [] { assert d == y.e; }
    }
  }

  /** What a poll tells the other side, with bytes waiting that the message needs. */
  lemma PollTells(y: Side, x: Side) returns (g: Segment)
    requires TxOk(x) && RxOk(y, x) && y.got <= x.sent && y.e.received != []
    requires Need(y.e.rx).Some? && |y.e.rx| != Need(y.e.rx).value
    ensures g in ActPoll(y).1 && g.packet.data == [] && g.packet.window > 0 && g.ackAt == y.Got()
  {
    var o := IncomingTells(y.e);
    IncomingKeeps(y.e);
    var (d, progress, outs) := Incoming(y.e);
    Regroup(Flat(y.got), y.e.rx, y.e.received, d.rx, d.received);
    var t := y.(e := d);
    g := Segment(t.Base() + o.off, t.Got(), o.packet);
    assert g in Launch(t, outs);
  }

  // ---------- Runs of passes, hearings and polls ----------

  predicate Plain(step: Step) { step.action.Pass? || step.action.Hear? || step.action.Poll? }

  predicate AllPlain(steps: seq<Step>) { forall k :: 0 <= k < |steps| ==> Plain(steps[k]) }

  ghost predicate Path(s: System, t: System, steps: seq<Step>) {
    Inv(s) && Inv(t) && AllPlain(steps) && Run(s, steps) == t
  }

  ghost predicate Reach(s: System, t: System) { exists steps :: Path(s, t, steps) }

  lemma ReachSelf(s: System)
    requires Inv(s)
    ensures Reach(s, s)
  {
    assert Path(s, s, []);
  }

  lemma Onward(s: System, t: System, step: Step) returns (r: System)
    requires Reach(s, t) && Plain(step)
    ensures r == Next(t, step) && Reach(s, r)
  {
    var steps :| Path(s, t, steps);
    RntpAliasing.RunAppend(s, steps, [step]);
    NextKeeps(t, step);
    r := Next(t, step);
    assert Run(t, [step]) == Run(r, []) == r;
    assert Path(s, r, steps + [step]);
  }

  ghost predicate Told(gs: set<Segment>, at: nat) {
    exists g <- gs :: g.packet.data == [] && g.packet.window > 0 && g.ackAt == at
  }

  lemma Prefixes(t: System)
    requires Inv(t)
    ensures t.b.got <= t.a.sent && t.a.got <= t.b.sent
  {
    Delivered(t.a, t.b, t.ab);
    Delivered(t.b, t.a, t.ba);
  }

  /** b polls until it waits for more; if bytes were waiting it has told the other side of an open window. */
  lemma {:induction false} DrainB(s: System, t: System) returns (r: System)
    requires Reach(s, t)
    ensures Reach(s, r) && r.a == t.a && r.ab == t.ab && t.ba <= r.ba
    ensures Drained(r.b) && SameButReceiving(t.b, r.b)
    ensures t.b.e.received != [] ==> Told(r.ba, t.b.Got())
    decreases Mu(t.b.e)
  {
    Prefixes(t);
    PollShape(t.b, t.a);
    r := Onward(s, t, ByB(Poll));
    if r.b == t.b && Drained(t.b) {
    } else {
      var u := r;
      r := DrainB(s, u);
      if t.b.e.received != [] {
        if Need(t.b.e.rx).Some? && |t.b.e.rx| != Need(t.b.e.rx).value {
          var g := PollTells(t.b, t.a);
          assert g in r.ba;
        } else {
          ReadyKeepsWaiting(t.b, t.a);
        }
      }
    }
  }

  /** A message already whole is handed up first, and the bytes behind it wait. */
  lemma ReadyKeepsWaiting(y: Side, x: Side)
    requires TxOk(x) && RxOk(y, x) && y.got <= x.sent && !(Need(y.e.rx).Some? && |y.e.rx| != Need(y.e.rx).value)
    ensures ActPoll(y).0.e.received == y.e.received
  {
    NeverBroken(x, y);
  }

  // ---------- The two directions alike ----------

  function Swap(s: System): System { System(s.b, s.a, s.ba, s.ab) }

  function Mirror(step: Step): Step {
    match step
    case ByA(action) => ByB(action)
    case ByB(action) => ByA(action)
  }

  function Mirrored(steps: seq<Step>): seq<Step> { seq(|steps|, k requires 0 <= k < |steps| => Mirror(steps[k])) }

  lemma SwapNext(s: System, step: Step)
    requires Runnable(s)
    ensures Next(Swap(s), Mirror(step)) == Swap(Next(s, step))
  {
  }

  lemma SwapInv(s: System)
    requires Inv(s)
    ensures Inv(Swap(s)) && Runnable(s)
  {
  }

  lemma {:induction false} SwapRun(s: System, steps: seq<Step>)
    requires Inv(s)
    ensures Inv(Swap(s)) && Run(Swap(s), Mirrored(steps)) == Swap(Run(s, steps))
    decreases |steps|
  {
    SwapInv(s);
    if steps != [] {
      NextKeeps(s, steps[0]);
      SwapInv(Next(s, steps[0]));
      SwapFirst(s, steps);
      SwapRun(Next(s, steps[0]), steps[1..]);
    }
  }

  lemma SwapFirst(s: System, steps: seq<Step>)
    requires steps != [] && Runnable(s) && Inv(Swap(s)) && Inv(Swap(Next(s, steps[0])))
    ensures Run(Swap(s), Mirrored(steps)) == Run(Swap(Next(s, steps[0])), Mirrored(steps[1..]))
  {
    SwapNext(s, steps[0]);
    assert Mirrored(steps)[1..] == Mirrored(steps[1..]);
  }

  lemma SwapReach(s: System, t: System)
    requires Reach(s, t)
    ensures Reach(Swap(s), Swap(t))
  {
    var steps :| Path(s, t, steps);
    SwapRun(s, steps);
    SwapInv(t);
    assert Path(Swap(s), Swap(t), Mirrored(steps));
  }

  lemma DrainA(s: System, t: System) returns (r: System)
    requires Reach(s, t)
    ensures Reach(s, r) && r.b == t.b && r.ba == t.ba && t.ab <= r.ab
    ensures Drained(r.a) && SameButReceiving(t.a, r.a)
    ensures t.a.e.received != [] ==> Told(r.ab, t.a.Got())
  {
    SwapReach(s, t);
    var u := DrainB(Swap(s), Swap(t));
    SwapReach(Swap(s), u);
    r := Swap(u);
  }

  // ---------- One round from a to b ----------

  /** Nothing is taken for acknowledged that has not arrived. */
  ghost predicate Honest(s: System) { s.a.ackedAt <= s.b.Got() && s.b.ackedAt <= s.a.Got() }

  ghost predicate SameReceived(x: Side, t: Side) { t.got == x.got && t.e.rx == x.e.rx && t.e.received == x.e.received }

  ghost predicate SameSent(s: System, t: System) { t.a.sent == s.a.sent && t.b.sent == s.b.sent }

  /** What a settled side sends first is not ahead of what the other has, and not far behind it. */
  lemma NotAhead(x: Side, y: Side, g: Segment)
    requires TxOk(x) && RxOk(y, x) && Settled(x) && x.ackedAt <= y.Got()
    ensures x.Base() + x.e.txPos <= y.Got() <= x.Base() + x.e.txPos + FRAME
    ensures g.at == x.Base() + x.e.txPos ==> !Aliases(y, g)
  {
    if g.at == x.Base() + x.e.txPos { SmallMod(y.Got() - g.at); }
  }

  /** The start of what is outstanding, or new, is sent and taken, or found to be there already. */
  lemma Carry(s: System, t: System) returns (r: System, ack: Segment)
    requires Reach(s, t) && Honest(t) && Drained(t.a) && Drained(t.b) && Settled(t.a) && !Idle(t.a) && NotBlocked(t.a)
    ensures Reach(s, r) && Honest(r) && SameSent(t, r)
    ensures r.a.ackedAt == t.a.ackedAt < r.b.Got() && SameReceived(t.a, r.a) && r.b.e.peerWindow > 0
    ensures ack in r.ba && ack.packet.data == [] && ack.packet.window > 0 && ack.ackAt == r.b.Got()
  {
    var u, g := Speak(s, t);
    r, ack := Taken(s, u, g);
  }

  /** A side with something left speaks; what it says tells of an open window and aliases nothing. */
  lemma Speak(s: System, t: System) returns (r: System, g: Segment)
    requires Reach(s, t) && Honest(t) && t.a.e.received == [] && Settled(t.a) && !Idle(t.a)
    ensures Reach(s, r) && SameButSending(t.a, r.a) && Settled(r.a) && r.b == t.b && r.ba == t.ba && t.ab <= r.ab
    ensures (Idle(r.a) <==> Idle(t.a)) && (NotBlocked(t.a) ==> NotBlocked(r.a))
    ensures g in r.ab && g.ackAt == r.a.Got() && g.packet.window == CAPACITY && !Aliases(r.b, g)
    ensures NotBlocked(t.a) ==> 0 < |g.packet.data| <= MAX_PAYLOAD && (t.a.ackedAt < t.b.Got() || g.at == t.b.Got())
  {
    var now: nat;
    g, now := SpeakTo(t.a, t.b);
    r := PassA(s, t, now);
  }

  lemma PassA(s: System, t: System, now: nat) returns (r: System)
    requires Reach(s, t)
    ensures Reach(s, r) && r == t.(a := r.a, ab := r.ab) && r.ab == t.ab + ActPass(t.a, MAX_PAYLOAD, now).1
    ensures SameButSending(t.a, r.a) && Settled(r.a)
    ensures (Idle(r.a) <==> Idle(t.a)) && (NotBlocked(t.a) ==> NotBlocked(r.a))
  {
    PassShape(t.a, now);
    r := Onward(s, t, ByA(Pass(MAX_PAYLOAD, now)));
  }

  lemma SpeakTo(x: Side, y: Side) returns (g: Segment, now: nat)
    requires TxOk(x) && RxOk(y, x) && x.e.received == [] && Settled(x) && !Idle(x) && x.ackedAt <= y.Got()
    ensures g in ActPass(x, MAX_PAYLOAD, now).1
    ensures g.ackAt == x.Got() && g.packet.window == CAPACITY && !Aliases(y, g)
    ensures NotBlocked(x) ==> 0 < |g.packet.data| <= MAX_PAYLOAD && (x.ackedAt < y.Got() || g.at == y.Got())
  {
    now := x.e.sentAt + RETRANSMIT_MS;
    SentAtAgo(x.e.sentAt);
    g := LoudPass(x, now);
    NotAhead(x, y, g);
  }

  /** The packet is heard and answered; afterwards b has more than was acknowledged. */
  lemma Taken(s: System, t: System, g: Segment) returns (r: System, ack: Segment)
    requires Reach(s, t) && Honest(t) && Drained(t.b) && Drained(t.a)
    requires g in t.ab && g.ackAt == t.a.Got() && g.packet.window == CAPACITY && !Aliases(t.b, g) && 0 < |g.packet.data| <= MAX_PAYLOAD
    requires t.a.ackedAt < t.b.Got() || g.at == t.b.Got()
    ensures Reach(s, r) && Honest(r) && r.a == t.a && r.b.sent == t.b.sent
    ensures t.a.ackedAt < r.b.Got() && r.b.e.peerWindow > 0
    ensures ack in r.ba && ack.packet.data == [] && ack.packet.window > 0 && ack.ackAt == r.b.Got()
  {
    ack := HearData(t.b, t.a, g);
    HearAck(t.b, t.a, g);
    r := Onward(s, t, ByB(Hear(g)));
  }

  lemma Settle(s: System, t: System) returns (r: System)
    requires Reach(s, t)
    ensures Reach(s, r) && SameButSending(t.a, r.a) && Settled(r.a) && r.b == t.b && r.ba == t.ba && t.ab <= r.ab
    ensures (Idle(r.a) <==> Idle(t.a)) && (NotBlocked(t.a) ==> NotBlocked(r.a))
  {
    r := PassA(s, t, 0);
  }

  /** One round: bytes there, their acknowledgment back. */
  lemma Round(s: System, t: System) returns (r: System)
    requires Reach(s, t) && Honest(t) && Drained(t.a) && Drained(t.b) && Settled(t.a) && !Idle(t.a) && NotBlocked(t.a)
    ensures Reach(s, r) && Honest(r) && SameSent(t, r) && Drained(r.a) && Drained(r.b) && Settled(r.a)
    ensures t.a.ackedAt < r.a.ackedAt && NotBlocked(r.a) && NotBlocked(r.b) && SameReceived(t.a, r.a)
  {
    var ack: Segment;
    r, ack := Carry(s, t);
    HearAck(r.a, r.b, ack);
    r := Onward(s, r, ByA(Hear(ack)));
    r := Settle(s, r);
    r := DrainB(s, r);
  }

  /** All that a was given to send arrives. */
  lemma {:induction false} Flush(s: System, t: System) returns (r: System)
    requires Reach(s, t) && Honest(t) && Drained(t.a) && Drained(t.b) && Settled(t.a) && NotBlocked(t.a) && NotBlocked(t.b)
    ensures Reach(s, r) && Honest(r) && SameSent(t, r) && Drained(r.a) && Drained(r.b) && NotBlocked(r.b)
    ensures r.b.Got() == |Flat(r.a.sent)| && SameReceived(t.a, r.a)
    decreases |Flat(t.a.sent)| - t.a.ackedAt
  {
    if Idle(t.a) {
      r := t;
    } else {
      r := Round(s, t);
      r := Flush(s, r);
    }
  }

  // ---------- Opening the windows ----------

  /**
   * x has bytes left and nothing outstanding, takes its peer's window for closed, and the peer has nothing to say:
   * a bare probe is not answered, so nobody ever tells x that the window is open.
   */
  ghost predicate Stalled(x: Side, y: Side) { !NotBlocked(x) && y.e.received == [] && Idle(y) }

  /** A packet under way that the side can take for what it is and that tells of an open window. */
  ghost predicate News(x: Side, inbox: set<Segment>) {
    exists g <- inbox :: g.packet.window > 0 && x.ackedAt <= g.ackAt && !Aliases(x, g)
  }

  lemma ToldIsNews(x: Side, inbox: set<Segment>, at: nat)
    requires Told(inbox, at) && x.ackedAt <= at
    ensures News(x, inbox)
  {
    var g :| g in inbox && g.packet.data == [] && g.packet.window > 0 && g.ackAt == at;
  }

  lemma NewsStays(x: Side, t: Side, inbox: set<Segment>, more: set<Segment>)
    requires News(x, inbox) && inbox <= more && t.ackedAt == x.ackedAt && t.Got() == x.Got() && |t.e.received| >= |x.e.received|
    ensures News(t, more)
  {
    var g :| g in inbox && g.packet.window > 0 && x.ackedAt <= g.ackAt && !Aliases(x, g);
    assert g in more && !Aliases(t, g);
  }

  /** a hears of the open window. */
  lemma HearNews(s: System, t: System) returns (r: System)
    requires Reach(s, t) && Honest(t) && News(t.a, t.ba)
    ensures Reach(s, r) && Honest(r) && r == t.(a := r.a, ab := r.ab) && t.ab <= r.ab && r.a.sent == t.a.sent && NotBlocked(r.a)
  {
    var g :| g in t.ba && g.packet.window > 0 && t.a.ackedAt <= g.ackAt && !Aliases(t.a, g);
    HearAck(t.a, t.b, g);
    HearGrows(t.a, t.b, g);
    r := Onward(s, t, ByA(Hear(g)));
  }

  lemma HearGrows(x: Side, y: Side, g: Segment)
    requires TxOk(x) && RxOk(x, y) && SegmentOk(y, g)
    ensures ActHear(x, g).0.Got() >= x.Got()
  {
  }

  /** What settles and speaks as long as there is something left; with nothing left, nothing happens. */
  lemma SpeakUp(s: System, t: System) returns (r: System)
    requires Reach(s, t) && Honest(t) && Drained(t.a)
    ensures Reach(s, r) && SameButSending(t.a, r.a) && r.b == t.b && r.ba == t.ba && t.ab <= r.ab
    ensures (Idle(r.a) <==> Idle(t.a)) && (NotBlocked(t.a) ==> NotBlocked(r.a))
    ensures !Idle(t.a) ==> News(r.b, r.ab)
  {
    r := Settle(s, t);
    if !Idle(t.a) {
      var g: Segment;
      r, g := Speak(s, r);
    }
  }

  /** Both sides say what they have to say. */
  lemma SayAll(s: System, t: System) returns (r: System)
    requires Reach(s, t) && Honest(t) && Drained(t.a) && Drained(t.b)
    ensures Reach(s, r) && Honest(r) && SameSent(t, r) && t.ab <= r.ab && t.ba <= r.ba
    ensures r.a.ackedAt == t.a.ackedAt && r.b.ackedAt == t.b.ackedAt && r.a.Got() == t.a.Got() && r.b.Got() == t.b.Got()
    ensures r.a.e.received == [] == r.b.e.received
    ensures (NotBlocked(t.a) ==> NotBlocked(r.a)) && (NotBlocked(t.b) ==> NotBlocked(r.b))
    ensures (!Idle(t.a) ==> News(r.b, r.ab)) && (!Idle(t.b) ==> News(r.a, r.ba))
  {
    var u := SpeakUp(s, t);
    SwapReach(s, u);
    var v := SpeakUp(Swap(s), Swap(u));
    SwapReach(Swap(s), v);
    r := Swap(v);
    if !Idle(t.a) { NewsStays(u.b, r.b, u.ab, r.ab); }
  }

  /** What is told while draining is still news afterwards. */
  lemma DrainBoth(s: System) returns (r: System)
    requires Inv(s) && Honest(s)
    ensures Reach(s, r) && Honest(r) && SameSent(s, r) && Drained(r.a) && Drained(r.b)
    ensures SameButReceiving(s.a, r.a) && SameButReceiving(s.b, r.b)
    ensures s.a.e.received != [] ==> News(r.b, r.ab)
    ensures s.b.e.received != [] ==> News(r.a, r.ba)
  {
    ReachSelf(s);
    var t := DrainB(s, s);
    r := DrainA(s, t);
    if s.a.e.received != [] { ToldIsNews(r.b, r.ab, s.a.Got()); }
    if s.b.e.received != [] { ToldIsNews(r.a, r.ba, s.b.Got()); }
  }

  lemma SameFigures(x: Side, t: Side)
    requires SameButReceiving(x, t)
    ensures (Idle(t) <==> Idle(x)) && (NotBlocked(t) <==> NotBlocked(x))
  {
  }

  /** Unless one of them is stalled, both sides come to have something to send whenever something is left. */
  lemma Unblock(s: System) returns (r: System)
    requires Inv(s) && Honest(s) && !Stalled(s.a, s.b) && !Stalled(s.b, s.a)
    ensures Reach(s, r) && Honest(r) && SameSent(s, r) && NotBlocked(r.a) && NotBlocked(r.b)
  {
    var t := DrainBoth(s);
    SameFigures(s.a, t.a);
    SameFigures(s.b, t.b);
    r := SayAll(s, t);
    if News(t.a, t.ba) { NewsStays(t.a, r.a, t.ba, r.ba); }
    if News(t.b, t.ab) { NewsStays(t.b, r.b, t.ab, r.ab); }
    if !NotBlocked(r.a) { r := HearNews(s, r); }
    if !NotBlocked(r.b) { r := HearNewsB(s, r); }
  }

  lemma HearNewsB(s: System, t: System) returns (r: System)
    requires Reach(s, t) && Honest(t) && News(t.b, t.ab)
    ensures Reach(s, r) && Honest(r) && r == t.(b := r.b, ba := r.ba) && r.b.sent == t.b.sent && NotBlocked(r.b)
  {
    SwapReach(s, t);
    var u := HearNews(Swap(s), Swap(t));
    SwapReach(Swap(s), u);
    r := Swap(u);
  }

  // ---------- Recovery ----------

  /** When all bytes have come and nothing waits, all messages have been handed up. */
  lemma AllHandedUp(x: Side, y: Side)
    requires TxOk(x) && RxOk(y, x) && y.got <= x.sent && Drained(y) && y.Got() == |Flat(x.sent)|
    ensures y.got == x.sent
  {
    var rest := x.sent[|y.got|..];
    assert x.sent == y.got + rest;
    FlatAppend(y.got, rest);
    RestIs(Flat(x.sent), Flat(y.got), y.e.rx, Flat(rest));
    if rest != [] {
      var m := rest[0];
      assert Flat(rest) == m + Flat(rest[1..]);
      DecodePrefix(m, Flat(rest[1..]));
      assert false;
    }
  }

  lemma RestIs(all: seq<byte>, got: seq<byte>, rx: seq<byte>, rest: seq<byte>)
    requires all == got + rest && got + rx + [] == all[..|all|]
    ensures rx == rest
  {
    assert all[..|all|] == all && got + rx + [] == got + rx;
    assert rx == (got + rx)[|got|..] && rest == (got + rest)[|got|..];
  }

  ghost predicate AllDelivered(s: System) { s.b.got == s.a.sent && s.a.got == s.b.sent }

  /** Both sides with nothing waiting and every acknowledgment taken in. */
  lemma Tidy(s: System, t: System) returns (r: System)
    requires Reach(s, t) && Honest(t) && NotBlocked(t.a) && NotBlocked(t.b)
    ensures Reach(s, r) && Honest(r) && SameSent(t, r) && NotBlocked(r.a) && NotBlocked(r.b)
    ensures Drained(r.a) && Drained(r.b) && Settled(r.a)
  {
    var u := DrainB(s, t);
    SameFigures(t.b, u.b);
    r := DrainA(s, u);
    SameFigures(u.a, r.a);
    r := Settle(s, r);
  }

  lemma SettleB(s: System, t: System) returns (r: System)
    requires Reach(s, t) && Honest(t) && NotBlocked(t.b)
    ensures Reach(s, r) && Honest(r) && r.a == t.a && SameButSending(t.b, r.b) && Settled(r.b) && NotBlocked(r.b)
  {
    SwapReach(s, t);
    var u := Settle(Swap(s), Swap(t));
    SwapReach(Swap(s), u);
    r := Swap(u);
  }

  /**
   * From every state, whatever the network has lost, passes, hearings and polls bring both streams to their ends,
   * unless one side takes bytes for acknowledged that have not arrived, or is stalled on a window it was never told is open.
   */
  lemma Recovers(s: System) returns (r: System)
    requires Inv(s) && Honest(s) && !Stalled(s.a, s.b) && !Stalled(s.b, s.a)
    ensures Reach(s, r) && SameSent(s, r) && AllDelivered(r)
  {
    r := Unblock(s);
    r := Tidy(s, r);
    r := Flush(s, r);
    var t := SettleB(s, r);
    Prefixes(t);
    AllHandedUp(t.a, t.b);
    SwapReach(s, t);
    var u := Flush(Swap(s), Swap(t));
    SwapReach(Swap(s), u);
    r := Swap(u);
    Prefixes(r);
    AllHandedUp(r.b, r.a);
  }

  // ---------- What nothing repairs ----------

  /** Bytes a takes for acknowledged that b does not have, and nothing under way that carries them. */
  ghost predicate Lost(s: System) {
    s.b.Got() < s.a.ackedAt && forall g <- s.ab :: g.packet.data != [] ==> g.at > s.b.Got()
  }

  /** Everything a side still sends lies behind what it takes for acknowledged. */
  lemma SendsBehind(x: Side, mss: nat, now: nat, g: Segment)
    requires TxOk(x) && x.ackedAt >= 0 && g in ActPass(x, mss, now).1 && g.packet.data != []
    ensures g.at >= x.ackedAt
  {
    if 0 < mss <= MAX_PAYLOAD {
      PumpFrom(x.e, mss, now);
      PumpShape(x.e, mss, now);
      TakeAckShape(x, now);
    }
  }

  /** Hearing and polling send no bytes, and no acknowledgment is forgotten. */
  lemma ListeningSendsNothing(x: Side, inbox: set<Segment>, action: Action)
    requires TxOk(x) && InProgress(x.e.rx) && (action.Hear? || action.Poll?)
    ensures var (t, launched) := Act(x, inbox, action);
      t.ackedAt >= x.ackedAt && forall g <- launched :: g.packet.data == []
  {
    IncomingKeeps(x.e);
  }

  lemma LostByA(s: System, action: Action)
    requires Inv(s) && Lost(s) && (action.Pass? || action.Hear? || action.Poll?)
    ensures Lost(Next(s, ByA(action)))
  {
    if action.Pass? {
      forall g | g in ActPass(s.a, action.mss, action.now).1 && g.packet.data != [] ensures g.at > s.b.Got() {
        SendsBehind(s.a, action.mss, action.now, g);
      }
    } else {
      ListeningSendsNothing(s.a, s.ba, action);
    }
  }

  /** A side that hears nothing it can use, passes or polls has received what it had. */
  lemma GotStays(y: Side, x: Side, inbox: set<Segment>, action: Action)
    requires TxOk(x) && TxOk(y) && RxOk(y, x) && y.got <= x.sent && (action.Pass? || action.Hear? || action.Poll?)
    requires action.Hear? && Deliverable(y, inbox, action.segment) ==>
      SegmentOk(x, action.segment) && (action.segment.packet.data != [] ==> action.segment.at > y.Got())
    ensures Act(y, inbox, action).0.Got() == y.Got()
  {
    match action
    case Pass(mss, now) => if 0 < mss <= MAX_PAYLOAD { PumpShape(y.e, mss, now); }
    case Hear(g) => if Deliverable(y, inbox, g) { TakenWronglyIff(y, x, g); }
    case Poll => PollShape(y, x);
  }

  lemma LostByB(s: System, action: Action)
    requires Inv(s) && Lost(s) && (action.Pass? || action.Hear? || action.Poll?)
    ensures Lost(Next(s, ByB(action)))
  {
    Prefixes(s);
    GotStays(s.b, s.a, s.ab, action);
  }

  lemma {:induction false} LostForGood(s: System, steps: seq<Step>)
    requires Inv(s) && Lost(s) && AllPlain(steps)
    ensures Lost(Run(s, steps))
    decreases |steps|
  {
    if steps != [] {
      assert Plain(steps[0]) && AllPlain(steps[1..]);
      if steps[0].ByA? { LostByA(s, steps[0].action); } else { LostByB(s, steps[0].action); }
      NextKeeps(s, steps[0]);
      LostForGood(Next(s, steps[0]), steps[1..]);
    }
  }

  lemma LostIsNotDelivered(s: System)
    requires Inv(s) && Lost(s)
    ensures !AllDelivered(s)
  {
  }

  /** Stalled, and nothing under way that could tell. */
  ghost predicate Stuck(s: System) {
    Stalled(s.a, s.b) && s.ba == {} && forall g <- s.ab :: g.packet.data == []
  }

  /** The stalled side only probes. */
  lemma StalledOnlyProbes(x: Side, mss: nat, now: nat)
    requires TxOk(x) && !NotBlocked(x)
    ensures var (t, launched) := ActPass(x, mss, now); !NotBlocked(t) && forall g <- launched :: g.packet.data == []
  {
    if 0 < mss <= MAX_PAYLOAD {
      TakeAckShape(x, now);
      var a := TakeAck(x.e, now);
      ProbingPump(x.e, mss, now);
      AfterProbe(x, a, Pump(x.e, mss, now).0);
    }
  }

  lemma ProbingPump(e: Endpoint, mss: nat, now: nat)
    requires e.Ok() && mss > 0 && TakeAck(e, now).flight == 0 && e.peerWindow == 0
    ensures var (d, outs) := Pump(e, mss, now);
      d == TakeAck(e, now).(sentAt := d.sentAt) && forall o <- outs :: o.packet.data == []
  {
    var a := TakeAck(e, now);
    assert Repeat(a, mss, now) == (a, []) && Burst(a, mss, now, 8) == (a, []);
  }

  lemma AfterProbe(x: Side, a: Endpoint, d: Endpoint)
    requires TxOk(x) && !NotBlocked(x) && d == a.(sentAt := d.sentAt) && a.tx == x.e.tx && a.flight == 0 && a.peerWindow == x.e.peerWindow
    requires x.Base() + a.txPos + a.flight == x.SentTo()
    ensures !NotBlocked(x.(e := Forget(d)))
  {
  }

  /** The side with nothing to say says nothing. */
  lemma IdleIsSilent(y: Side, mss: nat, now: nat)
    requires TxOk(y) && Idle(y)
    ensures var (t, launched) := ActPass(y, mss, now); Idle(t) && t.e.received == y.e.received && launched == {}
  {
    if 0 < mss <= MAX_PAYLOAD {
      TakeAckShape(y, now);
      var a := TakeAck(y.e, now);
      SilentPump(y.e, mss, now);
      AfterPump(y, a, a);
      NothingLaunched(y.(e := a));
    }
  }

  lemma NothingLaunched(x: Side)
    ensures Launch(x, []) == {}
  {
  }

  lemma SilentPump(e: Endpoint, mss: nat, now: nat)
    requires e.Ok() && mss > 0 && TakeAck(e, now).flight == 0 && TakeAck(e, now).txPos == |e.tx|
    ensures Pump(e, mss, now) == (TakeAck(e, now), [])
  {
    var a := TakeAck(e, now);
    assert Repeat(a, mss, now) == (a, []) && Burst(a, mss, now, 8) == (a, []) && Probe(a, now) == (a, []);
    var none: seq<Out> := [];
    assert none + none + none == none;
  }

  lemma StuckByA(s: System, action: Action)
    requires Inv(s) && Stuck(s) && (action.Pass? || action.Hear? || action.Poll?)
    ensures Stuck(Next(s, ByA(action)))
  {
    match action
    case Pass(mss, now) => StalledOnlyProbes(s.a, mss, now);
    case Hear(g) =>
    case Poll =>
      Prefixes(s);
      ListeningSendsNothing(s.a, s.ba, Poll);
      PollShape(s.a, s.b);
      SameFigures(s.a, ActPoll(s.a).0);
  }

  lemma StuckByB(s: System, action: Action)
    requires Inv(s) && Stuck(s) && (action.Pass? || action.Hear? || action.Poll?)
    ensures Stuck(Next(s, ByB(action)))
  {
    match action
    case Pass(mss, now) => IdleIsSilent(s.b, mss, now);
    case Hear(g) => if Deliverable(s.b, s.ab, g) { ProbeIsIgnored(s.b, s.a, g); }
    case Poll =>
      Prefixes(s);
      PollOfNothing(s.b, s.a);
  }

  lemma ProbeIsIgnored(y: Side, x: Side, g: Segment)
    requires TxOk(y) && SegmentOk(x, g) && g.packet.data == [] && Idle(y)
    ensures var (t, launched) := ActHear(y, g); Idle(t) && t.e.received == y.e.received && launched == {}
  {
    AckRange(y, g.packet.ackNum);
  }

  lemma PollOfNothing(y: Side, x: Side)
    requires TxOk(x) && TxOk(y) && RxOk(y, x) && y.got <= x.sent && y.e.received == [] && Idle(y)
    ensures var (t, launched) := ActPoll(y); Idle(t) && t.e.received == [] && launched == {}
  {
    PollShape(y, x);
    SameFigures(y, ActPoll(y).0);
  }

  lemma {:induction false} StuckForGood(s: System, steps: seq<Step>)
    requires Inv(s) && Stuck(s) && AllPlain(steps)
    ensures Stuck(Run(s, steps))
    decreases |steps|
  {
    if steps != [] {
      assert Plain(steps[0]) && AllPlain(steps[1..]);
      if steps[0].ByA? { StuckByA(s, steps[0].action); } else { StuckByB(s, steps[0].action); }
      NextKeeps(s, steps[0]);
      StuckForGood(Next(s, steps[0]), steps[1..]);
    }
  }

  lemma StuckIsNotDelivered(s: System)
    requires Inv(s) && Stuck(s)
    ensures !AllDelivered(s)
  {
  }

  /** Lost or stuck in one direction, nothing that either side does by itself brings everything across. */
  lemma NeverDelivered(s: System, t: System)
    requires Reach(s, t) && (Lost(s) || Stuck(s))
    ensures !AllDelivered(t)
  {
    var steps :| Path(s, t, steps);
    if Lost(s) {
      LostForGood(s, steps);
      LostIsNotDelivered(t);
    } else {
      StuckForGood(s, steps);
      StuckIsNotDelivered(t);
    }
  }

  /** The exact condition: with everything under way lost, both streams can be brought to their ends if and only if
      neither side takes for acknowledged what has not arrived and neither is stalled. */
  lemma RecoversIff(s: System)
    requires Inv(s) && s.ab == {} == s.ba
    ensures (exists t :: Reach(s, t) && AllDelivered(t)) <==> Honest(s) && !Stalled(s.a, s.b) && !Stalled(s.b, s.a)
  {
    if Honest(s) && !Stalled(s.a, s.b) && !Stalled(s.b, s.a) {
      var t := Recovers(s);
    } else {
      forall t | Reach(s, t) ensures !AllDelivered(t) {
        SwapReach(s, t);
        if Lost(s) || Stuck(s) { NeverDelivered(s, t); } else { NeverDelivered(Swap(s), Swap(t)); }
      }
    }
  }
}
