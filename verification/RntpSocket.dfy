/** The socket and stream buffers updated step by step (c/rntp/main.c, c/libcr2/net.c),
    proved against the transmitter and receiver of RntpStream. */
module RntpSocket {
  import opened Bytes
  import opened RntpProtocol
  import opened RntpStream

  function Packets(outs: seq<Out>): seq<Packet> {
    if outs == [] then [] else [outs[0].packet] + Packets(outs[1..])
  }

  /** The packets of a pass: the repeated ones, the new ones, a probe. */
  lemma PassPackets(e: Endpoint, mss: nat, now: nat)
    requires e.Ok() && mss > 0
    ensures var (b, resent) := Repeat(TakeAck(e, now), mss, now);
      var (c, news) := Burst(b, mss, now, 8);
      Packets(Transmit(e, mss, now).1) == Packets(resent) + Packets(news) + Packets(Probe(c, now).1)
  {
    var (b, resent) := Repeat(TakeAck(e, now), mss, now);
    var (c, news) := Burst(b, mss, now, 8);
    PacketsAppend(resent, news);
    PacketsAppend(resent + news, Probe(c, now).1);
  }

  lemma {:induction false} PacketsAppend(a: seq<Out>, b: seq<Out>)
    ensures Packets(a + b) == Packets(a) + Packets(b)
  {
    if a == [] {
      assert a + b == b;
    } else {
      assert (a + b)[1..] == a[1..] + b;
      PacketsAppend(a[1..], b);
    }
  }

  lemma AddTwice(a: nat, b: nat, c: nat)
    ensures Add32(Add32(a, b), c) == Add32(a, b + c)
  {
  }

  lemma ResendStep(e: Endpoint, mss: nat, pos: nat, amount: nat)
    requires e.txPos + e.flight <= |e.tx| && pos < e.flight && mss > 0
    requires amount == if e.flight - pos > mss then mss else e.flight - pos
    ensures Packets(Resend(e, mss, pos))
         == [e.Pack(Add32(e.flightSeq, pos), e.tx[e.txPos + pos..e.txPos + pos + amount])]
            + Packets(Resend(e, mss, pos + amount))
  {
    var outs := Resend(e, mss, pos);
    assert outs[1..] == Resend(e, mss, pos + amount);
  }

  /** What was replayed so far and the replay from pos on are the whole replay. */
  ghost predicate Replayed(wire: seq<Packet>, e: Endpoint, mss: nat, pos: nat)
    requires e.txPos + e.flight <= |e.tx| && pos <= e.flight && mss > 0
  {
    wire + Packets(Resend(e, mss, pos)) == Packets(Resend(e, mss, 0))
  }

  lemma ReplayedStep(wire: seq<Packet>, e: Endpoint, mss: nat, pos: nat, amount: nat, p: Packet)
    requires e.txPos + e.flight <= |e.tx| && pos < e.flight && mss > 0
    requires amount == if e.flight - pos > mss then mss else e.flight - pos
    requires p == e.Pack(Add32(e.flightSeq, pos), e.tx[e.txPos + pos..e.txPos + pos + amount])
    requires Replayed(wire, e, mss, pos)
    ensures Replayed(wire + [p], e, mss, pos + amount)
  {
    ResendStep(e, mss, pos, amount);
    var rest := Packets(Resend(e, mss, pos + amount));
    assert wire + [p] + rest == wire + ([p] + rest);
  }

  lemma BurstStep(e: Endpoint, mss: nat, now: nat, n: nat)
    requires e.txPos + e.flight < |e.tx| && mss > 0 && n > 0 && e.flight < e.peerWindow
    ensures var amount := NewAmount(e, mss);
      var next := Burst(SendNew(e, amount, now), mss, now, n - 1);
      && Burst(e, mss, now, n).0 == next.0
      && Packets(Burst(e, mss, now, n).1) == [NewOut(e, amount).packet] + Packets(next.1)
  {
    var outs := Burst(e, mss, now, n).1;
    assert outs[1..] == Burst(SendNew(e, NewAmount(e, mss), now), mss, now, n - 1).1;
  }

  /** What is still to come makes the whole out of what went out. */
  ghost predicate Rest(wire: seq<Packet>, rest: (Endpoint, Progress, seq<Out>), whole: (Endpoint, Progress, seq<Out>)) {
    rest.0 == whole.0 && rest.1 == whole.1 && wire + Packets(rest.2) == Packets(whole.2)
  }

  lemma RestMoves(wire: seq<Packet>, q: Packet, before: (Endpoint, Progress, seq<Out>),
                  rest: (Endpoint, Progress, seq<Out>), whole: (Endpoint, Progress, seq<Out>))
    requires Rest(wire, before, whole) && rest.0 == before.0 && rest.1 == before.1
    requires Packets(before.2) == [q] + Packets(rest.2)
    ensures Rest(wire + [q], rest, whole)
  {
    assert wire + ([q] + Packets(rest.2)) == (wire + [q]) + Packets(rest.2);
  }

  /**
   * Socket and stream fields of one connection. The receive buffer and the message being received are
   * arrays; received and rx say what their filled parts hold.
   */
  class Connection {
    const store: array<byte>
    var held: nat
    const message: array<byte>
    var rxLen: nat
    ghost var received: seq<byte>
    ghost var rx: seq<byte>
    var tx: seq<byte>
    var txPos: nat
    var flight: nat
    var flightSeq: nat
    var sentAt: nat
    var seqNum: nat
    var txAcked: nat
    var peerWindow: nat
    var ackNum: nat

    ghost function Abstract(): Endpoint
      reads this
    {
      Endpoint(tx, txPos, flight, flightSeq, sentAt, seqNum, txAcked, peerWindow, ackNum, received, rx)
    }

    ghost predicate Valid()
      reads this
    {
      Abstract().Ok() && held == |received|
    }

    ghost predicate Buffered()
      reads this, store, message
    {
      && store != message && store.Length == CAPACITY && message.Length == FRAME
      && held <= CAPACITY && store[..held] == received
      && rxLen <= FRAME && message[..rxLen] == rx
    }

    /** A connection as the handshake leaves it. */
    constructor (window: nat)
      ensures Valid() && Buffered() && fresh(store) && fresh(message)
      ensures Abstract() == Endpoint([], 0, 0, 0, 0, 1, 1, window, 1, [], [])
    {
      store, message := new byte[CAPACITY], new byte[FRAME];
      held, rxLen, received, rx := 0, 0, [], [];
      tx, txPos, flight, flightSeq, sentAt := [], 0, 0, 0, 0;
      seqNum, txAcked, peerWindow, ackNum := 1, 1, window, 1;
    }

    /** Builds one segment; the sequence number advances over its bytes. */
    method Send(data: seq<byte>) returns (p: Packet)
      requires held == |received| <= CAPACITY
      modifies this`seqNum
      ensures p == old(Abstract()).Pack(old(seqNum), data) && seqNum == Add32(old(seqNum), |data|)
    {
      p := Packet(seqNum, ackNum, CAPACITY - held, data);
      seqNum := (seqNum + |data|) % TWO_32;
    }

    method Acknowledge(now: nat)
      requires Valid()
      modifies this`txPos, this`flight, this`flightSeq, this`sentAt
      ensures Abstract() == TakeAck(old(Abstract()), now)
    {
      if flight > 0 {
        var acked := (txAcked - flightSeq) % TWO_32;
        if acked <= flight && acked > 0 {
          txPos := txPos + acked;
          flightSeq := (flightSeq + acked) % TWO_32;
          flight := flight - acked;
          sentAt := now;
        }
      }
    }

    /** Replays the outstanding range at its own sequence numbers; the live one is put back afterwards. */
    method Replay(mss: nat, now: nat) returns (wire: seq<Packet>)
      requires Valid() && mss > 0
      modifies this`seqNum, this`sentAt
      ensures Abstract() == Repeat(old(Abstract()), mss, now).0 && wire == Packets(Repeat(old(Abstract()), mss, now).1)
    {
      wire := [];
      if flight > 0 && (now - sentAt) % TWO_64 >= RETRANSMIT_MS {
        var next := seqNum;
        wire := ReplayFlight(mss);
        seqNum := next;
        sentAt := now;
      }
    }

    method ReplayFlight(mss: nat) returns (wire: seq<Packet>)
      requires Valid() && mss > 0
      modifies this`seqNum
      ensures Abstract() == old(Abstract()).(seqNum := seqNum)
      ensures wire == Packets(Resend(old(Abstract()), mss, 0))
    {
      ghost var e := Abstract();
      wire := [];
      seqNum := flightSeq % TWO_32;
      var pos := 0;
      while pos < flight
        invariant pos <= flight && seqNum == Add32(flightSeq, pos)
        invariant Replayed(wire, e, mss, pos)
      {
        var amount := flight - pos;
        if amount > mss {
          amount := mss;
        }
        AddTwice(flightSeq, pos, amount);
        var p := Send(tx[txPos + pos..txPos + pos + amount]);
        ReplayedStep(wire, e, mss, pos, amount, p);
        wire := wire + [p];
        pos := pos + amount;
      }
    }

    /** One new segment of the message. */
    method SendNext(mss: nat, now: nat) returns (p: Packet)
      requires Valid() && mss > 0 && txPos + flight < |tx| && flight < peerWindow
      modifies this`seqNum, this`sentAt, this`flightSeq, this`flight
      ensures Valid()
      ensures var amount := NewAmount(old(Abstract()), mss);
        Abstract() == SendNew(old(Abstract()), amount, now) && p == NewOut(old(Abstract()), amount).packet
    {
      ghost var e := Abstract();
      var amount := |tx| - txPos - flight;
      if amount > mss {
        amount := mss;
      }
      if amount > peerWindow - flight {
        amount := peerWindow - flight;
      }
      assert amount == NewAmount(e, mss);
      SendNewAdvances(e, amount, now);
      if flight == 0 {
        flightSeq, sentAt := seqNum, now;
      }
      p := Send(tx[txPos + flight..txPos + flight + amount]);
      flight := flight + amount;
      assert Abstract() == SendNew(e, amount, now);
    }

    method SendBurst(mss: nat, now: nat) returns (wire: seq<Packet>)
      requires Valid() && mss > 0
      modifies this`seqNum, this`sentAt, this`flightSeq, this`flight
      ensures Valid()
      ensures Abstract() == Burst(old(Abstract()), mss, now, 8).0 && wire == Packets(Burst(old(Abstract()), mss, now, 8).1)
    {
      wire := [];
      ghost var whole := Burst(Abstract(), mss, now, 8);
      var burst := 0;
      while burst < 8 && txPos + flight < |tx|
        invariant burst <= 8 && Valid()
        invariant Burst(Abstract(), mss, now, 8 - burst).0 == whole.0
        invariant wire + Packets(Burst(Abstract(), mss, now, 8 - burst).1) == Packets(whole.1)
      {
        if flight >= peerWindow {
          break;
        }
        BurstStep(Abstract(), mss, now, 8 - burst);
        var p := SendNext(mss, now);
        wire := wire + [p];
        burst := burst + 1;
      }
    }

    /** One pass of the transmitter. */
    method TransmitPass(mss: nat, now: nat) returns (wire: seq<Packet>)
      requires Valid() && mss > 0
      modifies this`txPos, this`flight, this`flightSeq, this`sentAt, this`seqNum, this`tx
      ensures Valid()
      ensures Abstract() == Transmit(old(Abstract()), mss, now).0
      ensures wire == Packets(Transmit(old(Abstract()), mss, now).1)
    {
      ghost var e := Abstract();
      PumpAdvances(e, mss, now);
      TakeAckAdvances(e, now);
      Acknowledge(now);
      RepeatAdvances(Abstract(), mss, now);
      var resent := Replay(mss, now);
      ghost var b := Abstract();
      var news := SendBurst(mss, now);
      ghost var c := Abstract();
      var probes := [];
      if flight == 0 && txPos < |tx| && peerWindow == 0 && (now - sentAt) % TWO_64 >= RETRANSMIT_MS {
        var p := Send([]);
        probes := [p];
        sentAt := now;
      }
      ghost var d := Abstract();
      assert d == Probe(c, now).0 && probes == Packets(Probe(c, now).1);
      if |tx| > 0 && txPos == |tx| && flight == 0 {
        tx, txPos := [], 0;
      }
      wire := resent + news + probes;
      PassPackets(e, mss, now);
    }

    /** The window and the acknowledgment a packet carries. */
    method HearAck(p: Packet)
      requires Valid() && p.ackNum < TWO_32
      modifies this`peerWindow, this`txAcked
      ensures Valid()
      ensures var e := old(Abstract());
        Abstract() == e.(peerWindow := p.window, txAcked := if NewAck(e, p.ackNum) then p.ackNum else e.txAcked)
    {
      peerWindow := p.window;
      var newly := (p.ackNum - txAcked) % TWO_32;
      if 0 < newly < 0x8000_0000 && newly <= (seqNum - txAcked) % TWO_32 {
        txAcked := p.ackNum;
      }
    }

    /** Bytes of a packet go behind those that wait. */
    method Append(data: seq<byte>, take: nat)
      requires Valid() && Buffered() && take <= |data| && held + take <= CAPACITY
      modifies this`received, this`held, store
      ensures Valid() && Buffered() && Abstract() == old(Abstract()).(received := old(received) + data[..take])
    {
      for j := 0 to take
        invariant held == old(held) && received == old(received)
        invariant store[..held + j] == received + data[..j] && message[..rxLen] == rx
      {
        store[held + j] := data[j];
        assert store[..held + j + 1] == received + data[..j] + [data[j]];
      }
      held := held + take;
      received := received + data[..take];
    }

    /** The next bytes, as many as fit. */
    method HearData(p: Packet)
      requires Valid() && Buffered()
      modifies this`received, this`held, this`ackNum, store
      ensures Valid() && Buffered()
      ensures var e := old(Abstract());
        var take := Min(|p.data|, CAPACITY - |e.received|);
        Abstract() == e.(received := e.received + p.data[..take], ackNum := Add32(p.seqNum, take))
    {
      var space := CAPACITY - held;
      var take := if |p.data| < space then |p.data| else space;
      Append(p.data, take);
      ackNum := (p.seqNum + take) % TWO_32;
    }

    /** A packet for this connection, without RST and FIN. */
    method OnTcpPacket(p: Packet) returns (wire: seq<Packet>)
      requires Valid() && Buffered() && p.ackNum < TWO_32
      modifies this`peerWindow, this`txAcked, this`received, this`held, this`ackNum, this`seqNum, store
      ensures Valid() && Buffered()
      ensures Abstract() == OnPacket(old(Abstract()), p).0 && wire == Packets(OnPacket(old(Abstract()), p).1)
    {
      wire := [];
      HearAck(p);
      if |p.data| > 0 {
        if p.seqNum == ackNum {
          HearData(p);
        }
        var q := Send([]);
        wire := [q];
      }
    }

    /** The size of the message being received, as far as its header tells. */
    method Needed() returns (need: Option<nat>)
      requires Buffered()
      ensures need == Need(rx)
    {
      if rxLen < HEADER {
        return Some(HEADER);
      }
      var header := Decode(message[..rxLen]);
      return if header.None? then None else Some(HEADER + header.value.length);
    }

    /** The first waiting bytes go behind the message's, the others slide to the front. */
    method MoveOver(take: nat)
      requires Valid() && Buffered() && take <= held && rxLen + take <= FRAME
      modifies this`rx, this`rxLen, this`received, this`held, store, message
      ensures Valid() && Buffered()
      ensures Abstract() == old(Abstract()).(rx := old(rx) + old(received)[..take], received := old(received)[take..])
    {
      Copy(message, rxLen, store, 0, take);
      assert message[..rxLen + take] == rx + received[..take];
      rx, rxLen := rx + received[..take], rxLen + take;
      SlideDown(store, take, held);
      held, received := held - take, received[take..];
    }

    /** Moves what is there, and no more than the message needs. */
    method TakeSome(need: nat) returns (q: Packet)
      requires Valid() && Buffered() && InProgress(rx) && Need(rx) == Some(need) && |rx| != need && received != []
      modifies this`rx, this`rxLen, this`received, this`held, this`seqNum, store, message
      ensures Valid() && Buffered() && InProgress(rx) && |received| < old(|received|)
      ensures Incoming(Abstract()).0 == Incoming(old(Abstract())).0
      ensures Incoming(Abstract()).1 == Incoming(old(Abstract())).1
      ensures [q] + Packets(Incoming(Abstract()).2) == Packets(Incoming(old(Abstract())).2)
    {
      var take := need - rxLen;
      if take > held {
        take := held;
      }
      NeedFits(rx);
      ghost var f := Abstract().(rx := rx + received[..take], received := received[take..]);
      IncomingStep(Abstract(), f, take);
      MoveOver(take);
      assert Abstract() == f;
      q := Send([]);
      assert Abstract() == f;
    }

    /** Consumes bytes up to the end of one framed message, keeping what belongs to the next. */
    method Receive() returns (progress: Progress, wire: seq<Packet>)
      requires Valid() && Buffered() && InProgress(rx)
      modifies this`rx, this`rxLen, this`received, this`held, this`seqNum, store, message
      ensures Valid() && Buffered()
      ensures Abstract() == Incoming(old(Abstract())).0
      ensures progress == Incoming(old(Abstract())).1 && wire == Packets(Incoming(old(Abstract())).2)
    {
      wire := [];
      ghost var whole := Incoming(Abstract());
      while true
        invariant Valid() && Buffered() && InProgress(rx)
        invariant Rest(wire, Incoming(Abstract()), whole)
        decreases held
      {
        IncomingStops(Abstract());
        var need := Needed();
        if need.None? {
          return Broken, wire;
        }
        if rxLen == need.value {
          return Ready, wire;
        }
        if held == 0 {
          return Waiting, wire;
        }
        ghost var before := Incoming(Abstract());
        var q := TakeSome(need.value);
        RestMoves(wire, q, before, Incoming(Abstract()), whole);
        wire := wire + [q];
      }
    }
  }

  lemma NeedFits(rx: seq<byte>)
    ensures Need(rx).Some? ==> Need(rx).value <= FRAME
  {
  }

  lemma IncomingStops(e: Endpoint)
    requires InProgress(e.rx)
    ensures Need(e.rx).None? ==> Incoming(e) == (e, Broken, [])
    ensures Need(e.rx) == Some(|e.rx|) ==> Incoming(e) == (e, Ready, [])
    ensures Need(e.rx).Some? && Need(e.rx).value != |e.rx| && e.received == [] ==> Incoming(e) == (e, Waiting, [])
  {
  }

  lemma IncomingStep(e: Endpoint, f: Endpoint, take: nat)
    requires InProgress(e.rx) && Need(e.rx).Some? && |e.rx| != Need(e.rx).value && e.received != []
    requires take == Min(Need(e.rx).value - |e.rx|, |e.received|)
    requires f == e.(rx := e.rx + e.received[..take], received := e.received[take..])
    ensures InProgress(f.rx)
    ensures Incoming(e).0 == Incoming(f).0 && Incoming(e).1 == Incoming(f).1
    ensures Packets(Incoming(e).2) == [f.PureAck().packet] + Packets(Incoming(f).2)
  {
    Grown(e.rx, e.received[..take], Need(e.rx).value);
    assert Incoming(e).2[1..] == Incoming(f).2;
  }

  /** The unread rest of a receive buffer slides to its front. */
  method SlideDown(buffer: array<byte>, take: nat, held: nat)
    requires take <= held <= buffer.Length
    modifies buffer
    ensures buffer[..held - take] == old(buffer[take..held])
  {
    for i := take to held
      invariant buffer[..i - take] == old(buffer[take..i])
      invariant buffer[i..held] == old(buffer[i..held])
    {
      ghost var rest := buffer[i..held];
      buffer[i - take] := buffer[i];
      assert buffer[..i + 1 - take] == buffer[..i - take] + [rest[0]];
      assert old(buffer[take..i + 1]) == old(buffer[take..i]) + [rest[0]];
      assert buffer[i + 1..held] == rest[1..];
    }
  }
}
