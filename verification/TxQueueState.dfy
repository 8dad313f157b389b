/** The queue's fields updated in place, as the sender's functions do (c/streamd/main.c). */
module TxQueueState {
  import opened Bytes
  import opened TxQueue

  lemma RetireStep(q: Queue)
    requires q.Shape() && q.count > 0
    ensures q.Live(0) == q.parts[q.head]
    ensures Retire(q) == if StillLive(q.acked, Add32(q.Live(0).base, q.Live(0).len)) then q
                         else Retire(q.(head := (q.head + 1) % SLOTS, count := q.count - 1))
  {
  }

  lemma WrappedEnd(acked: nat, base: nat, len: nat)
    ensures Sub32(acked, Add32(base, len)) == (acked - (base + len)) % TWO_32
  {
  }

  /** The sending loop unfolded once. */
  lemma SendStops(q: Queue, memory: seq<seq<byte>>, mss: nat, now: nat, n: nat, left: nat)
    requires q.Shape() && mss > 0 && n > 0
    ensures Sub32(q.seqNum, q.acked) >= Allowed(q) || Pick(q, 0).None? ==>
      SendNewData(q, memory, mss, now, n, left) == (q, [], Fine)
    ensures Sub32(q.seqNum, q.acked) < Allowed(q) && Pick(q, 0).Some? ==>
      var p := q.Live(Pick(q, 0).value);
      && (q.seqNum != Add32(p.base, p.pos) ==> SendNewData(q, memory, mss, now, n, left) == (q, [], BadPosition))
      && (q.seqNum == Add32(p.base, p.pos) && left == 0 ==> SendNewData(q, memory, mss, now, n, left) == (q, [], SendRefused))
  {
  }

  lemma SendGoesOn(q: Queue, memory: seq<seq<byte>>, mss: nat, now: nat, n: nat, left: nat)
    requires q.Shape() && mss > 0 && n > 0 && left > 0
    requires Sub32(q.seqNum, q.acked) < Allowed(q) && Pick(q, 0).Some?
    ensures var i := Pick(q, 0).value;
      var p, chunk := q.Live(i), ChunkSize(q, i, mss);
      var next := SendNewData(SendChunk(q, i, chunk, now), memory, mss, now, n - 1, left - 1);
      q.seqNum == Add32(p.base, p.pos) ==>
        SendNewData(q, memory, mss, now, n, left)
          == (next.0, [Sent(q.seqNum, Slice(memory, p, p.pos, chunk))] + next.1, next.2)
  {
  }

  function Prepend(wire: seq<Sent>, r: (Queue, seq<Sent>, Outcome)): (Queue, seq<Sent>, Outcome) {
    (r.0, wire + r.1, r.2)
  }

  lemma PrependNothing(r: (Queue, seq<Sent>, Outcome))
    ensures Prepend([], r) == r
  {
    assert [] + r.1 == r.1;
  }

  lemma SendNoMore(q: Queue, memory: seq<seq<byte>>, mss: nat, now: nat, left: nat, wire: seq<Sent>)
    requires q.Shape() && mss > 0
    ensures Prepend(wire, SendNewData(q, memory, mss, now, 0, left)) == (q, wire, Fine)
  {
    assert wire + [] == wire;
  }

  class TcpTxQueue {
    var parts: seq<Part>
    var head: nat
    var count: nat
    var endSeq: nat
    var acked: nat
    var retryMs: nat
    var progressAt: nat
    var retryAt: nat
    var failed: bool
    var open: bool
    var seqNum: nat
    var txAcked: nat
    var peerWindow: nat

    ghost function Abstract(): Queue
      reads this
    {
      Queue(parts, head, count, endSeq, acked, retryMs, progressAt, retryAt, failed, open, seqNum, txAcked, peerWindow)
    }

    method Enqueue(buffer: nat, len: nat, now: nat) returns (ok: bool)
      requires Abstract().Shape()
      modifies this
      ensures (Abstract(), ok) == TxQueue.Enqueue(old(Abstract()), buffer, len, now)
    {
      var slot := (head + count) % SLOTS;
      if failed || count == SLOTS || len == 0 {
        return false;
      }
      if count == 0 {
        progressAt, retryAt, retryMs := now, now, RETRY_MS;
      }
      parts := parts[slot := Part(buffer, endSeq, len, 0)];
      endSeq := (endSeq + len) % TWO_32;
      count := count + 1;
      return true;
    }

    method DropUnsentTail() returns (ok: bool)
      requires Abstract().Shape()
      modifies this
      ensures (Abstract(), ok) == DropTail(old(Abstract()))
    {
      if count == 0 {
        return false;
      }
      var slot := (head + count - 1) % SLOTS;
      if parts[slot].pos > 0 {
        return false;
      }
      endSeq := parts[slot].base;
      count := count - 1;
      return true;
    }

    method RetireAcknowledged()
      requires Abstract().Shape()
      modifies this`head, this`count
      ensures Abstract() == Retire(old(Abstract()))
    {
      while count > 0
        invariant Abstract().Shape() && Retire(Abstract()) == Retire(old(Abstract()))
        decreases count
      {
        RetireStep(Abstract());
        var part := parts[head];
        WrappedEnd(acked, part.base, part.len);
        if (acked - (part.base + part.len)) % TWO_32 >= 0x8000_0000 {
          return;
        }
        head, count := (head + 1) % SLOTS, count - 1;
      }
    }

    /** The first live part with bytes left, as the inner loop of the sender finds it. */
    method PickPart() returns (r: Option<nat>)
      requires Abstract().Shape()
      ensures r == Pick(Abstract(), 0)
    {
      r := None;
      var i := 0;
      while i < count
        invariant i <= count && Pick(Abstract(), i) == Pick(Abstract(), 0)
      {
        var candidate := parts[(head + i) % SLOTS];
        if candidate.pos < candidate.len {
          return Some(i);
        }
        i := i + 1;
      }
    }

    /** One turn of the sending loop: a segment, or the reason to stop. */
    method SendOne(memory: seq<seq<byte>>, mss: nat, now: nat, ghost n: nat, left: nat) returns (out: Option<Sent>, outcome: Outcome)
      requires Abstract().Shape() && mss > 0 && n > 0
      modifies this`seqNum, this`retryAt, this`parts
      ensures Abstract().Shape()
      ensures out.None? ==> SendNewData(old(Abstract()), memory, mss, now, n, left) == (Abstract(), [], outcome)
      ensures out.Some? ==>
        (left > 0 &&
         var next := SendNewData(Abstract(), memory, mss, now, n - 1, left - 1);
         SendNewData(old(Abstract()), memory, mss, now, n, left) == (next.0, [out.value] + next.1, next.2))
    {
      ghost var q := Abstract();
      SendStops(q, memory, mss, now, n, left);
      var inFlight := (seqNum - acked) % TWO_32;
      var allowed := Min(peerWindow, WINDOW);
      if inFlight >= allowed {
        return None, Fine;
      }
      var picked := PickPart();
      if picked.None? {
        return None, Fine;
      }
      var slot := (head + picked.value) % SLOTS;
      var part := parts[slot];
      if seqNum != (part.base + part.pos) % TWO_32 {
        return None, BadPosition;
      }
      if left == 0 {
        return None, SendRefused;
      }
      SendGoesOn(q, memory, mss, now, n, left);
      var chunk := part.len - part.pos;
      if chunk > mss {
        chunk := mss;
      }
      if chunk > allowed - inFlight {
        chunk := allowed - inFlight;
      }
      assert chunk == ChunkSize(q, picked.value, mss);
      out := Some(Sent(seqNum, Slice(memory, part, part.pos, chunk)));
      CountChunk(slot, chunk, inFlight, now, picked.value);
      outcome := Fine;
    }

    /** The queue's account of one new segment of the part in this slot. */
    method CountChunk(slot: nat, chunk: nat, inFlight: nat, now: nat, ghost i: nat)
      requires Abstract().Shape() && i < count && slot == Abstract().Slot(i)
      requires inFlight == Sub32(seqNum, acked)
      modifies this`seqNum, this`retryAt, this`parts
      ensures Abstract().Shape() && Abstract() == SendChunk(old(Abstract()), i, chunk, now)
    {
      if inFlight == 0 {
        retryAt := now;
      }
      seqNum := (seqNum + chunk) % TWO_32;
      parts := parts[slot := parts[slot].(pos := parts[slot].pos + chunk)];
    }

    /** One turn with the packets sent so far. */
    method SendTurn(memory: seq<seq<byte>>, mss: nat, now: nat, ghost n: nat, left: nat, sofar: seq<Sent>)
      returns (wire: seq<Sent>, done: bool, outcome: Outcome)
      requires Abstract().Shape() && mss > 0 && n > 0
      modifies this`seqNum, this`retryAt, this`parts
      ensures Abstract().Shape() && (!done ==> left > 0)
      ensures Prepend(sofar, SendNewData(old(Abstract()), memory, mss, now, n, left))
           == if done then (Abstract(), wire, outcome)
              else Prepend(wire, SendNewData(Abstract(), memory, mss, now, n - 1, left - 1))
    {
      var out, why := SendOne(memory, mss, now, n, left);
      if out.None? {
        assert sofar + [] == sofar;
        return sofar, true, why;
      }
      ghost var rest := SendNewData(Abstract(), memory, mss, now, n - 1, left - 1).1;
      assert sofar + ([out.value] + rest) == (sofar + [out.value]) + rest;
      return sofar + [out.value], false, Fine;
    }

    method SendNew(memory: seq<seq<byte>>, mss: nat, now: nat, batch: nat, accepts: nat) returns (wire: seq<Sent>, outcome: Outcome)
      requires Abstract().Shape() && mss > 0
      modifies this`seqNum, this`retryAt, this`parts
      ensures (Abstract(), wire, outcome) == SendNewData(old(Abstract()), memory, mss, now, batch, accepts)
    {
      ghost var whole := SendNewData(Abstract(), memory, mss, now, batch, accepts);
      PrependNothing(whole);
      var n: nat, left: nat := batch, accepts;
      wire := [];
      while n > 0
        invariant Abstract().Shape()
        invariant Prepend(wire, SendNewData(Abstract(), memory, mss, now, n, left)) == whole
      {
        var done: bool;
        wire, done, outcome := SendTurn(memory, mss, now, n, left, wire);
        if done {
          return;
        }
        n, left := n - 1, left - 1;
      }
      SendNoMore(Abstract(), memory, mss, now, left, wire);
      outcome := Fine;
    }

    /** Retransmits from the oldest missing byte, or probes a closed window, and backs off. */
    method Retry(memory: seq<seq<byte>>, mss: nat, now: nat) returns (wire: seq<Sent>)
      requires Abstract().Shape() && count > 0
      modifies this`retryAt, this`retryMs
      ensures Abstract() == BackOff(old(Abstract()), now) && wire == RetryOut(old(Abstract()), memory, mss)
    {
      var part := parts[head];
      var offset := (acked - part.base) % TWO_32;
      wire := [];
      if (seqNum - acked) % TWO_32 != 0 {
        var chunk := (part.pos - offset) % TWO_32;
        if chunk > mss {
          chunk := mss;
        }
        if peerWindow == 0 {
          chunk := 1;
        } else if chunk > peerWindow {
          chunk := peerWindow;
        }
        wire := [Sent(acked, Slice(memory, part, offset, chunk))];
      } else if peerWindow == 0 {
        wire := [Sent((acked - 1) % TWO_32, if offset > 0 then Slice(memory, part, offset - 1, 1) else [])];
      }
      retryAt := now;
      if retryMs < RETRY_MAX_MS {
        retryMs := retryMs * 2;
        if retryMs > RETRY_MAX_MS {
          retryMs := RETRY_MAX_MS;
        }
      }
    }

    /** The part of a poll after the acknowledgments: stall check, new data, retry. */
    method PushOut(memory: seq<seq<byte>>, mss: nat, now: nat, batch: nat, accepts: nat) returns (wire: seq<Sent>, outcome: Outcome)
      requires Abstract().Shape() && mss > 0
      modifies this
      ensures (Abstract(), wire, outcome) == Push(old(Abstract()), memory, mss, now, batch, accepts)
    {
      if count == 0 {
        return [], Fine;
      }
      if (now - progressAt) % TWO_64 >= STALL_MS {
        open, failed := false, true;
        return [], Stalled;
      }
      wire, outcome := SendNew(memory, mss, now, batch, accepts);
      if outcome != Fine {
        failed := true;
        return;
      }
      if (now - retryAt) % TWO_64 >= retryMs {
        var again := Retry(memory, mss, now);
        wire := wire + again;
      }
    }

    method TakeAcknowledgment(now: nat) returns (ok: bool)
      modifies this`acked, this`progressAt, this`retryAt, this`retryMs
      ensures Advance(old(Abstract()), now) == if ok then Some(Abstract()) else None
      ensures !ok ==> Abstract() == old(Abstract())
    {
      var advanced := (txAcked - acked) % TWO_32;
      if advanced > (seqNum - acked) % TWO_32 {
        return false;
      }
      if advanced != 0 {
        acked, progressAt, retryAt, retryMs := txAcked, now, now, RETRY_MS;
      }
      return true;
    }

    /** One nonblocking poll; the packets that arrived were handled before. */
    method PollOnce(memory: seq<seq<byte>>, peerMss: nat, now: nat, batch: nat, accepts: nat) returns (wire: seq<Sent>, outcome: Outcome)
      requires Abstract().Shape()
      modifies this
      ensures (Abstract(), wire, outcome) == Poll(old(Abstract()), memory, peerMss, now, batch, accepts)
    {
      if failed {
        return [], Fine;
      }
      if !open {
        failed := true;
        return [], Closed;
      }
      var ok := TakeAcknowledgment(now);
      if !ok {
        failed := true;
        return [], BadAck;
      }
      RetireAcknowledged();
      wire, outcome := PushOut(memory, if peerMss == 0 || peerMss > CHUNK then CHUNK else peerMss, now, batch, accepts);
    }
  }
}
