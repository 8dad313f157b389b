/** How far a poll of streamd's queue gets, and when the queue is empty (c/streamd/main.c). */
module TxProgress {
  import opened Bytes
  import opened TxQueue

  // ---------- The queue is empty exactly when everything is acknowledged ----------

  /** A part has bytes left exactly when the stream has. */
  lemma UnsentIsPicked(q: Queue, h: History, memory: seq<seq<byte>>)
    requires Means(q, h, memory)
    ensures Pick(q, 0).Some? <==> h.sent < |h.stream|
  {
    if q.count > 0 {
      assert PartOk(q, h, memory, q.count - 1);
    }
    if Pick(q, 0).Some? { assert PartOk(q, h, memory, Pick(q, 0).value); PartsEnd(q, h, memory, Pick(q, 0).value); }
  }

  lemma PartsEnd(q: Queue, h: History, memory: seq<seq<byte>>, i: nat)
    requires Means(q, h, memory) && i < q.count
    ensures Start(q, |h.stream|, i) + q.Live(i).len <= |h.stream|
  {
    assert PartOk(q, h, memory, i);
  }

  lemma EmptyMeans(q: Queue, h: History, memory: seq<seq<byte>>)
    requires Means(q, h, memory) && Trimmed(q, h)
    ensures q.count == 0 <==> h.ackAt == |h.stream|
  {
    if q.count > 0 { PartsEnd(q, h, memory, 0); }
  }

  /** After a poll the queue is empty exactly when the peer has acknowledged every byte. */
  lemma PollEmptiesIff(q: Queue, h: History, memory: seq<seq<byte>>, peerMss: nat, now: nat, batch: nat, accepts: nat)
    requires Means(q, h, memory) && Trimmed(q, h) && !q.failed && q.open
    ensures Poll(q, memory, peerMss, now, batch, accepts).0.count == 0 <==> h.heardAt == |h.stream|
  {
    var t := Poll(q, memory, peerMss, now, batch, accepts).0;
    PollMeans(q, h, memory, peerMss, now, batch, accepts);
    EmptyMeans(t, Polled(h, q, t), memory);
  }

  // ---------- How far a poll sends ----------

  /** As far as the window lets the stream be sent. */
  function Goal(q: Queue, h: History): nat {
    Min(|h.stream|, if h.sent < h.ackAt + Allowed(q) then h.ackAt + Allowed(q) else h.sent)
  }

  /** The burst went as far as the window, or used up the segments it had. */
  ghost predicate Reaches(q: Queue, h: History, h': History, outs: seq<Sent>, outcome: Outcome, n: nat, accepts: nat) {
    && h'.sent >= h.sent + |outs|
    && (|outs| < Min(n, accepts) ==> h'.sent >= Goal(q, h))
    && (n <= accepts ==> outcome == Fine)
  }

  lemma NothingMore(q: Queue, h: History, memory: seq<seq<byte>>)
    requires Means(q, h, memory) && (Sub32(q.seqNum, q.acked) >= Allowed(q) || Pick(q, 0).None?)
    ensures h.sent >= Goal(q, h) && SentOn(h, q, q) == h
  {
    UnsentIsPicked(q, h, memory);
    InFlight(q, h);
    Difference(h, h.sent, h.sent);
  }

  lemma SentBefore(q: Queue, h: History)
    requires NumbersOk(q, h)
    ensures SentOn(h, q, q) == h
  {
    Difference(h, h.sent, h.sent);
  }

  lemma ReachesFurther(q: Queue, q1: Queue, h: History, h1: History, h': History, out: Sent, rest: seq<Sent>, outcome: Outcome, n: nat, accepts: nat)
    requires n > 0 && accepts > 0 && Reaches(q1, h1, h', rest, outcome, n - 1, accepts - 1)
    requires q1.peerWindow == q.peerWindow && h1.stream == h.stream && h1.ackAt == h.ackAt && h1.sent > h.sent
    ensures Reaches(q, h, h', [out] + rest, outcome, n, accepts)
  {
  }

  lemma {:induction false} BurstReaches(q: Queue, h: History, memory: seq<seq<byte>>, mss: nat, now: nat, n: nat, accepts: nat)
    requires Means(q, h, memory) && Trimmed(q, h) && mss > 0
    ensures var (t, outs, outcome) := SendNewData(q, memory, mss, now, n, accepts);
      Reaches(q, h, SentOn(h, q, t), outs, outcome, n, accepts)
    decreases n
  {
    if n == 0 || accepts == 0 || Sub32(q.seqNum, q.acked) >= Allowed(q) || Pick(q, 0).None? {
      BurstEnds(q, h, memory, mss, now, n, accepts);
    } else {
      ChunkGoes(q, h, memory, mss, now);
      var q1, h1 := AfterChunk(q, mss, now), Further(h, ChunkSize(q, Pick(q, 0).value, mss));
      BurstReaches(q1, h1, memory, mss, now, n - 1, accepts - 1);
      BurstStep(q, h, memory, mss, now, n, accepts, q1, h1);
    }
  }

  /** A burst that sends nothing. */
  lemma BurstEnds(q: Queue, h: History, memory: seq<seq<byte>>, mss: nat, now: nat, n: nat, accepts: nat)
    requires Means(q, h, memory) && Trimmed(q, h) && mss > 0
    requires n == 0 || accepts == 0 || Sub32(q.seqNum, q.acked) >= Allowed(q) || Pick(q, 0).None?
    ensures var (t, outs, outcome) := SendNewData(q, memory, mss, now, n, accepts);
      Reaches(q, h, SentOn(h, q, t), outs, outcome, n, accepts)
  {
    SentBefore(q, h);
    if Sub32(q.seqNum, q.acked) >= Allowed(q) || Pick(q, 0).None? {
      NothingMore(q, h, memory);
    } else {
      ChunkGoes(q, h, memory, mss, now);
    }
  }

  lemma BurstStep(q: Queue, h: History, memory: seq<seq<byte>>, mss: nat, now: nat, n: nat, accepts: nat, q1: Queue, h1: History)
    requires Means(q, h, memory) && Trimmed(q, h) && mss > 0 && n > 0 && accepts > 0
    requires Sub32(q.seqNum, q.acked) < Allowed(q) && Pick(q, 0).Some?
    requires q1 == AfterChunk(q, mss, now) && h1 == Further(h, ChunkSize(q, Pick(q, 0).value, mss))
    requires Means(q1, h1, memory) && Trimmed(q1, h1)
    requires var (t, rest, outcome) := SendNewData(q1, memory, mss, now, n - 1, accepts - 1);
      Reaches(q1, h1, SentOn(h1, q1, t), rest, outcome, n - 1, accepts - 1)
    ensures var (t, outs, outcome) := SendNewData(q, memory, mss, now, n, accepts);
      Reaches(q, h, SentOn(h, q, t), outs, outcome, n, accepts)
  {
    var (t, rest, outcome) := SendNewData(q1, memory, mss, now, n - 1, accepts - 1);
    var out := ChunkOut(q, memory, mss);
    ChunkGoes(q, h, memory, mss, now);
    ChunkFirst(q, memory, mss, now, n, accepts);
    RestMeans(q1, h1, memory, mss, now, n - 1, accepts - 1);
    SameEnd(q, h, q1, h1, t, SentOn(h1, q1, t));
    ReachesFurther(q, q1, h, h1, SentOn(h1, q1, t), out, rest, outcome, n, accepts);
  }

  lemma RestMeans(q: Queue, h: History, memory: seq<seq<byte>>, mss: nat, now: nat, n: nat, accepts: nat)
    requires Means(q, h, memory) && Trimmed(q, h) && mss > 0
    ensures var t := SendNewData(q, memory, mss, now, n, accepts).0; NumbersOk(t, SentOn(h, q, t))
  {
    SendNewDataMeans(q, h, memory, mss, now, n, accepts);
  }

  lemma SameEnd(q: Queue, h: History, q1: Queue, h1: History, t: Queue, h': History)
    requires q.seqNum == h.Number(h.sent) && q1.seqNum == h1.Number(h1.sent) && t.seqNum == h'.Number(h'.sent)
    requires h1.sent >= h.sent && h1 == Further(h, h1.sent - h.sent)
    requires h' == SentOn(h1, q1, t) && h'.sent - h.sent < TWO_32
    ensures h' == SentOn(h, q, t)
  {
    StepNumbers(q, h, q1, h1.sent - h.sent, t);
  }

  /** The poll is not given up for lack of progress. */
  predicate Moving(q: Queue, now: nat) {
    !q.failed && q.open && (q.txAcked != q.acked || Since(now, q.progressAt) < STALL_MS)
  }

  /** What a poll of a moving queue comes to. */
  lemma PollPushes(q: Queue, h: History, memory: seq<seq<byte>>, peerMss: nat, now: nat, batch: nat, accepts: nat) returns (b: Queue, mss: nat)
    requires Means(q, h, memory) && Trimmed(q, h) && Moving(q, now)
    ensures mss > 0 && Means(b, Taken(h), memory) && Trimmed(b, Taken(h))
    ensures b == q.(acked := b.acked, progressAt := b.progressAt, retryAt := b.retryAt, retryMs := b.retryMs, head := b.head, count := b.count)
    ensures Since(now, b.progressAt) < STALL_MS
    ensures q.txAcked == q.acked ==> b.retryAt == q.retryAt && b.retryMs == q.retryMs
    ensures Poll(q, memory, peerMss, now, batch, accepts) == Push(b, memory, mss, now, batch, accepts)
  {
    mss := if peerMss == 0 || peerMss > CHUNK then CHUNK else peerMss;
    AdvanceMeans(q, h, memory, now);
    var a := Advance(q, now).value;
    RetireMeans(a, Taken(h), memory);
    b := Retire(a);
    Moved(q, h, now);
  }

  lemma Moved(q: Queue, h: History, now: nat)
    requires NumbersOk(q, h) && Moving(q, now) && Advance(q, now).Some?
    ensures Since(now, Advance(q, now).value.progressAt) < STALL_MS
  {
    Difference(h, h.heardAt, h.ackAt);
  }

  /** What becomes of the queue's fields in a push that is not stalled. */
  lemma PushReaches(q: Queue, h: History, memory: seq<seq<byte>>, mss: nat, now: nat, batch: nat, accepts: nat)
    requires Means(q, h, memory) && Trimmed(q, h) && mss > 0 && !q.failed && Since(now, q.progressAt) < STALL_MS
    ensures var (t, outs, outcome) := Push(q, memory, mss, now, batch, accepts);
      && SentOn(h, q, t).sent >= Min(Goal(q, h), h.sent + Min(batch, accepts))
      && t.open == q.open && t.progressAt == q.progressAt
      && (batch <= accepts ==> outcome == Fine && !t.failed)
  {
    SentBefore(q, h);
    if q.count == 0 {
      EmptyMeans(q, h, memory);
    } else {
      BurstReaches(q, h, memory, mss, now, batch, accepts);
      SendNewDataMeans(q, h, memory, mss, now, batch, accepts);
      BurstKeeps(q, memory, mss, now, batch, accepts);
    }
  }

  lemma {:induction false} BurstKeeps(q: Queue, memory: seq<seq<byte>>, mss: nat, now: nat, n: nat, accepts: nat)
    requires q.Shape() && mss > 0
    ensures var t := SendNewData(q, memory, mss, now, n, accepts).0;
      t.progressAt == q.progressAt && t.open == q.open && t.failed == q.failed
    decreases n
  {
    if n > 0 && Sub32(q.seqNum, q.acked) < Allowed(q) && Pick(q, 0).Some? && accepts > 0 {
      BurstKeeps(AfterChunk(q, mss, now), memory, mss, now, n - 1, accepts - 1);
    }
  }

  /** How far the window lets the stream be sent once the acknowledgments heard are taken in. */
  function Reach(q: Queue, h: History): nat { Goal(q, Taken(h)) }

  /** A poll that is not given up sends everything the window allows, or at least one byte for each segment
      that the batch and the kernel let it send; it fails only if the kernel refuses one. */
  lemma PollReaches(q: Queue, h: History, memory: seq<seq<byte>>, peerMss: nat, now: nat, batch: nat, accepts: nat)
    requires Means(q, h, memory) && Trimmed(q, h) && Moving(q, now)
    ensures var (t, outs, outcome) := Poll(q, memory, peerMss, now, batch, accepts);
      && Polled(h, q, t).sent >= Min(Reach(q, h), h.sent + Min(batch, accepts))
      && t.open && Since(now, t.progressAt) < STALL_MS
      && (batch <= accepts ==> outcome == Fine && !t.failed)
  {
    var b, mss := PollPushes(q, h, memory, peerMss, now, batch, accepts);
    PushReaches(b, Taken(h), memory, mss, now, batch, accepts);
  }

  /** With an open window and bytes to send, a poll moves on in the stream. */
  lemma PollMovesOn(q: Queue, h: History, memory: seq<seq<byte>>, peerMss: nat, now: nat, batch: nat, accepts: nat)
    requires Means(q, h, memory) && Trimmed(q, h) && Moving(q, now) && batch > 0 && accepts > 0
    requires h.sent < |h.stream| && h.sent - h.heardAt < Allowed(q)
    ensures Polled(h, q, Poll(q, memory, peerMss, now, batch, accepts).0).sent > h.sent
  {
    PollReaches(q, h, memory, peerMss, now, batch, accepts);
  }

  // ---------- What is not acknowledged is sent again ----------

  /** The retry timer has run out and nothing new was acknowledged. */
  predicate Overdue(q: Queue, now: nat) {
    Moving(q, now) && q.txAcked == q.acked && Since(now, q.retryAt) >= q.retryMs
  }

  /** A packet with the stream's byte at this position. */
  ghost predicate Repeats(h: History, o: Sent, at: int) {
    o.seqNum == h.Number(at) && o.data != [] && 0 <= at && at + |o.data| <= |h.stream| && o.data == h.stream[at..at + |o.data|]
  }

  lemma {:induction false} BurstKeepsTimer(q: Queue, h: History, memory: seq<seq<byte>>, mss: nat, now: nat, n: nat, accepts: nat)
    requires Means(q, h, memory) && Trimmed(q, h) && mss > 0 && h.sent > h.ackAt
    ensures var t := SendNewData(q, memory, mss, now, n, accepts).0; t.retryAt == q.retryAt && t.retryMs == q.retryMs
    decreases n
  {
    InFlight(q, h);
    if n > 0 && Sub32(q.seqNum, q.acked) < Allowed(q) && Pick(q, 0).Some? && accepts > 0 {
      ChunkGoes(q, h, memory, mss, now);
      BurstKeepsTimer(AfterChunk(q, mss, now), Further(h, ChunkSize(q, Pick(q, 0).value, mss)), memory, mss, now, n - 1, accepts - 1);
    }
  }

  lemma RetryRepeats(q: Queue, h: History, memory: seq<seq<byte>>, mss: nat)
    requires Means(q, h, memory) && Trimmed(q, h) && q.count > 0 && mss > 0 && h.sent > h.ackAt
    ensures |RetryOut(q, memory, mss)| == 1 && Repeats(h, RetryOut(q, memory, mss)[0], h.ackAt)
  {
    ResendMeans(q, h, memory, mss);
    Difference(h, h.sent, h.ackAt);
  }

  lemma PushRepeats(q: Queue, h: History, memory: seq<seq<byte>>, mss: nat, now: nat, batch: nat, accepts: nat)
    requires Means(q, h, memory) && Trimmed(q, h) && mss > 0 && !q.failed && Since(now, q.progressAt) < STALL_MS
    requires h.sent > h.ackAt && Since(now, q.retryAt) >= q.retryMs && batch <= accepts
    ensures exists o :: o in Push(q, memory, mss, now, batch, accepts).1 && Repeats(h, o, h.ackAt)
  {
    EmptyMeans(q, h, memory);
    SendNewDataMeans(q, h, memory, mss, now, batch, accepts);
    BurstReaches(q, h, memory, mss, now, batch, accepts);
    BurstKeepsTimer(q, h, memory, mss, now, batch, accepts);
    var (s, news, outcome) := SendNewData(q, memory, mss, now, batch, accepts);
    RetryRepeats(s, SentOn(h, q, s), memory, mss);
    var o := RetryOut(s, memory, mss)[0];
    assert o in news + RetryOut(s, memory, mss) && Repeats(h, o, h.ackAt);
  }

  /** When the timer has run out, the poll sends the oldest byte in flight again, under its own number. */
  lemma PollRepeats(q: Queue, h: History, memory: seq<seq<byte>>, peerMss: nat, now: nat, batch: nat, accepts: nat)
    requires Means(q, h, memory) && Trimmed(q, h) && Overdue(q, now) && h.sent > h.heardAt && batch <= accepts
    ensures exists o :: o in Poll(q, memory, peerMss, now, batch, accepts).1 && Repeats(h, o, h.heardAt)
  {
    var b, mss := PollPushes(q, h, memory, peerMss, now, batch, accepts);
    assert b.retryAt == q.retryAt && b.retryMs == q.retryMs;
    PushRepeats(b, Taken(h), memory, mss, now, batch, accepts);
    var o :| o in Poll(q, memory, peerMss, now, batch, accepts).1 && Repeats(Taken(h), o, h.heardAt);
    assert Repeats(h, o, h.heardAt);
  }

  lemma PushProbes(q: Queue, h: History, memory: seq<seq<byte>>, mss: nat, now: nat, batch: nat, accepts: nat)
    requires Means(q, h, memory) && Trimmed(q, h) && mss > 0 && !q.failed && Since(now, q.progressAt) < STALL_MS
    requires q.peerWindow == 0 && h.sent == h.ackAt < |h.stream| && Since(now, q.retryAt) >= q.retryMs
    ensures var (t, outs, outcome) := Push(q, memory, mss, now, batch, accepts);
      outcome == Fine && |outs| == 1 && outs[0].seqNum == h.Number(h.ackAt - 1)
  {
    EmptyMeans(q, h, memory);
    InFlight(q, h);
    ProbeMeans(q, h, memory, mss);
    ProbeNumber(h, []);
    assert SendNewData(q, memory, mss, now, batch, accepts) == (q, [], Fine);
    assert [] + RetryOut(q, memory, mss) == RetryOut(q, memory, mss);
  }

  /** With the window closed and nothing in flight, the poll asks the peer for its window: one packet, under the
      number before the next byte's, to which a TCP answers with an acknowledgment. */
  lemma PollProbes(q: Queue, h: History, memory: seq<seq<byte>>, peerMss: nat, now: nat, batch: nat, accepts: nat)
    requires Means(q, h, memory) && Trimmed(q, h) && Overdue(q, now)
    requires q.peerWindow == 0 && h.sent == h.heardAt < |h.stream|
    ensures var (t, outs, outcome) := Poll(q, memory, peerMss, now, batch, accepts);
      outcome == Fine && |outs| == 1 && outs[0].seqNum == h.Number(h.heardAt - 1)
  {
    var b, mss := PollPushes(q, h, memory, peerMss, now, batch, accepts);
    PushProbes(b, Taken(h), memory, mss, now, batch, accepts);
  }

  // ---------- A peer that acknowledges drains the queue ----------

  /** The peer acknowledges all it was sent and opens its window; then the queue is polled. */
  function Round(q: Queue, memory: seq<seq<byte>>, peerMss: nat, window: nat, now: nat): (r: Queue)
    requires q.Shape()
    ensures r.Shape()
  {
    Poll(Arrive(q, q.seqNum, window), memory, peerMss, now, BATCH, BATCH).0
  }

  function Rounds(q: Queue, memory: seq<seq<byte>>, peerMss: nat, window: nat, now: nat, n: nat): (r: Queue)
    requires q.Shape()
    ensures r.Shape()
    decreases n
  {
    if n == 0 then q else Rounds(Round(q, memory, peerMss, window, now), memory, peerMss, window, now, n - 1)
  }

  /** A working queue: neither failed, closed nor stalled, with no more in flight than the largest window. */
  ghost predicate Working(q: Queue, h: History, memory: seq<seq<byte>>, now: nat) {
    && Means(q, h, memory) && Trimmed(q, h) && !q.failed && q.open && Since(now, q.progressAt) < STALL_MS
    && h.sent - h.ackAt <= WINDOW
  }

  lemma HearsAll(q: Queue, h: History, memory: seq<seq<byte>>, window: nat, now: nat)
    requires Working(q, h, memory, now)
    ensures var a, ha := Arrive(q, q.seqNum, window), h.(heardAt := h.sent);
      && Means(a, ha, memory) && Trimmed(a, ha) && Moving(a, now) && a.peerWindow == window
  {
    Difference(h, h.sent, h.heardAt);
    ArriveMeans(q, h, memory, q.seqNum, window);
  }

  lemma OneRound(q: Queue, h: History, memory: seq<seq<byte>>, peerMss: nat, window: nat, now: nat) returns (h': History)
    requires Working(q, h, memory, now) && window > 0
    ensures Working(Round(q, memory, peerMss, window, now), h', memory, now) && h'.stream == h.stream
    ensures if h.sent < |h.stream| then h'.sent > h.sent else h'.sent == h.sent && Round(q, memory, peerMss, window, now).count == 0
  {
    var a, ha := Arrive(q, q.seqNum, window), h.(heardAt := h.sent);
    HearsAll(q, h, memory, window, now);
    var t := Poll(a, memory, peerMss, now, BATCH, BATCH).0;
    h' := Polled(ha, a, t);
    PollMeans(a, ha, memory, peerMss, now, BATCH, BATCH);
    PollReaches(a, ha, memory, peerMss, now, BATCH, BATCH);
    PollEmptiesIff(a, ha, memory, peerMss, now, BATCH, BATCH);
  }

  /** A peer that keeps acknowledging what it was sent, with any window but a closed one, drains the queue:
      after as many rounds as there are bytes to send, and one more, it is empty, and it stays so. */
  lemma {:induction false} Drains(q: Queue, h: History, memory: seq<seq<byte>>, peerMss: nat, window: nat, now: nat, n: nat)
    requires Working(q, h, memory, now) && window > 0 && n > |h.stream| - h.sent
    ensures Rounds(q, memory, peerMss, window, now, n).count == 0 && !Rounds(q, memory, peerMss, window, now, n).failed
    decreases n
  {
    var t := Round(q, memory, peerMss, window, now);
    var h' := OneRound(q, h, memory, peerMss, window, now);
    if n == 1 {
      assert Rounds(t, memory, peerMss, window, now, 0) == t;
    } else {
      Drains(t, h', memory, peerMss, window, now, n - 1);
    }
  }
}
