/** streamd's retransmission queue (c/streamd/main.c): two parts kept alive until acknowledged.
    All sequence numbers are 32-bit and wrap. */
module TxQueue {
  import opened Bytes

  const SLOTS := 2
  const BATCH := 16
  const WINDOW := 32768
  const CHUNK := 1300
  const RETRY_MS := 100
  const RETRY_MAX_MS := 2000
  const STALL_MS := 15000

  /** A logical write: `len` bytes of one of the two frame buffers. */
  datatype Part = Part(buffer: nat, base: nat, len: nat, pos: nat)

  /** The queue together with the fields of its socket. */
  datatype Queue = Queue(
    parts: seq<Part>, head: nat, count: nat, endSeq: nat, acked: nat, retryMs: nat,
    progressAt: nat, retryAt: nat, failed: bool,
    open: bool, seqNum: nat, txAcked: nat, peerWindow: nat)
  {
    predicate Shape() { |parts| == SLOTS && head < SLOTS && count <= SLOTS }

    /** Slot of the i-th live part, and of the next free one when i == count. */
    function Slot(i: nat): nat { (head + i) % SLOTS }

    function Live(i: nat): Part
      requires Shape() && i < count
    {
      parts[Slot(i)]
    }
  }

  datatype Sent = Sent(seqNum: nat, data: seq<byte>)

  // ---------- Operations ----------

  function Init(seqNum: nat, txAcked: nat, window: nat, now: nat): Option<Queue> {
    if txAcked != seqNum then None
    else
      var none := Part(0, 0, 0, 0);
      Some(Queue([none, none], 0, 0, seqNum, seqNum, RETRY_MS, now, now, false, true, seqNum, txAcked, window))
  }

  function Enqueue(q: Queue, buffer: nat, len: nat, now: nat): (r: (Queue, bool))
    requires q.Shape()
    ensures r.0.Shape()
  {
    if q.failed || q.count == SLOTS || len == 0 then (q, false)
    else
      var t := if q.count == 0 then q.(progressAt := now, retryAt := now, retryMs := RETRY_MS) else q;
      (t.(parts := t.parts[t.Slot(t.count) := Part(buffer, t.endSeq, len, 0)],
          endSeq := Add32(t.endSeq, len), count := t.count + 1), true)
  }

  function DropTail(q: Queue): (r: (Queue, bool))
    requires q.Shape()
    ensures r.0.Shape()
  {
    if q.count == 0 then (q, false)
    else
      var tail := q.Live(q.count - 1);
      if tail.pos > 0 then (q, false) else (q.(endSeq := tail.base, count := q.count - 1), true)
  }

  /** An arriving acknowledgment, as the packet handler filters it. */
  function Arrive(q: Queue, ack: nat, window: nat): Queue {
    var newly := Sub32(ack, q.txAcked);
    q.(peerWindow := window,
       txAcked := if 0 < newly < 0x8000_0000 && newly <= Sub32(q.seqNum, q.txAcked) then ack else q.txAcked)
  }

  /** The signed 32-bit test that keeps a part alive. */
  predicate StillLive(acked: nat, end: nat) { Sub32(acked, end) >= 0x8000_0000 }

  function Retire(q: Queue): (r: Queue)
    requires q.Shape()
    ensures r.Shape()
    decreases q.count
  {
    if q.count == 0 || StillLive(q.acked, Add32(q.Live(0).base, q.Live(0).len)) then q
    else Retire(q.(head := q.Slot(1), count := q.count - 1))
  }

  /** The acknowledgment check at the start of a poll: nothing when it finds an impossible number. */
  function Advance(q: Queue, now: nat): Option<Queue> {
    var advanced := Sub32(q.txAcked, q.acked);
    if advanced > Sub32(q.seqNum, q.acked) then None
    else if advanced == 0 then Some(q)
    else Some(q.(acked := q.txAcked, progressAt := now, retryAt := now, retryMs := RETRY_MS))
  }

  /** The first live part with bytes left to send. */
  function Pick(q: Queue, i: nat): (r: Option<nat>)
    requires q.Shape() && i <= q.count
    ensures r.Some? ==> i <= r.value < q.count && q.Live(r.value).pos < q.Live(r.value).len
    ensures forall j :: i <= j < (if r.Some? then r.value else q.count) ==> q.Live(j).pos >= q.Live(j).len
    decreases q.count - i
  {
    if i == q.count then None else if q.Live(i).pos < q.Live(i).len then Some(i) else Pick(q, i + 1)
  }

  function Allowed(q: Queue): nat { Min(q.peerWindow, WINDOW) }

  /** The live parts of t are the last of those of q, as far as their lengths go. */
  ghost predicate KeepsLengths(q: Queue, t: Queue) {
    && q.Shape() && t.Shape() && t.count <= q.count && t.Slot(t.count) == q.Slot(q.count)
    && forall i :: 0 <= i < t.count ==> t.Live(i).len == q.Live(q.count - t.count + i).len
  }

  lemma KeepsLengthsTwice(q: Queue, t: Queue, u: Queue)
    requires KeepsLengths(q, t) && KeepsLengths(t, u)
    ensures KeepsLengths(q, u)
  {
  }

  /** Why a poll gave up. */
  datatype Outcome = Fine | BadAck | BadPosition | SendRefused | Closed | Stalled

  /** One new segment of part i. */
  function SendChunk(q: Queue, i: nat, chunk: nat, now: nat): (r: Queue)
    requires q.Shape() && i < q.count
    ensures r.Shape()
  {
    var p := q.Live(i);
    q.(seqNum := Add32(q.seqNum, chunk),
       retryAt := if Sub32(q.seqNum, q.acked) == 0 then now else q.retryAt,
       parts := q.parts[q.Slot(i) := p.(pos := p.pos + chunk)])
  }

  function ChunkSize(q: Queue, i: nat, mss: nat): (n: nat)
    requires q.Shape() && i < q.count && q.Live(i).pos < q.Live(i).len
    requires mss > 0 && Sub32(q.seqNum, q.acked) < Allowed(q)
    ensures 0 < n <= q.Live(i).len - q.Live(i).pos && n <= Allowed(q) - Sub32(q.seqNum, q.acked) && n <= mss
  {
    Min(Min(q.Live(i).len - q.Live(i).pos, mss), Allowed(q) - Sub32(q.seqNum, q.acked))
  }

  /** n bytes of a part's buffer; nothing outside it. */
  function Slice(memory: seq<seq<byte>>, p: Part, at: int, n: int): seq<byte> {
    if 0 <= at && 0 <= n && p.buffer < |memory| && at + n <= |memory[p.buffer]|
    then memory[p.buffer][at..at + n] else []
  }

  /** Up to n new segments; `accepts` is how many the kernel lets through. */
  function SendNewData(q: Queue, memory: seq<seq<byte>>, mss: nat, now: nat, n: nat, accepts: nat)
    : (r: (Queue, seq<Sent>, Outcome))
    requires q.Shape() && mss > 0
    ensures r.0.Shape() && r.0.count == q.count
    decreases n, mss
  {
    if n == 0 || Sub32(q.seqNum, q.acked) >= Allowed(q) || Pick(q, 0).None? then (q, [], Fine)
    else
      var i := Pick(q, 0).value;
      var p := q.Live(i);
      var chunk := ChunkSize(q, i, mss);
      if q.seqNum != Add32(p.base, p.pos) then (q, [], BadPosition)
      else if accepts == 0 then (q, [], SendRefused)
      else
        var (t, outs, outcome) := SendNewData(SendChunk(q, i, chunk, now), memory, mss, now, n - 1, accepts - 1);
        (t, [Sent(q.seqNum, Slice(memory, p, p.pos, chunk))] + outs, outcome)
  }

  /** The oldest missing bytes again, or a one-byte probe of a closed window. */
  function RetryOut(q: Queue, memory: seq<seq<byte>>, mss: nat): seq<Sent>
    requires q.Shape() && q.count > 0
  {
    var p := q.Live(0);
    var offset := Sub32(q.acked, p.base);
    if Sub32(q.seqNum, q.acked) != 0 then
      var chunk := if q.peerWindow == 0 then 1 else Min(Min(Sub32(p.pos, offset), mss), q.peerWindow);
      [Sent(q.acked, Slice(memory, p, offset, chunk))]
    else if q.peerWindow == 0 then
      [Sent(Sub32(q.acked, 1), if offset > 0 then Slice(memory, p, offset - 1, 1) else [])]
    else []
  }

  function BackOff(q: Queue, now: nat): Queue {
    q.(retryAt := now, retryMs := if q.retryMs < RETRY_MAX_MS then Min(q.retryMs * 2, RETRY_MAX_MS) else q.retryMs)
  }

  function Since(now: nat, moment: nat): nat { (now - moment) % TWO_64 }

  function Fail(q: Queue, outs: seq<Sent>, why: Outcome): (Queue, seq<Sent>, Outcome) {
    (q.(failed := true), outs, why)
  }

  /** Sending and retrying, once the acknowledgments are taken in. */
  function Push(q: Queue, memory: seq<seq<byte>>, mss: nat, now: nat, batch: nat, accepts: nat)
    : (r: (Queue, seq<Sent>, Outcome))
    requires q.Shape() && mss > 0
    ensures r.0.Shape()
  {
    if q.count == 0 then (q, [], Fine)
    else if Since(now, q.progressAt) >= STALL_MS then Fail(q.(open := false), [], Stalled)
    else
      var (s, news, outcome) := SendNewData(q, memory, mss, now, batch, accepts);
      if outcome != Fine then Fail(s, news, outcome)
      else if Since(now, s.retryAt) < s.retryMs then (s, news, Fine)
      else (BackOff(s, now), news + RetryOut(s, memory, mss), Fine)
  }

  /** One poll, sending at most `batch` new segments; arrivals were taken in before. */
  function Poll(q: Queue, memory: seq<seq<byte>>, peerMss: nat, now: nat, batch: nat, accepts: nat)
    : (r: (Queue, seq<Sent>, Outcome))
    requires q.Shape()
    ensures r.0.Shape()
  {
    var mss := if peerMss == 0 || peerMss > CHUNK then CHUNK else peerMss;
    if q.failed then (q, [], Fine)
    else if !q.open then Fail(q, [], Closed)
    else
      match Advance(q, now)
      case None => Fail(q, [], BadAck)
      case Some(a) => Push(Retire(a), memory, mss, now, batch, accepts)
  }

  // ---------- The history behind the numbers ----------

  /** start is the 32-bit number of the first byte; stream is every byte given out numbers so far;
      sent, ackAt and heardAt count bytes sent, acknowledged to the queue and acknowledged to the socket. */
  datatype History = History(start: nat, stream: seq<byte>, sent: nat, ackAt: nat, heardAt: nat) {
    function Number(at: int): nat { (start + at) % TWO_32 }
  }

  /** Where the i-th live part starts, counting back from the end of the stream. */
  function Start(q: Queue, total: int, i: nat): int
    requires q.Shape() && i <= q.count
  {
    if i == q.count then total
    else if i + 1 == q.count then total - q.Live(i).len
    else total - q.Live(i + 1).len - q.Live(i).len
  }

  function Clamp(x: int, hi: nat): nat { if x < 0 then 0 else if x > hi then hi else x }

  /** A part starting at `at` is that stretch of the stream, sent as far as the stream is. */
  ghost predicate PartAt(p: Part, at: int, h: History, all: seq<byte>, memory: seq<seq<byte>>) {
    && 0 <= at && at + p.len <= |all| && p.len > 0
    && p.base == h.Number(at) && p.pos == Clamp(h.sent - at, p.len)
    && p.buffer < |memory| && p.len <= |memory[p.buffer]|
    && memory[p.buffer][..p.len] == all[at..at + p.len]
  }

  ghost predicate PartOk(q: Queue, h: History, memory: seq<seq<byte>>, i: nat)
    requires q.Shape() && i < q.count
  {
    && PartAt(q.Live(i), Start(q, |h.stream|, i), h, h.stream, memory)
    && q.Live(i).buffer == q.Slot(i)
    && q.Live(i).len <= (if i > 0 then 0x7fff_ffff else 0x8000_0000)
  }

  ghost predicate NumbersOk(q: Queue, h: History) {
    var total := |h.stream|;
    && q.Shape() && h.start < TWO_32
    && h.ackAt <= h.heardAt <= h.sent <= total && total - h.ackAt <= 0x8000_0000
    && q.endSeq == h.Number(total) && q.seqNum == h.Number(h.sent)
    && q.acked == h.Number(h.ackAt) && q.txAcked == h.Number(h.heardAt)
    && Start(q, total, 0) <= h.ackAt
  }

  ghost predicate PartsOk(q: Queue, h: History, memory: seq<seq<byte>>)
    requires q.Shape()
  {
    && |memory| == SLOTS
    && forall i :: 0 <= i < q.count ==> PartOk(q, h, memory, i)
  }

  /** The fields mean what the history says. */
  ghost predicate Means(q: Queue, h: History, memory: seq<seq<byte>>) {
    NumbersOk(q, h) && PartsOk(q, h, memory)
  }

  /** The parts read only the layout of the queue and the stream as sent. */
  lemma PartsSame(q: Queue, t: Queue, h: History, h': History, memory: seq<seq<byte>>)
    requires q.Shape() && t.Shape() && PartsOk(q, h, memory)
    requires t.parts == q.parts && t.head == q.head && t.count == q.count
    requires h'.stream == h.stream && h'.start == h.start && h'.sent == h.sent
    ensures PartsOk(t, h', memory) && Start(t, |h.stream|, 0) == Start(q, |h.stream|, 0)
  {
    forall i | 0 <= i < t.count ensures PartOk(t, h', memory, i) {
      assert PartOk(q, h, memory, i);
      assert t.Live(i) == q.Live(i);
    }
  }

  /** The oldest part is not wholly acknowledged. */
  ghost predicate Trimmed(q: Queue, h: History)
    requires q.Shape()
  {
    q.count > 0 ==> h.ackAt < Start(q, |h.stream|, 0) + q.Live(0).len
  }

  /** The packet carries the stream's bytes at position `at` under their own number. */
  ghost predicate OutAt(h: History, o: Sent, at: int) {
    && o.seqNum == h.Number(at)
    && (o.data != [] ==> 0 <= at && at + |o.data| <= h.sent <= |h.stream| && o.data == h.stream[at..at + |o.data|])
  }

  // ---------- Numbers ----------

  lemma Difference(h: History, a: int, b: int)
    requires -TWO_32 <= a - b < TWO_32
    ensures Sub32(h.Number(a), h.Number(b)) == if a >= b then a - b else a - b + TWO_32
  {
  }

  lemma Plus(h: History, at: int, n: nat)
    ensures Add32(h.Number(at), n) == h.Number(at + n)
  {
  }

  // ---------- Queue operations keep the meaning ----------

  lemma InitMeans(seqNum: nat, txAcked: nat, window: nat, now: nat, memory: seq<seq<byte>>)
    requires seqNum < TWO_32 && |memory| == SLOTS && Init(seqNum, txAcked, window, now).Some?
    ensures var q, h := Init(seqNum, txAcked, window, now).value, History(seqNum, [], 0, 0, 0);
      Means(q, h, memory) && Trimmed(q, h)
  {
  }

  function Enqueued(h: History, frame: seq<byte>): History { h.(stream := h.stream + frame) }

  lemma PartStays(p: Part, at: int, h: History, h': History, memory: seq<seq<byte>>)
    requires PartAt(p, at, h, h.stream, memory) && h.stream <= h'.stream && h'.start == h.start && h'.sent == h.sent
    ensures PartAt(p, at, h', h'.stream, memory)
  {
    assert h'.stream[at..at + p.len] == h.stream[at..at + p.len];
  }

  /** The part already live is untouched by an enqueue behind it. */
  lemma EnqueueKeepsFirst(q: Queue, h: History, memory: seq<seq<byte>>, len: nat, now: nat)
    requires Means(q, h, memory) && !q.failed && q.count == 1 && 0 < len <= |memory[q.Slot(1)]|
    ensures var t := Enqueue(q, q.Slot(1), len, now).0;
      var h' := Enqueued(h, memory[q.Slot(1)][..len]);
      && PartOk(t, h', memory, 0) && t.Live(0) == q.Live(0)
      && Start(t, |h'.stream|, 0) == Start(q, |h.stream|, 0)
  {
    var frame := memory[q.Slot(1)][..len];
    var h' := Enqueued(h, frame);
    var t := Enqueue(q, q.Slot(1), len, now).0;
    assert PartOk(q, h, memory, 0);
    assert t.Live(0) == q.Live(0) && t.Live(1).len == len;
    PartStays(q.Live(0), Start(q, |h.stream|, 0), h, h', memory);
  }

  lemma EnqueueAddsPart(q: Queue, h: History, memory: seq<seq<byte>>, len: nat, now: nat)
    requires Means(q, h, memory) && Trimmed(q, h) && !q.failed && q.count < SLOTS
    requires 0 < len <= |memory[q.Slot(q.count)]| && |h.stream| - h.ackAt + len <= 0x8000_0000
    ensures var t := Enqueue(q, q.Slot(q.count), len, now).0;
      var h' := Enqueued(h, memory[q.Slot(q.count)][..len]);
      && PartOk(t, h', memory, q.count) && t.endSeq == h'.Number(|h'.stream|)
      && Start(t, |h'.stream|, q.count) == |h.stream|
  {
    var frame := memory[q.Slot(q.count)][..len];
    var h' := Enqueued(h, frame);
    var total := |h.stream|;
    Plus(h, total, len);
    assert h'.stream[total..total + len] == frame;
    assert q.count > 0 ==> PartOk(q, h, memory, 0);
    EnqueueLast(q, q.Slot(q.count), len, now);
  }

  lemma EnqueueLast(q: Queue, buffer: nat, len: nat, now: nat)
    requires q.Shape() && !q.failed && q.count < SLOTS && len > 0
    ensures var t := Enqueue(q, buffer, len, now).0;
      t.count == q.count + 1 && t.head == q.head && t.Live(q.count) == Part(buffer, q.endSeq, len, 0)
  {
  }

  lemma EnqueueParts(q: Queue, h: History, memory: seq<seq<byte>>, len: nat, now: nat)
    requires Means(q, h, memory) && Trimmed(q, h) && !q.failed && q.count < SLOTS
    requires 0 < len <= |memory[q.Slot(q.count)]| && |h.stream| - h.ackAt + len <= 0x8000_0000
    ensures PartsOk(Enqueue(q, q.Slot(q.count), len, now).0, Enqueued(h, memory[q.Slot(q.count)][..len]), memory)
  {
    var t, h' := Enqueue(q, q.Slot(q.count), len, now).0, Enqueued(h, memory[q.Slot(q.count)][..len]);
    EnqueueAddsPart(q, h, memory, len, now);
    if q.count == 1 {
      EnqueueKeepsFirst(q, h, memory, len, now);
    }
    forall i | 0 <= i < t.count ensures PartOk(t, h', memory, i) {
      assert i == q.count || (q.count == 1 && i == 0);
    }
  }

  lemma EnqueueMeans(q: Queue, h: History, memory: seq<seq<byte>>, len: nat, now: nat)
    requires Means(q, h, memory) && Trimmed(q, h) && !q.failed && q.count < SLOTS
    requires 0 < len <= |memory[q.Slot(q.count)]|
    ensures var (t, ok) := Enqueue(q, q.Slot(q.count), len, now);
      var h' := Enqueued(h, memory[q.Slot(q.count)][..len]);
      && ok && h'.stream == h.stream + memory[q.Slot(q.count)][..len]
      && (Means(t, h', memory) && Trimmed(t, h') <==> |h.stream| - h.ackAt + len <= 0x8000_0000)
  {
    if |h.stream| - h.ackAt + len <= 0x8000_0000 {
      EnqueueKeepsMeaning(q, h, memory, len, now);
    }
  }

  lemma EnqueueKeepsMeaning(q: Queue, h: History, memory: seq<seq<byte>>, len: nat, now: nat)
    requires Means(q, h, memory) && Trimmed(q, h) && !q.failed && q.count < SLOTS
    requires 0 < len <= |memory[q.Slot(q.count)]| && |h.stream| - h.ackAt + len <= 0x8000_0000
    ensures var t := Enqueue(q, q.Slot(q.count), len, now).0;
      var h' := Enqueued(h, memory[q.Slot(q.count)][..len]);
      Means(t, h', memory) && Trimmed(t, h')
  {
    EnqueueParts(q, h, memory, len, now);
    EnqueueAddsPart(q, h, memory, len, now);
    if q.count == 1 {
      EnqueueKeepsFirst(q, h, memory, len, now);
    }
  }

  function Dropped(h: History, len: nat): History
    requires len <= |h.stream|
  {
    h.(stream := h.stream[..|h.stream| - len])
  }

  lemma PartStaysBefore(p: Part, at: int, h: History, h': History, memory: seq<seq<byte>>)
    requires PartAt(p, at, h, h.stream, memory) && h'.stream <= h.stream && h'.start == h.start && h'.sent == h.sent
    requires at + p.len <= |h'.stream|
    ensures PartAt(p, at, h', h'.stream, memory)
  {
    assert h'.stream[at..at + p.len] == h.stream[at..at + p.len];
  }

  lemma DropKeepsFirst(q: Queue, h: History, memory: seq<seq<byte>>)
    requires NumbersOk(q, h) && PartsOk(q, h, memory) && DropTail(q).1 && q.count == 2
    ensures PartOk(q, h, memory, 1)
    ensures var h' := Dropped(h, q.Live(1).len);
      && PartsOk(DropTail(q).0, h', memory)
      && Start(DropTail(q).0, |h'.stream|, 0) == Start(q, |h.stream|, 0)
  {
    assert PartOk(q, h, memory, 0) && PartOk(q, h, memory, 1);
    var t, h' := DropTail(q).0, Dropped(h, q.Live(1).len);
    assert t.Live(0) == q.Live(0);
    PartStaysBefore(q.Live(0), Start(q, |h.stream|, 0), h, h', memory);
    assert PartOk(t, h', memory, 0);
  }

  /** A dropped tail gives back numbers that were never used. */
  lemma DropTailMeans(q: Queue, h: History, memory: seq<seq<byte>>)
    requires Means(q, h, memory) && Trimmed(q, h) && DropTail(q).1
    ensures q.Live(q.count - 1).len <= |h.stream|
    ensures var h' := Dropped(h, q.Live(q.count - 1).len);
      Means(DropTail(q).0, h', memory) && Trimmed(DropTail(q).0, h') && h.sent <= |h'.stream|
  {
    var last := q.count - 1;
    assert PartOk(q, h, memory, last);
    if last == 1 {
      DropKeepsFirst(q, h, memory);
      assert DropTail(q).0.Live(0) == q.Live(0);
    }
  }

  // ---------- Acknowledgments ----------

  function Heard(q: Queue, h: History, ack: nat): History {
    var newly := Sub32(ack, q.txAcked);
    if 0 < newly < 0x8000_0000 && newly <= Sub32(q.seqNum, q.txAcked) then h.(heardAt := h.heardAt + newly) else h
  }

  lemma AckNumber(h: History, ack: nat, at: nat)
    requires ack < TWO_32
    ensures ack == h.Number(at + Sub32(ack, h.Number(at)))
  {
  }

  /** Whatever acknowledgment arrives, the socket's figure stays a number of bytes that were sent. */
  lemma ArriveMeans(q: Queue, h: History, memory: seq<seq<byte>>, ack: nat, window: nat)
    requires Means(q, h, memory) && Trimmed(q, h) && ack < TWO_32
    ensures Means(Arrive(q, ack, window), Heard(q, h, ack), memory) && Trimmed(Arrive(q, ack, window), Heard(q, h, ack))
  {
    var t, h' := Arrive(q, ack, window), Heard(q, h, ack);
    Difference(h, h.sent, h.heardAt);
    AckNumber(h, ack, h.heardAt);
    PartsSame(q, t, h, h', memory);
    assert t.txAcked == h'.Number(h'.heardAt);
  }

  function Taken(h: History): History { h.(ackAt := h.heardAt) }

  /** The consistency test on acknowledgments never fires. */
  lemma AdvanceMeans(q: Queue, h: History, memory: seq<seq<byte>>, now: nat)
    requires Means(q, h, memory)
    ensures Advance(q, now).Some?
    ensures Means(Advance(q, now).value, Taken(h), memory)
    ensures var a := Advance(q, now).value;
      a == q.(acked := a.acked, progressAt := a.progressAt, retryAt := a.retryAt, retryMs := a.retryMs)
  {
    Difference(h, h.heardAt, h.ackAt);
    Difference(h, h.sent, h.ackAt);
    PartsSame(q, Advance(q, now).value, h, Taken(h), memory);
  }

  /** The signed comparison is exact: a part counts as acknowledged when all of it is. */
  lemma RetireTest(q: Queue, h: History, memory: seq<seq<byte>>)
    requires Means(q, h, memory) && q.count > 0
    ensures StillLive(q.acked, Add32(q.Live(0).base, q.Live(0).len))
         <==> h.ackAt < Start(q, |h.stream|, 0) + q.Live(0).len
  {
    assert PartOk(q, h, memory, 0);
    var at := Start(q, |h.stream|, 0);
    Plus(h, at, q.Live(0).len);
    if q.count == 2 {
      assert PartOk(q, h, memory, 1);
    }
    Difference(h, h.ackAt, at + q.Live(0).len);
  }

  /** Why writes are bounded by 2^31 bytes: a longer one would count as acknowledged before it is sent. */
  lemma LiveTest(acked: nat, len: nat)
    requires acked < TWO_32 && 0 < len < TWO_32
    ensures StillLive(acked, Add32(acked, len)) <==> len <= 0x8000_0000
  {
    assert Sub32(acked, Add32(acked, len)) == TWO_32 - len;
  }

  lemma RetireOneMeans(q: Queue, h: History, memory: seq<seq<byte>>)
    requires Means(q, h, memory) && q.count > 0 && h.ackAt >= Start(q, |h.stream|, 0) + q.Live(0).len
    ensures Means(q.(head := q.Slot(1), count := q.count - 1), h, memory)
  {
    var t := q.(head := q.Slot(1), count := q.count - 1);
    if q.count == 2 {
      assert PartOk(q, h, memory, 1);
      assert t.Live(0) == q.Live(1);
      assert PartOk(t, h, memory, 0);
    }
  }

  lemma RetireOneLengths(q: Queue)
    requires q.Shape() && q.count > 0
    ensures KeepsLengths(q, q.(head := q.Slot(1), count := q.count - 1))
  {
    var t := q.(head := q.Slot(1), count := q.count - 1);
    assert q.count == 2 ==> t.Live(0) == q.Live(1);
  }

  lemma {:induction false} RetireMeans(q: Queue, h: History, memory: seq<seq<byte>>)
    requires Means(q, h, memory)
    ensures Means(Retire(q), h, memory) && Trimmed(Retire(q), h)
    ensures Retire(q) == q.(head := Retire(q).head, count := Retire(q).count)
    ensures KeepsLengths(q, Retire(q))
    decreases q.count
  {
    if q.count > 0 {
      RetireTest(q, h, memory);
      if h.ackAt >= Start(q, |h.stream|, 0) + q.Live(0).len {
        RetireOneMeans(q, h, memory);
        var t := q.(head := q.Slot(1), count := q.count - 1);
        RetireMeans(t, h, memory);
        RetireOneLengths(q);
        KeepsLengthsTwice(q, t, Retire(t));
      }
    }
  }

  // ---------- Sending ----------

  /** The part picked continues exactly where the stream was left. */
  lemma PickContinues(q: Queue, h: History, memory: seq<seq<byte>>, i: nat)
    requires Means(q, h, memory) && Pick(q, 0) == Some(i)
    ensures Start(q, |h.stream|, i) + q.Live(i).pos == h.sent
    ensures q.seqNum == Add32(q.Live(i).base, q.Live(i).pos)
  {
    assert PartOk(q, h, memory, i);
    var at := Start(q, |h.stream|, i);
    if i == 1 {
      assert PartOk(q, h, memory, 0);
    }
    assert at + q.Live(i).pos == h.sent;
    Plus(h, at, q.Live(i).pos);
  }

  function Further(h: History, n: nat): History { h.(sent := h.sent + n) }

  lemma SendChunkLayout(q: Queue, i: nat, chunk: nat, now: nat, j: nat)
    requires q.Shape() && i < q.count && j < q.count
    ensures var t := SendChunk(q, i, chunk, now);
      && t.Live(j) == (if j == i then q.Live(i).(pos := q.Live(i).pos + chunk) else q.Live(j))
  {
  }

  lemma PartSent(p: Part, at: int, h: History, memory: seq<seq<byte>>, chunk: nat)
    requires PartAt(p, at, h, h.stream, memory) && at + p.pos == h.sent && chunk <= p.len - p.pos
    ensures PartAt(p.(pos := p.pos + chunk), at, Further(h, chunk), h.stream, memory)
  {
  }

  lemma PartUnaffected(p: Part, at: int, h: History, memory: seq<seq<byte>>, chunk: nat)
    requires PartAt(p, at, h, h.stream, memory) && (at + p.len <= h.sent || h.sent + chunk <= at)
    ensures PartAt(p, at, Further(h, chunk), h.stream, memory)
  {
  }

  lemma SendChunkStart(q: Queue, i: nat, chunk: nat, now: nat, total: int, j: nat)
    requires q.Shape() && i < q.count && j <= q.count
    ensures Start(SendChunk(q, i, chunk, now), total, j) == Start(q, total, j)
  {
    SendChunkLayout(q, i, chunk, now, 0);
    SendChunkLayout(q, i, chunk, now, q.count - 1);
  }

  lemma SendChunkPart(q: Queue, h: History, memory: seq<seq<byte>>, i: nat, chunk: nat, now: nat, j: nat)
    requires Means(q, h, memory) && Pick(q, 0) == Some(i) && j < q.count
    requires 0 < chunk <= q.Live(i).len - q.Live(i).pos
    ensures PartOk(SendChunk(q, i, chunk, now), Further(h, chunk), memory, j)
  {
    var total := |h.stream|;
    SendChunkLayout(q, i, chunk, now, j);
    SendChunkStart(q, i, chunk, now, total, j);
    assert PartOk(q, h, memory, j);
    PickContinues(q, h, memory, i);
    if j == i {
      PartSent(q.Live(i), Start(q, total, i), h, memory, chunk);
    } else {
      assert Start(q, total, 1) == Start(q, total, 0) + q.Live(0).len;
      PartUnaffected(q.Live(j), Start(q, total, j), h, memory, chunk);
    }
  }

  lemma SendChunkParts(q: Queue, h: History, memory: seq<seq<byte>>, i: nat, chunk: nat, now: nat)
    requires Means(q, h, memory) && Pick(q, 0) == Some(i)
    requires 0 < chunk <= q.Live(i).len - q.Live(i).pos
    ensures var t := SendChunk(q, i, chunk, now);
      && PartsOk(t, Further(h, chunk), memory)
      && (forall j :: 0 <= j < q.count ==> t.Live(j).len == q.Live(j).len)
      && Start(t, |h.stream|, 0) == Start(q, |h.stream|, 0)
  {
    var t := SendChunk(q, i, chunk, now);
    forall j | 0 <= j < q.count ensures PartOk(t, Further(h, chunk), memory, j) && t.Live(j).len == q.Live(j).len {
      SendChunkPart(q, h, memory, i, chunk, now, j);
      SendChunkLayout(q, i, chunk, now, j);
    }
  }

  lemma SendChunkNumbers(q: Queue, h: History, memory: seq<seq<byte>>, i: nat, chunk: nat, now: nat)
    requires Means(q, h, memory) && Pick(q, 0) == Some(i) && 0 < chunk <= q.Live(i).len - q.Live(i).pos
    ensures NumbersOk(SendChunk(q, i, chunk, now), Further(h, chunk))
  {
    PickContinues(q, h, memory, i);
    SendChunkStart(q, i, chunk, now, |h.stream|, 0);
    Plus(h, h.sent, chunk);
    assert PartOk(q, h, memory, i);
  }

  lemma SendChunkMeans(q: Queue, h: History, memory: seq<seq<byte>>, i: nat, chunk: nat, now: nat)
    requires Means(q, h, memory) && Trimmed(q, h) && Pick(q, 0) == Some(i)
    requires 0 < chunk <= q.Live(i).len - q.Live(i).pos
    ensures var t := SendChunk(q, i, chunk, now);
      Means(t, Further(h, chunk), memory) && Trimmed(t, Further(h, chunk))
  {
    SendChunkParts(q, h, memory, i, chunk, now);
    SendChunkNumbers(q, h, memory, i, chunk, now);
  }

  /** Reading a live part's buffer reads the stream. */
  lemma SliceIsStream(p: Part, at: int, h: History, memory: seq<seq<byte>>, from: nat, n: nat)
    requires PartAt(p, at, h, h.stream, memory) && from + n <= p.len
    ensures Slice(memory, p, from, n) == h.stream[at + from..at + from + n]
    ensures |Slice(memory, p, from, n)| == n
  {
    assert memory[p.buffer][from..from + n] == memory[p.buffer][..p.len][from..from + n];
    assert h.stream[at..at + p.len][from..from + n] == h.stream[at + from..at + from + n];
  }

  lemma SendChunkOut(q: Queue, h: History, memory: seq<seq<byte>>, i: nat, chunk: nat)
    requires Means(q, h, memory) && Pick(q, 0) == Some(i)
    requires 0 < chunk <= q.Live(i).len - q.Live(i).pos
    ensures OutAt(Further(h, chunk), Sent(q.seqNum, Slice(memory, q.Live(i), q.Live(i).pos, chunk)), h.sent)
  {
    PickContinues(q, h, memory, i);
    assert PartOk(q, h, memory, i);
    SliceIsStream(q.Live(i), Start(q, |h.stream|, i), h, memory, q.Live(i).pos, chunk);
  }

  /** The history after sending up to number t.seqNum. */
  function SentOn(h: History, q: Queue, t: Queue): History { Further(h, Sub32(t.seqNum, q.seqNum)) }

  /** The stream position a packet stands for: the latest one with its number. */
  function Position(h: History, o: Sent): int { h.sent - Sub32(h.Number(h.sent), o.seqNum) }

  ghost predicate AllInStream(h: History, outs: seq<Sent>) {
    forall o <- outs :: OutAt(h, o, Position(h, o))
  }

  lemma OutStays(h: History, h': History, o: Sent, at: int)
    requires OutAt(h, o, at) && h'.start == h.start && h'.stream == h.stream && h.sent <= h'.sent <= |h.stream|
    requires at <= h'.sent < at + TWO_32
    ensures OutAt(h', o, Position(h', o)) && Position(h', o) == at
  {
    Difference(h', h'.sent, at);
  }

  ghost predicate SameQueue(q: Queue, t: Queue) {
    && t.head == q.head && t.count == q.count && t.endSeq == q.endSeq && t.acked == q.acked
    && t.failed == q.failed && t.open == q.open && t.txAcked == q.txAcked && t.peerWindow == q.peerWindow
  }

  lemma SentTwice(h: History, q: Queue, q1: Queue, t: Queue, chunk: nat)
    requires q.seqNum == h.Number(h.sent) && q1.seqNum == h.Number(h.sent + chunk)
    requires t.seqNum == h.Number(h.sent + chunk + Sub32(t.seqNum, q1.seqNum))
    requires chunk + Sub32(t.seqNum, q1.seqNum) < TWO_32
    ensures SentOn(Further(h, chunk), q1, t) == SentOn(h, q, t)
    ensures Sub32(t.seqNum, q.seqNum) == chunk + Sub32(t.seqNum, q1.seqNum)
  {
    Difference(h, h.sent + chunk + Sub32(t.seqNum, q1.seqNum), h.sent);
  }

  ghost predicate SendResult(q: Queue, h: History, memory: seq<seq<byte>>, t: Queue, outs: seq<Sent>, outcome: Outcome) {
    SendResultAt(q, h, SentOn(h, q, t), memory, t, outs, outcome)
  }

  ghost predicate SendResultAt(q: Queue, h: History, h': History, memory: seq<seq<byte>>, t: Queue, outs: seq<Sent>, outcome: Outcome) {
    && Means(t, h', memory) && Trimmed(t, h') && AllInStream(h', outs)
    && (outcome == Fine || outcome == SendRefused)
    && (h'.sent > h.sent ==> h'.sent - h.ackAt <= Allowed(q))
    && SameQueue(q, t) && KeepsLengths(q, t)
  }

  lemma SendNothing(q: Queue, h: History, memory: seq<seq<byte>>, outcome: Outcome)
    requires Means(q, h, memory) && Trimmed(q, h) && (outcome == Fine || outcome == SendRefused)
    ensures SendResult(q, h, memory, q, [], outcome)
  {
    Difference(h, h.sent, h.sent);
    assert SentOn(h, q, q) == h;
  }

  lemma SendStepOuts(h: History, h1: History, h': History, out: Sent, rest: seq<Sent>)
    requires OutAt(h1, out, h.sent) && AllInStream(h', rest)
    requires h1.start == h'.start && h1.stream == h'.stream && h.sent <= h1.sent <= h'.sent <= |h'.stream| && h'.sent < h.sent + TWO_32
    ensures AllInStream(h', [out] + rest)
  {
    OutStays(h1, h', out, h.sent);
    forall o | o in [out] + rest ensures OutAt(h', o, Position(h', o)) {
      assert o == out || o in rest;
    }
  }

  /** One chunk and whatever follows it make one result. */
  lemma SendStep(q: Queue, h: History, memory: seq<seq<byte>>, q1: Queue, chunk: nat, out: Sent,
                 t: Queue, rest: seq<Sent>, outcome: Outcome)
    requires NumbersOk(q, h) && NumbersOk(q1, Further(h, chunk)) && SameQueue(q, q1) && KeepsLengths(q, q1)
    requires Sub32(q.seqNum, q.acked) < Allowed(q) && chunk <= Allowed(q) - Sub32(q.seqNum, q.acked)
    requires OutAt(Further(h, chunk), out, h.sent)
    requires SendResult(q1, Further(h, chunk), memory, t, rest, outcome)
    ensures SendResult(q, h, memory, t, [out] + rest, outcome)
  {
    var h1, h' := Further(h, chunk), SentOn(h, q, t);
    InFlight(q, h);
    StepNumbers(q, h, q1, chunk, t);
    SendStepAt(q, h, memory, q1, h1, h', out, t, rest, outcome);
  }

  lemma SendStepAt(q: Queue, h: History, memory: seq<seq<byte>>, q1: Queue, h1: History, h': History, out: Sent,
                   t: Queue, rest: seq<Sent>, outcome: Outcome)
    requires SendResultAt(q1, h1, h', memory, t, rest, outcome) && SameQueue(q, q1) && KeepsLengths(q, q1)
    requires h.sent <= h1.sent && h1 == Further(h, h1.sent - h.sent) && h1.sent - h.ackAt <= Allowed(q)
    requires OutAt(h1, out, h.sent) && h'.start == h.start && h'.stream == h.stream
    requires h1.sent <= h'.sent <= |h'.stream| && h'.sent < h.sent + TWO_32
    ensures SendResultAt(q, h, h', memory, t, [out] + rest, outcome)
  {
    SendStepOuts(h, h1, h', out, rest);
    KeepsLengthsTwice(q, q1, t);
  }

  /** The figures after one chunk and what follows it. */
  lemma StepNumbers(q: Queue, h: History, q1: Queue, chunk: nat, t: Queue)
    requires q.seqNum == h.Number(h.sent) && q1.seqNum == h.Number(h.sent + chunk)
    requires t.seqNum == h.Number(SentOn(Further(h, chunk), q1, t).sent)
    requires SentOn(Further(h, chunk), q1, t).sent - h.sent < TWO_32
    ensures SentOn(Further(h, chunk), q1, t) == SentOn(h, q, t)
  {
    SentTwice(h, q, q1, t, chunk);
  }

  lemma InFlight(q: Queue, h: History)
    requires NumbersOk(q, h)
    ensures Sub32(q.seqNum, q.acked) == h.sent - h.ackAt
  {
    Difference(h, h.sent, h.ackAt);
  }

  lemma ChunkKeepsQueue(q: Queue, i: nat, chunk: nat, now: nat)
    requires q.Shape() && i < q.count
    ensures var q1 := SendChunk(q, i, chunk, now); SameQueue(q, q1) && KeepsLengths(q, q1)
  {
    var q1 := SendChunk(q, i, chunk, now);
    forall j | 0 <= j < q.count ensures q1.Live(j).len == q.Live(j).len {
      SendChunkLayout(q, i, chunk, now, j);
    }
  }

  /** The queue after one chunk of the part picked. */
  function AfterChunk(q: Queue, mss: nat, now: nat): Queue
    requires q.Shape() && mss > 0 && Sub32(q.seqNum, q.acked) < Allowed(q) && Pick(q, 0).Some?
  {
    SendChunk(q, Pick(q, 0).value, ChunkSize(q, Pick(q, 0).value, mss), now)
  }

  function ChunkOut(q: Queue, memory: seq<seq<byte>>, mss: nat): Sent
    requires q.Shape() && mss > 0 && Sub32(q.seqNum, q.acked) < Allowed(q) && Pick(q, 0).Some?
  {
    var p := q.Live(Pick(q, 0).value);
    Sent(q.seqNum, Slice(memory, p, p.pos, ChunkSize(q, Pick(q, 0).value, mss)))
  }

  lemma ChunkGoes(q: Queue, h: History, memory: seq<seq<byte>>, mss: nat, now: nat)
    requires Means(q, h, memory) && Trimmed(q, h) && mss > 0
    requires Sub32(q.seqNum, q.acked) < Allowed(q) && Pick(q, 0).Some?
    ensures var h1 := Further(h, ChunkSize(q, Pick(q, 0).value, mss));
      Means(AfterChunk(q, mss, now), h1, memory) && Trimmed(AfterChunk(q, mss, now), h1)
    ensures var p := q.Live(Pick(q, 0).value); q.seqNum == Add32(p.base, p.pos)
  {
    var i := Pick(q, 0).value;
    PickContinues(q, h, memory, i);
    SendChunkMeans(q, h, memory, i, ChunkSize(q, i, mss), now);
  }

  lemma ChunkThenRest(q: Queue, h: History, memory: seq<seq<byte>>, mss: nat, now: nat, t: Queue, rest: seq<Sent>, outcome: Outcome)
    requires Means(q, h, memory) && Trimmed(q, h) && mss > 0
    requires Sub32(q.seqNum, q.acked) < Allowed(q) && Pick(q, 0).Some?
    requires SendResult(AfterChunk(q, mss, now), Further(h, ChunkSize(q, Pick(q, 0).value, mss)), memory, t, rest, outcome)
    ensures SendResult(q, h, memory, t, [ChunkOut(q, memory, mss)] + rest, outcome)
  {
    var i := Pick(q, 0).value;
    var chunk := ChunkSize(q, i, mss);
    ChunkGoes(q, h, memory, mss, now);
    SendChunkOut(q, h, memory, i, chunk);
    ChunkKeepsQueue(q, i, chunk, now);
    SendStep(q, h, memory, AfterChunk(q, mss, now), chunk, ChunkOut(q, memory, mss), t, rest, outcome);
  }

  /** New segments continue the stream in order, never fire the position test, and never put more
      than min(peer window, 32768) bytes in flight. */
  lemma {:induction false} SendNewDataMeans(q: Queue, h: History, memory: seq<seq<byte>>, mss: nat, now: nat, n: nat, accepts: nat)
    requires Means(q, h, memory) && Trimmed(q, h) && mss > 0
    ensures var (t, outs, outcome) := SendNewData(q, memory, mss, now, n, accepts);
      SendResult(q, h, memory, t, outs, outcome)
    decreases n
  {
    if n == 0 || Sub32(q.seqNum, q.acked) >= Allowed(q) || Pick(q, 0).None? {
      SendNothing(q, h, memory, Fine);
    } else {
      ChunkGoes(q, h, memory, mss, now);
      if accepts == 0 {
        SendNothing(q, h, memory, SendRefused);
      } else {
        var q1, h1 := AfterChunk(q, mss, now), Further(h, ChunkSize(q, Pick(q, 0).value, mss));
        SendNewDataMeans(q1, h1, memory, mss, now, n - 1, accepts - 1);
        var (t, rest, outcome) := SendNewData(q1, memory, mss, now, n - 1, accepts - 1);
        ChunkThenRest(q, h, memory, mss, now, t, rest, outcome);
        ChunkFirst(q, memory, mss, now, n, accepts);
      }
    }
  }

  /** One turn of the sending loop that sends something. */
  lemma ChunkFirst(q: Queue, memory: seq<seq<byte>>, mss: nat, now: nat, n: nat, accepts: nat)
    requires q.Shape() && mss > 0 && n > 0 && accepts > 0 && Sub32(q.seqNum, q.acked) < Allowed(q) && Pick(q, 0).Some?
    requires var p := q.Live(Pick(q, 0).value); q.seqNum == Add32(p.base, p.pos)
    ensures var (t, rest, outcome) := SendNewData(AfterChunk(q, mss, now), memory, mss, now, n - 1, accepts - 1);
      SendNewData(q, memory, mss, now, n, accepts) == (t, [ChunkOut(q, memory, mss)] + rest, outcome)
  {
  }

  // ---------- Retrying ----------

  lemma RetryPosition(q: Queue, h: History, memory: seq<seq<byte>>)
    requires Means(q, h, memory) && Trimmed(q, h) && q.count > 0
    ensures PartOk(q, h, memory, 0)
    ensures var p, at := q.Live(0), Start(q, |h.stream|, 0);
      && at <= h.ackAt && Sub32(q.acked, p.base) == h.ackAt - at < p.len
      && Sub32(q.seqNum, q.acked) == h.sent - h.ackAt
      && (h.sent > h.ackAt ==> h.ackAt - at < p.pos <= h.sent - at)
  {
    assert PartOk(q, h, memory, 0);
    Difference(h, h.ackAt, Start(q, |h.stream|, 0));
    Difference(h, h.sent, h.ackAt);
  }

  lemma ResendMeans(q: Queue, h: History, memory: seq<seq<byte>>, mss: nat)
    requires Means(q, h, memory) && Trimmed(q, h) && q.count > 0 && mss > 0 && h.sent > h.ackAt
    ensures |RetryOut(q, memory, mss)| == 1
    ensures var o := RetryOut(q, memory, mss)[0]; o.data != [] && OutAt(h, o, Position(h, o))
  {
    RetryPosition(q, h, memory);
    var p, at := q.Live(0), Start(q, |h.stream|, 0);
    var offset := h.ackAt - at;
    SmallMod(p.pos - offset);
    var chunk := if q.peerWindow == 0 then 1 else Min(Min(p.pos - offset, mss), q.peerWindow);
    SliceIsStream(p, at, h, memory, offset, chunk);
    Difference(h, h.sent, h.ackAt);
  }

  lemma ProbeNumber(h: History, data: seq<byte>)
    requires h.sent == h.ackAt && h.start < TWO_32
    ensures Sub32(h.Number(h.ackAt), 1) == h.Number(h.ackAt - 1)
    ensures Position(h, Sent(h.Number(h.ackAt - 1), data)) == h.ackAt - 1
  {
    Difference(h, h.sent, h.ackAt - 1);
  }

  lemma ProbeMeans(q: Queue, h: History, memory: seq<seq<byte>>, mss: nat)
    requires Means(q, h, memory) && Trimmed(q, h) && q.count > 0 && h.sent == h.ackAt && q.peerWindow == 0
    ensures |RetryOut(q, memory, mss)| == 1
    ensures var o := RetryOut(q, memory, mss)[0]; OutAt(h, o, Position(h, o))
  {
    RetryPosition(q, h, memory);
    var p, at := q.Live(0), Start(q, |h.stream|, 0);
    var offset := h.ackAt - at;
    var data := if offset > 0 then Slice(memory, p, offset - 1, 1) else [];
    ProbeNumber(h, data);
    if offset > 0 {
      SliceIsStream(p, at, h, memory, offset - 1, 1);
    }
    assert RetryOut(q, memory, mss)[0] == Sent(h.Number(h.ackAt - 1), data);
  }

  /** A retry sends bytes that were sent before, under the numbers they had; it is never empty while
      bytes are in flight. */
  lemma RetryMeans(q: Queue, h: History, memory: seq<seq<byte>>, mss: nat)
    requires Means(q, h, memory) && Trimmed(q, h) && q.count > 0 && mss > 0
    ensures AllInStream(h, RetryOut(q, memory, mss))
    ensures h.sent > h.ackAt ==> |RetryOut(q, memory, mss)| == 1 && RetryOut(q, memory, mss)[0].data != []
  {
    RetryPosition(q, h, memory);
    if h.sent > h.ackAt {
      ResendMeans(q, h, memory, mss);
    } else if q.peerWindow == 0 {
      ProbeMeans(q, h, memory, mss);
    }
  }

  lemma SmallMod(d: int)
    requires 0 <= d < TWO_32
    ensures d % TWO_32 == d
  {
  }

  // ---------- Polling ----------

  /** What a poll's outcome and packets always satisfy. */
  ghost predicate PollResult(q: Queue, h: History, memory: seq<seq<byte>>, t: Queue, h': History, outs: seq<Sent>, outcome: Outcome) {
    && Means(t, h', memory) && Trimmed(t, h') && AllInStream(h', outs)
    && outcome != BadAck && outcome != BadPosition
    && h'.stream == h.stream && h'.start == h.start && h.sent <= h'.sent && h.ackAt <= h'.ackAt
    && (h'.sent > h.sent ==> h'.sent - h'.ackAt <= Min(q.peerWindow, WINDOW))
    && KeepsLengths(q, t)
    && (t.failed <==> q.failed || outcome != Fine)
  }

  lemma TouchMeans(q: Queue, t: Queue, h: History, memory: seq<seq<byte>>)
    requires Means(q, h, memory) && Trimmed(q, h)
    requires t == q.(retryAt := t.retryAt, retryMs := t.retryMs, failed := t.failed, open := t.open)
    ensures Means(t, h, memory) && Trimmed(t, h)
  {
    PartsSame(q, t, h, h, memory);
  }

  lemma PushSendMeans(q: Queue, h: History, memory: seq<seq<byte>>, mss: nat, now: nat, s: Queue, news: seq<Sent>, sending: Outcome)
    requires Means(q, h, memory) && mss > 0 && !q.failed && q.count > 0
    requires SendResult(q, h, memory, s, news, sending)
    ensures var h' := SentOn(h, q, s);
      && (sending != Fine ==> PollResult(q, h, memory, s.(failed := true), h', news, sending))
      && (sending == Fine ==> PollResult(q, h, memory, s, h', news, Fine))
      && (sending == Fine ==> PollResult(q, h, memory, BackOff(s, now), h', news + RetryOut(s, memory, mss), Fine))
  {
    var h' := SentOn(h, q, s);
    TouchMeans(s, s.(failed := true), h', memory);
    TouchMeans(s, BackOff(s, now), h', memory);
    RetryMeans(s, h', memory, mss);
    forall o | o in news + RetryOut(s, memory, mss) ensures OutAt(h', o, Position(h', o)) {
      assert o in news || o in RetryOut(s, memory, mss);
    }
  }

  lemma PushMeans(q: Queue, h: History, memory: seq<seq<byte>>, mss: nat, now: nat, batch: nat, accepts: nat)
    requires Means(q, h, memory) && Trimmed(q, h) && mss > 0 && !q.failed
    ensures var (t, outs, outcome) := Push(q, memory, mss, now, batch, accepts);
      PollResult(q, h, memory, t, SentOn(h, q, t), outs, outcome)
  {
    Difference(h, h.sent, h.sent);
    assert SentOn(h, q, q) == h;
    if q.count == 0 {
    } else if Since(now, q.progressAt) >= STALL_MS {
      TouchMeans(q, q.(open := false, failed := true), h, memory);
    } else {
      SendNewDataMeans(q, h, memory, mss, now, batch, accepts);
      var (s, news, sending) := SendNewData(q, memory, mss, now, batch, accepts);
      PushSendMeans(q, h, memory, mss, now, s, news, sending);
    }
  }

  function Polled(h: History, q: Queue, t: Queue): History {
    if q.failed || !q.open then h else SentOn(Taken(h), q, t)
  }

  lemma RetiredPush(a: Queue, h: History, memory: seq<seq<byte>>, mss: nat, now: nat, batch: nat, accepts: nat)
    requires Means(a, h, memory) && !a.failed && mss > 0
    ensures var b := Retire(a);
      var r := Push(b, memory, mss, now, batch, accepts);
      && b == a.(head := b.head, count := b.count) && KeepsLengths(a, b)
      && PollResult(b, h, memory, r.0, SentOn(h, b, r.0), r.1, r.2)
  {
    RetireMeans(a, h, memory);
    PushMeans(Retire(a), h, memory, mss, now, batch, accepts);
  }

  lemma SameLengths(q: Queue, a: Queue, b: Queue)
    requires KeepsLengths(a, b) && a.parts == q.parts && a.head == q.head && a.count == q.count
    ensures KeepsLengths(q, b)
  {
    forall i | 0 <= i < b.count ensures b.Live(i).len == q.Live(q.count - b.count + i).len {
      assert a.Live(a.count - b.count + i) == q.Live(q.count - b.count + i);
    }
  }

  lemma PollActive(q: Queue, h: History, memory: seq<seq<byte>>, mss: nat, now: nat, batch: nat, accepts: nat)
    requires Means(q, h, memory) && Trimmed(q, h) && !q.failed && mss > 0
    ensures Advance(q, now).Some?
    ensures var r := Push(Retire(Advance(q, now).value), memory, mss, now, batch, accepts);
      PollResult(q, h, memory, r.0, SentOn(Taken(h), q, r.0), r.1, r.2)
  {
    AdvanceMeans(q, h, memory, now);
    var a := Advance(q, now).value;
    RetiredPush(a, Taken(h), memory, mss, now, batch, accepts);
    SameLengths(q, a, Retire(a));
    AfterRetire(q, a, Retire(a), h, memory, Push(Retire(a), memory, mss, now, batch, accepts));
  }

  /** A poll keeps the meaning of every field; its two consistency tests never fire. */
  lemma PollMeans(q: Queue, h: History, memory: seq<seq<byte>>, peerMss: nat, now: nat, batch: nat, accepts: nat)
    requires Means(q, h, memory) && Trimmed(q, h)
    ensures var (t, outs, outcome) := Poll(q, memory, peerMss, now, batch, accepts);
      PollResult(q, h, memory, t, Polled(h, q, t), outs, outcome)
  {
    var mss := if peerMss == 0 || peerMss > CHUNK then CHUNK else peerMss;
    if q.failed {
    } else if !q.open {
      TouchMeans(q, q.(failed := true), h, memory);
    } else {
      PollActive(q, h, memory, mss, now, batch, accepts);
    }
  }

  /** Taking acknowledgments in first changes nothing that the result of the push speaks about. */
  lemma AfterRetire(q: Queue, a: Queue, b: Queue, h: History, memory: seq<seq<byte>>, r: (Queue, seq<Sent>, Outcome))
    requires q.Shape() && h.ackAt <= h.heardAt <= h.sent && !q.failed
    requires a.seqNum == q.seqNum && a.peerWindow == q.peerWindow && a.head == q.head && a.count == q.count && !a.failed
    requires b == a.(head := b.head, count := b.count) && KeepsLengths(q, b)
    requires PollResult(b, Taken(h), memory, r.0, SentOn(Taken(h), b, r.0), r.1, r.2)
    ensures PollResult(q, h, memory, r.0, SentOn(Taken(h), q, r.0), r.1, r.2)
  {
    KeepsLengthsTwice(q, b, r.0);
  }

  // ---------- Runs of the stream client ----------

  /** The queue, its history, the two frame buffers, the slot being encoded (-1: none), the parts not
      dropped, in order, and every packet sent with the stream position it stood for. */
  datatype Session = Session(q: Queue, h: History, memory: seq<seq<byte>>, encoding: int,
                             frames: seq<seq<byte>>, log: seq<(int, Sent)>)

  datatype Event =
    | Packet(ack: nat, window: nat)
    | PollNow(peerMss: nat, now: nat, accepts: nat)
    | BeginFrame
    | Encode(bytes: seq<byte>)
    | EndFrame(len: nat, now: nat)
    | AbandonFrame
    | Disconnect

  function Logged(h: History, outs: seq<Sent>): seq<(int, Sent)> {
    seq(|outs|, i requires 0 <= i < |outs| => (Position(h, outs[i]), outs[i]))
  }

  /** One event. Frames are bounded so that unacknowledged bytes never exceed 2^31. */
  function Next(s: Session, e: Event): Session
    requires s.q.Shape() && |s.memory| == SLOTS
  {
    match e
    case Packet(ack, window) =>
      if ack >= TWO_32 then s else s.(q := Arrive(s.q, ack, window), h := Heard(s.q, s.h, ack))
    case PollNow(peerMss, now, accepts) =>
      var (t, outs, outcome) := Poll(s.q, s.memory, peerMss, now, BATCH, accepts);
      var h := Polled(s.h, s.q, t);
      s.(q := t, h := h, log := s.log + Logged(h, outs))
    case BeginFrame =>
      if s.encoding >= 0 || s.q.failed then s
      else if s.q.count < SLOTS then s.(encoding := s.q.Slot(s.q.count))
      else
        var (t, dropped) := DropTail(s.q);
        if !dropped || s.frames == [] || s.q.Live(1).len > |s.h.stream| then s
        else s.(q := t, h := Dropped(s.h, s.q.Live(1).len), frames := s.frames[..|s.frames| - 1],
                encoding := t.Slot(t.count))
    case Encode(bytes) =>
      if 0 <= s.encoding < SLOTS then s.(memory := s.memory[s.encoding := bytes]) else s
    case EndFrame(len, now) =>
      if !(0 <= s.encoding < SLOTS) || len > |s.memory[s.encoding]| || |s.h.stream| - s.h.ackAt + len > 0x8000_0000
      then s.(encoding := -1)
      else
        var (t, ok) := Enqueue(s.q, s.encoding, len, now);
        var frame := s.memory[s.encoding][..len];
        if ok then s.(q := t, h := Enqueued(s.h, frame), frames := s.frames + [frame], encoding := -1)
        else s.(encoding := -1)
    case AbandonFrame => s.(encoding := -1)
    case Disconnect => s.(q := s.q.(open := false))
  }

  function Flat(frames: seq<seq<byte>>): seq<byte> {
    if frames == [] then [] else Flat(frames[..|frames| - 1]) + frames[|frames| - 1]
  }

  /** The numbers given out are the undropped parts, one after the other; the live ones are the last. */
  ghost predicate FramesOk(q: Queue, h: History, frames: seq<seq<byte>>) {
    && q.Shape() && q.count <= |frames| && h.stream == Flat(frames)
    && forall i :: 0 <= i < q.count ==> q.Live(i).len == |frames[|frames| - q.count + i]|
  }

  ghost predicate LogOk(h: History, log: seq<(int, Sent)>) {
    forall k :: 0 <= k < |log| ==> OutAt(h, log[k].1, log[k].0)
  }

  /** What holds in every state: meaning of the fields, frames, log, and the buffer being encoded is
      the next free slot, so no live part reads it. */
  ghost predicate SessionInv(s: Session) {
    && Means(s.q, s.h, s.memory) && Trimmed(s.q, s.h) && FramesOk(s.q, s.h, s.frames) && LogOk(s.h, s.log)
    && (s.encoding == -1 || (s.q.count < SLOTS && s.encoding == s.q.Slot(s.q.count)))
  }

  lemma LogStays(h: History, h': History, log: seq<(int, Sent)>)
    requires LogOk(h, log) && h'.start == h.start && h.sent <= h'.sent <= |h'.stream| && h.sent <= |h.stream|
    requires h'.stream[..h.sent] == h.stream[..h.sent]
    ensures LogOk(h', log)
  {
    forall k | 0 <= k < |log| ensures OutAt(h', log[k].1, log[k].0) {
      var at, o := log[k].0, log[k].1;
      assert OutAt(h, o, at);
      if o.data != [] {
        InHead(h.stream, h.sent, at, at + |o.data|);
        InHead(h'.stream, h.sent, at, at + |o.data|);
      }
    }
  }

  lemma InHead(s: seq<byte>, n: nat, i: nat, j: nat)
    requires i <= j <= n <= |s|
    ensures s[..n][i..j] == s[i..j]
  {
    var head := s[..n];
    forall k | 0 <= k < j - i ensures head[i..j][k] == s[i..j][k] {
      assert head[i + k] == s[i + k];
    }
  }

  lemma LogGrows(h: History, log: seq<(int, Sent)>, outs: seq<Sent>)
    requires LogOk(h, log) && AllInStream(h, outs)
    ensures LogOk(h, log + Logged(h, outs))
  {
  }

  lemma PacketKeeps(s: Session, ack: nat, window: nat)
    requires SessionInv(s)
    ensures SessionInv(Next(s, Packet(ack, window)))
  {
    if ack < TWO_32 {
      ArriveMeans(s.q, s.h, s.memory, ack, window);
      var t := Next(s, Packet(ack, window));
      LogStays(s.h, t.h, s.log);
      assert forall i :: 0 <= i < s.q.count ==> t.q.Live(i) == s.q.Live(i);
    }
  }

  lemma PollKeeps(s: Session, peerMss: nat, now: nat, accepts: nat)
    requires SessionInv(s)
    ensures SessionInv(Next(s, PollNow(peerMss, now, accepts)))
  {
    PollMeans(s.q, s.h, s.memory, peerMss, now, BATCH, accepts);
    var (t, outs, outcome) := Poll(s.q, s.memory, peerMss, now, BATCH, accepts);
    var h := Polled(s.h, s.q, t);
    LogStays(s.h, h, s.log);
    LogGrows(h, s.log, outs);
    assert FramesOk(t, h, s.frames);
  }

  /** The picture being drawn replaces only bytes no live part will ever read. */
  lemma EncodeKeeps(s: Session, bytes: seq<byte>)
    requires SessionInv(s)
    ensures SessionInv(Next(s, Encode(bytes)))
  {
    if s.encoding >= 0 {
      var memory := s.memory[s.encoding := bytes];
      forall i | 0 <= i < s.q.count ensures PartOk(s.q, s.h, memory, i) {
        assert PartOk(s.q, s.h, s.memory, i);
        assert s.q.Slot(i) != s.q.Slot(s.q.count);
      }
    }
  }

  lemma FlatSnoc(frames: seq<seq<byte>>, frame: seq<byte>)
    ensures Flat(frames + [frame]) == Flat(frames) + frame
  {
    assert (frames + [frame])[..|frames|] == frames;
  }

  lemma EnqueueFrames(q: Queue, h: History, frames: seq<seq<byte>>, frame: seq<byte>, now: nat)
    requires FramesOk(q, h, frames) && !q.failed && q.count < SLOTS && frame != []
    ensures FramesOk(Enqueue(q, q.Slot(q.count), |frame|, now).0, Enqueued(h, frame), frames + [frame])
  {
    FlatSnoc(frames, frame);
    EnqueueLive(q, q.Slot(q.count), |frame|, now);
    assert q.count == 1 ==> q.Live(0).len == |frames[|frames| - 1]|;
  }

  /** The new part stands behind the live ones, which stay. */
  lemma EnqueueLive(q: Queue, buffer: nat, len: nat, now: nat)
    requires q.Shape() && !q.failed && q.count < SLOTS && len > 0
    ensures var t := Enqueue(q, buffer, len, now).0;
      && t.count == q.count + 1 && t.Live(q.count).len == len && (q.count == 1 ==> t.Live(0) == q.Live(0))
  {
  }

  lemma EndFrameKeeps(s: Session, len: nat, now: nat)
    requires SessionInv(s)
    ensures SessionInv(Next(s, EndFrame(len, now)))
  {
    if s.encoding >= 0 && len <= |s.memory[s.encoding]| && |s.h.stream| - s.h.ackAt + len <= 0x8000_0000
       && !s.q.failed && len > 0 {
      var frame := s.memory[s.encoding][..len];
      EnqueueMeans(s.q, s.h, s.memory, len, now);
      EnqueueFrames(s.q, s.h, s.frames, frame, now);
      LogStays(s.h, Enqueued(s.h, frame), s.log);
    }
  }

  lemma BeginFrameKeeps(s: Session)
    requires SessionInv(s)
    ensures SessionInv(Next(s, BeginFrame))
  {
    if s.encoding == -1 && !s.q.failed && s.q.count == SLOTS && DropTail(s.q).1 {
      DropTailMeans(s.q, s.h, s.memory);
      var t, h := DropTail(s.q).0, Dropped(s.h, s.q.Live(1).len);
      var frames := s.frames[..|s.frames| - 1];
      assert h.stream == Flat(frames);
      assert t.Live(0) == s.q.Live(0);
      assert FramesOk(t, h, frames);
      LogStays(s.h, h, s.log);
    }
  }

  lemma NextKeeps(s: Session, e: Event)
    requires SessionInv(s)
    ensures SessionInv(Next(s, e))
  {
    match e
    case Packet(ack, window) => PacketKeeps(s, ack, window);
    case PollNow(peerMss, now, accepts) => PollKeeps(s, peerMss, now, accepts);
    case BeginFrame => BeginFrameKeeps(s);
    case Encode(bytes) => EncodeKeeps(s, bytes);
    case EndFrame(len, now) => EndFrameKeeps(s, len, now);
    case AbandonFrame =>
    case Disconnect =>
      TouchMeans(s.q, s.q.(open := false), s.h, s.memory);
      assert forall i :: 0 <= i < s.q.count ==> Next(s, e).q.Live(i) == s.q.Live(i);
  }

  ghost function Run(s: Session, events: seq<Event>): Session
    requires SessionInv(s)
    decreases |events|
  {
    if events == [] then s
    else
      NextKeeps(s, events[0]);
      Run(Next(s, events[0]), events[1..])
  }

  lemma {:induction false} RunKeeps(s: Session, events: seq<Event>)
    requires SessionInv(s)
    ensures SessionInv(Run(s, events))
    decreases |events|
  {
    if events != [] {
      NextKeeps(s, events[0]);
      RunKeeps(Next(s, events[0]), events[1..]);
    }
  }

  /** A poll trips neither consistency test, and new bytes stay inside both windows. */
  ghost predicate Sound(s: Session, e: Event)
    requires SessionInv(s)
  {
    e.PollNow? ==>
      var outcome := Poll(s.q, s.memory, e.peerMss, e.now, BATCH, e.accepts).2;
      var h := Next(s, e).h;
      && outcome != BadAck && outcome != BadPosition
      && (h.sent > s.h.sent ==> h.sent - h.ackAt <= Min(s.q.peerWindow, WINDOW))
  }

  ghost predicate AllSound(s: Session, events: seq<Event>)
    requires SessionInv(s)
    decreases |events|
  {
    events == [] || (Sound(s, events[0]) && (NextKeeps(s, events[0]); AllSound(Next(s, events[0]), events[1..])))
  }

  lemma IsSound(s: Session, e: Event)
    requires SessionInv(s)
    ensures Sound(s, e)
  {
    if e.PollNow? {
      PollMeans(s.q, s.h, s.memory, e.peerMss, e.now, BATCH, e.accepts);
    }
  }

  lemma {:induction false} RunSound(s: Session, events: seq<Event>)
    requires SessionInv(s)
    ensures AllSound(s, events)
    decreases |events|
  {
    if events != [] {
      IsSound(s, events[0]);
      NextKeeps(s, events[0]);
      RunSound(Next(s, events[0]), events[1..]);
    }
  }

  function Fresh(q: Queue, memory: seq<seq<byte>>): Session {
    Session(q, History(q.seqNum, [], 0, 0, 0), memory, -1, [], [])
  }

  /** For every run: the bytes numbered are the undropped parts in order; whatever was sent, first or
      again, is the stream's bytes under the stream's numbers; the buffer being encoded belongs to no
      live part; and no poll of the run trips a consistency test or sends new bytes past a window. */
  lemma TransmissionIsFaithful(seqNum: nat, txAcked: nat, window: nat, now: nat, memory: seq<seq<byte>>, events: seq<Event>)
    requires seqNum < TWO_32 && |memory| == SLOTS && Init(seqNum, txAcked, window, now).Some?
    ensures var s := Fresh(Init(seqNum, txAcked, window, now).value, memory);
      SessionInv(s) && var t := Run(s, events);
      && SessionInv(t) && t.h.stream == Flat(t.frames) && t.h.sent <= |t.h.stream|
      && LogOk(t.h, t.log) && AllSound(s, events)
      && (forall i :: 0 <= i < t.q.count ==> t.q.Live(i).buffer != t.encoding)
  {
    InitMeans(seqNum, txAcked, window, now, memory);
    var s := Fresh(Init(seqNum, txAcked, window, now).value, memory);
    RunKeeps(s, events);
    RunSound(s, events);
    EncodingIsFree(Run(s, events));
  }

  lemma EncodingIsFree(s: Session)
    requires SessionInv(s)
    ensures forall i :: 0 <= i < s.q.count ==> s.q.Live(i).buffer != s.encoding
  {
    forall i | 0 <= i < s.q.count ensures s.q.Live(i).buffer != s.encoding {
      assert PartOk(s.q, s.h, s.memory, i);
      assert s.q.Slot(i) != s.q.Slot(s.q.count) || s.q.count == SLOTS;
    }
  }

  /** Over a whole run, two packets that cover the same position carry the same byte there, whatever
      was sent, dropped, retried or encoded in between. */
  lemma SameByte(seqNum: nat, txAcked: nat, window: nat, now: nat, memory: seq<seq<byte>>, events: seq<Event>, j: nat, k: nat, at: int)
    requires seqNum < TWO_32 && |memory| == SLOTS && Init(seqNum, txAcked, window, now).Some?
    ensures var s := Fresh(Init(seqNum, txAcked, window, now).value, memory);
      SessionInv(s) && var log := Run(s, events).log;
      Covers(log, j, at) && Covers(log, k, at) ==> log[j].1.data[at - log[j].0] == log[k].1.data[at - log[k].0]
  {
    InitMeans(seqNum, txAcked, window, now, memory);
    var s := Fresh(Init(seqNum, txAcked, window, now).value, memory);
    RunKeeps(s, events);
    var t := Run(s, events);
    if Covers(t.log, j, at) && Covers(t.log, k, at) {
      LoggedByte(t.h, t.log, j, k, at);
    }
  }

  predicate Covers(log: seq<(int, Sent)>, k: nat, at: int) {
    k < |log| && log[k].0 <= at < log[k].0 + |log[k].1.data|
  }

  lemma LoggedByte(h: History, log: seq<(int, Sent)>, j: nat, k: nat, at: int)
    requires LogOk(h, log) && Covers(log, j, at) && Covers(log, k, at)
    ensures log[j].1.data[at - log[j].0] == log[k].1.data[at - log[k].0]
  {
    assert OutAt(h, log[j].1, log[j].0) && OutAt(h, log[k].1, log[k].0);
  }
}
