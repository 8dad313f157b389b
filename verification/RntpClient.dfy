/** A client, its server and everyone else: reads answered from the buffer are current (c/rntp/main.c). */
module RntpClient {
  import opened Bytes
  import opened RntpProtocol
  import opened RntpServer
  import opened RntpSessions
  import opened RntpReadAhead
  import opened RntpTheorems

  /** A request the kernel hands to the client daemon. */
  datatype Pending = Pending(op: nat, id: nat, lba: nat, data: Sector) {
    predicate Fits() { op < 256 && id < TWO_64 && lba < TWO_64 }
  }

  datatype Client = Client(
    hello: nat, waiting: bool, expectedOp: nat, expectedId: nat, expectedLba: nat,
    attached: bool, capsChecked: bool, batchCapable: bool, readCapable: bool, bridge: bool,
    generation: nat, sectors: nat, dataStart: nat, controlId: nat,
    pending: Pending, readCount: nat, cache: Cache)

  /** The one message in flight between the client and the server, if any. */
  datatype Wire = Idle | ToServer(frame: Frame) | ToClient(reply: Frame)

  /** The client is the server's peer `me`; `live` ends with the session on either side. */
  datatype System = System(server: State, me: nat, client: Client, wire: Wire, live: bool)

  /** What the kernel is told: sectors read, starting at lba. */
  datatype Answered = Nothing | ReadDone(lba: nat, run: seq<Sector>)

  datatype Input =
    | Control                                        // capabilities, attach or heartbeat
    | Batch(id: nat, writes: seq<(nat, Sector)>)     // the kernel flushes coalesced writes
    | Ask(pending: Pending)                          // the kernel asks for one operation
    | Retry                                          // a busy LOCK is sent again
    | Receive(oldKernel: bool)
    | ServerTurn
    | OtherPeer(event: Event)
    | Disconnect

  function MakeRequest(op: nat, id: nat, lba: nat, generation: nat, data: seq<byte>): (f: Frame)
    requires op < 256 && id < TWO_64 && lba < TWO_64 && generation < TWO_64 && |data| <= BATCH_BYTES
    ensures Decode(f) == Some(Header(op, 0, |data|, id, lba, generation)) && |f| == HEADER + |data|
  {
    DecodeEncode(Header(op, 0, |data|, id, lba, generation), data);
    Encode(Header(op, 0, |data|, id, lba, generation)) + data
  }

  function DataStart(boot: seq<byte>): nat
    requires |boot| == 512
  {
    LeNumber(boot[14..16]) + boot[16] * LeNumber(boot[22..24]) + (LeNumber(boot[17..19]) * 32 + 511) / 512
  }

  function Start(server: State, me: nat, hello: nat, bridge: bool): System
    requires hello == HELLO || hello == HELLO_SHARED
  {
    var c := Client(hello, true, hello, 1, 0, false, false, false, false, bridge, 0, 0, 0, 1,
                    Pending(0, 0, 0, seq(512, _ => 0)), 0, NO_CACHE);
    System(server, me, c, ToServer(MakeRequest(hello, 1, 0, 0, [])), true)
  }

  function Quit(s: System): (System, Answered) { (s.(live := false), Nothing) }

  /** The client issues a request and waits for its reply. */
  function Issue(s: System, c: Client, op: nat, id: nat, lba: nat, payload: seq<byte>): System
    requires op < 256 && id < TWO_64 && lba < TWO_64 && c.generation < TWO_64 && |payload| <= BATCH_BYTES
  {
    s.(client := c.(waiting := true, expectedOp := op, expectedId := id, expectedLba := lba),
       wire := ToServer(MakeRequest(op, id, lba, c.generation, payload)))
  }

  function Records(writes: seq<(nat, Sector)>): (r: seq<byte>)
    ensures |r| == |writes| * 520
  {
    if writes == [] then []
    else Records(writes[..|writes| - 1]) + PutNumber(writes[|writes| - 1].0, 8) + writes[|writes| - 1].1
  }

  function AskKernel(s: System, p: Pending): (System, Answered)
    requires p.Fits() && s.client.generation < TWO_64
  {
    var c := s.client.(pending := p);
    if p.op == READ && c.cache.Get(p.lba).Some? then
      (s.(client := c), ReadDone(p.lba, [c.cache.Get(p.lba).value]))
    else
      var d := if p.op != READ then c.(cache := c.cache.Clear()) else c;
      if p.op == READ && d.readCapable then
        var count := Count(p.lba, d.sectors, d.dataStart);
        if count == 0 then Quit(s)
        else (Issue(s, d.(readCount := count), READ_BATCH, p.id, p.lba, PutNumber(count, 4)), Nothing)
      else (Issue(s, d, p.op, p.id, p.lba, if p.op == WRITE then p.data else []), Nothing)
  }

  /** A whole run of sectors arrives: the kernel takes it all, or the buffer keeps it for later reads. */
  function TakeBatch(s: System, payload: seq<byte>): (System, Answered) {
    var c := s.client.(waiting := false);
    var stored := Stored(c.expectedLba, c.sectors, c.readCount, payload);
    if c.pending.op != READ || stored.None? then Quit(s)
    else if c.bridge then
      (s.(wire := Idle, client := c.(cache := stored.value.Clear())), ReadDone(c.pending.lba, stored.value.run))
    else if stored.value.Get(c.pending.lba).None? then Quit(s)
    else
      (s.(wire := Idle, client := c.(cache := stored.value)),
       ReadDone(c.pending.lba, [stored.value.Get(c.pending.lba).value]))
  }

  /** What the client learns from a positive reply that carries no file data; nothing when it is malformed. */
  function Learn(client: Client, h: Header, payload: seq<byte>, oldKernel: bool): (r: Option<Client>)
    requires |payload| == h.length
    ensures r.Some? ==> !r.value.waiting && r.value.cache == client.cache && r.value.expectedOp == client.expectedOp
  {
    var c := client.(waiting := false);
    if c.expectedOp == c.hello then
      if h.length != 512 || h.generation == 0 || h.lba == 0 || h.lba > MAX_SECTORS then None
      else Some(c.(generation := h.generation, sectors := h.lba, dataStart := DataStart(payload)))
    else if c.expectedOp == CAPS then
      if h.length != 8 then None
      else
        var caps := GetNumber(payload);
        if c.hello == HELLO_SHARED && caps % 4 != 3 then None
        else Some(c.(batchCapable := caps % 2 == 1, readCapable := caps / 4 % 2 == 1, capsChecked := true))
    else if c.expectedOp == STAT then
      if h.length != STAT_BYTES then None
      else
        // A kernel without the batch bridge attaches an exclusive mount without it.
        Some(c.(attached := true,
                batchCapable := c.batchCapable && (c.attached || c.hello == HELLO_SHARED || !oldKernel)))
    else if h.length != (if c.expectedOp in {LOCK, UNLOCK, ABORT} then 8 else 0) then None
    else Some(c)
  }

  /** The client takes the reply in; status, identity and length were checked by the caller. */
  function TakeReply(s: System, h: Header, payload: seq<byte>, oldKernel: bool): (System, Answered)
    requires |payload| == h.length
  {
    if s.client.expectedOp == READ_BATCH then TakeBatch(s, payload)
    else if s.client.expectedOp == READ then
      if h.length != 512 then Quit(s)
      else (s.(wire := Idle, client := s.client.(waiting := false)), ReadDone(s.client.pending.lba, [payload]))
    else
      match Learn(s.client, h, payload, oldKernel)
      case None => Quit(s)
      case Some(c) => (s.(wire := Idle, client := c), Nothing)
  }

  function ReceiveReply(s: System, reply: Frame, oldKernel: bool): (System, Answered) {
    var c := s.client;
    match Decode(reply)
    case None => Quit(s)
    case Some(h) =>
      if h.id != c.expectedId || c.expectedOp >= 256 || h.op != Response(c.expectedOp)
         || (c.expectedOp != c.hello && (h.generation != c.generation || h.lba != c.expectedLba)) then Quit(s)
      else if h.status != 0 then
        if c.expectedOp == LOCK && h.status == BUSY && h.length == 0 then (s.(wire := Idle), Nothing) else Quit(s)
      else TakeReply(s, h, reply[HEADER..HEADER + h.length], oldKernel)
  }

  predicate Ready(s: System) {
    s.live && !s.client.waiting && s.wire.Idle? && 0 < s.client.generation < TWO_64
  }

  /** CAPS before the disk is attached, STAT afterwards. */
  function AskFigures(s: System): System
    requires Ready(s)
  {
    var c := s.client;
    var id := (c.controlId + 1) % TWO_64;
    Issue(s, c.(controlId := id), if !c.attached && !c.capsChecked then CAPS else STAT, id, 0, [])
  }

  function IssueBatch(s: System, id: nat, writes: seq<(nat, Sector)>): System
    requires Ready(s) && id < TWO_64 && |writes| <= MAX_WRITES
  {
    var c := s.client;
    Issue(s, c.(cache := c.cache.Clear()), WRITE_BATCH, id, 0, PutNumber(|writes|, 4) + Records(writes))
  }

  /** One step of the whole system; a step whose guard fails does nothing. */
  function Next(s: System, i: Input): (System, Answered)
    requires s.server.Shape()
  {
    var c := s.client;
    match i
    case Control =>
      if !Ready(s) then (s, Nothing) else (AskFigures(s), Nothing)
    case Batch(id, writes) =>
      if !Ready(s) || !c.attached || !c.batchCapable || id >= TWO_64 then (s, Nothing)
      else if |writes| == 0 || |writes| > MAX_WRITES then Quit(s)
      else (IssueBatch(s, id, writes), Nothing)
    case Ask(p) =>
      if !Ready(s) || !c.attached || !p.Fits() then (s, Nothing) else AskKernel(s, p)
    case Retry =>
      if !s.live || !c.waiting || !s.wire.Idle? || c.expectedOp != LOCK
         || c.expectedId >= TWO_64 || c.generation >= TWO_64 then (s, Nothing)
      else (s.(wire := ToServer(MakeRequest(LOCK, c.expectedId, 0, c.generation, []))), Nothing)
    case Receive(oldKernel) =>
      if !s.live || !c.waiting || !s.wire.ToClient? then (s, Nothing) else ReceiveReply(s, s.wire.reply, oldKernel)
    case ServerTurn =>
      if !s.live || !s.wire.ToServer? then (s, Nothing)
      else
        var (server, reply) := Serve(s.server, s.me, s.wire.frame);
        if Complete(reply) then (s.(server := server, wire := ToClient(reply)), Nothing)
        else Quit(s.(server := Drop(server, s.me)))
    case OtherPeer(e) =>
      if e.peer == s.me then (s, Nothing) else (s.(server := Step(s.server, e).0), Nothing)
    case Disconnect => Quit(s.(server := Drop(s.server, s.me)))
  }

  // ---------- Coherence ----------

  ghost predicate Owner(s: State, me: nat) { s.locked == me || s.legacy == me }

  ghost predicate Current(image: Image, lba: nat, run: seq<Sector>) {
    lba + |run| <= |image| && forall k :: 0 <= k < |run| ==> image[lba + k] == run[k]
  }

  /** Operations that leave the server's state alone when the lock owner sends them. */
  predicate Mild(op: nat) { op !in {WRITE, WRITE_BATCH, LOCK, UNLOCK, ABORT} }

  predicate Reads(op: nat) { op == READ || op == READ_BATCH }

  /** A positive reply to a read holds exactly the image's sectors, and its reader owns them. */
  ghost predicate FreshReply(server: State, me: nat, lba: nat, op: nat, reply: Frame)
    requires op < 256
  {
    Decode(reply).Some? ==>
      var h := Decode(reply).value;
      h.op == Response(op) && h.status == OK ==>
        && Owner(server, me) && h.length % 512 == 0
        && Current(server.image, lba, Blocks(reply[HEADER..HEADER + h.length]))
  }

  ghost predicate SysInv(s: System) {
    && Inv(s.server) && s.me < PEERS
    && (s.live ==>
        var c := s.client;
        && c.expectedOp < 256
        && (c.cache.run != [] ==> Owner(s.server, s.me) && Current(s.server.image, c.cache.lba, c.cache.run))
        && (c.cache.run != [] && c.waiting ==> Mild(c.expectedOp))
        && (!s.wire.Idle? ==> c.waiting)
        && (c.waiting && Reads(c.expectedOp) ==> c.expectedLba == c.pending.lba)
        && (s.wire.ToServer? ==>
              Decode(s.wire.frame).Some? && var h := Decode(s.wire.frame).value;
              h.op == c.expectedOp && (Reads(h.op) ==> h.lba == c.expectedLba))
        && (s.wire.ToClient? && Reads(c.expectedOp) ==>
              FreshReply(s.server, s.me, c.expectedLba, c.expectedOp, s.wire.reply)))
  }

  /** Nobody else's event touches what an owner reads, or its ownership. */
  lemma OthersLeaveOwner(s: State, me: nat, e: Event)
    requires Inv(s) && Owner(s, me) && me < PEERS && e.peer != me
    ensures var t := Step(s, e).0; t.image == s.image && Owner(t, me)
  {
    if s.locked == me {
      OthersSeeCommitted(s, s, e);
    }
  }

  /** The owner's mild requests leave the server exactly as it was. */
  lemma MildLeavesServer(s: State, me: nat, frame: Frame)
    requires Inv(s) && Owner(s, me) && me < PEERS
    requires Decode(frame).Some? && Mild(Decode(frame).value.op)
    ensures Serve(s, me, frame).0 == s
  {
    var h := Decode(frame).value;
    if Admitted(s, me, frame) && h.op != HELLO && h.op != HELLO_SHARED {
      DirectBlockEffect(s, h, frame);
    }
  }

  lemma {:induction false} SectorsAreBlocks(image: Image, lba: nat, count: nat)
    requires lba + count <= |image|
    ensures Current(image, lba, Blocks(Sectors(image, lba, count)))
  {
    if count > 0 {
      SectorsAreBlocks(image, lba, count - 1);
      BlocksSnoc(Sectors(image, lba, count - 1), image[lba + count - 1]);
    }
  }

  lemma BlocksSnoc(init: seq<byte>, last: Sector)
    requires |init| % 512 == 0
    ensures |init + last| % 512 == 0 && Blocks(init + last) == Blocks(init) + [last]
  {
    var all, n := init + last, |init| / 512;
    assert |all| / 512 == n + 1;
    forall k | 0 <= k < n ensures Blocks(all)[k] == Blocks(init)[k] {
      assert all[k * 512..k * 512 + 512] == init[k * 512..k * 512 + 512];
    }
    assert all[n * 512..n * 512 + 512] == last;
  }

  /** A positive answer to a read comes from the image, and only its owner gets one. */
  lemma AttendRead(s: State, me: nat, h: Header, frame: Frame)
    requires Inv(s) && me < PEERS && Decode(frame) == Some(h) && Reads(h.op)
    ensures Attend(s, me, h, frame).0 == s
    ensures var a := Attend(s, me, h, frame).1;
      && a.status <= STALE && a.lba == h.lba && |a.payload| <= MAX_WRITES * 512
      && (a.status == OK ==>
            Owner(s, me) && |a.payload| % 512 == 0 && Current(s.image, h.lba, Blocks(a.payload)))
  {
    if Admitted(s, me, frame) && Attend(s, me, h, frame).1.status == OK {
      if h.op == READ {
        assert Sectors(s.image, h.lba, 1) == Sectors(s.image, h.lba, 0) + s.image[h.lba] == s.image[h.lba];
        SectorsAreBlocks(s.image, h.lba, 1);
      } else {
        SectorsAreBlocks(s.image, h.lba, BatchCount(h, frame));
      }
    }
  }

  lemma ServeRead(s: State, me: nat, frame: Frame)
    requires Inv(s) && me < PEERS && Decode(frame).Some? && Reads(Decode(frame).value.op)
    ensures var (t, reply) := Serve(s, me, frame);
      t == s && (Complete(reply) ==> FreshReply(s, me, Decode(frame).value.lba, Decode(frame).value.op, reply))
  {
    var h := Decode(frame).value;
    AttendRead(s, me, h, frame);
    var (t, reply) := Serve(s, me, frame);
    var a := Attend(s, me, h, frame).1;
    if Complete(reply) && Decode(reply).Some? {
      var out := Header(Response(h.op), a.status, |a.payload|, h.id, a.lba, s.generation);
      assert reply == Encode(out) + a.payload;
      ReplyFields(out, a.payload);
      assert reply[HEADER..HEADER + |a.payload|] == a.payload;
    }
  }

  /** Status and length of a reply, whatever generation the server stamps on it. */
  lemma ReplyFields(out: Header, payload: seq<byte>)
    requires out.op < 256 && out.status < TWO_16 && out.length < TWO_32
    requires Decode(Encode(out) + payload).Some?
    ensures var h := Decode(Encode(out) + payload).value; h.status == out.status && h.length == out.length
  {
    EncodeFields(out, payload);
    Widths();
    GetPut(out.status, 2);
    GetPut(out.length, 4);
  }

  /** Issuing a request is safe when the buffer was emptied or the request cannot change the server. */
  lemma IssueKeeps(s: System, c: Client, op: nat, id: nat, lba: nat, payload: seq<byte>)
    requires SysInv(s) && s.live
    requires op < 256 && id < TWO_64 && lba < TWO_64 && c.generation < TWO_64 && |payload| <= BATCH_BYTES
    requires c.cache.run == [] || (Mild(op) && c.cache == s.client.cache)
    requires Reads(op) ==> lba == c.pending.lba
    ensures SysInv(Issue(s, c, op, id, lba, payload))
  {
  }

  lemma AskKeeps(s: System, p: Pending)
    requires SysInv(s) && Ready(s) && p.Fits()
    ensures var (t, a) := AskKernel(s, p);
      SysInv(t) && t.server == s.server && (a.ReadDone? ==> Current(s.server.image, a.lba, a.run))
  {
    var c := s.client.(pending := p);
    if !(p.op == READ && c.cache.Get(p.lba).Some?) {
      var d := if p.op != READ then c.(cache := c.cache.Clear()) else c;
      if p.op == READ && d.readCapable {
        var count := Count(p.lba, d.sectors, d.dataStart);
        IssueKeeps(s, d.(readCount := count), READ_BATCH, p.id, p.lba, PutNumber(count, 4));
      } else {
        IssueKeeps(s, d, p.op, p.id, p.lba, if p.op == WRITE then p.data else []);
      }
    }
  }

  lemma TakeBatchKeeps(s: System, payload: seq<byte>)
    requires SysInv(s) && s.live && s.client.waiting && s.wire.ToClient? && s.client.expectedOp == READ_BATCH
    requires Owner(s.server, s.me) && |payload| % 512 == 0
    requires Current(s.server.image, s.client.expectedLba, Blocks(payload))
    ensures var (t, a) := TakeBatch(s, payload);
      SysInv(t) && t.server == s.server && (a.ReadDone? ==> Current(s.server.image, a.lba, a.run))
  {
  }

  lemma TakeReplyKeeps(s: System, h: Header, reply: Frame, oldKernel: bool)
    requires SysInv(s) && s.live && s.client.waiting && s.wire == ToClient(reply) && Decode(reply) == Some(h)
    requires h.status == OK && h.op == Response(s.client.expectedOp)
    ensures var (t, a) := TakeReply(s, h, reply[HEADER..HEADER + h.length], oldKernel);
      SysInv(t) && t.server == s.server && (a.ReadDone? ==> Current(s.server.image, a.lba, a.run))
  {
    var payload := reply[HEADER..HEADER + h.length];
    var c := s.client;
    if c.expectedOp == READ_BATCH {
      TakeBatchKeeps(s, payload);
    } else if c.expectedOp == READ {
      if h.length == 512 { assert Blocks(payload)[0] == payload; }
    } else {
      LearnKeeps(s, h, payload, oldKernel);
    }
  }

  lemma LearnKeeps(s: System, h: Header, payload: seq<byte>, oldKernel: bool)
    requires SysInv(s) && s.live && |payload| == h.length
    ensures Learn(s.client, h, payload, oldKernel).Some? ==>
      SysInv(s.(wire := Idle, client := Learn(s.client, h, payload, oldKernel).value))
  {
  }

  lemma ReceiveKeeps(s: System, reply: Frame, oldKernel: bool)
    requires SysInv(s) && s.live && s.client.waiting && s.wire == ToClient(reply)
    ensures var (t, a) := ReceiveReply(s, reply, oldKernel);
      SysInv(t) && t.server == s.server && (a.ReadDone? ==> Current(s.server.image, a.lba, a.run))
  {
    if Decode(reply).Some? {
      var h := Decode(reply).value;
      if h.status == OK && h.op == Response(s.client.expectedOp) {
        TakeReplyKeeps(s, h, reply, oldKernel);
      }
    }
  }

  lemma RetryKeeps(s: System)
    requires SysInv(s)
    ensures SysInv(Next(s, Retry).0)
  {
  }

  lemma ServerTurnKeeps(s: System)
    requires SysInv(s) && s.live && s.wire.ToServer?
    ensures SysInv(Next(s, ServerTurn).0)
  {
    var h := Decode(s.wire.frame).value;
    StepEffect(s.server, Request(s.me, s.wire.frame));
    if Reads(h.op) {
      ServeRead(s.server, s.me, s.wire.frame);
    } else if s.client.cache.run != [] {
      MildLeavesServer(s.server, s.me, s.wire.frame);
    }
    DropEffect(Serve(s.server, s.me, s.wire.frame).0, s.me);
  }

  lemma OtherPeerKeeps(s: System, e: Event)
    requires SysInv(s) && e.peer != s.me
    ensures SysInv(s.(server := Step(s.server, e).0))
  {
    StepEffect(s.server, e);
    if Owner(s.server, s.me) {
      OthersLeaveOwner(s.server, s.me, e);
    }
  }

  lemma ControlKeeps(s: System)
    requires SysInv(s) && Ready(s)
    ensures SysInv(AskFigures(s))
  {
    var c := s.client;
    var id := (c.controlId + 1) % TWO_64;
    IssueKeeps(s, c.(controlId := id), if !c.attached && !c.capsChecked then CAPS else STAT, id, 0, []);
  }

  lemma BatchKeeps(s: System, id: nat, writes: seq<(nat, Sector)>)
    requires SysInv(s) && Ready(s) && id < TWO_64 && |writes| <= MAX_WRITES
    ensures SysInv(IssueBatch(s, id, writes))
  {
    var c := s.client;
    IssueKeeps(s, c.(cache := c.cache.Clear()), WRITE_BATCH, id, 0, PutNumber(|writes|, 4) + Records(writes));
  }

  /** Every step keeps the invariant, and whatever the kernel is told was read is what the
      server's image holds at that moment. */
  lemma NextKeeps(s: System, i: Input)
    requires SysInv(s)
    ensures var (t, a) := Next(s, i);
      SysInv(t) && (a.ReadDone? ==> t.server == s.server && Current(s.server.image, a.lba, a.run))
  {
    match i {
      case Control =>
        if Ready(s) { ControlKeeps(s); }
      case Batch(id, writes) =>
        if Ready(s) && id < TWO_64 && |writes| <= MAX_WRITES { BatchKeeps(s, id, writes); }
      case Ask(p) =>
        if Ready(s) && s.client.attached && p.Fits() {
          AskKeeps(s, p);
        }
      case Receive(oldKernel) =>
        if s.live && s.client.waiting && s.wire.ToClient? {
          ReceiveKeeps(s, s.wire.reply, oldKernel);
        }
      case ServerTurn =>
        if s.live && s.wire.ToServer? {
          ServerTurnKeeps(s);
        }
      case OtherPeer(e) =>
        if e.peer != s.me {
          OtherPeerKeeps(s, e);
        }
      case Disconnect =>
        DropEffect(s.server, s.me);
      case Retry =>
        RetryKeeps(s);
    }
  }

  /** Every read completed along the run returned the server's sectors of that moment. */
  ghost predicate ReadsAreCurrent(s: System, run: seq<Input>)
    requires s.server.Shape()
    decreases |run|
  {
    run == [] ||
    (var (t, a) := Next(s, run[0]);
     && (a.ReadDone? ==> Current(s.server.image, a.lba, a.run))
     && t.server.Shape() && ReadsAreCurrent(t, run[1..]))
  }

  lemma {:induction false} RunReadsAreCurrent(s: System, run: seq<Input>)
    requires SysInv(s)
    ensures ReadsAreCurrent(s, run)
    decreases |run|
  {
    if run != [] {
      NextKeeps(s, run[0]);
      RunReadsAreCurrent(Next(s, run[0]).0, run[1..]);
    }
  }

  /** Coherence of the client, both sides ending the session at once (RntpLease has each by itself): from
      the first HELLO, shared or exclusive, with any other peers, any kernel requests and any disconnection,
      no read is ever answered with stale sectors. */
  lemma ReadAheadIsCoherent(server: State, me: nat, hello: nat, bridge: bool, run: seq<Input>)
    requires Inv(server) && me < PEERS && (hello == HELLO || hello == HELLO_SHARED)
    ensures ReadsAreCurrent(Start(server, me, hello, bridge), run)
  {
    RunReadsAreCurrent(Start(server, me, hello, bridge), run);
  }
}
