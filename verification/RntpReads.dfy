/** A read the kernel asks for is answered, with the sector the server holds (c/rntp/main.c). */
module RntpReads {
  import opened Bytes
  import opened RntpProtocol
  import opened RntpServer
  import opened RntpSessions
  import opened RntpReadAhead
  import opened RntpClient
  import opened RntpWrites

  /** The kernel is told this sector. */
  predicate Tells(a: Answered, lba: nat, data: Sector) {
    a.ReadDone? && a.lba <= lba < a.lba + |a.run| && a.run[lba - a.lba] == data
  }

  /** The client knows how many sectors the disk has. */
  ghost predicate KnowsSize(s: System) {
    && 0 < |s.server.image| <= MAX_SECTORS
    && (s.client.generation != 0 ==> s.client.sectors == |s.server.image|)
    && (s.live && s.client.expectedOp == s.client.hello && s.wire.ToClient? ==> TellsSize(s.wire.reply, |s.server.image|))
  }

  /** A reply to HELLO, when it is positive, tells the size. */
  predicate TellsSize(reply: Frame, size: nat) {
    Decode(reply).Some? && Decode(reply).value.status == OK ==> Decode(reply).value.lba == size
  }

  /** A client that may ask, of a disk whose size it knows. */
  ghost predicate MayRead(s: System, p: Pending) {
    MayAsk(s) && KnowsSize(s) && p.Fits() && p.op == READ && p.id > 0 && p.lba < |s.server.image|
  }

  // ---------- The server's answer ----------

  /** The request for n sectors, one by one or as a batch. */
  ghost predicate AsksFor(frame: Frame, op: nat, id: nat, generation: nat, lba: nat, n: nat) {
    && (op == READ || op == READ_BATCH) && (op == READ ==> n == 1)
    && Decode(frame) == Some(Header(op, 0, if op == READ then 0 else 4, id, lba, generation))
    && (op == READ_BATCH ==> |frame| == HEADER + 4 && GetNumber(frame[HEADER..HEADER + 4]) == n)
  }

  lemma ReadPerformed(s: State, me: nat, frame: Frame, op: nat, id: nat, lba: nat, n: nat)
    requires Writer(s, me) && AsksFor(frame, op, id, s.generation, lba, n) && 0 < id < TWO_64
    requires 0 < n <= MAX_WRITES && lba + n <= |s.image|
    ensures Serve(s, me, frame) == (s, Reply(Decode(frame).value, s.generation, Answer(OK, lba, Sectors(s.image, lba, n))))
  {
    var h := Decode(frame).value;
    WriterIsPeer(s, me);
    OneSector(s.image, lba);
    assert Perform(s.image, s.generation, true, h, frame) == Transfer(s.image, h, frame);
    assert Attend(s, me, h, frame) == DirectBlock(s, h, frame);
  }

  lemma OneSector(image: Image, lba: nat)
    requires lba < |image|
    ensures Sectors(image, lba, 1) == image[lba]
  {
    assert Sectors(image, lba, 1) == Sectors(image, lba, 0) + image[lba] == image[lba];
  }

  /** The reply that carries n sectors. */
  ghost predicate Brings(reply: Frame, op: nat, id: nat, generation: nat, lba: nat, payload: seq<byte>)
    requires op < RESPONSE
  {
    && Decode(reply) == Some(Header(Response(op), OK, |payload|, id, lba, generation))
    && |reply| == HEADER + |payload| && reply[HEADER..HEADER + |payload|] == payload
  }

  lemma ReplyBrings(h: Header, generation: nat, lba: nat, payload: seq<byte>)
    requires h.Fits() && h.op < RESPONSE && generation < TWO_64 && lba < TWO_64 && |payload| <= BATCH_BYTES
    ensures Complete(Reply(h, generation, Answer(OK, lba, payload)))
    ensures Brings(Reply(h, generation, Answer(OK, lba, payload)), h.op, h.id, generation, lba, payload)
  {
    DecodeEncode(Header(Response(h.op), OK, |payload|, h.id, lba, generation), payload);
  }

  lemma TurnBrings(t: System, op: nat, id: nat, lba: nat, n: nat)
    requires t.live && t.wire.ToServer? && Writer(t.server, t.me) && 0 < id < TWO_64
    requires AsksFor(t.wire.frame, op, id, t.server.generation, lba, n) && 0 < n <= MAX_WRITES && lba + n <= |t.server.image|
    ensures var u := RntpClient.Next(t, ServerTurn).0;
      && u.wire.ToClient? && u == t.(wire := u.wire)
      && Brings(u.wire.reply, op, id, t.server.generation, lba, Sectors(t.server.image, lba, n))
  {
    ReadPerformed(t.server, t.me, t.wire.frame, op, id, lba, n);
    ReplyBrings(Decode(t.wire.frame).value, t.server.generation, lba, Sectors(t.server.image, lba, n));
  }

  // ---------- The client takes it in ----------

  /** A client waiting for n sectors from lba on. */
  ghost predicate Awaits(u: System, op: nat, id: nat, p: Pending, n: nat) {
    && u.live && u.client.waiting && u.client.expectedOp == op && (op == READ || op == READ_BATCH)
    && u.client.expectedId == id && u.client.expectedLba == p.lba && u.client.pending == p && p.op == READ
    && (u.client.hello == HELLO || u.client.hello == HELLO_SHARED) && u.client.generation == u.server.generation
    && u.client.sectors == |u.server.image| && p.lba + n <= |u.server.image| && 0 < n <= MAX_WRITES
    && (op == READ ==> n == 1) && (op == READ_BATCH ==> u.client.readCount == n)
  }

  lemma TakenIsTold(u: System, op: nat, id: nat, p: Pending, n: nat, oldKernel: bool)
    requires u.server.Shape() && Awaits(u, op, id, p, n) && u.wire.ToClient?
    requires Brings(u.wire.reply, op, id, u.server.generation, p.lba, Sectors(u.server.image, p.lba, n))
    ensures var (v, a) := RntpClient.Next(u, Receive(oldKernel));
      Tells(a, p.lba, u.server.image[p.lba]) && v.live && !v.client.waiting && v.server == u.server
  {
    var payload := Sectors(u.server.image, p.lba, n);
    SectorsAreBlocks(u.server.image, p.lba, n);
    OneSector(u.server.image, p.lba);
    var h := Decode(u.wire.reply).value;
    assert RntpClient.Next(u, Receive(oldKernel)) == TakeReply(u, h, payload, oldKernel);
    if op == READ_BATCH { RunIsTold(u, p, n, payload); }
  }

  lemma RunIsTold(u: System, p: Pending, n: nat, payload: seq<byte>)
    requires u.server.Shape() && Awaits(u, READ_BATCH, u.client.expectedId, p, n) && |payload| == n * 512
    requires Current(u.server.image, p.lba, Blocks(payload))
    ensures var (v, a) := TakeBatch(u, payload);
      Tells(a, p.lba, u.server.image[p.lba]) && v.live && !v.client.waiting && v.server == u.server
  {
    var run := Blocks(payload);
    assert u.server.image[p.lba + 0] == run[0];
    assert Stored(p.lba, u.client.sectors, n, payload) == Some(Cache(p.lba, run));
  }

  // ---------- From the kernel's request to its answer ----------

  lemma HitIsTold(s: System, p: Pending)
    requires MayRead(s, p) && s.client.cache.Get(p.lba).Some?
    ensures var (t, a) := RntpClient.Next(s, Ask(p));
      Tells(a, p.lba, s.server.image[p.lba]) && t.server == s.server && t.live
  {
  }

  lemma MissIsAsked(s: System, p: Pending) returns (op: nat, n: nat)
    requires MayRead(s, p) && s.client.cache.Get(p.lba).None?
    ensures var (t, a) := RntpClient.Next(s, Ask(p));
      && a == Nothing && t.server == s.server && t.me == s.me && t.wire.ToServer?
      && Awaits(t, op, p.id, p, n) && AsksFor(t.wire.frame, op, p.id, s.server.generation, p.lba, n)
  {
    var c := s.client;
    if c.readCapable {
      op, n := READ_BATCH, Count(p.lba, c.sectors, c.dataStart);
      BatchAsks(p.id, p.lba, c.generation, n);
    } else {
      op, n := READ, 1;
    }
  }

  lemma BatchAsks(id: nat, lba: nat, generation: nat, n: nat)
    requires id < TWO_64 && lba < TWO_64 && generation < TWO_64 && n <= MAX_WRITES
    ensures AsksFor(MakeRequest(READ_BATCH, id, lba, generation, PutNumber(n, 4)), READ_BATCH, id, generation, lba, n)
  {
    RequestIs(READ_BATCH, id, lba, generation, PutNumber(n, 4));
    EncodeFields(Header(READ_BATCH, 0, 4, id, lba, generation), PutNumber(n, 4));
    Widths();
    GetPut(n, 4);
    var frame := MakeRequest(READ_BATCH, id, lba, generation, PutNumber(n, 4));
    assert frame[HEADER..HEADER + 4] == frame[HEADER..];
  }

  /**
   * A read of a client that may ask is answered: at once from the buffer, or by the server's next turn and its reply;
   * either way with the sector the server's image holds, and the client is ready again.
   */
  lemma ReadIsAnswered(s: System, p: Pending, oldKernel: bool)
    requires MayRead(s, p)
    ensures var (t, hit) := RntpClient.Next(s, Ask(p));
      && t.server == s.server && t.live
      && if hit.ReadDone? then Tells(hit, p.lba, s.server.image[p.lba]) && !t.client.waiting
         else
           var u := RntpClient.Next(t, ServerTurn).0;
           u.server == s.server &&
           var (v, a) := RntpClient.Next(u, Receive(oldKernel));
           Tells(a, p.lba, s.server.image[p.lba]) && v.server == s.server && v.live && !v.client.waiting
  {
    if s.client.cache.Get(p.lba).Some? {
      HitIsTold(s, p);
    } else {
      var op, n := MissIsAsked(s, p);
      var t := RntpClient.Next(s, Ask(p)).0;
      TurnBrings(t, op, p.id, p.lba, n);
      TakenIsTold(RntpClient.Next(t, ServerTurn).0, op, p.id, p, n, oldKernel);
    }
  }

  // ---------- The client knows the disk's size on every run ----------

  lemma HelloTellsSize(s: State, me: nat, frame: Frame)
    requires s.Shape() && me < PEERS && Decode(frame).Some? && |s.image| <= MAX_SECTORS
    requires Decode(frame).value.op == HELLO || Decode(frame).value.op == HELLO_SHARED
    requires Complete(Serve(s, me, frame).1)
    ensures TellsSize(Serve(s, me, frame).1, |s.image|)
  {
    var h := Decode(frame).value;
    var a := Attend(s, me, h, frame).1;
    var out := Header(Response(h.op), a.status, |a.payload|, h.id, a.lba, s.generation);
    ReplyLba(out, a.payload);
    if Decode(Encode(out) + a.payload).Some? { ReplyFields(out, a.payload); }
  }

  lemma ReplyLba(out: Header, payload: seq<byte>)
    requires out.op < 256 && out.lba < TWO_64
    ensures Decode(Encode(out) + payload).Some? ==> Decode(Encode(out) + payload).value.lba == out.lba
  {
    EncodeFields(out, payload);
    Widths();
    GetPut(out.lba, 8);
  }

  lemma NextKnowsSize(s: System, i: Input)
    requires SysInv(s) && Knows(s) && KnowsSize(s)
    ensures KnowsSize(RntpClient.Next(s, i).0)
  {
    match i {
      case ServerTurn =>
        if s.live && s.wire.ToServer? { TurnKnowsSize(s); }
      case OtherPeer(e) => StepEffect(s.server, e);
      case Disconnect => DropEffect(s.server, s.me);
      case Receive(oldKernel) =>
        if s.live && s.client.waiting && s.wire.ToClient? { ReceiptKnowsSize(s, oldKernel); }
      case _ => IssueKnowsSize(s, i);
    }
  }

  lemma IssueKnowsSize(s: System, i: Input)
    requires s.server.Shape() && Knows(s) && KnowsSize(s) && (i.Control? || i.Batch? || i.Ask? || i.Retry?)
    ensures KnowsSize(RntpClient.Next(s, i).0)
  {
  }

  lemma ReceiptKnowsSize(s: System, oldKernel: bool)
    requires s.server.Shape() && Knows(s) && KnowsSize(s) && s.live && s.client.waiting && s.wire.ToClient?
    ensures KnowsSize(ReceiveReply(s, s.wire.reply, oldKernel).0)
  {
    if Decode(s.wire.reply).Some? {
      var h := Decode(s.wire.reply).value;
      var payload := s.wire.reply[HEADER..HEADER + h.length];
      if ReceiveReply(s, s.wire.reply, oldKernel) == TakeReply(s, h, payload, oldKernel) && h.status == OK {
        LearnsSize(s.client, h, payload, oldKernel);
        TakingKnowsSize(s, h, payload, oldKernel);
      }
    }
  }

  lemma TakingKnowsSize(s: System, h: Header, payload: seq<byte>, oldKernel: bool)
    requires s.server.Shape() && Knows(s) && KnowsSize(s) && |payload| == h.length
    requires s.client.expectedOp == s.client.hello ==> h.lba == |s.server.image|
    requires Learn(s.client, h, payload, oldKernel).Some? ==>
      var c := Learn(s.client, h, payload, oldKernel).value;
      if s.client.expectedOp == s.client.hello then c.sectors == h.lba else c.sectors == s.client.sectors && c.generation == s.client.generation
    ensures KnowsSize(TakeReply(s, h, payload, oldKernel).0)
  {
    if s.client.expectedOp == READ_BATCH { BatchKnowsSize(s, payload); }
  }

  lemma BatchKnowsSize(s: System, payload: seq<byte>)
    requires s.server.Shape() && KnowsSize(s)
    ensures KnowsSize(TakeBatch(s, payload).0)
  {
  }

  /** A client takes the size from the reply to its HELLO and never changes it. */
  lemma LearnsSize(client: Client, h: Header, payload: seq<byte>, oldKernel: bool)
    requires |payload| == h.length
    ensures Learn(client, h, payload, oldKernel).Some? ==>
      var c := Learn(client, h, payload, oldKernel).value;
      if client.expectedOp == client.hello then c.sectors == h.lba else c.sectors == client.sectors && c.generation == client.generation
  {
  }

  lemma TurnKnowsSize(s: System)
    requires SysInv(s) && Knows(s) && KnowsSize(s) && s.live && s.wire.ToServer?
    ensures KnowsSize(RntpClient.Next(s, ServerTurn).0)
  {
    StepEffect(s.server, Request(s.me, s.wire.frame));
    var (server, reply) := Serve(s.server, s.me, s.wire.frame);
    if Complete(reply) {
      assert RntpClient.Next(s, ServerTurn).0 == s.(server := server, wire := ToClient(reply));
      if s.client.expectedOp == s.client.hello { HelloTellsSize(s.server, s.me, s.wire.frame); }
    } else {
      DropEffect(server, s.me);
    }
  }

  lemma StartKnowsSize(server: State, me: nat, hello: nat, bridge: bool)
    requires 0 < |server.image| <= MAX_SECTORS && (hello == HELLO || hello == HELLO_SHARED)
    ensures KnowsSize(Start(server, me, hello, bridge))
  {
  }

  ghost function Ran(s: System, run: seq<Input>): System
    requires s.server.Shape()
    decreases |run|
  {
    if run == [] then s
    else
      var t := RntpClient.Next(s, run[0]).0;
      if t.server.Shape() then Ran(t, run[1..]) else t
  }

  lemma {:induction false} RunKnows(s: System, run: seq<Input>)
    requires SysInv(s) && Knows(s) && KnowsSize(s)
    ensures SysInv(Ran(s, run)) && Knows(Ran(s, run)) && KnowsSize(Ran(s, run))
    decreases |run|
  {
    if run != [] {
      NextKeeps(s, run[0]);
      NextKnows(s, run[0]);
      NextKnowsSize(s, run[0]);
      RunKnows(RntpClient.Next(s, run[0]).0, run[1..]);
    }
  }

  /** From its first HELLO, whatever happens, a client that knows a generation knows the server's, and its disk's size. */
  lemma ClientKnowsDisk(server: State, me: nat, hello: nat, bridge: bool, run: seq<Input>)
    requires Inv(server) && me < PEERS && (hello == HELLO || hello == HELLO_SHARED)
    requires |server.image| <= MAX_SECTORS && 0 < server.generation < TWO_64
    ensures var s := Ran(Start(server, me, hello, bridge), run); SysInv(s) && Knows(s) && KnowsSize(s)
  {
    StartKnows(server, me, hello, bridge);
    StartKnowsSize(server, me, hello, bridge);
    RunKnows(Start(server, me, hello, bridge), run);
  }
}
