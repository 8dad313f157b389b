/**
 * What the kernel asks to be written is what the server stores: the bytes of every sector, from the
 * request of the client daemon to the image.
 */
module RntpWrites {
  import opened Bytes
  import opened RntpProtocol
  import opened RntpServer
  import opened RntpSessions
  import opened RntpReadAhead
  import opened RntpTheorems
  import opened RntpClient

  // ---------- Writes and images ----------

  /** No write from k on names the sector. */
  predicate NotNamed(writes: seq<(nat, Sector)>, k: nat, lba: nat) {
    forall j :: k <= j < |writes| ==> writes[j].0 != lba
  }

  /** Every sector holds the data of the last write that names it, or what it held before. */
  ghost predicate Landed(was: Image, now: Image, writes: seq<(nat, Sector)>) {
    && |now| == |was|
    && (forall lba :: 0 <= lba < |was| && NotNamed(writes, 0, lba) ==> now[lba] == was[lba])
    && forall k :: 0 <= k < |writes| && writes[k].0 < |was| && NotNamed(writes, k + 1, writes[k].0)
         ==> now[writes[k].0] == writes[k].1
  }

  /** A sector this peer may write: any of the disk's, but not the boot sector in shared mode. */
  ghost predicate MayWriteAt(server: State, me: nat, lba: nat)
    requires server.Shape() && me < PEERS
  {
    lba < |server.image| && (server.peers[me] == 2 ==> lba > 0)
  }

  ghost predicate MayWrite(server: State, me: nat, writes: seq<(nat, Sector)>)
    requires server.Shape() && me < PEERS
  {
    forall k :: 0 <= k < |writes| ==> MayWriteAt(server, me, writes[k].0)
  }

  // ---------- The records of a batch ----------

  lemma {:induction false} RecordsAt(writes: seq<(nat, Sector)>, i: nat)
    requires i < |writes|
    ensures Records(writes)[520 * i..520 * i + 8] == PutNumber(writes[i].0, 8)
    ensures Records(writes)[520 * i + 8..520 * i + 520] == writes[i].1
  {
    var init := writes[..|writes| - 1];
    var last := writes[|writes| - 1];
    if i < |init| {
      RecordsAt(init, i);
      LongerRecords(Records(init), PutNumber(last.0, 8), last.1, 520 * i);
    } else {
      LastRecord(Records(init), PutNumber(last.0, 8), last.1);
    }
  }

  lemma LongerRecords(records: seq<byte>, number: seq<byte>, data: seq<byte>, at: nat)
    requires at + 520 <= |records|
    ensures (records + number + data)[at..at + 8] == records[at..at + 8]
    ensures (records + number + data)[at + 8..at + 520] == records[at + 8..at + 520]
  {
  }

  lemma LastRecord(records: seq<byte>, number: seq<byte>, data: seq<byte>)
    requires |number| == 8 && |data| == 512
    ensures var all, at := records + number + data, |records|;
      all[at..at + 8] == number && all[at + 8..at + 520] == data
  {
  }

  lemma BehindHeader(head: seq<byte>, count: seq<byte>, records: seq<byte>, at: nat)
    requires |head| == HEADER && |count| == 4 && at + 520 <= |records|
    ensures var f := head + (count + records);
      && f[HEADER..HEADER + 4] == count
      && f[44 + at..44 + at + 8] == records[at..at + 8] && f[44 + at + 8..44 + at + 520] == records[at + 8..at + 520]
  {
  }

  /** A frame that carries these writes as its batch. */
  ghost predicate Carries(frame: seq<byte>, writes: seq<(nat, Sector)>) {
    && |frame| == RecordAt(|writes|)
    && GetNumber(frame[HEADER..HEADER + 4]) == |writes|
    && forall i :: 0 <= i < |writes| ==> RecordLba(frame, i) == writes[i].0 && RecordData(frame, i) == writes[i].1
  }

  lemma BatchCarries(head: seq<byte>, writes: seq<(nat, Sector)>)
    requires |head| == HEADER && 0 < |writes| <= MAX_WRITES && forall k :: 0 <= k < |writes| ==> writes[k].0 < TWO_64
    ensures Carries(head + (PutNumber(|writes|, 4) + Records(writes)), writes)
  {
    var f := head + (PutNumber(|writes|, 4) + Records(writes));
    Widths();
    GetPut(|writes|, 4);
    BehindHeader(head, PutNumber(|writes|, 4), Records(writes), 0);
    forall i | 0 <= i < |writes| ensures RecordLba(f, i) == writes[i].0 && RecordData(f, i) == writes[i].1 {
      RecordCarried(head, PutNumber(|writes|, 4), writes, i);
    }
  }

  lemma RecordCarried(head: seq<byte>, count: seq<byte>, writes: seq<(nat, Sector)>, i: nat)
    requires |head| == HEADER && |count| == 4 && i < |writes| && writes[i].0 < TWO_64
    ensures var f := head + (count + Records(writes));
      |f| == RecordAt(|writes|) && RecordLba(f, i) == writes[i].0 && RecordData(f, i) == writes[i].1
  {
    Widths();
    RecordsAt(writes, i);
    BehindHeader(head, count, Records(writes), 520 * i);
    GetPut(writes[i].0, 8);
  }

  /** Storing the records lands the writes. */
  lemma AppliedLands(image: Image, frame: seq<byte>, writes: seq<(nat, Sector)>)
    requires Carries(frame, writes) && forall k :: 0 <= k < |writes| ==> writes[k].0 < |image|
    ensures RecordsBelow(frame, |writes|, |image|) && Landed(image, ApplyRecords(image, frame, |writes|), writes)
  {
    var n := |writes|;
    forall lba | 0 <= lba < |image| && NotNamed(writes, 0, lba) ensures ApplyRecords(image, frame, n)[lba] == image[lba] {
      ApplyRecordsAt(image, frame, n, lba, -1);
    }
    forall k | 0 <= k < n && NotNamed(writes, k + 1, writes[k].0)
      ensures ApplyRecords(image, frame, n)[writes[k].0] == writes[k].1
    {
      ApplyRecordsAt(image, frame, n, writes[k].0, k);
    }
  }

  // ---------- One batch served ----------

  /** The request that carries the batch. */
  ghost predicate IsBatch(frame: Frame, id: nat, generation: nat, writes: seq<(nat, Sector)>) {
    && Carries(frame, writes) && 0 < |writes| <= MAX_WRITES
    && Decode(frame) == Some(Header(WRITE_BATCH, 0, 4 + 520 * |writes|, id, 0, generation))
  }

  lemma BatchIsShaped(frame: Frame, id: nat, generation: nat, writes: seq<(nat, Sector)>)
    requires IsBatch(frame, id, generation, writes)
    ensures var h := Decode(frame).value;
      && WriteShape(h, frame) && BatchCount(h, frame) == |writes| == |Targets(h, frame)|
      && forall i :: 0 <= i < |writes| ==> Targets(h, frame)[i] == writes[i].0
  {
  }

  /** The peer may write now: the owner of the lock, or the exclusive peer. */
  ghost predicate Writer(s: State, me: nat) {
    Inv(s) && me < PEERS && Owner(s, me) && |s.image| <= MAX_SECTORS && s.generation < TWO_64
  }

  lemma WriterIsPeer(s: State, me: nat)
    requires Writer(s, me)
    ensures (s.peers[me] == 2 && s.locked == me) || (s.peers[me] == 1 && s.legacy == me)
  {
  }

  /** What the session makes of a well-shaped write of the owner. */
  lemma OwnersWrite(s: State, me: nat, h: Header, frame: Frame)
    requires Writer(s, me) && Admitted(s, me, frame) && Decode(frame) == Some(h) && IsWrite(h.op) && WriteShape(h, frame)
    requires AllBelow(Targets(h, frame), |s.image|) && (s.peers[me] == 2 ==> Writable(Targets(h, frame), |s.image|))
    ensures var (t, reply) := Serve(s, me, frame);
      t.image == Written(s.image, h, frame) && t.generation == s.generation && reply == Reply(h, s.generation, Answer(OK, h.lba, []))
  {
    WriterIsPeer(s, me);
    PerformWrite(s.image, s.generation, h, frame);
    if s.peers[me] == 2 {
      RememberAllKeeps(s, Targets(h, frame));
      assert Attend(s, me, h, frame) == SharedWrite(s, h, frame);
    } else {
      assert Attend(s, me, h, frame) == DirectBlock(s, h, frame);
    }
  }

  /** And of one that names a sector the owner may not write. */
  lemma OwnersWriteRefused(s: State, me: nat, h: Header, frame: Frame)
    requires Writer(s, me) && Admitted(s, me, frame) && Decode(frame) == Some(h) && IsWrite(h.op) && WriteShape(h, frame)
    requires !AllBelow(Targets(h, frame), |s.image|) || (s.peers[me] == 2 && !Writable(Targets(h, frame), |s.image|))
    ensures var (t, reply) := Serve(s, me, frame);
      t == s && reply == Reply(h, s.generation, Refusal(h, INVALID))
  {
    WriterIsPeer(s, me);
    if s.peers[me] == 2 {
      assert Attend(s, me, h, frame) == SharedWrite(s, h, frame);
    } else {
      RefusedByProtocol(s.image, s.generation, h, frame);
      assert Attend(s, me, h, frame) == DirectBlock(s, h, frame);
    }
  }

  lemma RefusedByProtocol(image: Image, generation: nat, h: Header, frame: Frame)
    requires Decode(frame) == Some(h) && h.id != 0 && h.status == 0 && h.op < RESPONSE && h.generation == generation
    requires |image| > 0 && IsWrite(h.op) && WriteShape(h, frame) && !AllBelow(Targets(h, frame), |image|)
    ensures Perform(image, generation, true, h, frame) == (image, Refusal(h, INVALID))
  {
    if h.op == WRITE {
      assert Targets(h, frame) == [h.lba];
    } else {
      RecordTargets(h, frame, |image|);
    }
  }

  /** A batch that the owner may write lands whole; any other changes nothing and is refused. */
  lemma BatchServed(s: State, me: nat, frame: Frame, id: nat, writes: seq<(nat, Sector)>)
    requires Writer(s, me) && IsBatch(frame, id, s.generation, writes) && 0 < id < TWO_64
    ensures var (t, reply) := Serve(s, me, frame);
      && Decode(reply) == Some(Header(Response(WRITE_BATCH), if MayWrite(s, me, writes) then OK else INVALID, 0, id, 0, s.generation))
      && |reply| == HEADER && t.generation == s.generation
      && (if MayWrite(s, me, writes) then Landed(s.image, t.image, writes) else t == s)
  {
    var h := Decode(frame).value;
    WriterIsPeer(s, me);
    BatchIsShaped(frame, id, s.generation, writes);
    DecodeEncode(Header(Response(WRITE_BATCH), OK, 0, id, 0, s.generation), []);
    DecodeEncode(Header(Response(WRITE_BATCH), INVALID, 0, id, 0, s.generation), []);
    assert MayWrite(s, me, writes) <==>
      AllBelow(Targets(h, frame), |s.image|) && (s.peers[me] == 2 ==> Writable(Targets(h, frame), |s.image|));
    if MayWrite(s, me, writes) {
      OwnersWrite(s, me, h, frame);
      AppliedLands(s.image, frame, writes);
    } else {
      OwnersWriteRefused(s, me, h, frame);
    }
  }

  // ---------- One sector written ----------

  /** The request that carries one sector. */
  ghost predicate IsOneWrite(frame: Frame, id: nat, generation: nat, lba: nat, data: Sector) {
    && |frame| == HEADER + SECTOR && frame[HEADER..HEADER + SECTOR] == data
    && Decode(frame) == Some(Header(WRITE, 0, SECTOR, id, lba, generation))
  }

  lemma WriteServed(s: State, me: nat, frame: Frame, id: nat, lba: nat, data: Sector)
    requires Writer(s, me) && 0 < id < TWO_64 && lba < TWO_64
    requires IsOneWrite(frame, id, s.generation, lba, data)
    ensures var (t, reply) := Serve(s, me, frame);
      && Decode(reply) == Some(Header(Response(WRITE), if MayWriteAt(s, me, lba) then OK else INVALID, 0, id, lba, s.generation))
      && |reply| == HEADER && t.generation == s.generation
      && (if MayWriteAt(s, me, lba) then t.image == s.image[lba := data] else t == s)
  {
    var h := Decode(frame).value;
    WriterIsPeer(s, me);
    assert Targets(h, frame) == [lba];
    DecodeEncode(Header(Response(WRITE), OK, 0, id, lba, s.generation), []);
    DecodeEncode(Header(Response(WRITE), INVALID, 0, id, lba, s.generation), []);
    if MayWriteAt(s, me, lba) {
      assert Targets(h, frame)[0] == lba;
      OwnersWrite(s, me, h, frame);
    } else {
      assert Targets(h, frame)[0] == lba;
      OwnersWriteRefused(s, me, h, frame);
    }
  }

  // ---------- From the kernel to the image ----------

  /** The client knows the generation of the disk it is attached to; every reply bears it. */
  ghost predicate Knows(s: System) {
    && 0 < s.server.generation < TWO_64 && (s.client.hello == HELLO || s.client.hello == HELLO_SHARED)
    && (s.client.generation == 0 || s.client.generation == s.server.generation)
    && (s.wire.ToClient? && Decode(s.wire.reply).Some? ==> Decode(s.wire.reply).value.generation == s.server.generation)
  }

  lemma ReplyBearsGeneration(s: State, me: nat, frame: Frame)
    requires s.Shape() && 0 < s.generation < TWO_64 && |Serve(s, me, frame).1| >= HEADER && Decode(Serve(s, me, frame).1).Some?
    ensures Decode(Serve(s, me, frame).1).value.generation == s.generation
  {
    var h := Decode(frame).value;
    var a := Attend(s, me, h, frame).1;
    var out := Header(Response(h.op), a.status, |a.payload|, h.id, a.lba, s.generation);
    EncodeFields(out, a.payload);
    Widths();
    GetPut(s.generation, 8);
  }

  /** The client that may write, as far as the kernel's next write is concerned. */
  ghost predicate MayAsk(s: System) {
    SysInv(s) && Knows(s) && Ready(s) && s.client.attached && Writer(s.server, s.me)
  }

  ghost predicate Encodable(id: nat, writes: seq<(nat, Sector)>) {
    0 < id < TWO_64 && 0 < |writes| <= MAX_WRITES && forall k :: 0 <= k < |writes| ==> writes[k].0 < TWO_64
  }

  lemma IssuedCarries(s: System, id: nat, writes: seq<(nat, Sector)>)
    requires MayAsk(s) && s.client.batchCapable && Encodable(id, writes)
    ensures var t := RntpClient.Next(s, Batch(id, writes)).0;
      && t.live && t.server == s.server && t.me == s.me && t.wire.ToServer? && IsBatch(t.wire.frame, id, s.server.generation, writes)
      && t.client.waiting && t.client.expectedOp == WRITE_BATCH && t.client.expectedId == id && t.client.expectedLba == 0
      && t.client.hello == s.client.hello && t.client.generation == s.client.generation
  {
    IssuedFrame(s, id, writes);
    assert RntpClient.Next(s, Batch(id, writes)).0 == IssueBatch(s, id, writes);
  }

  lemma IssuedFrame(s: System, id: nat, writes: seq<(nat, Sector)>)
    requires Ready(s) && Encodable(id, writes)
    ensures var t := IssueBatch(s, id, writes);
      t.wire.ToServer? && IsBatch(t.wire.frame, id, s.client.generation, writes)
  {
    var payload := PutNumber(|writes|, 4) + Records(writes);
    RequestIs(WRITE_BATCH, id, 0, s.client.generation, payload);
    BatchCarries(Encode(Header(WRITE_BATCH, 0, |payload|, id, 0, s.client.generation)), writes);
  }

  lemma RequestIs(op: nat, id: nat, lba: nat, generation: nat, data: seq<byte>)
    requires op < 256 && id < TWO_64 && lba < TWO_64 && generation < TWO_64 && |data| <= BATCH_BYTES
    ensures MakeRequest(op, id, lba, generation, data) == Encode(Header(op, 0, |data|, id, lba, generation)) + data
  {
  }

  /** The reply to the request under way, taken in. */
  lemma ReplyEndsWrite(t: System, oldKernel: bool, h: Header)
    requires t.server.Shape() && t.live && t.client.waiting && t.wire.ToClient? && Decode(t.wire.reply) == Some(h)
    requires t.client.expectedOp == WRITE_BATCH || t.client.expectedOp == WRITE
    requires t.client.hello == HELLO || t.client.hello == HELLO_SHARED
    requires h.op == Response(t.client.expectedOp) && h.id == t.client.expectedId && h.lba == t.client.expectedLba
    requires h.generation == t.client.generation && h.length == 0
    ensures var u := RntpClient.Next(t, Receive(oldKernel)).0;
      u.server == t.server && (if h.status == OK then u.live && !u.client.waiting else !u.live)
  {
  }

  /** The server's turn at a batch under way. */
  lemma TurnLands(t: System, id: nat, writes: seq<(nat, Sector)>)
    requires t.live && t.wire.ToServer? && Writer(t.server, t.me) && 0 < id < TWO_64
    requires IsBatch(t.wire.frame, id, t.server.generation, writes)
    ensures var u := RntpClient.Next(t, ServerTurn).0;
      && u.live && u.client == t.client && u.me == t.me && u.wire.ToClient?
      && Decode(u.wire.reply) == Some(Header(Response(WRITE_BATCH), if MayWrite(t.server, t.me, writes) then OK else INVALID, 0, id, 0, t.server.generation))
      && u.server.Shape()
      && (if MayWrite(t.server, t.me, writes) then Landed(t.server.image, u.server.image, writes) else u.server == t.server)
  {
    BatchServed(t.server, t.me, t.wire.frame, id, writes);
  }

  /**
   * What the kernel asks to be written is what the server stores: when the sectors may be written, each holds
   * the data of the last write that names it and the batch is reported complete; otherwise nothing changes and
   * the client gives the session up.
   */
  lemma BatchLands(s: System, id: nat, writes: seq<(nat, Sector)>, oldKernel: bool)
    requires MayAsk(s) && s.client.batchCapable && Encodable(id, writes)
    ensures var t := RntpClient.Next(s, Batch(id, writes)).0;
      t.server.Shape() && var u := RntpClient.Next(t, ServerTurn).0;
      && u.live && u.wire.ToClient? && Decode(u.wire.reply).Some? && u.server.Shape()
      && var v := RntpClient.Next(u, Receive(oldKernel)).0;
      && v.server == u.server
      && if MayWrite(s.server, s.me, writes) then
           Decode(u.wire.reply).value.status == OK && Landed(s.server.image, v.server.image, writes) && v.live && !v.client.waiting
         else Decode(u.wire.reply).value.status == INVALID && v.server.image == s.server.image && !v.live
  {
    IssuedCarries(s, id, writes);
    var t := RntpClient.Next(s, Batch(id, writes)).0;
    TurnLands(t, id, writes);
    var u := RntpClient.Next(t, ServerTurn).0;
    ReplyEndsWrite(u, oldKernel, Decode(u.wire.reply).value);
  }

  lemma IssuedWrite(s: System, p: Pending)
    requires MayAsk(s) && p.Fits() && p.op == WRITE && p.id > 0
    ensures var t := RntpClient.Next(s, Ask(p)).0;
      && t.live && t.server == s.server && t.me == s.me && t.wire.ToServer?
      && IsOneWrite(t.wire.frame, p.id, s.server.generation, p.lba, p.data)
      && t.client.waiting && t.client.expectedOp == WRITE && t.client.expectedId == p.id && t.client.expectedLba == p.lba
      && t.client.hello == s.client.hello && t.client.generation == s.client.generation
  {
    var head := Encode(Header(WRITE, 0, SECTOR, p.id, p.lba, s.client.generation));
    assert (head + p.data)[HEADER..HEADER + SECTOR] == p.data;
  }

  /** The same for one sector. */
  lemma WriteLands(s: System, p: Pending, oldKernel: bool)
    requires MayAsk(s) && p.Fits() && p.op == WRITE && p.id > 0
    ensures var t := RntpClient.Next(s, Ask(p)).0;
      t.server.Shape() && var u := RntpClient.Next(t, ServerTurn).0;
      && u.live && u.wire.ToClient? && Decode(u.wire.reply).Some? && u.server.Shape()
      && var v := RntpClient.Next(u, Receive(oldKernel)).0;
      && v.server == u.server
      && if MayWriteAt(s.server, s.me, p.lba) then
           && Decode(u.wire.reply).value.status == OK
           && v.server.image == s.server.image[p.lba := p.data] && v.live && !v.client.waiting
         else Decode(u.wire.reply).value.status == INVALID && v.server.image == s.server.image && !v.live
  {
    IssuedWrite(s, p);
    var t := RntpClient.Next(s, Ask(p)).0;
    WriteServed(t.server, t.me, t.wire.frame, p.id, p.lba, p.data);
    var u := RntpClient.Next(t, ServerTurn).0;
    ReplyEndsWrite(u, oldKernel, Decode(u.wire.reply).value);
  }

  // ---------- The client knows the disk's generation on every run ----------

  lemma NextKnows(s: System, i: Input)
    requires SysInv(s) && Knows(s)
    ensures Knows(RntpClient.Next(s, i).0)
  {
    match i {
      case ServerTurn =>
        if s.live && s.wire.ToServer? { TurnKnows(s); }
      case OtherPeer(e) => StepEffect(s.server, e);
      case Disconnect => DropEffect(s.server, s.me);
      case Receive(oldKernel) =>
        if s.live && s.client.waiting && s.wire.ToClient? { ReceiptKnows(s, oldKernel); }
      case _ => IssueKnows(s, i);
    }
  }

  /** What the client issues leaves its knowledge alone. */
  lemma IssueKnows(s: System, i: Input)
    requires s.server.Shape() && Knows(s) && (i.Control? || i.Batch? || i.Ask? || i.Retry?)
    ensures Knows(RntpClient.Next(s, i).0)
  {
  }

  lemma ReceiptKnows(s: System, oldKernel: bool)
    requires s.server.Shape() && Knows(s) && s.live && s.client.waiting && s.wire.ToClient?
    ensures Knows(ReceiveReply(s, s.wire.reply, oldKernel).0)
  {
    if Decode(s.wire.reply).Some? {
      var h := Decode(s.wire.reply).value;
      var payload := s.wire.reply[HEADER..HEADER + h.length];
      LearnsGeneration(s.client, h, payload, oldKernel);
      TakingKnows(s, h, payload, oldKernel);
    }
  }

  lemma LearnsGeneration(client: Client, h: Header, payload: seq<byte>, oldKernel: bool)
    requires |payload| == h.length
    ensures Learn(client, h, payload, oldKernel).Some? ==>
      var c := Learn(client, h, payload, oldKernel).value;
      c.hello == client.hello && (c.generation == client.generation || c.generation == h.generation)
  {
  }

  lemma TakingKnows(s: System, h: Header, payload: seq<byte>, oldKernel: bool)
    requires s.server.Shape() && Knows(s) && |payload| == h.length && h.generation == s.server.generation
    requires Learn(s.client, h, payload, oldKernel).Some? ==>
      var c := Learn(s.client, h, payload, oldKernel).value;
      c.hello == s.client.hello && (c.generation == s.client.generation || c.generation == h.generation)
    ensures Knows(TakeReply(s, h, payload, oldKernel).0)
  {
    if s.client.expectedOp == READ_BATCH {
      BatchKnows(s, payload);
    }
  }

  lemma BatchKnows(s: System, payload: seq<byte>)
    requires s.server.Shape() && Knows(s)
    ensures Knows(TakeBatch(s, payload).0)
  {
  }

  lemma TurnKnows(s: System)
    requires SysInv(s) && Knows(s) && s.live && s.wire.ToServer?
    ensures Knows(RntpClient.Next(s, ServerTurn).0)
  {
    StepEffect(s.server, Request(s.me, s.wire.frame));
    var (server, reply) := Serve(s.server, s.me, s.wire.frame);
    if Complete(reply) {
      assert RntpClient.Next(s, ServerTurn).0 == s.(server := server, wire := ToClient(reply));
      if Decode(reply).Some? {
        ReplyBearsGeneration(s.server, s.me, s.wire.frame);
      }
    } else {
      DropEffect(server, s.me);
    }
  }

  lemma StartKnows(server: State, me: nat, hello: nat, bridge: bool)
    requires 0 < server.generation < TWO_64 && (hello == HELLO || hello == HELLO_SHARED)
    ensures Knows(Start(server, me, hello, bridge))
  {
  }
}
