/** A client that is let in attaches the disk, and one that then locks it may read and write (c/rntp/main.c). */
module RntpAttach {
  import opened Bytes
  import opened RntpProtocol
  import opened RntpSessions
  import opened RntpClient
  import opened RntpWrites
  import opened RntpReads

  /** The server would let this peer in. */
  ghost predicate LetsIn(s: State, me: nat, hello: nat) {
    && Inv(s) && me < PEERS && s.peers[me] == 0 && s.legacy < 0 && (hello == HELLO || hello == HELLO_SHARED)
    && (hello == HELLO ==> forall p :: 0 <= p < PEERS ==> s.peers[p] == 0)
    && |s.image| <= MAX_SECTORS && 0 < s.generation < TWO_64
  }

  /** The peer is in, as what it asked to be. */
  ghost predicate IsIn(s: State, t: State, me: nat, hello: nat) {
    && Inv(s) && Inv(t) && me < PEERS && t.image == s.image && t.generation == s.generation && t.locked == s.locked
    && |s.image| <= MAX_SECTORS && 0 < s.generation < TWO_64
    && (if hello == HELLO_SHARED then t.peers[me] == 2 else hello == HELLO && t.peers[me] == 1 && t.legacy == me)
  }

  /** One round: the server answers what was issued, and the client takes the answer in. */
  function Turn(s: System, oldKernel: bool): System
    requires s.server.Shape()
  {
    var t := RntpClient.Next(s, ServerTurn).0;
    if t.server.Shape() then RntpClient.Next(t, Receive(oldKernel)).0 else t
  }

  /** The client has issued this request, without payload. */
  ghost predicate Issued(s: System, op: nat, id: nat, generation: nat) {
    && s.server.Shape() && s.live && s.client.waiting && s.wire.ToServer?
    && Decode(s.wire.frame) == Some(Header(op, 0, 0, id, 0, generation))
    && s.client.expectedOp == op && s.client.expectedId == id && s.client.expectedLba == 0 && s.client.generation == generation
    && (s.client.hello == HELLO || s.client.hello == HELLO_SHARED)
  }

  /** What a round comes to when the server accepts: the client learns from the reply. */
  lemma TurnLearns(s: System, op: nat, id: nat, generation: nat, server: State, lba: nat, payload: seq<byte>, oldKernel: bool)
    requires Issued(s, op, id, generation) && op < RESPONSE && op != READ && op != READ_BATCH && s.me < PEERS
    requires op == s.client.hello || (generation == s.server.generation && lba == 0)
    requires 0 < s.server.generation < TWO_64 && lba < TWO_64 && |payload| <= BATCH_BYTES
    requires Attend(s.server, s.me, Decode(s.wire.frame).value, s.wire.frame) == (server, Answer(OK, lba, payload))
    requires server.Shape()
    ensures var h := Header(Response(op), OK, |payload|, id, lba, s.server.generation);
      Turn(s, oldKernel) == match Learn(s.client, h, payload, oldKernel)
        case None => Quit(RntpClient.Next(s, ServerTurn).0).0
        case Some(c) => s.(server := server, client := c, wire := Idle)
  {
    var h := Decode(s.wire.frame).value;
    ReplyBrings(h, s.server.generation, lba, payload);
    assert Serve(s.server, s.me, s.wire.frame) == (server, Reply(h, s.server.generation, Answer(OK, lba, payload)));
    TakenIsLearned(RntpClient.Next(s, ServerTurn).0, op, id, lba, s.server.generation, payload, oldKernel);
  }

  lemma TakenIsLearned(t: System, op: nat, id: nat, lba: nat, generation: nat, payload: seq<byte>, oldKernel: bool)
    requires t.server.Shape() && t.live && t.client.waiting && t.wire.ToClient? && op < RESPONSE && op != READ && op != READ_BATCH
    requires Brings(t.wire.reply, op, id, generation, lba, payload)
    requires t.client.expectedOp == op && t.client.expectedId == id
    requires op == t.client.hello || (t.client.generation == generation && t.client.expectedLba == lba)
    ensures RntpClient.Next(t, Receive(oldKernel)).0 ==
      match Learn(t.client, Header(Response(op), OK, |payload|, id, lba, generation), payload, oldKernel)
      case None => Quit(t).0
      case Some(c) => t.(client := c, wire := Idle)
  {
    assert RntpClient.Next(t, Receive(oldKernel)) == ReceiveReply(t, t.wire.reply, oldKernel);
  }

  lemma HelloIsIssued(server: State, me: nat, hello: nat, bridge: bool)
    requires LetsIn(server, me, hello)
    ensures Issued(Start(server, me, hello, bridge), hello, 1, 0)
  {
  }

  /** The client has said hello and knows the disk. */
  ghost predicate Greeted(s: System, server: State, hello: nat) {
    && IsIn(server, s.server, s.me, hello) && Ready(s) && s.client.hello == hello && s.client.cache.run == []
    && s.client.generation == s.server.generation && s.client.sectors == |s.server.image|
    && s.client.expectedOp < 256
  }

  lemma GreetingIsTaken(server: State, me: nat, hello: nat, bridge: bool, oldKernel: bool)
    requires LetsIn(server, me, hello)
    ensures var s := Turn(Start(server, me, hello, bridge), oldKernel);
      Greeted(s, server, hello) && s.me == me && !s.client.capsChecked && !s.client.attached && s.client.controlId == 1
  {
    var s := Start(server, me, hello, bridge);
    HelloIsIssued(server, me, hello, bridge);
    var t := HelloIsAnswered(server, me, hello, s.wire.frame);
    TurnLearns(s, hello, 1, 0, t, |server.image|, server.image[0], oldKernel);
    SizeIsKnown(s.client, Header(Response(hello), OK, SECTOR, 1, |server.image|, server.generation), server.image[0], oldKernel);
  }

  lemma HelloIsAnswered(server: State, me: nat, hello: nat, frame: Frame) returns (t: State)
    requires LetsIn(server, me, hello) && Decode(frame) == Some(Header(hello, 0, 0, 1, 0, 0))
    ensures Attend(server, me, Decode(frame).value, frame) == (t, Answer(OK, |server.image|, server.image[0]))
    ensures IsIn(server, t, me, hello)
  {
    t := Hello(server, me, Decode(frame).value).0;
    HelloEffect(server, me, Decode(frame).value);
  }

  lemma SizeIsKnown(client: Client, h: Header, boot: Sector, oldKernel: bool)
    requires client.expectedOp == client.hello && h.length == SECTOR && h.generation > 0 && 0 < h.lba <= MAX_SECTORS
    ensures Learn(client, h, boot, oldKernel)
         == Some(client.(waiting := false, generation := h.generation, sectors := h.lba, dataStart := DataStart(boot)))
  {
  }

  /** A control round: CAPS before the disk is attached, STAT once the capabilities are known. */
  lemma ControlIsIssued(s: System, server: State, hello: nat)
    requires Greeted(s, server, hello) && s.client.controlId < 100 && !s.client.attached
    ensures Issued(RntpClient.Next(s, Control).0, if s.client.capsChecked then STAT else CAPS, s.client.controlId + 1, s.server.generation)
    ensures ControlOnly(s, RntpClient.Next(s, Control).0)
  {
    ControlIs(s);
    IssueIs(s, if s.client.capsChecked then STAT else CAPS, s.client.controlId + 1);
  }

  lemma ControlIs(s: System)
    requires s.server.Shape() && Ready(s) && s.client.controlId < 100 && !s.client.attached
    ensures var id := s.client.controlId + 1;
      RntpClient.Next(s, Control).0 == Issue(s, s.client.(controlId := id), if s.client.capsChecked then STAT else CAPS, id, 0, [])
  {
    ControlAsks(s);
    FiguresAre(s);
  }

  lemma ControlAsks(s: System)
    requires s.server.Shape() && Ready(s)
    ensures RntpClient.Next(s, Control).0 == AskFigures(s)
  {
  }

  lemma FiguresAre(s: System)
    requires Ready(s) && s.client.controlId < 100 && !s.client.attached
    ensures var id := s.client.controlId + 1;
      AskFigures(s) == Issue(s, s.client.(controlId := id), if s.client.capsChecked then STAT else CAPS, id, 0, [])
  {
    NextId(s.client.controlId);
  }

  lemma NextId(id: nat)
    requires id < 100
    ensures (id + 1) % TWO_64 == id + 1
  {
  }

  lemma IssueIs(s: System, op: nat, id: nat)
    requires s.server.Shape() && s.live && s.client.generation < TWO_64 && (s.client.hello == HELLO || s.client.hello == HELLO_SHARED)
    requires op < 256 && id < TWO_64 && id == s.client.controlId + 1
    ensures var t := Issue(s, s.client.(controlId := id), op, id, 0, []);
      Issued(t, op, id, s.client.generation) && ControlOnly(s, t)
  {
  }

  /** Only what is issued and awaited has changed. */
  ghost predicate ControlOnly(s: System, t: System) {
    && t == s.(client := t.client, wire := t.wire)
    && t.client == s.client.(waiting := true, controlId := s.client.controlId + 1, expectedOp := t.client.expectedOp,
                             expectedId := t.client.expectedId, expectedLba := t.client.expectedLba)
  }

  lemma CapsAreLearned(s: System, server: State, hello: nat, oldKernel: bool)
    requires Greeted(s, server, hello) && s.client.controlId == 1 && !s.client.attached && !s.client.capsChecked
    ensures var t := Turn(RntpClient.Next(s, Control).0, oldKernel);
      && Greeted(t, server, hello) && t.client.controlId == 2 && !t.client.attached && t.me == s.me
      && t.client.capsChecked && t.client.batchCapable && t.client.readCapable
  {
    var t := RntpClient.Next(s, Control).0;
    ControlIsIssued(s, server, hello);
    CapsAreAnswered(t, hello);
    TurnLearns(t, CAPS, 2, s.server.generation, s.server, 0, PutNumber(CAP_ALL, 8), oldKernel);
    CapsAreKnown(t.client, Header(Response(CAPS), OK, 8, 2, 0, s.server.generation), oldKernel);
  }

  lemma CapsAreAnswered(t: System, hello: nat)
    requires t.server.Shape() && t.me < PEERS && t.server.peers[t.me] != 0 && t.wire.ToServer?
    requires Decode(t.wire.frame) == Some(Header(CAPS, 0, 0, 2, 0, t.server.generation))
    ensures Attend(t.server, t.me, Decode(t.wire.frame).value, t.wire.frame) == (t.server, Answer(OK, 0, PutNumber(CAP_ALL, 8)))
  {
  }

  lemma CapsAreKnown(client: Client, h: Header, oldKernel: bool)
    requires client.expectedOp == CAPS && (client.hello == HELLO || client.hello == HELLO_SHARED) && h.length == 8
    ensures Learn(client, h, PutNumber(CAP_ALL, 8), oldKernel)
         == Some(client.(waiting := false, batchCapable := true, readCapable := true, capsChecked := true))
  {
    Widths();
    GetPut(CAP_ALL, 8);
  }

  lemma StatAttaches(s: System, server: State, hello: nat, oldKernel: bool)
    requires Greeted(s, server, hello) && s.client.controlId == 2 && !s.client.attached && s.client.capsChecked
    ensures var t := Turn(RntpClient.Next(s, Control).0, oldKernel);
      && Greeted(t, server, hello) && t.client.attached && t.me == s.me
      && (s.client.batchCapable && (hello == HELLO_SHARED || !oldKernel) ==> t.client.batchCapable)
      && t.client.readCapable == s.client.readCapable
  {
    var t := RntpClient.Next(s, Control).0;
    ControlIsIssued(s, server, hello);
    StatIsAnswered(t);
    TurnLearns(t, STAT, 3, s.server.generation, s.server, 0, PutNumber(s.server.committedFree, STAT_BYTES), oldKernel);
  }

  lemma StatIsAnswered(t: System)
    requires t.server.Shape() && t.me < PEERS && t.server.peers[t.me] != 0 && t.wire.ToServer?
    requires Decode(t.wire.frame) == Some(Header(STAT, 0, 0, 3, 0, t.server.generation))
    ensures Attend(t.server, t.me, Decode(t.wire.frame).value, t.wire.frame)
         == (t.server, Answer(OK, 0, PutNumber(t.server.committedFree, STAT_BYTES)))
  {
  }

  /** The whole way from the first message: hello, capabilities, figures. */
  function Attached(server: State, me: nat, hello: nat, bridge: bool, oldKernel: bool): (r: System)
    requires LetsIn(server, me, hello)
  {
    GreetingIsTaken(server, me, hello, bridge, oldKernel);
    var s := Turn(Start(server, me, hello, bridge), oldKernel);
    CapsAreLearned(s, server, hello, oldKernel);
    ControlIsIssued(s, server, hello);
    var t := Turn(RntpClient.Next(s, Control).0, oldKernel);
    ControlIsIssued(t, server, hello);
    Turn(RntpClient.Next(t, Control).0, oldKernel)
  }

  /** A client that is let in has attached the disk after three exchanges: it knows its size and generation and what the
      server can do, and the server counts it among its peers. */
  lemma ClientAttaches(server: State, me: nat, hello: nat, bridge: bool, oldKernel: bool)
    requires LetsIn(server, me, hello)
    ensures var s := Attached(server, me, hello, bridge, oldKernel);
      && Greeted(s, server, hello) && s.me == me && s.client.attached && s.client.readCapable
      && (hello == HELLO_SHARED || !oldKernel ==> s.client.batchCapable)
  {
    GreetingIsTaken(server, me, hello, bridge, oldKernel);
    var s := Turn(Start(server, me, hello, bridge), oldKernel);
    CapsAreLearned(s, server, hello, oldKernel);
    StatAttaches(Turn(RntpClient.Next(s, Control).0, oldKernel), server, hello, oldKernel);
  }

  /** An exclusive client may then read and write at once; a shared one once the kernel locks a disk nobody holds. */
  lemma AttachedMayAsk(server: State, me: nat, bridge: bool, oldKernel: bool)
    requires LetsIn(server, me, HELLO)
    ensures var s := Attached(server, me, HELLO, bridge, oldKernel); MayAsk(s) && KnowsSize(s)
  {
    ClientAttaches(server, me, HELLO, bridge, oldKernel);
    ExclusiveMayAsk(Attached(server, me, HELLO, bridge, oldKernel), server);
  }

  lemma ExclusiveMayAsk(s: System, server: State)
    requires Greeted(s, server, HELLO) && s.client.attached
    ensures MayAsk(s) && KnowsSize(s)
  {
  }

  lemma LockedMayAsk(server: State, me: nat, bridge: bool, oldKernel: bool, p: Pending)
    requires LetsIn(server, me, HELLO_SHARED) && server.locked < 0 && p.Fits() && p.op == LOCK && p.id > 0 && p.lba == 0
    ensures LockMakesOwner(Attached(server, me, HELLO_SHARED, bridge, oldKernel), p, oldKernel)
  {
    ClientAttaches(server, me, HELLO_SHARED, bridge, oldKernel);
    LockIsTaken(Attached(server, me, HELLO_SHARED, bridge, oldKernel), server, oldKernel, p);
  }

  /** The exchange that starts with this LOCK makes the client the owner. */
  ghost predicate LockMakesOwner(s: System, p: Pending, oldKernel: bool) {
    && s.server.Shape()
    && var t := RntpClient.Next(s, Ask(p)).0;
    && t.server.Shape()
    && var u := Turn(t, oldKernel);
    u.server.locked == s.me && u.me == s.me && MayAsk(u) && KnowsSize(u)
  }

  lemma LockIsTaken(s: System, server: State, oldKernel: bool, p: Pending)
    requires Greeted(s, server, HELLO_SHARED) && s.client.attached && s.server.locked < 0
    requires p.Fits() && p.op == LOCK && p.id > 0 && p.lba == 0
    ensures LockMakesOwner(s, p, oldKernel)
  {
    var c := s.client.(pending := p, cache := s.client.cache.Clear());
    LockIsAsked(s, p, c);
    var t := Issue(s, c, LOCK, p.id, 0, []);
    LockIsUnderWay(s, c, p.id);
    LockIsAnswered(s.server, s.me, p.id, t.wire.frame);
    TurnLearns(t, LOCK, p.id, s.server.generation, s.server.(locked := s.me), 0, PutNumber(s.server.revision, 8), oldKernel);
    LockIsHeld(s, server, Turn(t, oldKernel));
  }

  lemma LockIsAsked(s: System, p: Pending, c: Client)
    requires s.server.Shape() && Ready(s) && s.client.attached && p.Fits() && p.op == LOCK && p.lba == 0
    requires c == s.client.(pending := p, cache := s.client.cache.Clear())
    ensures RntpClient.Next(s, Ask(p)).0 == Issue(s, c, LOCK, p.id, 0, [])
  {
    assert RntpClient.Next(s, Ask(p)) == AskKernel(s, p);
  }

  lemma LockIsUnderWay(s: System, c: Client, id: nat)
    requires s.server.Shape() && s.live && id < TWO_64 && c.generation < TWO_64 && (c.hello == HELLO || c.hello == HELLO_SHARED)
    ensures Issued(Issue(s, c, LOCK, id, 0, []), LOCK, id, c.generation)
  {
  }

  /** The owner's system once the lock is granted. */
  lemma LockIsHeld(s: System, server: State, u: System)
    requires Greeted(s, server, HELLO_SHARED) && s.server.locked < 0 && s.client.attached
    requires u.server == s.server.(locked := s.me) && u.me == s.me && u.live && u.wire == Idle && !u.client.waiting
    requires u.client.attached && u.client.cache.run == [] && u.client.expectedOp == LOCK && u.client.hello == HELLO_SHARED
    requires u.client.generation == s.client.generation && u.client.sectors == s.client.sectors
    ensures MayAsk(u) && KnowsSize(u)
  {
  }

  lemma LockIsAnswered(s: State, me: nat, id: nat, frame: Frame)
    requires s.Shape() && me < PEERS && s.peers[me] == 2 && s.locked < 0 && id > 0
    requires Decode(frame) == Some(Header(LOCK, 0, 0, id, 0, s.generation))
    ensures Attend(s, me, Decode(frame).value, frame) == (s.(locked := me), Answer(OK, 0, PutNumber(s.revision, 8)))
  {
  }
}
