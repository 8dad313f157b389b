/**
 * Which records a host announces or answers with, and the proof that a querier
 * reads back exactly the records that went into the frame, in order.
 */
module MdnsExchange {
  import opened Bytes
  import opened Checksum
  import opened MdnsNames
  import opened MdnsRecords
  import opened MdnsMessage
  import opened MdnsReply

  // ---- a response of two sections ----

  function Opened(start: seq<byte>): Message { Message(start, false, 0) }

  function First(start: seq<byte>, answers: seq<Record>, m: Mode): Message { PutAll(Opened(start), answers, m) }

  function Second(start: seq<byte>, answers: seq<Record>, additional: seq<Record>, m: Mode): Message {
    var g := First(start, answers, m);
    PutAll(g.(count := 0), additional, m)
  }

  lemma SectionsGrow(start: seq<byte>, answers: seq<Record>, additional: seq<Record>, m: Mode)
    ensures |Second(start, answers, additional, m).bytes| >= |start|
  {
    PutAllPrefix(Opened(start), answers, m);
    PutAllPrefix(First(start, answers, m).(count := 0), additional, m);
  }

  /** The message with both sections, or None when not even one answer went in. */
  function Assemble(start: seq<byte>, answers: seq<Record>, additional: seq<Record>, m: Mode): Option<seq<byte>>
    requires |start| >= DNS_HEADER
  {
    SectionsGrow(start, answers, additional, m);
    var g, r := First(start, answers, m), Second(start, answers, additional, m);
    if g.count == 0 then None else Some(Finished(r, g.count, r.count))
  }

  lemma {:induction false} EncodeAllConcat(a: seq<Record>, b: seq<Record>, m: Mode)
    ensures EncodeAll(a + b, m) == EncodeAll(a, m) + EncodeAll(b, m)
  {
    if a == [] {
      assert a + b == b && EncodeAll(a, m) + EncodeAll(b, m) == EncodeAll(b, m);
    } else {
      assert (a + b)[1..] == a[1..] + b;
      EncodeAllConcat(a[1..], b, m);
      Assoc(Encode(a[0], m), EncodeAll(a[1..], m), EncodeAll(b, m));
    }
  }

  lemma {:induction false} EncodeAllLength(records: seq<Record>, m: Mode)
    ensures |EncodeAll(records, m)| >= |records|
  {
    if records != [] {
      EncodeAllLength(records[1..], m);
      EncodePatched(records[0], m);
    }
  }

  /** How much of each section went in. */
  function Taken(start: seq<byte>, answers: seq<Record>, additional: seq<Record>, m: Mode): (k: (nat, nat))
    ensures k.0 <= |answers| && k.1 <= |additional|
  {
    (Fitting(Opened(start), answers, m), Fitting(First(start, answers, m).(count := 0), additional, m))
  }

  function Sent(start: seq<byte>, answers: seq<Record>, additional: seq<Record>, m: Mode): seq<Record> {
    var (j, k) := Taken(start, answers, additional, m);
    answers[..j] + additional[..k]
  }

  lemma {:induction false} FullTakesNone(g: Message, records: seq<Record>, m: Mode)
    requires g.full
    ensures Fitting(g, records, m) == 0
  {
  }

  /** The records sent are a prefix of those meant to go in, and the header counts them. */
  lemma AssembledBytes(id: Word, answers: seq<Record>, additional: seq<Record>, m: Mode)
    ensures var start := Header(id, 0, 0, 0);
      var (j, k) := Taken(start, answers, additional, m);
      var sent := Sent(start, answers, additional, m);
      && sent <= answers + additional && |sent| == j + k < TWO_16
      && (j == 0 <==> Assemble(start, answers, additional, m).None?)
      && (j > 0 ==> Assemble(start, answers, additional, m) == Some(Header(id, 0, j, k) + EncodeAll(sent, m)))
      && DNS_HEADER + |EncodeAll(sent, m)| <= DNS_MAX
  {
    var start := Header(id, 0, 0, 0);
    var g, r := First(start, answers, m), Second(start, answers, additional, m);
    var (j, k) := Taken(start, answers, additional, m);
    PutAllPrefix(Opened(start), answers, m);
    PutAllPrefix(g.(count := 0), additional, m);
    PutAllBounded(Opened(start), answers, m);
    PutAllBounded(g.(count := 0), additional, m);
    if j < |answers| { FullTakesNone(g.(count := 0), additional, m); }
    SentIsPrefix(answers, additional, j, k);
    EncodeAllConcat(answers[..j], additional[..k], m);
    EncodeAllLength(answers[..j] + additional[..k], m);
    Assoc(start, EncodeAll(answers[..j], m), EncodeAll(additional[..k], m));
    FinishedHeader(r, id, 0, j, k, EncodeAll(answers[..j] + additional[..k], m));
  }

  lemma SentIsPrefix(answers: seq<Record>, additional: seq<Record>, j: nat, k: nat)
    requires j <= |answers| && k <= |additional| && (j < |answers| ==> k == 0)
    ensures answers[..j] + additional[..k] <= answers + additional
  {
  }

  /** What a querier makes of a frame: its records, or None when it is no response for it. */
  function Read(me: seq<byte>, frame: seq<byte>): Option<seq<Answer>> {
    match Response(me, frame)
    case None => None
    case Some((msg, c)) => Some(ReadAll(msg, c))
  }

  /** A response wrapped for the group or for one host is read there record by record. */
  lemma ResponseRoundTrip(h: Host, answers: seq<Record>, additional: seq<Record>, m: Mode, mac: seq<byte>, dst: seq<byte>, me: seq<byte>)
    requires ProperHost(h) && |mac| == 6 && |dst| == 4
    requires me != NO_IP && me != h.ip && (dst == me || dst == GROUP_IP)
    requires forall i :: 0 <= i < |answers + additional| ==> Proper((answers + additional)[i])
    requires Assemble(Header(0, 0, 0, 0), answers, additional, m).Some?
    ensures var msg := Assemble(Header(0, 0, 0, 0), answers, additional, m).value;
      Read(me, Wrap(h, msg, mac, dst, MDNS_PORT)) == Some(ExpectedAll(Sent(Header(0, 0, 0, 0), answers, additional, m), m))
  {
    var start := Header(0, 0, 0, 0);
    var msg := Assemble(start, answers, additional, m).value;
    var (j, k) := Taken(start, answers, additional, m);
    var sent := Sent(start, answers, additional, m);
    AssembledBytes(0, answers, additional, m);
    FrameRoundTrip(h, msg, mac, dst, me);
    ResponseStarts(me, Wrap(h, msg, mac, dst, MDNS_PORT), Datagram(h.ip, MDNS_PORT, dst == GROUP_IP, msg), 0, j, k, EncodeAll(sent, m));
    BehindHeader(msg, Header(0, 0, j, k), EncodeAll(sent, m));
    RecordsRoundTrip(msg, Cursor(DNS_HEADER, j + k), sent, m);
  }

  lemma BehindHeader(msg: seq<byte>, header: seq<byte>, rest: seq<byte>)
    requires msg == header + rest && |header| == DNS_HEADER
    ensures Holds(msg, DNS_HEADER, rest)
  {
  }

  // ---- announcing ----

  function AnnounceRecords(h: Host, svc: Option<Offer>, goodbye: bool): seq<Record> {
    match svc
    case None => if goodbye then [] else [HostRecord(h)]
    case Some(s) =>
      [PtrRecord(s), SrvRecord(h, s), TxtRecord(s)] + if goodbye then [] else [MetaRecord(s), HostRecord(h)]
  }

  function Announce(h: Host, svc: Option<Offer>, goodbye: bool): Option<seq<byte>>
    requires ProperHost(h)
  {
    if h.ip == NO_IP then None
    else
      match Assemble(Header(0, 0, 0, 0), AnnounceRecords(h, svc, goodbye), [], Mode(false, goodbye))
      case None => None
      case Some(msg) => Some(Wrap(h, msg, GROUP_MAC, GROUP_IP, MDNS_PORT))
  }

  predicate Modest(r: Record, m: Mode) { Proper(r) && |Encode(r, m)| <= 280 }

  lemma AnnounceModest(h: Host, svc: Option<Offer>, goodbye: bool)
    requires ProperHost(h)
    ensures var records := AnnounceRecords(h, svc, goodbye);
      |records| <= 5 && forall i :: 0 <= i < |records| ==> Modest(records[i], Mode(false, goodbye))
  {
    RecordsAreModest(h, if svc.Some? then svc.value else Offer(0, LOCAL, LOCAL), Mode(false, goodbye));
  }

  lemma RecordsAreModest(h: Host, s: Offer, m: Mode)
    requires ProperHost(h)
    ensures Modest(HostRecord(h), m) && Modest(MetaRecord(s), m) && Modest(PtrRecord(s), m)
    ensures Modest(SrvRecord(h, s), m) && Modest(TxtRecord(s), m)
  {
    RecordsAreProper(h, s);
    WireOfTwo(h.name, LOCAL);
    WireOfThree(s.kind, TCP, LOCAL);
    WireOfFour(s.instance, s.kind, TCP, LOCAL);
    WireOfFour(SERVICES, DNS_SD, UDP, LOCAL);
  }

  /** Records short enough all fit. */
  lemma {:induction false} AllFit(g: Message, records: seq<Record>, m: Mode)
    requires !g.full && |g.bytes| + 280 * |records| <= DNS_MAX
    requires forall i :: 0 <= i < |records| ==> Modest(records[i], m)
    ensures Fitting(g, records, m) == |records|
    decreases |records|
  {
    if records != [] { AllFit(Put(g, records[0], m), records[1..], m); }
  }

  /** Every other host reads an announcement's records back, all of them and in order. */
  lemma AnnouncementIsRead(h: Host, svc: Option<Offer>, goodbye: bool, me: seq<byte>)
    requires ProperHost(h) && h.ip != NO_IP && me != NO_IP && me != h.ip
    ensures var records := AnnounceRecords(h, svc, goodbye);
      && (Announce(h, svc, goodbye).None? <==> records == [])
      && (records != [] ==> Read(me, Announce(h, svc, goodbye).value) == Some(ExpectedAll(records, Mode(false, goodbye))))
  {
    var start, records, m := Header(0, 0, 0, 0), AnnounceRecords(h, svc, goodbye), Mode(false, goodbye);
    AnnounceModest(h, svc, goodbye);
    AllFit(Opened(start), records, m);
    AssembledBytes(0, records, [], m);
    assert Taken(start, records, [], m) == (|records|, 0);
    assert Sent(start, records, [], m) == records && records + [] == records;
    if records != [] { ResponseRoundTrip(h, records, [], m, GROUP_MAC, GROUP_IP, me); }
  }
}
