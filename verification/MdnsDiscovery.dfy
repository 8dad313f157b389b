/**
 * What a browser learns: from the type of a service its instances, from an instance
 * its port and host, from the host its address (c/mdnsd/mdns.c).
 */
module MdnsDiscovery {
  import opened Bytes
  import opened MdnsNames
  import opened MdnsRecords
  import opened MdnsMessage
  import opened MdnsReply
  import opened MdnsExchange
  import opened MdnsAnswer

  // ---- what the answers read say ----

  /** A pointer from one name to another, to be kept when live and to be forgotten otherwise. */
  ghost predicate PointsTo(answers: seq<Answer>, name: seq<Label>, target: seq<Label>, live: bool) {
    exists a :: a in answers && a.kind == T_PTR && a.name == Wire(name) && a.target == Wire(target) && (a.ttl > 0 <==> live)
  }

  ghost predicate ServedAt(answers: seq<Answer>, name: seq<Label>, port: Word, target: seq<Label>, live: bool) {
    exists a :: a in answers && a.kind == T_SRV && a.name == Wire(name) && a.port == port && a.target == Wire(target) && (a.ttl > 0 <==> live)
  }

  ghost predicate Described(answers: seq<Answer>, name: seq<Label>, live: bool) {
    exists a :: a in answers && a.kind == T_TXT && a.name == Wire(name) && (a.ttl > 0 <==> live)
  }

  ghost predicate Addressed(answers: seq<Answer>, name: seq<Label>, ip: seq<byte>) {
    exists a :: a in answers && a.kind == T_A && a.name == Wire(name) && a.ip == ip && a.ttl > 0
  }

  /** From the service's type to its instance, port, host and address. */
  ghost predicate Resolves(answers: seq<Answer>, h: Host, s: Offer) {
    && PointsTo(answers, [s.kind, TCP, LOCAL], [s.instance, s.kind, TCP, LOCAL], true)
    && ServedAt(answers, [s.instance, s.kind, TCP, LOCAL], s.port, [h.name, LOCAL], true)
    && Described(answers, [s.instance, s.kind, TCP, LOCAL], true)
    && Addressed(answers, [h.name, LOCAL], h.ip)
  }

  /** The answer says something true of the host or of this offer. */
  predicate TrueOf(a: Answer, h: Host, s: Offer) {
    var kind, instance := Wire([s.kind, TCP, LOCAL]), Wire([s.instance, s.kind, TCP, LOCAL]);
    || (a.kind == T_PTR && a.name == kind && a.target == instance)
    || (a.kind == T_PTR && a.name == Wire([SERVICES, DNS_SD, UDP, LOCAL]) && a.target == kind)
    || (a.kind == T_SRV && a.name == instance && a.port == s.port && a.target == Wire([h.name, LOCAL]))
    || (a.kind == T_TXT && a.name == instance)
    || IsAddress(a, h)
  }

  predicate IsAddress(a: Answer, h: Host) {
    a.kind == T_A && a.name == Wire([h.name, LOCAL]) && a.ip == h.ip
  }

  ghost predicate TrueOfHost(a: Answer, h: Host) {
    IsAddress(a, h) || exists s :: s in h.offers && TrueOf(a, h, s)
  }

  // ---- a record read back says what it was written for ----

  lemma {:induction false} ExpectedIn(records: seq<Record>, m: Mode, r: Record)
    requires r in records
    ensures Expected(r, m) in ExpectedAll(records, m)
  {
    if records[0] != r { ExpectedIn(records[1..], m, r); }
  }

  lemma {:induction false} ExpectedFrom(records: seq<Record>, m: Mode, a: Answer) returns (r: Record)
    requires a in ExpectedAll(records, m)
    ensures r in records && a == Expected(r, m)
  {
    if a == Expected(records[0], m) { r := records[0]; } else { r := ExpectedFrom(records[1..], m, a); }
  }

  /** The record is among those the answers were written for. */
  ghost predicate Tells(answers: seq<Answer>, r: Record, goodbye: bool) {
    Expected(r, Mode(false, goodbye)) in answers
  }

  lemma PtrSays(answers: seq<Answer>, s: Offer, goodbye: bool)
    requires Tells(answers, PtrRecord(s), goodbye)
    ensures PointsTo(answers, [s.kind, TCP, LOCAL], [s.instance, s.kind, TCP, LOCAL], !goodbye)
  {
  }

  lemma MetaSays(answers: seq<Answer>, s: Offer)
    requires Tells(answers, MetaRecord(s), false)
    ensures PointsTo(answers, [SERVICES, DNS_SD, UDP, LOCAL], [s.kind, TCP, LOCAL], true)
  {
  }

  lemma SrvSays(answers: seq<Answer>, h: Host, s: Offer, goodbye: bool)
    requires Tells(answers, SrvRecord(h, s), goodbye)
    ensures ServedAt(answers, [s.instance, s.kind, TCP, LOCAL], s.port, [h.name, LOCAL], !goodbye)
  {
  }

  lemma TxtSays(answers: seq<Answer>, s: Offer, goodbye: bool)
    requires Tells(answers, TxtRecord(s), goodbye)
    ensures Described(answers, [s.instance, s.kind, TCP, LOCAL], !goodbye)
  {
  }

  lemma AddressSays(answers: seq<Answer>, h: Host)
    requires Tells(answers, HostRecord(h), false)
    ensures Addressed(answers, [h.name, LOCAL], h.ip)
  {
  }

  lemma OfferIsTrue(h: Host, s: Offer, m: Mode)
    ensures TrueOf(Expected(PtrRecord(s), m), h, s) && TrueOf(Expected(MetaRecord(s), m), h, s)
    ensures TrueOf(Expected(SrvRecord(h, s), m), h, s) && TrueOf(Expected(TxtRecord(s), m), h, s)
    ensures IsAddress(Expected(HostRecord(h), m), h)
  {
  }

  // ---- announcements ----

  /** An announcement tells every other host all of it: the type's instance, its port and host, the address,
      and that there is such a type; and it says nothing else. */
  lemma AnnouncementResolves(h: Host, s: Offer, me: seq<byte>)
    requires ProperHost(h) && h.ip != NO_IP && me != NO_IP && me != h.ip
    ensures var frame := Announce(h, Some(s), false);
      && frame.Some? && Read(me, frame.value).Some?
      && var answers := Read(me, frame.value).value;
      && Resolves(answers, h, s) && PointsTo(answers, [SERVICES, DNS_SD, UDP, LOCAL], [s.kind, TCP, LOCAL], true)
      && forall a :: a in answers ==> TrueOf(a, h, s)
  {
    var m, records := Mode(false, false), AnnounceRecords(h, Some(s), false);
    var answers := ExpectedAll(records, m);
    AnnouncementIsRead(h, Some(s), false, me);
    forall r | r in records ensures Tells(answers, r, false) { ExpectedIn(records, m, r); }
    assert records == [PtrRecord(s), SrvRecord(h, s), TxtRecord(s), MetaRecord(s), HostRecord(h)];
    AllOfOffer(answers, h, s);
    MetaSays(answers, s);
    forall a | a in answers ensures TrueOf(a, h, s) {
      var r := ExpectedFrom(records, m, a);
      OfOffer(h, s, r, m);
    }
  }

  lemma OfOffer(h: Host, s: Offer, r: Record, m: Mode)
    requires r in [PtrRecord(s), SrvRecord(h, s), TxtRecord(s), MetaRecord(s), HostRecord(h)]
    ensures TrueOf(Expected(r, m), h, s)
  {
    OfferIsTrue(h, s, m);
  }

  lemma AllOfOffer(answers: seq<Answer>, h: Host, s: Offer)
    requires Tells(answers, PtrRecord(s), false) && Tells(answers, SrvRecord(h, s), false)
    requires Tells(answers, TxtRecord(s), false) && Tells(answers, HostRecord(h), false)
    ensures Resolves(answers, h, s)
  {
    PtrSays(answers, s, false);
    SrvSays(answers, h, s, false);
    TxtSays(answers, s, false);
    AddressSays(answers, h);
  }

  /** A goodbye takes back the instance, and nothing in it is to be kept. */
  lemma GoodbyeTakesBack(h: Host, s: Offer, me: seq<byte>)
    requires ProperHost(h) && h.ip != NO_IP && me != NO_IP && me != h.ip
    ensures var frame := Announce(h, Some(s), true);
      && frame.Some? && Read(me, frame.value).Some?
      && var answers := Read(me, frame.value).value;
      && PointsTo(answers, [s.kind, TCP, LOCAL], [s.instance, s.kind, TCP, LOCAL], false)
      && ServedAt(answers, [s.instance, s.kind, TCP, LOCAL], s.port, [h.name, LOCAL], false)
      && Described(answers, [s.instance, s.kind, TCP, LOCAL], false)
      && forall a :: a in answers ==> a.ttl == 0 && a.kind != T_A
  {
    var m, records := Mode(false, true), AnnounceRecords(h, Some(s), true);
    var answers := ExpectedAll(records, m);
    AnnouncementIsRead(h, Some(s), true, me);
    forall r | r in records ensures Tells(answers, r, true) { ExpectedIn(records, m, r); }
    assert records == [PtrRecord(s), SrvRecord(h, s), TxtRecord(s)];
    PtrSays(answers, s, true);
    SrvSays(answers, h, s, true);
    TxtSays(answers, s, true);
    forall a | a in answers ensures a.ttl == 0 && a.kind != T_A {
      var r := ExpectedFrom(records, m, a);
      Fleeting(h, s, r);
    }
  }

  lemma Fleeting(h: Host, s: Offer, r: Record)
    requires r in [PtrRecord(s), SrvRecord(h, s), TxtRecord(s)]
    ensures Expected(r, Mode(false, true)).ttl == 0 && Expected(r, Mode(false, true)).kind != T_A
  {
  }

  // ---- replies ----

  /** The frame is a query from the multicast port with these questions, of which the first eight are read. */
  ghost predicate Queries(h: Host, frame: seq<byte>, questions: seq<Question>) {
    && ProperHost(h) && Receive(h.ip, frame).Some?
    && var d := Receive(h.ip, frame).value;
    && d.sport == MDNS_PORT && At(d.msg, 2) / 0x800 == 0 && At(d.msg, 2) % 0x10 == 0
    && ReadQuestions(d.msg, DNS_HEADER, At(d.msg, 4), MAX_QUESTIONS) == Some(questions)
  }

  /** Whether this host hears the reply. */
  ghost predicate Hears(h: Host, frame: seq<byte>, me: seq<byte>) {
    && me != NO_IP && me != h.ip && Receive(h.ip, frame).Some?
    && (Receive(h.ip, frame).value.toGroup || me == Receive(h.ip, frame).value.src)
  }

  /** Some question seeks records of this kind under this name. */
  ghost predicate Sought(questions: seq<Question>, name: seq<Label>, kind: Word) {
    exists q :: q in questions && Answerable(q) && AsksType(q, kind) && NameEq(q.name, name)
  }

  /** All that is meant for the reply fits into one frame. */
  predicate Fits(h: Host, questions: seq<Question>) {
    var (answers, additional) := Intended(h, questions);
    DNS_HEADER + |EncodeAll(answers, Mode(false, false))| + |EncodeAll(additional, Mode(false, false))| <= DNS_MAX
  }

  /** What the host hears in reply. */
  function Heard(h: Host, frame: seq<byte>, me: seq<byte>): Option<seq<Answer>>
    requires ProperHost(h)
  {
    match Handle(h, frame)
    case None => None
    case Some(reply) => Read(me, reply)
  }

  lemma {:induction false} WholeFits(g: Message, records: seq<Record>, m: Mode)
    requires !g.full && |g.bytes| + |EncodeAll(records, m)| <= DNS_MAX
    ensures Fitting(g, records, m) == |records| && !PutAll(g, records, m).full
    ensures |PutAll(g, records, m).bytes| == |g.bytes| + |EncodeAll(records, m)|
    decreases |records|
  {
    if records != [] { WholeFits(Put(g, records[0], m), records[1..], m); }
  }

  lemma AllSent(answers: seq<Record>, additional: seq<Record>, m: Mode)
    requires DNS_HEADER + |EncodeAll(answers, m)| + |EncodeAll(additional, m)| <= DNS_MAX
    ensures Sent(Header(0, 0, 0, 0), answers, additional, m) == answers + additional
    ensures Assemble(Header(0, 0, 0, 0), answers, additional, m).Some? <==> answers != []
  {
    var start := Header(0, 0, 0, 0);
    WholeFits(Opened(start), answers, m);
    WholeFits(First(start, answers, m).(count := 0), additional, m);
    AssembledBytes(0, answers, additional, m);
  }

  lemma HandleIs(h: Host, frame: seq<byte>, questions: seq<Question>)
    requires Queries(h, frame, questions)
    ensures Handle(h, frame) == ReplyTo(h, Receive(h.ip, frame).value, questions, frame[6..12])
  {
  }

  lemma ReplyExists(h: Host, d: Datagram, questions: seq<Question>, mac: seq<byte>)
    requires ProperHost(h) && |d.src| == 4 && |d.msg| >= DNS_HEADER && d.sport == MDNS_PORT
    requires Fits(h, questions)
    ensures ReplyTo(h, d, questions, mac).Some? <==> Intended(h, questions).0 != []
  {
    var (answers, additional) := Intended(h, questions);
    AllSent(answers, additional, Mode(false, false));
  }

  /** The reply's hearer reads the record. */
  ghost predicate Told(h: Host, frame: seq<byte>, me: seq<byte>, r: Record)
    requires ProperHost(h)
  {
    Heard(h, frame, me).Some? && Tells(Heard(h, frame, me).value, r, false)
  }

  /** A query this host hears the reply to, with room for all of it. */
  ghost predicate Exchange(h: Host, frame: seq<byte>, me: seq<byte>, questions: seq<Question>) {
    Queries(h, frame, questions) && Hears(h, frame, me) && Fits(h, questions)
  }

  /** Where all fits, the answers read are those of the intended records. */
  lemma HeardIsIntended(h: Host, frame: seq<byte>, me: seq<byte>, questions: seq<Question>)
    requires Queries(h, frame, questions) && Hears(h, frame, me) && Fits(h, questions) && Intended(h, questions).0 != []
    ensures var (answers, additional) := Intended(h, questions);
      Heard(h, frame, me) == Some(ExpectedAll(answers + additional, Mode(false, false)))
  {
    var (answers, additional) := Intended(h, questions);
    AllSent(answers, additional, Mode(false, false));
    HandleIs(h, frame, questions);
    ReplyExists(h, Receive(h.ip, frame).value, questions, frame[6..12]);
    ReplyIsRead(h, frame, me);
  }

  /** The record in slot s belongs to the reply. */
  ghost predicate Due(h: Host, questions: seq<Question>, s: Slot, r: Record) {
    && InHost(h, s) && r == RecordOf(h, s) && Answered(h, questions) != {}
    && (s in Answered(h, questions) || s in Extra(h, Answered(h, questions)))
  }

  lemma SlotIsHeard(h: Host, frame: seq<byte>, me: seq<byte>, questions: seq<Question>, s: Slot, r: Record)
    requires Exchange(h, frame, me, questions) && Due(h, questions, s, r)
    ensures Told(h, frame, me, r)
  {
    var (answers, additional) := Intended(h, questions);
    AnsweredHasRecord(h, questions);
    HeardIsIntended(h, frame, me, questions);
    RecordSetHas(h, Answered(h, questions), r);
    RecordSetHas(h, Extra(h, Answered(h, questions)), r);
    assert r in answers + additional;
    ExpectedIn(answers + additional, Mode(false, false), r);
  }

  lemma AnsweredHasRecord(h: Host, questions: seq<Question>)
    requires Answered(h, questions) != {}
    ensures Intended(h, questions).0 != []
  {
    var s :| s in Answered(h, questions);
    AnsweredIff(h, questions, s);
    RecordSetHas(h, Answered(h, questions), RecordOf(h, s));
  }

  /** Slot s is one of the host's and holds the record, of this name and kind. */
  predicate Holding(h: Host, s: Slot, r: Record, name: seq<Label>, kind: Word) {
    Owned(h, s) && RecordOf(h, s) == r && r.name == name && TypeOf(r.data) == kind
  }

  lemma SoughtIsAnswered(h: Host, questions: seq<Question>, s: Slot, r: Record, name: seq<Label>, kind: Word)
    requires Holding(h, s, r, name, kind) && Sought(questions, name, kind)
    ensures s in Answered(h, questions)
  {
    var q :| q in questions && Answerable(q) && AsksType(q, TypeOf(r.data)) && NameEq(q.name, r.name);
    var k :| 0 <= k < |questions| && questions[k] == q;
    assert Asks(questions[k], r);
    AnsweredIff(h, questions, s);
  }

  lemma SoughtIsTold(h: Host, frame: seq<byte>, me: seq<byte>, questions: seq<Question>, s: Slot, r: Record, name: seq<Label>, kind: Word)
    requires Exchange(h, frame, me, questions)
    requires Holding(h, s, r, name, kind) && Sought(questions, name, kind)
    ensures Told(h, frame, me, r)
  {
    SoughtIsAnswered(h, questions, s, r, name, kind);
    SlotIsHeard(h, frame, me, questions, s, r);
  }

  lemma PtrBrings(h: Host, questions: seq<Question>, i: nat, s: Offer)
    requires i < |h.offers| && h.offers[i] == s && Ptr(i) in Answered(h, questions)
    ensures Due(h, questions, Ptr(i), PtrRecord(s)) && Due(h, questions, Srv(i), SrvRecord(h, s))
    ensures Due(h, questions, Txt(i), TxtRecord(s)) && Due(h, questions, HostA, HostRecord(h))
  {
  }

  lemma SrvBrings(h: Host, questions: seq<Question>, i: nat, s: Offer)
    requires i < |h.offers| && h.offers[i] == s && Srv(i) in Answered(h, questions)
    ensures Due(h, questions, Srv(i), SrvRecord(h, s)) && Due(h, questions, HostA, HostRecord(h))
  {
  }

  lemma OfferHeld(h: Host, s: Offer) returns (i: nat)
    requires s in h.offers
    ensures i < |h.offers| && h.offers[i] == s
    ensures Holding(h, Ptr(i), PtrRecord(s), [s.kind, TCP, LOCAL], T_PTR)
    ensures Holding(h, Srv(i), SrvRecord(h, s), [s.instance, s.kind, TCP, LOCAL], T_SRV)
    ensures Holding(h, Txt(i), TxtRecord(s), [s.instance, s.kind, TCP, LOCAL], T_TXT)
  {
    i :| 0 <= i < |h.offers| && h.offers[i] == s;
  }

  /** Asking for a service's type resolves every service of it: to its instance, port, host and address. */
  lemma TypeResolves(h: Host, frame: seq<byte>, me: seq<byte>, questions: seq<Question>, s: Offer)
    requires Exchange(h, frame, me, questions) && s in h.offers
    requires Sought(questions, [s.kind, TCP, LOCAL], T_PTR)
    ensures Heard(h, frame, me).Some? && Resolves(Heard(h, frame, me).value, h, s)
  {
    var i := OfferHeld(h, s);
    SoughtIsAnswered(h, questions, Ptr(i), PtrRecord(s), [s.kind, TCP, LOCAL], T_PTR);
    PtrBrings(h, questions, i, s);
    SlotIsHeard(h, frame, me, questions, Ptr(i), PtrRecord(s));
    SlotIsHeard(h, frame, me, questions, Srv(i), SrvRecord(h, s));
    SlotIsHeard(h, frame, me, questions, Txt(i), TxtRecord(s));
    SlotIsHeard(h, frame, me, questions, HostA, HostRecord(h));
    AllOfOffer(Heard(h, frame, me).value, h, s);
  }

  /** Asking for an instance gives its port and host and, without being asked, the host's address. */
  lemma InstanceResolves(h: Host, frame: seq<byte>, me: seq<byte>, questions: seq<Question>, s: Offer)
    requires Exchange(h, frame, me, questions) && s in h.offers
    requires Sought(questions, [s.instance, s.kind, TCP, LOCAL], T_SRV)
    ensures Heard(h, frame, me).Some?
      && ServedAt(Heard(h, frame, me).value, [s.instance, s.kind, TCP, LOCAL], s.port, [h.name, LOCAL], true)
      && Addressed(Heard(h, frame, me).value, [h.name, LOCAL], h.ip)
  {
    var i := OfferHeld(h, s);
    SoughtIsAnswered(h, questions, Srv(i), SrvRecord(h, s), [s.instance, s.kind, TCP, LOCAL], T_SRV);
    SrvBrings(h, questions, i, s);
    SlotIsHeard(h, frame, me, questions, Srv(i), SrvRecord(h, s));
    SlotIsHeard(h, frame, me, questions, HostA, HostRecord(h));
    ToldInstance(h, frame, me, s);
  }

  lemma ToldInstance(h: Host, frame: seq<byte>, me: seq<byte>, s: Offer)
    requires ProperHost(h) && Told(h, frame, me, SrvRecord(h, s)) && Told(h, frame, me, HostRecord(h))
    ensures ServedAt(Heard(h, frame, me).value, [s.instance, s.kind, TCP, LOCAL], s.port, [h.name, LOCAL], true)
    ensures Addressed(Heard(h, frame, me).value, [h.name, LOCAL], h.ip)
  {
    SrvSays(Heard(h, frame, me).value, h, s, false);
    AddressSays(Heard(h, frame, me).value, h);
  }

  lemma ToldText(h: Host, frame: seq<byte>, me: seq<byte>, s: Offer)
    requires ProperHost(h) && Told(h, frame, me, TxtRecord(s))
    ensures Described(Heard(h, frame, me).value, [s.instance, s.kind, TCP, LOCAL], true)
  {
    TxtSays(Heard(h, frame, me).value, s, false);
  }

  lemma DescriptionResolves(h: Host, frame: seq<byte>, me: seq<byte>, questions: seq<Question>, s: Offer)
    requires Exchange(h, frame, me, questions) && s in h.offers
    requires Sought(questions, [s.instance, s.kind, TCP, LOCAL], T_TXT)
    ensures Heard(h, frame, me).Some? && Described(Heard(h, frame, me).value, [s.instance, s.kind, TCP, LOCAL], true)
  {
    var i := OfferHeld(h, s);
    SoughtIsTold(h, frame, me, questions, Txt(i), TxtRecord(s), [s.instance, s.kind, TCP, LOCAL], T_TXT);
    ToldText(h, frame, me, s);
  }

  lemma HostResolves(h: Host, frame: seq<byte>, me: seq<byte>, questions: seq<Question>)
    requires Exchange(h, frame, me, questions)
    requires Sought(questions, [h.name, LOCAL], T_A)
    ensures Heard(h, frame, me).Some? && Addressed(Heard(h, frame, me).value, [h.name, LOCAL], h.ip)
  {
    SoughtIsTold(h, frame, me, questions, HostA, HostRecord(h), [h.name, LOCAL], T_A);
    AddressSays(Heard(h, frame, me).value, h);
  }

  lemma FirstOfKind(h: Host, i: nat) returns (j: nat)
    requires i < |h.offers|
    ensures j < |h.offers| && FirstOfType(h, j) && h.offers[j].kind == h.offers[i].kind
  {
    j := i;
    if !FirstOfType(h, i) {
      var l :| 0 <= l < i && h.offers[l].kind == h.offers[i].kind;
      j := FirstOfKind(h, l);
    }
  }

  lemma MetaHeld(h: Host, s: Offer) returns (j: nat)
    requires s in h.offers
    ensures j < |h.offers| && h.offers[j].kind == s.kind
    ensures Holding(h, Meta(j), MetaRecord(h.offers[j]), [SERVICES, DNS_SD, UDP, LOCAL], T_PTR)
  {
    var i :| 0 <= i < |h.offers| && h.offers[i] == s;
    j := FirstOfKind(h, i);
  }

  /** Asking what types there are lists the type of every service. */
  lemma TypesAreListed(h: Host, frame: seq<byte>, me: seq<byte>, questions: seq<Question>, s: Offer)
    requires Exchange(h, frame, me, questions) && s in h.offers
    requires Sought(questions, [SERVICES, DNS_SD, UDP, LOCAL], T_PTR)
    ensures Heard(h, frame, me).Some?
      && PointsTo(Heard(h, frame, me).value, [SERVICES, DNS_SD, UDP, LOCAL], [s.kind, TCP, LOCAL], true)
  {
    var j := MetaHeld(h, s);
    SoughtIsTold(h, frame, me, questions, Meta(j), MetaRecord(h.offers[j]), [SERVICES, DNS_SD, UDP, LOCAL], T_PTR);
    MetaSays(Heard(h, frame, me).value, h.offers[j]);
  }

  lemma RecordIsTrue(h: Host, w: set<Slot>, r: Record, m: Mode)
    requires r in RecordSet(h, w)
    ensures TrueOfHost(Expected(r, m), h)
  {
    var s := SlotOfRecord(h, w, r);
    OfferIsTrue(h, if s.HostA? then Offer(0, LOCAL, LOCAL) else h.offers[s.i], m);
    if !s.HostA? { assert h.offers[s.i] in h.offers; }
  }

  /** Whatever is asked and whether or not all of it fits: a reply says nothing but what is true of the host. */
  lemma RepliesAreTrue(h: Host, frame: seq<byte>, me: seq<byte>, questions: seq<Question>, a: Answer)
    requires Queries(h, frame, questions) && Hears(h, frame, me) && Handle(h, frame).Some?
    requires Heard(h, frame, me).Some? && a in Heard(h, frame, me).value
    ensures TrueOfHost(a, h)
  {
    var m := Mode(false, false);
    var (answers, additional) := Intended(h, questions);
    ReplyIsRead(h, frame, me);
    var sent := Sent(Header(0, 0, 0, 0), answers, additional, m);
    var r := ExpectedFrom(sent, m, a);
    assert r in answers + additional;
    if r in answers { RecordIsTrue(h, Answered(h, questions), r, m); } else { RecordIsTrue(h, Extra(h, Answered(h, questions)), r, m); }
  }

  // ---- when all fits ----

  lemma {:induction false} ModestLength(records: seq<Record>, m: Mode)
    requires forall r :: r in records ==> Modest(r, m)
    ensures |EncodeAll(records, m)| <= 280 * |records|
  {
    if records != [] {
      assert records[0] in records;
      ModestLength(records[1..], m);
    }
  }

  lemma SetIsModest(h: Host, w: set<Slot>, m: Mode)
    requires ProperHost(h)
    ensures |EncodeAll(RecordSet(h, w), m)| <= 280 * |RecordSet(h, w)|
  {
    forall r | r in RecordSet(h, w) ensures Modest(r, m) {
      var s := SlotOfRecord(h, w, r);
      RecordsAreModest(h, if s.HostA? then Offer(0, LOCAL, LOCAL) else h.offers[s.i], m);
    }
    ModestLength(RecordSet(h, w), m);
  }

  function Ones(h: Host, w: set<Slot>): nat
    requires |h.offers| == 1
  {
    |One(h, w, HostA)| + |One(h, w, Meta(0))| + |One(h, w, Ptr(0))| + |One(h, w, Srv(0))| + |One(h, w, Txt(0))|
  }

  lemma SetOfOne(h: Host, w: set<Slot>)
    requires |h.offers| == 1
    ensures |RecordSet(h, w)| == Ones(h, w)
  {
    assert MetaSet(h, w, 1) == MetaSet(h, w, 0) + One(h, w, Meta(0));
    assert ServiceSet(h, w, 1) == ServiceSet(h, w, 0) + ServiceOf(h, w, 0);
  }

  /** With one service everything fits, whatever is asked. */
  lemma OneServiceFits(h: Host, questions: seq<Question>)
    requires ProperHost(h) && |h.offers| == 1
    ensures Fits(h, questions)
  {
    var w, m := Answered(h, questions), Mode(false, false);
    AtMostFive(h, w);
    SetIsModest(h, w, m);
    SetIsModest(h, Extra(h, w), m);
  }

  lemma AtMostFive(h: Host, w: set<Slot>)
    requires |h.offers| == 1
    ensures |RecordSet(h, w)| + |RecordSet(h, Extra(h, w))| <= 5
  {
    SetOfOne(h, w);
    SetOfOne(h, Extra(h, w));
  }
}
