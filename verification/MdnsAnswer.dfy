/** Answering queries: which records a question asks for, and the reply to a whole frame. */
module MdnsAnswer {
  import opened Bytes
  import opened MdnsNames
  import opened MdnsRecords
  import opened MdnsMessage
  import opened MdnsReply
  import opened MdnsExchange

  datatype Question = Question(name: seq<byte>, kind: Word, cls: Word)

  // ---- names ----

  function Lower(c: byte): byte { if 65 <= c <= 90 then c + 32 else c }

  predicate SameText(a: seq<byte>, b: seq<byte>) {
    |a| == |b| && forall i :: 0 <= i < |a| ==> Lower(a[i]) == Lower(b[i])
  }

  /** Whether a name in wire form has these labels, but for case. */
  predicate NameEq(wire: seq<byte>, name: seq<Label>)
    decreases |name|
  {
    if name == [] then wire != [] && wire[0] == 0
    else
      var n := |name[0]|;
      |wire| > n && wire[0] == n && SameText(wire[1..1 + n], name[0]) && NameEq(wire[1 + n..], name[1..])
  }

  predicate SameNames(a: seq<Label>, b: seq<Label>) {
    |a| == |b| && forall i :: 0 <= i < |a| ==> SameText(a[i], b[i])
  }

  /** The comparison on bytes is the comparison label by label. */
  lemma {:induction false} NameEqIffSame(a: seq<Label>, b: seq<Label>)
    ensures NameEq(Wire(a), b) <==> SameNames(a, b)
  {
    FirstOfWire(a);
    if a != [] && b != [] {
      var n := |a[0]|;
      assert Wire(a) == [n] + a[0] + Wire(a[1..]);
      if |b[0]| == n {
        assert Wire(a)[1..1 + n] == a[0] && Wire(a)[1 + n..] == Wire(a[1..]);
        NameEqIffSame(a[1..], b[1..]);
        SameNamesFirst(a, b);
      }
    }
  }

  lemma SameNamesFirst(a: seq<Label>, b: seq<Label>)
    requires a != [] && b != []
    ensures SameNames(a, b) <==> SameText(a[0], b[0]) && SameNames(a[1..], b[1..])
  {
    if SameText(a[0], b[0]) && SameNames(a[1..], b[1..]) {
      forall i | 0 <= i < |a| ensures SameText(a[i], b[i]) {
        if i > 0 { assert a[i] == a[1..][i - 1] && b[i] == b[1..][i - 1]; }
      }
    }
  }

  // ---- which records answer ----

  /** A record of a host: its address, or one of the four for a service. */
  datatype Slot = HostA | Meta(i: nat) | Ptr(i: nat) | Srv(i: nat) | Txt(i: nat)

  predicate InHost(h: Host, s: Slot) { s.HostA? || s.i < |h.offers| }

  /** One meta record for each type, that of the first service of it. */
  predicate FirstOfType(h: Host, i: nat)
    requires i < |h.offers|
  {
    forall j :: 0 <= j < i ==> h.offers[j].kind != h.offers[i].kind
  }

  predicate Owned(h: Host, s: Slot) { InHost(h, s) && (s.Meta? ==> FirstOfType(h, s.i)) }

  function RecordOf(h: Host, s: Slot): Record
    requires InHost(h, s)
  {
    match s
    case HostA => HostRecord(h)
    case Meta(i) => MetaRecord(h.offers[i])
    case Ptr(i) => PtrRecord(h.offers[i])
    case Srv(i) => SrvRecord(h, h.offers[i])
    case Txt(i) => TxtRecord(h.offers[i])
  }

  predicate Answerable(q: Question) { q.cls % C_TOP == C_IN || q.cls % C_TOP == T_ANY }

  predicate AsksType(q: Question, kind: Word) { q.kind == T_ANY || q.kind == kind }

  /** The question asks for this record. */
  predicate Asks(q: Question, r: Record) {
    Answerable(q) && AsksType(q, TypeOf(r.data)) && NameEq(q.name, r.name)
  }

  function Slots(h: Host): set<Slot> {
    {HostA}
      + (set i | 0 <= i < |h.offers| && FirstOfType(h, i) :: Meta(i))
      + (set i | 0 <= i < |h.offers| :: Ptr(i))
      + (set i | 0 <= i < |h.offers| :: Srv(i))
      + (set i | 0 <= i < |h.offers| :: Txt(i))
  }

  /** The host's records that a question asks for. */
  function Matched(h: Host, q: Question): set<Slot> {
    set s | s in Slots(h) && Owned(h, s) && Asks(q, RecordOf(h, s))
  }

  function Answered(h: Host, questions: seq<Question>): set<Slot> {
    if questions == [] then {}
    else Answered(h, questions[..|questions| - 1]) + Matched(h, questions[|questions| - 1])
  }

  lemma {:induction false} AnsweredIff(h: Host, questions: seq<Question>, s: Slot)
    ensures s in Answered(h, questions) <==>
      Owned(h, s) && exists k :: 0 <= k < |questions| && Asks(questions[k], RecordOf(h, s))
  {
    if questions != [] {
      var init, last := questions[..|questions| - 1], questions[|questions| - 1];
      AnsweredIff(h, init, s);
      assert forall k :: 0 <= k < |init| ==> init[k] == questions[k];
      if Owned(h, s) && Asks(last, RecordOf(h, s)) { assert questions[|init|] == last; }
    }
  }

  /** What a client asks for next: an instance's SRV and TXT, and the address behind them. */
  function Extra(h: Host, w: set<Slot>): set<Slot> {
    (set i | 0 <= i < |h.offers| && Ptr(i) in w && Srv(i) !in w :: Srv(i))
      + (set i | 0 <= i < |h.offers| && Ptr(i) in w && Txt(i) !in w :: Txt(i))
      + if HostA !in w && (exists i :: 0 <= i < |h.offers| && (Ptr(i) in w || Srv(i) in w)) then {HostA} else {}
  }

  // ---- the order they are written in ----

  function One(h: Host, w: set<Slot>, s: Slot): seq<Record>
    requires InHost(h, s)
  {
    if s in w then [RecordOf(h, s)] else []
  }

  function MetaSet(h: Host, w: set<Slot>, n: nat): seq<Record>
    requires n <= |h.offers|
  {
    if n == 0 then [] else MetaSet(h, w, n - 1) + One(h, w, Meta(n - 1))
  }

  /** The records of one service, without the one for its type. */
  function ServiceOf(h: Host, w: set<Slot>, i: nat): seq<Record>
    requires i < |h.offers|
  {
    One(h, w, Ptr(i)) + One(h, w, Srv(i)) + One(h, w, Txt(i))
  }

  function ServiceSet(h: Host, w: set<Slot>, n: nat): seq<Record>
    requires n <= |h.offers|
  {
    if n == 0 then []
    else ServiceSet(h, w, n - 1) + ServiceOf(h, w, n - 1)
  }

  function RecordSet(h: Host, w: set<Slot>): seq<Record> {
    One(h, w, HostA) + MetaSet(h, w, |h.offers|) + ServiceSet(h, w, |h.offers|)
  }

  lemma {:induction false} MetaSetHas(h: Host, w: set<Slot>, n: nat, r: Record)
    requires n <= |h.offers|
    ensures r in MetaSet(h, w, n) <==> exists i :: 0 <= i < n && Meta(i) in w && MetaRecord(h.offers[i]) == r
  {
    if n > 0 { MetaSetHas(h, w, n - 1, r); }
  }

  /** The wanted slot s, of a service, holds the record r. */
  ghost predicate FromService(h: Host, w: set<Slot>, s: Slot, r: Record) {
    s in w && InHost(h, s) && (s.Ptr? || s.Srv? || s.Txt?) && RecordOf(h, s) == r
  }

  lemma SlotOfService(h: Host, w: set<Slot>, i: nat, r: Record) returns (s: Slot)
    requires i < |h.offers| && r in ServiceOf(h, w, i)
    ensures FromService(h, w, s, r) && s.i == i
  {
    s := if r in One(h, w, Ptr(i)) then Ptr(i) else if r in One(h, w, Srv(i)) then Srv(i) else Txt(i);
  }

  function Joined<T>(parts: seq<seq<T>>): seq<T> {
    if parts == [] then [] else Joined(parts[..|parts| - 1]) + parts[|parts| - 1]
  }

  lemma {:induction false} JoinedHas<T>(parts: seq<seq<T>>, x: T)
    ensures x in Joined(parts) <==> exists i :: 0 <= i < |parts| && x in parts[i]
  {
    if parts != [] {
      var init := parts[..|parts| - 1];
      JoinedHas(init, x);
      assert forall i :: 0 <= i < |init| ==> init[i] == parts[i];
    }
  }

  function ServiceParts(h: Host, w: set<Slot>, n: nat): seq<seq<Record>>
    requires n <= |h.offers|
  {
    seq(n, i requires 0 <= i < n => ServiceOf(h, w, i))
  }

  lemma {:induction false} ServiceSetJoins(h: Host, w: set<Slot>, n: nat)
    requires n <= |h.offers|
    ensures ServiceSet(h, w, n) == Joined(ServiceParts(h, w, n))
  {
    if n > 0 {
      ServiceSetJoins(h, w, n - 1);
      assert ServiceParts(h, w, n)[..n - 1] == ServiceParts(h, w, n - 1);
    }
  }

  /** A record of the set is one of some service's. */
  lemma ServiceSetHas(h: Host, w: set<Slot>, n: nat, r: Record)
    requires n <= |h.offers|
    ensures r in ServiceSet(h, w, n) <==> exists i: nat :: i < n && r in ServiceOf(h, w, i)
  {
    ServiceSetJoins(h, w, n);
    JoinedHas(ServiceParts(h, w, n), r);
    assert forall i: nat :: i < n ==> ServiceParts(h, w, n)[i] == ServiceOf(h, w, i);
  }

  lemma SlotOfSet(h: Host, w: set<Slot>, n: nat, r: Record) returns (s: Slot)
    requires n <= |h.offers| && r in ServiceSet(h, w, n)
    ensures FromService(h, w, s, r) && s.i < n
  {
    ServiceSetHas(h, w, n, r);
    var i: nat :| i < n && r in ServiceOf(h, w, i);
    s := SlotOfService(h, w, i, r);
  }

  lemma ServiceHasSlot(h: Host, w: set<Slot>, s: Slot, r: Record)
    requires FromService(h, w, s, r)
    ensures r in ServiceOf(h, w, s.i)
  {
    assert r in One(h, w, s);
  }

  lemma SetHasSlot(h: Host, w: set<Slot>, n: nat, s: Slot, r: Record)
    requires n <= |h.offers| && FromService(h, w, s, r) && s.i < n
    ensures r in ServiceSet(h, w, n)
  {
    ServiceHasSlot(h, w, s, r);
    ServiceSetHas(h, w, n, r);
  }

  /** A set of slots is written as the records of its slots and no others. */
  lemma RecordSetHas(h: Host, w: set<Slot>, r: Record)
    ensures r in RecordSet(h, w) <==> exists s :: s in w && InHost(h, s) && RecordOf(h, s) == r
  {
    MetaSetHas(h, w, |h.offers|, r);
    if r in RecordSet(h, w) { var s := SlotOfRecord(h, w, r); }
    if s :| s in w && InHost(h, s) && RecordOf(h, s) == r {
      match s
      case HostA => assert r in One(h, w, HostA);
      case Meta(i) => assert Meta(i) in w;
      case _ => SetHasSlot(h, w, |h.offers|, s, r);
    }
  }

  lemma SlotOfRecord(h: Host, w: set<Slot>, r: Record) returns (s: Slot)
    requires r in RecordSet(h, w)
    ensures s in w && InHost(h, s) && RecordOf(h, s) == r
  {
    MetaSetHas(h, w, |h.offers|, r);
    if r in One(h, w, HostA) {
      s := HostA;
    } else if i :| 0 <= i < |h.offers| && Meta(i) in w && MetaRecord(h.offers[i]) == r {
      s := Meta(i);
    } else {
      s := SlotOfSet(h, w, |h.offers|, r);
    }
  }

  /** The answers are exactly the host's records that some question asks for. */
  lemma AnswersExactly(h: Host, questions: seq<Question>, r: Record)
    ensures r in RecordSet(h, Answered(h, questions)) <==>
      exists s, k :: Owned(h, s) && RecordOf(h, s) == r && 0 <= k < |questions| && Asks(questions[k], r)
  {
    var w := Answered(h, questions);
    RecordSetHas(h, w, r);
    forall s ensures s in w <==> Owned(h, s) && exists k :: 0 <= k < |questions| && Asks(questions[k], RecordOf(h, s)) {
      AnsweredIff(h, questions, s);
    }
  }

  // ---- a query's reply ----

  /** The questions read, at most eight, and where the message goes on; None for a malformed query. */
  function ReadQuestions(msg: seq<byte>, off: nat, left: nat, limit: nat): Option<seq<Question>>
    decreases limit, |msg|
  {
    if left == 0 || limit == 0 then Some([])
    else
      match NameAt(msg, off)
      case None => None
      case Some((at, name)) =>
        if at + 4 > |msg| then None
        else
          match ReadQuestions(msg, at + 4, left - 1, limit - 1)
          case None => None
          case Some(rest) => Some([Question(name, At(msg, at), At(msg, at + 2))] + rest)
  }

  function Echo(questions: seq<Question>): seq<byte> {
    if questions == [] then []
    else
      var q := questions[|questions| - 1];
      Echo(questions[..|questions| - 1]) + (q.name + Word16(q.kind) + Word16(q.cls))
  }

  /** What stands in front of the records: for a legacy resolver, its own identifier and questions. */
  function Start(legacy: bool, id: Word, questions: seq<Question>): (s: seq<byte>)
    ensures |s| >= DNS_HEADER
  {
    if legacy then Header(id, |questions|, 0, 0) + Echo(questions) else Header(0, 0, 0, 0)
  }

  /** The frame that answers these questions, to the one who asked or to the group. */
  function ReplyTo(h: Host, d: Datagram, questions: seq<Question>, mac: seq<byte>): Option<seq<byte>>
    requires ProperHost(h) && |d.src| == 4 && |d.msg| >= DNS_HEADER
  {
    var legacy := d.sport != MDNS_PORT;
    var w := Answered(h, questions);
    var start := Start(legacy, At(d.msg, 0), questions);
    if |start| > DNS_MAX then None
    else
      match Assemble(start, RecordSet(h, w), RecordSet(h, Extra(h, w)), Mode(legacy, false))
      case None => None
      case Some(msg) =>
        if legacy || !d.toGroup then Some(Wrap(h, msg, mac, d.src, d.sport))
        else Some(Wrap(h, msg, GROUP_MAC, GROUP_IP, MDNS_PORT))
  }

  function Handle(h: Host, frame: seq<byte>): Option<seq<byte>>
    requires ProperHost(h)
  {
    match Receive(h.ip, frame)
    case None => None
    case Some(d) =>
      var flags := At(d.msg, 2);
      if flags / 0x800 != 0 || flags % 0x10 != 0 then None
      else
        match ReadQuestions(d.msg, DNS_HEADER, At(d.msg, 4), MAX_QUESTIONS)
        case None => None
        case Some(questions) => ReplyTo(h, d, questions, frame[6..12])
  }

  lemma RecordSetProper(h: Host, w: set<Slot>, i: nat)
    requires ProperHost(h) && i < |RecordSet(h, w)|
    ensures Proper(RecordSet(h, w)[i])
  {
    var r := RecordSet(h, w)[i];
    RecordSetHas(h, w, r);
    var s :| s in w && InHost(h, s) && RecordOf(h, s) == r;
    RecordsAreProper(h, if s.HostA? then Offer(0, LOCAL, LOCAL) else h.offers[s.i]);
  }

  /** The records meant for a reply: the answers, then what a client asks for next. */
  function Intended(h: Host, questions: seq<Question>): (seq<Record>, seq<Record>) {
    var w := Answered(h, questions);
    (RecordSet(h, w), RecordSet(h, Extra(h, w)))
  }

  lemma IntendedProper(h: Host, questions: seq<Question>)
    requires ProperHost(h)
    ensures var (answers, additional) := Intended(h, questions);
      forall i :: 0 <= i < |answers + additional| ==> Proper((answers + additional)[i])
  {
    var w := Answered(h, questions);
    forall i | 0 <= i < |RecordSet(h, w)| ensures Proper(RecordSet(h, w)[i]) { RecordSetProper(h, w, i); }
    forall i | 0 <= i < |RecordSet(h, Extra(h, w))| ensures Proper(RecordSet(h, Extra(h, w))[i]) { RecordSetProper(h, Extra(h, w), i); }
  }

  /**
   * The reply to a querier on the multicast port, read by whoever it goes to,
   * yields the intended records in order, up to the first that did not fit.
   */
  lemma ReplyIsRead(h: Host, frame: seq<byte>, me: seq<byte>)
    requires ProperHost(h) && me != NO_IP && me != h.ip
    requires Handle(h, frame).Some?
    requires var d := Receive(h.ip, frame).value; d.sport == MDNS_PORT && (d.toGroup || me == d.src)
    ensures var d := Receive(h.ip, frame).value;
      var questions := ReadQuestions(d.msg, DNS_HEADER, At(d.msg, 4), MAX_QUESTIONS).value;
      var (answers, additional) := Intended(h, questions);
      var sent := Sent(Header(0, 0, 0, 0), answers, additional, Mode(false, false));
      && sent != [] && sent <= answers + additional
      && Read(me, Handle(h, frame).value) == Some(ExpectedAll(sent, Mode(false, false)))
  {
    var d := Receive(h.ip, frame).value;
    var questions := ReadQuestions(d.msg, DNS_HEADER, At(d.msg, 4), MAX_QUESTIONS).value;
    var (answers, additional) := Intended(h, questions);
    var m := Mode(false, false);
    IntendedProper(h, questions);
    AssembledBytes(0, answers, additional, m);
    if d.toGroup {
      ResponseRoundTrip(h, answers, additional, m, GROUP_MAC, GROUP_IP, me);
    } else {
      ResponseRoundTrip(h, answers, additional, m, frame[6..12], d.src, me);
    }
  }
}
