/** The responder and the querier as they run: loops over services and questions, a write and a read cursor. */
module MdnsState {
  import opened Bytes
  import opened Checksum
  import opened MdnsNames
  import opened MdnsRecords
  import opened MdnsMessage
  import opened MdnsReply
  import opened MdnsExchange
  import opened MdnsAnswer

  lemma {:induction false} PutAllConcat(g: Message, a: seq<Record>, b: seq<Record>, m: Mode)
    ensures PutAll(g, a + b, m) == PutAll(PutAll(g, a, m), b, m)
    decreases |a|
  {
    if a == [] {
      assert a + b == b;
    } else {
      assert (a + b)[1..] == a[1..] + b;
      PutAllConcat(Put(g, a[0], m), a[1..], b, m);
    }
  }

  lemma PutOne(g: Message, r: Record, m: Mode)
    ensures PutAll(g, [r], m) == Put(g, r, m) && PutAll(g, [], m) == g
  {
    assert [r][1..] == [];
    assert PutAll(Put(g, r, m), [], m) == Put(g, r, m);
  }

  lemma DataIsShort(h: Host, s: Slot)
    requires ProperHost(h) && InHost(h, s)
    ensures |DataBytes(RecordOf(h, s).data)| < TWO_16
  {
    RecordsAreProper(h, if s.HostA? then Offer(0, LOCAL, LOCAL) else h.offers[s.i]);
    DataLength(RecordOf(h, s));
  }

  /** One record, if it is wanted. */
  method WriteOne(g: Writer, h: Host, w: set<Slot>, s: Slot)
    requires g.Valid() && ProperHost(h) && InHost(h, s)
    modifies g, g.buf
    ensures g.Valid() && g.Abstract() == PutAll(old(g.Abstract()), One(h, w, s), g.mode)
  {
    PutOne(g.Abstract(), RecordOf(h, s), g.mode);
    if s in w {
      DataIsShort(h, s);
      g.WriteRecord(RecordOf(h, s));
    }
  }

  method WriteMeta(g: Writer, h: Host, w: set<Slot>)
    requires g.Valid() && ProperHost(h)
    modifies g, g.buf
    ensures g.Valid() && g.Abstract() == PutAll(old(g.Abstract()), MetaSet(h, w, |h.offers|), g.mode)
  {
    ghost var start := g.Abstract();
    var i, n := 0, |h.offers|;
    NoMeta(h, w, start, g.mode, i);
    while i < n
      invariant i <= n && g.Valid() && g.Abstract() == PutAll(start, MetaSet(h, w, i), g.mode)
    {
      MetaNext(h, w, start, g.mode, i);
      WriteOne(g, h, w, Meta(i));
      i := i + 1;
    }
  }

  lemma NoMeta(h: Host, w: set<Slot>, g: Message, m: Mode, n: nat)
    requires n == 0
    ensures PutAll(g, MetaSet(h, w, n), m) == g
  {
    PutAllNone(g, m);
  }

  lemma MetaNext(h: Host, w: set<Slot>, g: Message, m: Mode, i: nat)
    requires i < |h.offers|
    ensures PutAll(PutAll(g, MetaSet(h, w, i), m), One(h, w, Meta(i)), m) == PutAll(g, MetaSet(h, w, i + 1), m)
  {
    PutAllConcat(g, MetaSet(h, w, i), One(h, w, Meta(i)), m);
  }

  lemma ServiceNext(h: Host, w: set<Slot>, g: Message, m: Mode, i: nat)
    requires i < |h.offers|
    ensures PutAll(PutAll(g, ServiceSet(h, w, i), m), ServiceOf(h, w, i), m) == PutAll(g, ServiceSet(h, w, i + 1), m)
  {
    PutAllConcat(g, ServiceSet(h, w, i), ServiceOf(h, w, i), m);
  }

  lemma PutAllNone(g: Message, m: Mode)
    ensures PutAll(g, [], m) == g
  {
  }

  lemma PutThree(g: Message, a: seq<Record>, b: seq<Record>, c: seq<Record>, m: Mode)
    ensures PutAll(PutAll(PutAll(g, a, m), b, m), c, m) == PutAll(g, a + b + c, m)
  {
    PutAllConcat(g, a, b, m);
    PutAllConcat(g, a + b, c, m);
  }

  method WriteService(g: Writer, h: Host, w: set<Slot>, i: nat)
    requires g.Valid() && ProperHost(h) && i < |h.offers|
    modifies g, g.buf
    ensures g.Valid() && g.Abstract() == PutAll(old(g.Abstract()), ServiceOf(h, w, i), g.mode)
  {
    PutThree(g.Abstract(), One(h, w, Ptr(i)), One(h, w, Srv(i)), One(h, w, Txt(i)), g.mode);
    WriteOne(g, h, w, Ptr(i));
    WriteOne(g, h, w, Srv(i));
    WriteOne(g, h, w, Txt(i));
  }

  /** The records of the first n services have gone into start. */
  ghost predicate Written(g: Message, start: Message, h: Host, w: set<Slot>, n: nat, m: Mode) {
    n <= |h.offers| && g == PutAll(start, ServiceSet(h, w, n), m)
  }

  method WriteNext(g: Writer, h: Host, w: set<Slot>, i: nat, ghost start: Message)
    requires g.Valid() && ProperHost(h) && i < |h.offers| && Written(g.Abstract(), start, h, w, i, g.mode)
    modifies g, g.buf
    ensures g.Valid() && Written(g.Abstract(), start, h, w, i + 1, g.mode)
  {
    ServiceNext(h, w, start, g.mode, i);
    WriteService(g, h, w, i);
  }

  lemma NoServices(h: Host, w: set<Slot>, g: Message, m: Mode, n: nat)
    requires n == 0
    ensures PutAll(g, ServiceSet(h, w, n), m) == g
  {
    PutAllNone(g, m);
  }

  method WriteServices(g: Writer, h: Host, w: set<Slot>)
    requires g.Valid() && ProperHost(h)
    modifies g, g.buf
    ensures g.Valid() && g.Abstract() == PutAll(old(g.Abstract()), ServiceSet(h, w, |h.offers|), g.mode)
  {
    ghost var start := g.Abstract();
    NoServices(h, w, start, g.mode, 0);
    var i := 0;
    while i < |h.offers|
      invariant i <= |h.offers| && g.Valid() && Written(g.Abstract(), start, h, w, i, g.mode)
    {
      WriteNext(g, h, w, i, start);
      i := i + 1;
    }
    AllWritten(g.Abstract(), start, h, w, i, g.mode);
  }

  lemma AllWritten(g: Message, start: Message, h: Host, w: set<Slot>, n: nat, m: Mode)
    requires Written(g, start, h, w, n, m) && n == |h.offers|
    ensures g == PutAll(start, ServiceSet(h, w, |h.offers|), m)
  {
  }

  method WriteSet(g: Writer, h: Host, w: set<Slot>)
    requires g.Valid() && ProperHost(h)
    modifies g, g.buf
    ensures g.Valid() && g.Abstract() == PutAll(old(g.Abstract()), RecordSet(h, w), g.mode)
  {
    ghost var start := g.Abstract();
    var n := |h.offers|;
    PutAllConcat(start, One(h, w, HostA), MetaSet(h, w, n), g.mode);
    PutAllConcat(start, One(h, w, HostA) + MetaSet(h, w, n), ServiceSet(h, w, n), g.mode);
    WriteOne(g, h, w, HostA);
    WriteMeta(g, h, w);
    WriteServices(g, h, w);
  }

  // ---- matching ----

  predicate Wants(h: Host, q: Question, s: Slot) { Owned(h, s) && Asks(q, RecordOf(h, s)) }

  method IsFirstOfType(h: Host, i: nat) returns (first: bool)
    requires i < |h.offers|
    ensures first == FirstOfType(h, i)
  {
    var seen := false;
    for j := 0 to i
      invariant seen <==> exists k :: 0 <= k < j && h.offers[k].kind == h.offers[i].kind
    {
      seen := seen || h.offers[i].kind == h.offers[j].kind;
    }
    first := !seen;
  }

  /** What of one service a question asks for; types says whether it asks for the types there are. */
  method MatchService(h: Host, q: Question, i: nat, types: bool) returns (w: set<Slot>)
    requires i < |h.offers| && Answerable(q) && types == (AsksType(q, T_PTR) && NameEq(q.name, MetaName()))
    ensures forall s :: s in w <==> Wants(h, q, s) && !s.HostA? && s.i == i
  {
    var offer := h.offers[i];
    var first := IsFirstOfType(h, i);
    var meta := types && first;
    var ptr := AsksType(q, T_PTR) && NameEq(q.name, TypeName(offer));
    var instance := NameEq(q.name, InstanceName(offer));
    var srv, txt := instance && AsksType(q, T_SRV), instance && AsksType(q, T_TXT);
    w := Chosen(i, meta, ptr, srv, txt);
    assert meta == Wants(h, q, Meta(i));
    assert ptr == Wants(h, q, Ptr(i));
    assert srv == Wants(h, q, Srv(i));
    assert txt == Wants(h, q, Txt(i));
    ChosenIff(h, q, i);
  }

  function Chosen(i: nat, meta: bool, ptr: bool, srv: bool, txt: bool): set<Slot> {
    (if meta then {Meta(i)} else {}) + (if ptr then {Ptr(i)} else {}) + (if srv then {Srv(i)} else {}) + (if txt then {Txt(i)} else {})
  }

  lemma ChosenIff(h: Host, q: Question, i: nat)
    ensures forall s :: s in Chosen(i, Wants(h, q, Meta(i)), Wants(h, q, Ptr(i)), Wants(h, q, Srv(i)), Wants(h, q, Txt(i)))
                        <==> Wants(h, q, s) && !s.HostA? && s.i == i
  {
  }

  /** The records asked for, by their names: the address, then service by service. */
  method MatchQuestion(h: Host, q: Question) returns (w: set<Slot>)
    ensures w == Matched(h, q)
  {
    w := {};
    if !Answerable(q) { return; }
    if AsksType(q, T_A) && NameEq(q.name, HostName(h)) { w := {HostA}; }
    var types := AsksType(q, T_PTR) && NameEq(q.name, MetaName());
    for i := 0 to |h.offers|
      invariant forall s :: s in w <==> Wants(h, q, s) && (s.HostA? || s.i < i)
    {
      var part := MatchService(h, q, i, types);
      w := w + part;
    }
  }

  // ---- the reply ----

  method ExtraSlots(h: Host, w: set<Slot>) returns (extra: set<Slot>)
    ensures extra == Extra(h, w)
  {
    extra := {};
    var any := false;
    for i := 0 to |h.offers|
      invariant any <==> exists k :: 0 <= k < i && (Ptr(k) in w || Srv(k) in w)
      invariant extra == (set k | 0 <= k < i && Ptr(k) in w && Srv(k) !in w :: Srv(k))
        + (set k | 0 <= k < i && Ptr(k) in w && Txt(k) !in w :: Txt(k))
    {
      if Ptr(i) in w && Srv(i) !in w { extra := extra + {Srv(i)}; }
      if Ptr(i) in w && Txt(i) !in w { extra := extra + {Txt(i)}; }
      if Ptr(i) in w || Srv(i) in w { any := true; }
    }
    if HostA !in w && any { extra := extra + {HostA}; }
  }

  // ---- a frame's own bytes ----

  /** Puts bytes behind those already in place; what comes after them stays. */
  method Store(out: array<byte>, at: nat, s: seq<byte>)
    requires at + |s| <= out.Length
    modifies out
    ensures out[..at + |s|] == old(out[..at]) + s
    ensures forall k :: at + |s| <= k < out.Length ==> out[k] == old(out[k])
  {
    for i := 0 to |s|
      invariant out[..at + i] == old(out[..at]) + s[..i]
      invariant forall k :: at + |s| <= k < out.Length ==> out[k] == old(out[k])
    {
      out[at + i] := s[i];
      assert out[..at + i + 1] == old(out[..at]) + s[..i] + [s[i]];
    }
  }

  method StoreIpHeader(out: array<byte>, h: Host, total: nat, ip: seq<byte>)
    requires ProperHost(h) && |ip| == 4 && out.Length >= 34
    modifies out
    ensures out[14..34] == IpHeader(h, total, ip)
    ensures forall k :: 0 <= k < 14 || 34 <= k < out.Length ==> out[k] == old(out[k])
  {
    Store(out, 14, [0x45, 0]);
    Store(out, 16, Word16(total));
    Store(out, 18, Word16(h.ipId));
    Store(out, 20, Word16(0));
    Store(out, 22, [255, 17]);
    Store(out, 24, Word16(0));
    Store(out, 26, h.ip);
    Store(out, 30, ip);
    assert out[..34] == old(out[..14]) + IpHeader(h, total, ip);
    assert out[14..34] == out[..34][14..];
    forall k | 0 <= k < 14 ensures out[k] == old(out[k]) { assert out[k] == out[..34][k]; }
  }

  method StoreUdpHeader(out: array<byte>, port: nat, length: nat)
    requires out.Length >= HEADERS
    modifies out
    ensures out[34..HEADERS] == UdpHeader(port, length)
    ensures forall k :: 0 <= k < 34 || HEADERS <= k < out.Length ==> out[k] == old(out[k])
  {
    Store(out, 34, Word16(MDNS_PORT));
    Store(out, 36, Word16(port));
    Store(out, 38, Word16(length));
    Store(out, 40, Word16(0));
    assert out[..HEADERS] == old(out[..34]) + UdpHeader(port, length);
    assert out[34..HEADERS] == out[..HEADERS][34..];
    forall k | 0 <= k < 34 ensures out[k] == old(out[k]) { assert out[k] == out[..HEADERS][k]; }
  }

  /** The headers in front of the message the writer holds: its buffer becomes the frame. */
  method WrapFrame(g: Writer, h: Host, mac: seq<byte>, ip: seq<byte>, port: nat) returns (n: nat)
    requires g.Valid() && ProperHost(h) && |mac| == 6 && |ip| == 4
    modifies g.buf
    ensures n == HEADERS + g.len && g.buf[..n] == Wrap(h, old(g.Bytes()), mac, ip, port)
  {
    ghost var msg := g.Bytes();
    n := HEADERS + g.len;
    ghost var eth := mac + h.mac + [0x08, 0x00];
    ghost var iph := IpHeader(h, 28 + g.len, ip);
    StoreEthernet(g.buf, mac, h.mac);
    StoreIpHeader(g.buf, h, 28 + g.len, ip);
    StoreChecksum(g.buf);
    StoreUdpHeader(g.buf, port, 8 + g.len);
    assert g.Bytes() == msg;
    FrameOf(g.buf[..], n, eth, SetWord(iph, 10, Cksum(iph)), UdpHeader(port, 8 + g.len), msg);
  }

  method StoreEthernet(out: array<byte>, mac: seq<byte>, own: seq<byte>)
    requires |mac| == |own| == 6 && out.Length >= 14
    modifies out
    ensures out[..14] == mac + own + [0x08, 0x00] && forall k :: 14 <= k < out.Length ==> out[k] == old(out[k])
  {
    Store(out, 0, mac);
    Store(out, 6, own);
    Store(out, 12, [0x08, 0x00]);
  }

  method StoreChecksum(out: array<byte>)
    requires out.Length >= 34
    modifies out
    ensures var iph := old(out[14..34]); out[14..34] == SetWord(iph, 10, Cksum(iph))
    ensures forall k :: 0 <= k < out.Length && k != 24 && k != 25 ==> out[k] == old(out[k])
  {
    var sum := InetCksum(out, 14, 20);
    out[24], out[25] := sum / 256 % 256, sum % 256;
  }

  lemma FrameOf(f: seq<byte>, n: nat, eth: seq<byte>, iph: seq<byte>, udp: seq<byte>, msg: seq<byte>)
    requires HEADERS <= n <= |f|
    requires f[..14] == eth && f[14..34] == iph && f[34..HEADERS] == udp && f[HEADERS..n] == msg
    ensures f[..n] == eth + iph + udp + msg
  {
    assert f[..n] == f[..14] + f[14..34] + f[34..HEADERS] + f[HEADERS..n];
  }

  // ---- the message ----

  /** The header of a response, its counts still zero. */
  method BeginMessage(mode: Mode, id: Word) returns (g: Writer)
    ensures g.Valid() && fresh(g) && fresh(g.buf) && g.mode == mode && g.Abstract() == Message(Header(id, 0, 0, 0), false, 0)
  {
    g := new Writer(mode);
    g.Put16(id);
    g.Put16(0x8400);
    assert g.Bytes() == Word16(id) + Word16(0x8400);
    for i := 0 to 4
      invariant g.Valid() && fresh(g) && fresh(g.buf) && g.len == 4 + 2 * i && !g.full && g.count == 0
      invariant g.Bytes() == Word16(id) + Word16(0x8400) + seq(2 * i, _ => 0)
    {
      g.Put16(0);
    }
    assert g.Bytes() == Header(id, 0, 0, 0);
  }

  lemma CutThree(s: seq<byte>, a: seq<byte>, b: seq<byte>, c: seq<byte>)
    ensures Cut(Cut(Cut(s + a) + b) + c) == Cut(s + (a + b + c))
  {
    CutMore(s + a, b);
    CutMore(s + a + b, c);
    assert s + a + b == s + (a + b);
    assert s + (a + b) + c == s + (a + b + c);
  }

  method EchoQuestion(g: Writer, q: Question)
    requires g.Valid()
    modifies g, g.buf
    ensures g.Valid() && g.Appended(q.name + Word16(q.kind) + Word16(q.cls))
  {
    CutThree(g.Bytes(), q.name, Word16(q.kind), Word16(q.cls));
    g.PutBytes(q.name);
    g.Put16(q.kind);
    g.Put16(q.cls);
  }

  lemma EchoNext(start: seq<byte>, questions: seq<Question>, i: nat)
    requires i < |questions|
    ensures var q := questions[i]; var one := q.name + Word16(q.kind) + Word16(q.cls);
      && Cut(Cut(start + Echo(questions[..i])) + one) == Cut(start + Echo(questions[..i + 1]))
      && |Echo(questions[..i + 1])| == |Echo(questions[..i])| + |one|
  {
    var q := questions[i];
    var one := q.name + Word16(q.kind) + Word16(q.cls);
    assert questions[..i + 1][..i] == questions[..i];
    CutMore(start + Echo(questions[..i]), one);
    assert start + Echo(questions[..i]) + one == start + (Echo(questions[..i]) + one);
  }

  /** A legacy resolver gets its questions back. */
  method EchoAll(g: Writer, questions: seq<Question>)
    requires g.Valid()
    modifies g, g.buf
    ensures g.Valid() && g.Appended(Echo(questions))
  {
    ghost var start := g.Bytes();
    assert start + Echo(questions[..0]) == start;
    for i := 0 to |questions|
      invariant g.Valid() && g.Bytes() == Cut(start + Echo(questions[..i])) && g.count == old(g.count)
      invariant g.full == (old(g.full) || old(g.len) + |Echo(questions[..i])| > DNS_MAX)
    {
      EchoNext(start, questions, i);
      EchoQuestion(g, questions[i]);
    }
    assert questions[..|questions|] == questions;
  }

  /** What stands in front of the records, or nothing when it does not fit. */
  method StartMessage(legacy: bool, id: Word, questions: seq<Question>) returns (g: Writer, ok: bool)
    ensures g.Valid() && fresh(g) && fresh(g.buf) && g.mode == Mode(legacy, false)
    ensures ok <==> |Start(legacy, id, questions)| <= DNS_MAX
    ensures ok ==> g.Abstract() == Opened(Start(legacy, id, questions))
  {
    g := BeginMessage(Mode(legacy, false), if legacy then id else 0);
    ok := true;
    if legacy {
      EchoAll(g, questions);
      if g.full { return g, false; }
      QuestionCount(id, |questions|, Echo(questions));
      g.SetNumber(4, |questions|);
    }
  }

  lemma QuestionCount(id: Word, n: nat, rest: seq<byte>)
    ensures Patch(Header(id, 0, 0, 0) + rest, 4, n) == Header(id, n, 0, 0) + rest
  {
  }

  lemma PutPatched(g: Message, r: Record, m: Mode, at: nat, v: nat)
    requires at + 1 < |g.bytes|
    ensures at + 1 < |Put(g, r, m).bytes|
    ensures Put(g.(bytes := Patch(g.bytes, at, v)), r, m) == Put(g, r, m).(bytes := Patch(Put(g, r, m).bytes, at, v))
  {
    assert Patch(g.bytes, at, v) + Encode(r, m) == Patch(g.bytes + Encode(r, m), at, v);
  }

  /** A number written into the header stays there while records go in. */
  lemma {:induction false} PutAllPatched(g: Message, records: seq<Record>, m: Mode, at: nat, v: nat)
    requires at + 1 < |g.bytes|
    ensures at + 1 < |PutAll(g, records, m).bytes|
    ensures var r := PutAll(g, records, m);
      PutAll(g.(bytes := Patch(g.bytes, at, v)), records, m) == r.(bytes := Patch(r.bytes, at, v))
    decreases |records|
  {
    if records != [] {
      PutPatched(g, records[0], m, at, v);
      PutAllPatched(Put(g, records[0], m), records[1..], m, at, v);
    }
  }

  /** The answers behind the first bytes, then what a client asks for next, each section's count in the header. */
  method Build(g: Writer, h: Host, w: set<Slot>) returns (ok: bool)
    requires g.Valid() && ProperHost(h) && g.len >= DNS_HEADER && !g.full && g.count == 0
    modifies g, g.buf
    ensures g.Valid()
    ensures var msg := Assemble(old(g.Bytes()), RecordSet(h, w), RecordSet(h, Extra(h, w)), g.mode);
      (ok <==> msg.Some?) && (ok ==> g.Bytes() == msg.value)
  {
    ghost var start := g.Bytes();
    SectionsGrow(start, RecordSet(h, w), [], g.mode);
    WriteSet(g, h, w);
    if g.count == 0 { return false; }
    ghost var first := g.Abstract();
    assert first == First(start, RecordSet(h, w), g.mode);
    PutAllNone(first.(count := 0), g.mode);
    SectionsGrow(start, RecordSet(h, w), RecordSet(h, Extra(h, w)), g.mode);
    BuildExtra(g, h, w);
    ok := true;
  }

  /** The count of the answers, then what a client asks for next and its count. */
  method BuildExtra(g: Writer, h: Host, w: set<Slot>)
    requires g.Valid() && ProperHost(h) && g.len >= DNS_HEADER
    modifies g, g.buf
    ensures g.Valid()
    ensures var first := old(g.Abstract());
      var rest := PutAll(first.(count := 0), RecordSet(h, Extra(h, w)), g.mode);
      |rest.bytes| >= DNS_HEADER && g.Bytes() == Finished(rest, first.count, rest.count)
  {
    ghost var first := g.Abstract();
    g.SetNumber(6, g.count);
    g.count := 0;
    var extra := ExtraSlots(h, w);
    PutAllPatched(first.(count := 0), RecordSet(h, extra), g.mode, 6, first.count);
    PutAllPrefix(first.(count := 0), RecordSet(h, extra), g.mode);
    WriteSet(g, h, extra);
    g.SetNumber(10, g.count);
  }

  function WithFirst(first: seq<Question>, rest: Option<seq<Question>>): Option<seq<Question>> {
    match rest
    case None => None
    case Some(questions) => Some(first + questions)
  }

  /** What is still to be read, behind the questions read, makes up the goal. */
  ghost predicate Remaining(msg: seq<byte>, c: Cursor, limit: nat, read: seq<Question>, goal: Option<seq<Question>>) {
    WithFirst(read, ReadQuestions(msg, c.off, c.left, limit)) == goal
  }

  method Questions(msg: seq<byte>, count: nat) returns (questions: Option<seq<Question>>)
    ensures questions == ReadQuestions(msg, DNS_HEADER, count, MAX_QUESTIONS)
  {
    var c, limit: nat, read: seq<Question> := Cursor(DNS_HEADER, count), MAX_QUESTIONS, [];
    ghost var goal := AllQuestions(msg, c, limit);
    while c.left != 0 && limit != 0
      invariant Remaining(msg, c, limit, read, goal)
      decreases limit
    {
      var name := new byte[NAME_MAX];
      var at, n := ReadNameInto(msg, c.off, name);
      if at == 0 || at + 4 > |msg| {
        NoQuestion(msg, c, limit, read, goal);
        return None;
      }
      var q := Question(name[..n], At(msg, at), At(msg, at + 2));
      NextQuestion(msg, c, limit, at, q, read, goal);
      c, limit, read := Cursor(at + 4, c.left - 1), limit - 1, read + [q];
    }
    LastQuestion(msg, c, limit, read, goal);
    questions := Some(read);
  }

  lemma AllQuestions(msg: seq<byte>, c: Cursor, limit: nat) returns (goal: Option<seq<Question>>)
    ensures goal == ReadQuestions(msg, c.off, c.left, limit) && Remaining(msg, c, limit, [], goal)
  {
    goal := ReadQuestions(msg, c.off, c.left, limit);
    if goal.Some? { assert [] + goal.value == goal.value; }
  }

  lemma LastQuestion(msg: seq<byte>, c: Cursor, limit: nat, read: seq<Question>, goal: Option<seq<Question>>)
    requires Remaining(msg, c, limit, read, goal) && (c.left == 0 || limit == 0)
    ensures goal == Some(read)
  {
    assert read + [] == read;
  }

  lemma NoQuestion(msg: seq<byte>, c: Cursor, limit: nat, read: seq<Question>, goal: Option<seq<Question>>)
    requires Remaining(msg, c, limit, read, goal) && c.left > 0 && limit > 0
    requires NameAt(msg, c.off).None? || NameAt(msg, c.off).value.0 + 4 > |msg|
    ensures goal == None
  {
  }

  lemma NextQuestion(msg: seq<byte>, c: Cursor, limit: nat, at: nat, q: Question, read: seq<Question>, goal: Option<seq<Question>>)
    requires Remaining(msg, c, limit, read, goal) && c.left > 0 && limit > 0
    requires NameAt(msg, c.off) == Some((at, q.name)) && at + 4 <= |msg| && q.kind == At(msg, at) && q.cls == At(msg, at + 2)
    ensures Remaining(msg, Cursor(at + 4, c.left - 1), limit - 1, read + [q], goal)
  {
    WithOne(read, q, ReadQuestions(msg, at + 4, c.left - 1, limit - 1));
  }

  lemma WithOne(read: seq<Question>, q: Question, rest: Option<seq<Question>>)
    ensures WithFirst(read + [q], rest) == WithFirst(read, WithFirst([q], rest))
  {
    if rest.Some? { assert read + [q] + rest.value == read + ([q] + rest.value); }
  }

  method AnswerAll(h: Host, questions: seq<Question>) returns (w: set<Slot>)
    ensures w == Answered(h, questions)
  {
    w := {};
    for i := 0 to |questions|
      invariant w == Answered(h, questions[..i])
    {
      var part := MatchQuestion(h, questions[i]);
      w := w + part;
      assert questions[..i + 1][..i] == questions[..i];
    }
    assert questions[..|questions|] == questions;
  }

  /** The checks of a received frame, one header after the other. */
  method ReceiveFrame(ip: seq<byte>, frame: seq<byte>) returns (d: Option<Datagram>)
    ensures d == Receive(ip, frame)
  {
    if ip == NO_IP || |frame| < HEADERS + DNS_HEADER || frame[12] != 0x08 || frame[13] != 0x00 { return None; }
    var ihl := frame[14] % 16 * 4;
    var total := At(frame, 16);
    if frame[14] / 16 != 4 || ihl < 20 || frame[23] != 17 || total < ihl + 20 || total > |frame| - 14 { return None; }
    if At(frame, 20) % 0x4000 != 0 { return None; }
    var toGroup := frame[30..34] == GROUP_IP;
    if !toGroup && frame[30..34] != ip { return None; }
    var src := frame[26..30];
    if src == ip { return None; }
    var sport := At(frame, 14 + ihl);
    var ulen := At(frame, 14 + ihl + 4);
    if At(frame, 14 + ihl + 2) != MDNS_PORT || ulen < 20 || ulen > total - ihl { return None; }
    d := Some(Datagram(src, sport, toGroup, frame[22 + ihl..14 + ihl + ulen]));
  }

  /** From a received frame to the reply's frame. */
  method HandleFrame(h: Host, frame: seq<byte>) returns (reply: Option<seq<byte>>)
    requires ProperHost(h)
    ensures reply == Handle(h, frame)
  {
    var received := ReceiveFrame(h.ip, frame);
    if received.None? { return None; }
    var d := received.value;
    var flags := At(d.msg, 2);
    if flags / 0x800 != 0 || flags % 0x10 != 0 { return None; }
    var read := Questions(d.msg, At(d.msg, 4));
    if read.None? { return None; }
    reply := AnswerFrame(h, d, read.value, frame[6..12]);
  }

  /** From the questions to the reply's frame. */
  method AnswerFrame(h: Host, d: Datagram, questions: seq<Question>, mac: seq<byte>) returns (reply: Option<seq<byte>>)
    requires ProperHost(h) && |mac| == 6 && |d.src| == 4 && |d.msg| >= DNS_HEADER
    ensures reply == ReplyTo(h, d, questions, mac)
  {
    var legacy := d.sport != MDNS_PORT;
    var w := AnswerAll(h, questions);
    var g, fits := StartMessage(legacy, At(d.msg, 0), questions);
    if !fits { return None; }
    var some := Build(g, h, w);
    if !some { return None; }
    var n := WrapReply(g, h, mac, d, legacy);
    reply := Some(g.buf[..n]);
  }

  /** A legacy resolver, or one that asked this host alone, is answered alone. */
  method WrapReply(g: Writer, h: Host, mac: seq<byte>, d: Datagram, legacy: bool) returns (n: nat)
    requires g.Valid() && ProperHost(h) && |mac| == 6 && |d.src| == 4
    modifies g.buf
    ensures n <= g.buf.Length && g.buf[..n] ==
      if legacy || !d.toGroup then Wrap(h, old(g.Bytes()), mac, d.src, d.sport)
      else Wrap(h, old(g.Bytes()), GROUP_MAC, GROUP_IP, MDNS_PORT)
  {
    if legacy || !d.toGroup {
      n := WrapFrame(g, h, mac, d.src, d.sport);
    } else {
      n := WrapFrame(g, h, GROUP_MAC, GROUP_IP, MDNS_PORT);
    }
  }

  /** An unsolicited response to the group: the host's address, or a service's records. */
  method AnnounceFrame(h: Host, svc: Option<Offer>, goodbye: bool) returns (frame: Option<seq<byte>>)
    requires ProperHost(h)
    ensures frame == Announce(h, svc, goodbye)
  {
    if h.ip == NO_IP { return None; }
    ghost var records := AnnounceRecords(h, svc, goodbye);
    var g := BeginMessage(Mode(false, goodbye), 0);
    WriteAnnouncement(g, h, svc, goodbye);
    ghost var first := g.Abstract();
    PutAllNone(first.(count := 0), g.mode);
    SectionsGrow(Header(0, 0, 0, 0), records, [], g.mode);
    if g.count == 0 { return None; }
    NoAdditional(first.bytes, Header(0, 0, 0, 0), records, g.mode, first.count);
    g.SetNumber(6, g.count);
    var n := WrapFrame(g, h, GROUP_MAC, GROUP_IP, MDNS_PORT);
    frame := Some(g.buf[..n]);
  }

  /** The second count is zero from the start. */
  lemma NoAdditional(bytes: seq<byte>, start: seq<byte>, records: seq<Record>, m: Mode, count: nat)
    requires start == Header(0, 0, 0, 0) && bytes == First(start, records, m).bytes && |bytes| >= DNS_HEADER
    ensures Patch(Patch(bytes, 6, count), 10, 0) == Patch(bytes, 6, count)
  {
    PutAllPrefix(Opened(start), records, m);
    assert bytes[..DNS_HEADER] == start;
    assert bytes[10] == start[10] == 0 && bytes[11] == start[11] == 0;
  }

  method WriteAnnouncement(g: Writer, h: Host, svc: Option<Offer>, goodbye: bool)
    requires g.Valid() && ProperHost(h) && g.mode == Mode(false, goodbye)
    modifies g, g.buf
    ensures g.Valid() && g.Abstract() == PutAll(old(g.Abstract()), AnnounceRecords(h, svc, goodbye), g.mode)
  {
    ghost var start, done: seq<Record> := g.Abstract(), [];
    PutAllNone(start, g.mode);
    if svc.Some? {
      WriteOffer(g, h, svc.value, start);
      done := [PtrRecord(svc.value), SrvRecord(h, svc.value), TxtRecord(svc.value)];
    }
    if !goodbye {
      WriteShared(g, h, svc, start, done);
      done := done + SharedRecords(h, svc);
    }
    assert done == AnnounceRecords(h, svc, goodbye);
  }

  /** What an announcement has and a goodbye has not. */
  function SharedRecords(h: Host, svc: Option<Offer>): seq<Record> {
    TypeRecords(svc) + [HostRecord(h)]
  }

  method WriteShared(g: Writer, h: Host, svc: Option<Offer>, ghost start: Message, ghost done: seq<Record>)
    requires g.Valid() && ProperHost(h) && g.Abstract() == PutAll(start, done, g.mode)
    modifies g, g.buf
    ensures g.Valid() && g.Abstract() == PutAll(start, done + SharedRecords(h, svc), g.mode)
  {
    WriteType(g, h, svc, start, done);
    RecordsAreModest(h, Offer(0, LOCAL, LOCAL), g.mode);
    WriteModest(g, HostRecord(h), start, done + TypeRecords(svc));
    assert done + TypeRecords(svc) + [HostRecord(h)] == done + SharedRecords(h, svc);
  }

  function TypeRecords(svc: Option<Offer>): seq<Record> { if svc.Some? then [MetaRecord(svc.value)] else [] }

  method WriteType(g: Writer, h: Host, svc: Option<Offer>, ghost start: Message, ghost done: seq<Record>)
    requires g.Valid() && ProperHost(h) && g.Abstract() == PutAll(start, done, g.mode)
    modifies g, g.buf
    ensures g.Valid() && g.Abstract() == PutAll(start, done + TypeRecords(svc), g.mode)
  {
    assert done + [] == done;
    if svc.Some? {
      RecordsAreModest(h, svc.value, g.mode);
      WriteModest(g, MetaRecord(svc.value), start, done);
    }
  }

  /** A service's three own records. */
  method WriteOffer(g: Writer, h: Host, s: Offer, ghost start: Message)
    requires g.Valid() && ProperHost(h) && g.Abstract() == start
    modifies g, g.buf
    ensures g.Valid() && g.Abstract() == PutAll(start, [PtrRecord(s), SrvRecord(h, s), TxtRecord(s)], g.mode)
  {
    RecordsAreModest(h, s, g.mode);
    PutAllNone(start, g.mode);
    WriteModest(g, PtrRecord(s), start, []);
    WriteModest(g, SrvRecord(h, s), start, [PtrRecord(s)]);
    WriteModest(g, TxtRecord(s), start, [PtrRecord(s), SrvRecord(h, s)]);
    assert [PtrRecord(s), SrvRecord(h, s)] + [TxtRecord(s)] == [PtrRecord(s), SrvRecord(h, s), TxtRecord(s)];
  }

  /** One more record behind those already written. */
  method WriteModest(g: Writer, r: Record, ghost start: Message, ghost done: seq<Record>)
    requires g.Valid() && Modest(r, g.mode) && g.Abstract() == PutAll(start, done, g.mode)
    modifies g, g.buf
    ensures g.Valid() && g.Abstract() == PutAll(start, done + [r], g.mode)
  {
    DataLength(r);
    PutAllConcat(start, done, [r], g.mode);
    PutOne(g.Abstract(), r, g.mode);
    g.WriteRecord(r);
  }

  // ---- reading ----

  class Reader {
    const msg: seq<byte>
    var off: nat
    var left: nat

    constructor (msg: seq<byte>, off: nat, left: nat)
      ensures this.msg == msg && Position() == Cursor(off, left)
    {
      this.msg, this.off, this.left := msg, off, left;
    }

    function Position(): Cursor reads this { Cursor(off, left) }

    /** The next record of class IN; None after the last one, or at one that is malformed. */
    method Next() returns (answer: Option<Answer>)
      modifies this
      ensures (answer, Position()) == NextRecord(msg, old(Position()))
    {
      while left != 0
        invariant NextRecord(msg, Position()) == NextRecord(msg, old(Position()))
        decreases left
      {
        match Parse(msg, off)
        case Bad(end) =>
          off, left := end, 0;
          return None;
        case Skipped(end) =>
          off, left := end, left - 1;
        case Good(found, end) =>
          off, left := end, left - 1;
          return Some(found);
      }
      answer := None;
    }
  }
}
