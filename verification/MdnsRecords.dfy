/** Resource records: how they are written, how a querier reads them, and that it reads what was written. */
module MdnsRecords {
  import opened Bytes
  import opened Checksum
  import opened MdnsNames

  const T_A := 1
  const T_PTR := 12
  const T_TXT := 16
  const T_SRV := 33
  const C_IN := 1
  const C_TOP := 0x8000
  const LEGACY_TTL := 10
  const TTL_MAX := 0x1_0000_0000

  type Word = w: int | 0 <= w < 0x1_0000

  datatype Data =
    | Address(ip: seq<byte>)
    | Pointer(name: seq<Label>)
    | Service(port: Word, target: seq<Label>)
    | Text

  datatype Record = Record(name: seq<Label>, unique: bool, ttl: nat, data: Data)

  /** What makes a message special: short lives for a legacy resolver, none in a goodbye. */
  datatype Mode = Mode(legacy: bool, goodbye: bool)

  function Word16(v: nat): (s: seq<byte>)
    ensures |s| == 2
  {
    [v / 256 % 256, v % 256]
  }

  function TypeOf(d: Data): Word {
    match d
    case Address(_) => T_A
    case Pointer(_) => T_PTR
    case Service(_, _) => T_SRV
    case Text => T_TXT
  }

  function DataBytes(d: Data): seq<byte> {
    match d
    case Address(ip) => ip
    case Pointer(name) => Wire(name)
    case Service(port, target) => Word16(0) + Word16(0) + Word16(port) + Wire(target)
    case Text => [0]
  }

  function Ttl(r: Record, m: Mode): nat {
    if m.goodbye then 0 else if m.legacy && r.ttl > LEGACY_TTL then LEGACY_TTL else r.ttl
  }

  function Class(r: Record, m: Mode): Word { if r.unique && !m.legacy then C_IN + C_TOP else C_IN }

  /** A record's type, class and TTL, as they stand behind its name. */
  function Fixed(kind: nat, cls: nat, ttl: nat): (s: seq<byte>)
    ensures |s| == 8
  {
    Word16(kind) + Word16(cls) + Word16(ttl / TWO_16) + Word16(ttl)
  }

  function Layout(name: seq<byte>, fixed: seq<byte>, data: seq<byte>): seq<byte> {
    name + fixed + Word16(|data|) + data
  }

  function Encode(r: Record, m: Mode): seq<byte> {
    Layout(Wire(r.name), Fixed(TypeOf(r.data), Class(r, m), Ttl(r, m)), DataBytes(r.data))
  }

  function EncodeAll(records: seq<Record>, m: Mode): seq<byte> {
    if records == [] then [] else Encode(records[0], m) + EncodeAll(records[1..], m)
  }

  // ---- reading ----

  /** A record as a querier sees it, names in wire form; fields its type does not have stay empty. */
  datatype Answer = Answer(name: seq<byte>, kind: Word, ttl: nat, target: seq<byte>, port: Word, ip: seq<byte>)

  datatype Cursor = Cursor(off: nat, left: nat)

  function At(msg: seq<byte>, off: nat): (r: Word)
    requires off + 1 < |msg|
  {
    WordBound(msg[off], msg[off + 1]);
    Pair(msg[off], msg[off + 1])
  }

  lemma WordBound(high: byte, low: byte)
    ensures Pair(high, low) < TWO_16
  {
  }

  /** The data of a record of class IN, between data and end, or None when it is malformed. */
  function ReadData(msg: seq<byte>, name: seq<byte>, kind: Word, ttl: nat, data: nat, end: nat): Option<Answer>
    requires data <= end <= |msg|
  {
    if kind == T_PTR then
      match NameAt(msg, data)
      case None => None
      case Some((past, target)) => if past > end then None else Some(Answer(name, kind, ttl, target, 0, [0, 0, 0, 0]))
    else if kind == T_SRV then
      if end - data < 7 then None
      else
        match NameAt(msg, data + 6)
        case None => None
        case Some((past, target)) =>
          if past > end then None else Some(Answer(name, kind, ttl, target, At(msg, data + 4), [0, 0, 0, 0]))
    else if kind == T_A then
      if end - data != 4 then None else Some(Answer(name, kind, ttl, [0], 0, msg[data..end]))
    else Some(Answer(name, kind, ttl, [0], 0, [0, 0, 0, 0]))
  }

  /** One record: malformed, of a class to pass over, or read; and where it ends. */
  datatype Parsed = Bad(end: nat) | Skipped(end: nat) | Good(answer: Answer, end: nat)

  function Parse(msg: seq<byte>, off: nat): Parsed {
    match NameAt(msg, off)
    case None => Bad(off)
    case Some((at, name)) =>
      if at + 10 > |msg| then Bad(off)
      else
        var end := at + 10 + At(msg, at + 8);
        if end > |msg| then Bad(off)
        else if At(msg, at + 2) % C_TOP != C_IN then Skipped(end)
        else
          match ReadData(msg, name, At(msg, at), At(msg, at + 4) * TWO_16 + At(msg, at + 6), at + 10, end)
          case None => Bad(end)
          case Some(answer) => Good(answer, end)
  }

  /** The next record of class IN, and where reading goes on; after the last or a malformed one, nothing is left. */
  function NextRecord(msg: seq<byte>, c: Cursor): (Option<Answer>, Cursor)
    decreases c.left
  {
    if c.left == 0 then (None, c)
    else
      match Parse(msg, c.off)
      case Bad(end) => (None, Cursor(end, 0))
      case Skipped(end) => NextRecord(msg, Cursor(end, c.left - 1))
      case Good(answer, end) => (Some(answer), Cursor(end, c.left - 1))
  }

  function ReadAll(msg: seq<byte>, c: Cursor): seq<Answer>
    decreases c.left
  {
    var (answer, next) := NextRecord(msg, c);
    if answer.None? || next.left >= c.left then [] else [answer.value] + ReadAll(msg, next)
  }

  // ---- what was written is read ----

  /** What a querier should see of a record. */
  function Expected(r: Record, m: Mode): Answer {
    Answer(
      Wire(r.name), TypeOf(r.data), Ttl(r, m),
      match r.data { case Pointer(name) => Wire(name) case Service(_, target) => Wire(target) case _ => [0] },
      if r.data.Service? then r.data.port else 0,
      if r.data.Address? then r.data.ip else [0, 0, 0, 0])
  }

  predicate ShortName(name: seq<Label>) { |Wire(name)| <= 255 }

  predicate Proper(r: Record) {
    && ShortName(r.name) && r.ttl < TTL_MAX
    && match r.data
       case Address(ip) => |ip| == 4
       case Pointer(name) => ShortName(name)
       case Service(_, target) => ShortName(target)
       case Text => true
  }

  lemma AtOfWord(msg: seq<byte>, off: nat, v: nat)
    requires off + 2 <= |msg| && msg[off..off + 2] == Word16(v)
    ensures At(msg, off) == v % TWO_16
  {
    assert msg[off] == msg[off..off + 2][0] && msg[off + 1] == msg[off..off + 2][1];
    PairOfWord(v);
  }

  lemma PairOfWord(v: nat)
    ensures Pair(v / 256 % 256, v % 256) == v % TWO_16
  {
  }

  lemma PairOfSmall(v: Word)
    ensures Pair(v / 256 % 256, v % 256) == v
  {
    PairOfWord(v);
  }

  /** A part of a message that starts with known bytes. */
  ghost predicate Holds(msg: seq<byte>, off: nat, s: seq<byte>) {
    off + |s| <= |msg| && msg[off..off + |s|] == s
  }

  lemma HoldsParts(msg: seq<byte>, off: nat, a: seq<byte>, b: seq<byte>)
    requires Holds(msg, off, a + b)
    ensures Holds(msg, off, a) && Holds(msg, off + |a|, b)
  {
    assert msg[off..off + |a|] == msg[off..off + |a + b|][..|a|];
    assert msg[off + |a|..off + |a + b|] == msg[off..off + |a + b|][|a|..];
  }

  lemma HoldsLow(msg: seq<byte>, off: nat, v: nat, rest: seq<byte>)
    requires Holds(msg, off, Word16(v) + rest)
    ensures off + 2 <= |msg| && At(msg, off) == v % TWO_16 && Holds(msg, off + 2, rest)
  {
    HoldsParts(msg, off, Word16(v), rest);
    AtOfWord(msg, off, v);
  }

  lemma HoldsWord(msg: seq<byte>, off: nat, v: Word, rest: seq<byte>)
    requires Holds(msg, off, Word16(v) + rest)
    ensures off + 2 <= |msg| && At(msg, off) == v && Holds(msg, off + 2, rest)
  {
    HoldsLow(msg, off, v, rest);
  }

  /** What a record's fixed part says, as a reader finds it. */
  ghost predicate FixedAt(msg: seq<byte>, at: nat, kind: Word, cls: Word, ttl: nat, n: nat) {
    && at + 10 <= |msg| && At(msg, at) == kind && At(msg, at + 2) == cls
    && At(msg, at + 4) * TWO_16 + At(msg, at + 6) == ttl && At(msg, at + 8) == n
  }

  lemma FixedIsRead(msg: seq<byte>, at: nat, kind: Word, cls: Word, ttl: nat, rest: seq<byte>)
    requires ttl < TTL_MAX && Holds(msg, at, Fixed(kind, cls, ttl) + rest)
    ensures at + 8 <= |msg| && At(msg, at) == kind && At(msg, at + 2) == cls
    ensures At(msg, at + 4) * TWO_16 + At(msg, at + 6) == ttl
  {
    var w0, w1, w2, w3 := Word16(kind), Word16(cls), Word16(ttl / TWO_16), Word16(ttl);
    assert Fixed(kind, cls, ttl) + rest == w0 + (w1 + (w2 + (w3 + rest)));
    HoldsWord(msg, at, kind, w1 + (w2 + (w3 + rest)));
    HoldsWord(msg, at + 2, cls, w2 + (w3 + rest));
    HoldsWord(msg, at + 4, ttl / TWO_16, w3 + rest);
    HoldsLow(msg, at + 6, ttl, rest);
  }

  lemma NameIsRead(msg: seq<byte>, off: nat, name: seq<Label>)
    requires ShortName(name) && Holds(msg, off, Wire(name))
    ensures NameAt(msg, off) == Some((off + |Wire(name)|, Wire(name)))
  {
    NameRoundTrip(msg, off, name);
  }

  lemma DataIsRead(msg: seq<byte>, r: Record, m: Mode, data: nat)
    requires Proper(r) && Holds(msg, data, DataBytes(r.data))
    ensures ReadData(msg, Wire(r.name), TypeOf(r.data), Ttl(r, m), data, data + |DataBytes(r.data)|) == Some(Expected(r, m))
  {
    match r.data
    case Address(ip) =>
    case Pointer(name) => NameIsRead(msg, data, name);
    case Service(port, target) => ServiceIsRead(msg, port, target, data);
    case Text =>
  }

  lemma ServiceIsRead(msg: seq<byte>, port: Word, target: seq<Label>, data: nat)
    requires ShortName(target) && Holds(msg, data, DataBytes(Service(port, target)))
    ensures At(msg, data + 4) == port && |DataBytes(Service(port, target))| == 6 + |Wire(target)|
    ensures NameAt(msg, data + 6) == Some((data + 6 + |Wire(target)|, Wire(target)))
  {
    assert DataBytes(Service(port, target)) == Word16(0) + (Word16(0) + (Word16(port) + Wire(target)));
    HoldsWord(msg, data, 0, Word16(0) + (Word16(port) + Wire(target)));
    HoldsWord(msg, data + 2, 0, Word16(port) + Wire(target));
    HoldsWord(msg, data + 4, port, Wire(target));
    NameIsRead(msg, data + 6, target);
  }

  lemma DataLength(r: Record)
    requires Proper(r)
    ensures 0 < |DataBytes(r.data)| < TWO_16
  {
  }

  /** Where a record's parts lie and what they hold. */
  lemma PartsAreRead(msg: seq<byte>, off: nat, name: seq<byte>, kind: Word, cls: Word, ttl: nat, data: seq<byte>)
    requires ttl < TTL_MAX && |data| < TWO_16 && Holds(msg, off, Layout(name, Fixed(kind, cls, ttl), data))
    ensures var at := off + |name|;
      && at + 10 + |data| == off + |Layout(name, Fixed(kind, cls, ttl), data)| <= |msg|
      && Holds(msg, off, name) && Holds(msg, at + 10, data) && FixedAt(msg, at, kind, cls, ttl, |data|)
  {
    var fixed := Fixed(kind, cls, ttl);
    assert Layout(name, fixed, data) == name + (fixed + (Word16(|data|) + data));
    HoldsParts(msg, off, name, fixed + (Word16(|data|) + data));
    FixedIsRead(msg, off + |name|, kind, cls, ttl, Word16(|data|) + data);
    HoldsParts(msg, off + |name|, fixed, Word16(|data|) + data);
    HoldsWord(msg, off + |name| + 8, |data|, data);
  }

  /** A record whose data can be read is parsed from its layout. */
  lemma LayoutIsParsed(msg: seq<byte>, off: nat, name: seq<Label>, kind: Word, cls: Word, ttl: nat, data: seq<byte>, answer: Answer)
    requires ShortName(name) && ttl < TTL_MAX && |data| < TWO_16 && cls % C_TOP == C_IN
    requires Holds(msg, off, Layout(Wire(name), Fixed(kind, cls, ttl), data))
    requires var at := off + |Wire(name)|;
      at + 10 + |data| <= |msg| && ReadData(msg, Wire(name), kind, ttl, at + 10, at + 10 + |data|) == Some(answer)
    ensures Parse(msg, off) == Good(answer, off + |Layout(Wire(name), Fixed(kind, cls, ttl), data)|)
  {
    PartsAreRead(msg, off, Wire(name), kind, cls, ttl, data);
    NameIsRead(msg, off, name);
    ParsedFromParts(msg, off, off + |Wire(name)|, Wire(name), kind, cls, ttl, |data|, answer);
  }

  lemma ParsedFromParts(msg: seq<byte>, off: nat, at: nat, name: seq<byte>, kind: Word, cls: Word, ttl: nat, n: nat, answer: Answer)
    requires NameAt(msg, off) == Some((at, name)) && at + 10 + n <= |msg| && cls % C_TOP == C_IN
    requires FixedAt(msg, at, kind, cls, ttl, n)
    requires ReadData(msg, name, kind, ttl, at + 10, at + 10 + n) == Some(answer)
    ensures Parse(msg, off) == Good(answer, at + 10 + n)
  {
  }

  lemma ClassIsIn(r: Record, m: Mode)
    ensures Class(r, m) % C_TOP == C_IN
  {
  }

  lemma RecordIsParsed(msg: seq<byte>, off: nat, r: Record, m: Mode)
    requires Proper(r) && Holds(msg, off, Encode(r, m))
    ensures Parse(msg, off) == Good(Expected(r, m), off + |Encode(r, m)|)
  {
    DataLength(r);
    ClassIsIn(r, m);
    PartsAreRead(msg, off, Wire(r.name), TypeOf(r.data), Class(r, m), Ttl(r, m), DataBytes(r.data));
    DataIsRead(msg, r, m, off + |Wire(r.name)| + 10);
    LayoutIsParsed(msg, off, r.name, TypeOf(r.data), Class(r, m), Ttl(r, m), DataBytes(r.data), Expected(r, m));
  }

  /** A record written anywhere in a message is read back as it was, and reading goes on behind it. */
  lemma RecordRoundTrip(msg: seq<byte>, c: Cursor, r: Record, m: Mode)
    requires Proper(r) && c.left > 0 && Holds(msg, c.off, Encode(r, m))
    ensures NextRecord(msg, c) == (Some(Expected(r, m)), Cursor(c.off + |Encode(r, m)|, c.left - 1))
  {
    RecordIsParsed(msg, c.off, r, m);
  }

  function ExpectedAll(records: seq<Record>, m: Mode): seq<Answer> {
    if records == [] then [] else [Expected(records[0], m)] + ExpectedAll(records[1..], m)
  }

  /** Records written one after another are read back in order. */
  lemma {:induction false} RecordsRoundTrip(msg: seq<byte>, c: Cursor, records: seq<Record>, m: Mode)
    requires (forall i :: 0 <= i < |records| ==> Proper(records[i])) && c.left == |records|
    requires Holds(msg, c.off, EncodeAll(records, m))
    ensures ReadAll(msg, c) == ExpectedAll(records, m)
    decreases |records|
  {
    if records != [] {
      var first := Encode(records[0], m);
      HoldsParts(msg, c.off, first, EncodeAll(records[1..], m));
      RecordRoundTrip(msg, c, records[0], m);
      RecordsRoundTrip(msg, Cursor(c.off + |first|, c.left - 1), records[1..], m);
    }
  }
}
