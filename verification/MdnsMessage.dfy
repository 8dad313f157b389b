/**
 * The message writer: bytes put one by one into a frame of limited size, with
 * a record that does not fit taken out again and nothing more going in after it.
 */
module MdnsMessage {
  import opened Bytes
  import opened MdnsNames
  import opened MdnsRecords

  const DNS_MAX := 1472
  /** The Ethernet, IPv4 and UDP headers, for which the frame leaves room in front of the message. */
  const HEADERS := 42

  datatype Message = Message(bytes: seq<byte>, full: bool, count: nat)

  /** A record added whole or, once one does not fit, not at all. */
  function Put(g: Message, r: Record, m: Mode): Message {
    if !g.full && |g.bytes| + |Encode(r, m)| <= DNS_MAX then Message(g.bytes + Encode(r, m), false, g.count + 1)
    else g.(full := true)
  }

  function PutAll(g: Message, records: seq<Record>, m: Mode): Message
    decreases |records|
  {
    if records == [] then g else PutAll(Put(g, records[0], m), records[1..], m)
  }

  /** How many of the records go in. */
  function Fitting(g: Message, records: seq<Record>, m: Mode): (k: nat)
    ensures k <= |records|
    decreases |records|
  {
    if records == [] || Put(g, records[0], m).full then 0 else 1 + Fitting(Put(g, records[0], m), records[1..], m)
  }

  lemma {:induction false} FullStays(g: Message, records: seq<Record>, m: Mode)
    requires g.full
    ensures PutAll(g, records, m) == g
  {
    if records != [] { FullStays(g, records[1..], m); }
  }

  lemma EncodeAllFirst(records: seq<Record>, k: nat, m: Mode)
    requires 0 < k <= |records|
    ensures EncodeAll(records[..k], m) == Encode(records[0], m) + EncodeAll(records[1..][..k - 1], m)
  {
    assert records[..k][1..] == records[1..][..k - 1];
  }

  /** What is known of the message r once the first k of the records went into g. */
  ghost predicate Took(g: Message, records: seq<Record>, m: Mode, k: nat, r: Message) {
    && k <= |records|
    && r.bytes == g.bytes + EncodeAll(records[..k], m)
    && r.count == g.count + k
    && r.full == (g.full || k < |records|)
    && (!g.full && k < |records| ==> |r.bytes| + |Encode(records[k], m)| > DNS_MAX)
  }

  lemma TookNone(g: Message, records: seq<Record>, m: Mode)
    ensures records == [] ==> Took(g, records, m, 0, g)
    ensures records != [] && Put(g, records[0], m).full ==> Took(g, records, m, 0, Put(g, records[0], m))
  {
    assert records[..0] == [] && g.bytes + EncodeAll([], m) == g.bytes;
  }

  lemma TookFirst(g: Message, records: seq<Record>, m: Mode, k: nat, r: Message)
    requires records != [] && !Put(g, records[0], m).full && Took(Put(g, records[0], m), records[1..], m, k, r)
    ensures Took(g, records, m, k + 1, r)
  {
    EncodeAllFirst(records, k + 1, m);
    Assoc(g.bytes, Encode(records[0], m), EncodeAll(records[1..][..k], m));
  }

  lemma Assoc(a: seq<byte>, b: seq<byte>, c: seq<byte>)
    ensures a + b + c == a + (b + c)
  {
  }

  /**
   * What goes in is a prefix of the records, whole, one count for each; the
   * message is full exactly when some record was left out, and the first one
   * left out would not have fitted.
   */
  lemma {:induction false} PutAllPrefix(g: Message, records: seq<Record>, m: Mode)
    ensures Took(g, records, m, Fitting(g, records, m), PutAll(g, records, m))
    decreases |records|
  {
    TookNone(g, records, m);
    if records != [] {
      var h := Put(g, records[0], m);
      if h.full {
        FullStays(h, records[1..], m);
      } else {
        PutAllPrefix(h, records[1..], m);
        TookFirst(g, records, m, Fitting(h, records[1..], m), PutAll(h, records[1..], m));
      }
    }
  }

  lemma {:induction false} PutAllBounded(g: Message, records: seq<Record>, m: Mode)
    requires |g.bytes| <= DNS_MAX
    ensures |PutAll(g, records, m).bytes| <= DNS_MAX
    decreases |records|
  {
    if records != [] { PutAllBounded(Put(g, records[0], m), records[1..], m); }
  }

  // ---- the writer ----

  function Cut(s: seq<byte>): (r: seq<byte>) { if |s| <= DNS_MAX then s else s[..DNS_MAX] }

  lemma CutMore(s: seq<byte>, t: seq<byte>)
    ensures Cut(Cut(s) + t) == Cut(s + t)
  {
  }

  lemma CutKeeps(s: seq<byte>, t: seq<byte>)
    requires |s| <= DNS_MAX
    ensures |s| <= |Cut(s + t)| && Cut(s + t)[..|s|] == s
  {
  }

  /** A message being written where it will stand in its frame. */
  lemma NextByte(start: seq<byte>, s: seq<byte>, i: nat)
    requires i < |s|
    ensures Cut(Cut(start + s[..i]) + [s[i]]) == Cut(start + s[..i + 1])
  {
    CutMore(start + s[..i], [s[i]]);
    assert start + s[..i] + [s[i]] == start + s[..i + 1];
  }

  class Writer {
    const buf: array<byte>
    var len: nat
    var full: bool
    var count: nat
    const mode: Mode

    ghost predicate Valid() reads this { buf.Length == HEADERS + DNS_MAX && len <= DNS_MAX }

    function Bytes(): (s: seq<byte>)
      reads this, buf
      requires Valid()
      ensures |s| == len
    {
      buf[HEADERS..HEADERS + len]
    }

    function Abstract(): Message
      reads this, buf
      requires Valid()
    {
      Message(Bytes(), full, count)
    }

    constructor (mode: Mode)
      ensures Valid() && fresh(buf) && this.mode == mode && Abstract() == Message([], false, 0)
    {
      this.mode := mode;
      buf := new byte[HEADERS + DNS_MAX];
      len, full, count := 0, false, 0;
    }

    /** What a run of single bytes leaves: as many as there is room for. */
    twostate predicate Appended(s: seq<byte>)
      reads this, buf
      requires old(Valid()) && Valid()
    {
      Bytes() == Cut(old(Bytes()) + s) && full == (old(full) || old(len) + |s| > DNS_MAX) && count == old(count)
    }

    method Put8(v: nat)
      requires Valid()
      modifies this, buf
      ensures Valid() && Appended([v % 256])
    {
      if len < DNS_MAX {
        buf[HEADERS + len] := v % 256;
        len := len + 1;
        assert Bytes() == old(Bytes()) + [v % 256];
      } else {
        full := true;
      }
    }

    method PutBytes(s: seq<byte>)
      requires Valid()
      modifies this, buf
      ensures Valid() && Appended(s)
    {
      ghost var start := Bytes();
      assert start + s[..0] == start;
      for i := 0 to |s|
        invariant Valid() && Bytes() == Cut(start + s[..i]) && count == old(count)
        invariant full == (old(full) || old(len) + i > DNS_MAX)
      {
        NextByte(start, s, i);
        Put8(s[i]);
      }
      assert s[..|s|] == s;
    }

    method Put16(v: nat)
      requires Valid()
      modifies this, buf
      ensures Valid() && Appended(Word16(v))
    {
      CutMore(Bytes() + [v / 256 % 256], [v % 256]);
      assert Bytes() + [v / 256 % 256] + [v % 256] == Bytes() + Word16(v);
      Put8(v / 256);
      Put8(v);
    }

    /** Writes a number over two bytes of the message. */
    method SetNumber(at: nat, v: nat)
      requires Valid() && at + 1 < len
      modifies buf
      ensures Valid() && Bytes() == Patch(old(Bytes()), at, v)
    {
      buf[HEADERS + at] := v / 256 % 256;
      buf[HEADERS + at + 1] := v % 256;
    }

    method PutLabel(name: Label)
      requires Valid()
      modifies this, buf
      ensures Valid() && Appended([|name|] + name)
    {
      CutMore(Bytes() + [|name|], name);
      assert Bytes() + [|name|] + name == Bytes() + ([|name|] + name);
      Put8(|name|);
      PutBytes(name);
    }

    method PutName(name: seq<Label>)
      requires Valid()
      modifies this, buf
      ensures Valid() && Appended(Wire(name))
    {
      ghost var start := Bytes();
      assert Body(name[..0]) == [] && start + Body(name[..0]) == start;
      for i := 0 to |name|
        invariant Valid() && Bytes() == Cut(start + Body(name[..i])) && count == old(count)
        invariant full == (old(full) || old(len) + |Body(name[..i])| > DNS_MAX)
      {
        BodyStep(start, name, i);
        PutLabel(name[i]);
      }
      assert name[..|name|] == name;
      LastLabel(start, name);
      Put8(0);
    }

    method BeginRecord(name: seq<Label>, kind: Word, unique: bool, ttl: nat) returns (data: nat)
      requires Valid()
      modifies this, buf
      ensures Valid() && Appended(Head(name, kind, unique, ttl, mode)) && data == len
    {
      var life := if mode.goodbye then 0 else if mode.legacy && ttl > LEGACY_TTL then LEGACY_TTL else ttl;
      var cls := if unique && !mode.legacy then C_IN + C_TOP else C_IN;
      ghost var s := Bytes();
      CutFive(s, Wire(name), Word16(kind), Word16(cls), Word16(life / TWO_16), Word16(life), Word16(0));
      PutName(name);
      Put16(kind);
      Put16(cls);
      Put16(life / TWO_16);
      Put16(life);
      Put16(0);
      data := len;
    }

    /** Fills in the data's length, or takes the record out again if it did not fit. */
    method EndRecord(start: nat, data: nat, ghost g: Message, ghost r: Record)
      requires Valid() && start == |g.bytes| <= DNS_MAX && count == g.count && |DataBytes(r.data)| < TWO_16
      requires var s := HeadOf(r, mode) + DataBytes(r.data);
        Bytes() == Cut(g.bytes + s) && full == (g.full || |g.bytes| + |s| > DNS_MAX)
      requires !full ==> data == start + |HeadOf(r, mode)|
      modifies this, buf
      ensures Valid() && Abstract() == Put(g, r, mode)
    {
      EncodePatched(r, mode);
      ghost var before := Bytes();
      if full {
        CutKeeps(g.bytes, HeadOf(r, mode) + DataBytes(r.data));
        Within(buf[..], HEADERS, HEADERS + len, 0, start);
        assert before == buf[..][HEADERS..HEADERS + len];
        len := start;
        assert Bytes() == buf[..][HEADERS..HEADERS + start];
        return;
      }
      PatchInside(g.bytes, HeadOf(r, mode), DataBytes(r.data), len - data);
      SetNumber(data - 2, len - data);
      count := count + 1;
    }

    method PutData(d: Data)
      requires Valid()
      modifies this, buf
      ensures Valid() && Appended(DataBytes(d))
    {
      match d
      case Address(ip) => PutBytes(ip);
      case Pointer(name) => PutName(name);
      case Service(port, target) =>
        CutFour(Bytes(), Word16(0), Word16(0), Word16(port), Wire(target));
        Put16(0);
        Put16(0);
        Put16(port);
        PutName(target);
      case Text => Put8(0);
    }

    method WriteRecord(r: Record)
      requires Valid() && |DataBytes(r.data)| < TWO_16
      modifies this, buf
      ensures Valid() && Abstract() == Put(old(Abstract()), r, mode)
    {
      ghost var g := Abstract();
      var start := len;
      var data := BeginRecord(r.name, TypeOf(r.data), r.unique, r.ttl);
      CutMore(g.bytes + HeadOf(r, mode), DataBytes(r.data));
      Assoc(g.bytes, HeadOf(r, mode), DataBytes(r.data));
      PutData(r.data);
      EndRecord(start, data, g, r);
    }
  }

  function HeadOf(r: Record, m: Mode): seq<byte> { Head(r.name, TypeOf(r.data), r.unique, r.ttl, m) }

  function Patch(s: seq<byte>, at: nat, v: nat): (r: seq<byte>)
    requires at + 1 < |s|
    ensures |r| == |s|
  {
    s[at := v / 256 % 256][at + 1 := v % 256]
  }

  lemma EncodePatched(r: Record, m: Mode)
    ensures |Encode(r, m)| == |HeadOf(r, m)| + |DataBytes(r.data)| && |HeadOf(r, m)| > 2
    ensures Encode(r, m) == Patch(HeadOf(r, m) + DataBytes(r.data), |HeadOf(r, m)| - 2, |DataBytes(r.data)|)
  {
  }

  lemma PatchInside(g: seq<byte>, head: seq<byte>, data: seq<byte>, v: nat)
    requires |head| > 2
    ensures Patch(g + (head + data), |g| + |head| - 2, v) == g + Patch(head + data, |head| - 2, v)
  {
  }

  lemma CutFour(s: seq<byte>, a: seq<byte>, b: seq<byte>, c: seq<byte>, d: seq<byte>)
    ensures Cut(Cut(Cut(Cut(s + a) + b) + c) + d) == Cut(s + (a + b + c + d))
  {
    CutMore(s + a, b);
    CutMore(s + a + b, c);
    CutMore(s + a + b + c, d);
    assert s + a + b + c + d == s + (a + b + c + d);
  }

  lemma {:induction false} BodySnoc(name: seq<Label>, i: nat)
    requires i < |name|
    ensures Body(name[..i + 1]) == Body(name[..i]) + [|name[i]|] + name[i]
  {
    if i == 0 {
      assert name[..1] == [name[0]] && name[..1][1..] == [] && name[..0] == [];
      assert Body(name[..1]) == [|name[0]|] + name[0] + [];
    } else {
      BodySnoc(name[1..], i - 1);
      assert name[..i + 1][1..] == name[1..][..i] && name[..i][1..] == name[1..][..i - 1];
    }
  }

  lemma LastLabel(start: seq<byte>, name: seq<Label>)
    ensures Cut(Cut(start + Body(name)) + [0]) == Cut(start + Wire(name)) && |Wire(name)| == |Body(name)| + 1
  {
    CutMore(start + Body(name), [0]);
    assert start + Body(name) + [0] == start + Wire(name);
  }

  lemma BodyStep(start: seq<byte>, name: seq<Label>, i: nat)
    requires i < |name|
    ensures Cut(Cut(start + Body(name[..i])) + ([|name[i]|] + name[i])) == Cut(start + Body(name[..i + 1]))
    ensures |Body(name[..i + 1])| == |Body(name[..i])| + 1 + |name[i]|
  {
    BodySnoc(name, i);
    CutMore(start + Body(name[..i]), [|name[i]|] + name[i]);
    Assoc(start, Body(name[..i]), [|name[i]|] + name[i]);
  }

  /** A record up to its data, the data's length still zero. */
  function Head(name: seq<Label>, kind: Word, unique: bool, ttl: nat, m: Mode): seq<byte> {
    var r := Record(name, unique, ttl, Text);
    Wire(name) + Fixed(kind, Class(r, m), Ttl(r, m)) + Word16(0)
  }

  lemma Regroup(s: seq<byte>, a: seq<byte>, b: seq<byte>, c: seq<byte>, d: seq<byte>)
    ensures s + a + b + c + d == s + (a + b + c + d)
  {
    assert s + a + b == s + (a + b);
    assert s + (a + b) + c == s + (a + b + c);
  }

  lemma CutFive(s: seq<byte>, a: seq<byte>, b: seq<byte>, c: seq<byte>, d: seq<byte>, e: seq<byte>, f: seq<byte>)
    ensures Cut(Cut(Cut(Cut(Cut(Cut(s + a) + b) + c) + d) + e) + f) == Cut(s + (a + (b + c + d + e) + f))
  {
    CutMore(s + a, b);
    CutMore(s + a + b, c);
    CutMore(s + a + b + c, d);
    CutMore(s + a + b + c + d, e);
    CutMore(s + a + b + c + d + e, f);
    Regroup(s + a, b, c, d, e);
    Regroup(s, a, b + c + d + e, f, []);
    assert a + (b + c + d + e) + f + [] == a + (b + c + d + e) + f;
    assert s + a + (b + c + d + e) + f + [] == s + a + (b + c + d + e) + f;
  }
}
