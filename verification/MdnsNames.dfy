/**
 * Domain names in a message: written as length-prefixed labels, read back
 * through compression pointers (section 4.1.4 of RFC 1035).
 */
module MdnsNames {
  import opened Bytes

  const NAME_MAX := 256
  const LABEL_MAX := 63
  const JUMPS := 16

  type Label = s: seq<byte> | 0 < |s| <= LABEL_MAX witness [0]

  /** The labels one after another, each behind its length. */
  function Body(labels: seq<Label>): (s: seq<byte>) {
    if labels == [] then [] else [|labels[0]|] + labels[0] + Body(labels[1..])
  }

  function Wire(labels: seq<Label>): (s: seq<byte>)
    ensures |s| > 0
  {
    Body(labels) + [0]
  }

  /** The offset a compression pointer holds. */
  function Target(high: byte, low: byte): nat { high % 64 * 256 + low }

  /**
   * Reads on at off, with the output so far, the place to go on from once a
   * pointer was followed (or 0), and the number of pointers followed.
   */
  function ReadName(msg: seq<byte>, off: nat, out: seq<byte>, end: nat, jumps: nat): (r: Option<(nat, seq<byte>)>)
    requires jumps <= JUMPS && |out| <= NAME_MAX
    decreases JUMPS - jumps, NAME_MAX - |out|, |msg|
  {
    if off >= |msg| then None
    else
      var b := msg[off];
      if b >= 0xC0 then
        if off + 1 >= |msg| || jumps + 1 > JUMPS then None
        else ReadName(msg, Target(b, msg[off + 1]), out, if end == 0 then off + 2 else end, jumps + 1)
      else if b >= 0x40 || off + 1 + b > |msg| || |out| + 1 + b + 1 > NAME_MAX then None
      else if b == 0 then Some((if end != 0 then end else off + 1, out + [0]))
      else ReadName(msg, off + 1 + b, out + [b] + msg[off + 1..off + 1 + b], end, jumps)
  }

  /** The name at off, uncompressed, and where the message goes on behind it. */
  function NameAt(msg: seq<byte>, off: nat): Option<(nat, seq<byte>)> { ReadName(msg, off, [], 0, 0) }

  // ---- what a name in a message means ----

  /** The labels spelled at off, through at most so many pointers. */
  predicate Spells(msg: seq<byte>, off: nat, labels: seq<Label>, jumps: nat)
    decreases jumps, |labels|
  {
    off < |msg| &&
    var b := msg[off];
    if b >= 0xC0 then jumps > 0 && off + 1 < |msg| && Spells(msg, Target(b, msg[off + 1]), labels, jumps - 1)
    else if b == 0 then labels == []
    else
      && b < 0x40 && off + 1 + b <= |msg| && labels != []
      && labels[0] == msg[off + 1..off + 1 + b] && Spells(msg, off + 1 + b, labels[1..], jumps)
  }

  /** Where the message goes on behind the name at off: after its zero or its first pointer. */
  function Behind(msg: seq<byte>, off: nat): nat
    decreases if off < |msg| then |msg| - off else 0
  {
    if off >= |msg| then off
    else if msg[off] >= 0xC0 then off + 2
    else if msg[off] == 0 then off + 1
    else Behind(msg, off + 1 + msg[off])
  }

  /** A name that is read is the one spelled there, and short enough. */
  lemma {:induction false} ReadIsSpelled(msg: seq<byte>, off: nat, out: seq<byte>, end: nat, jumps: nat) returns (labels: seq<Label>)
    requires jumps <= JUMPS && |out| <= NAME_MAX && ReadName(msg, off, out, end, jumps).Some?
    ensures Spells(msg, off, labels, JUMPS - jumps) && |out + Wire(labels)| <= 255
    ensures ReadName(msg, off, out, end, jumps).value == (if end != 0 then end else Behind(msg, off), out + Wire(labels))
    decreases JUMPS - jumps, NAME_MAX - |out|
  {
    var b := msg[off];
    if b >= 0xC0 {
      labels := ReadIsSpelled(msg, Target(b, msg[off + 1]), out, if end == 0 then off + 2 else end, jumps + 1);
    } else if b == 0 {
      labels := [];
      assert Wire(labels) == [0];
    } else {
      var first: Label := msg[off + 1..off + 1 + b];
      var rest := ReadIsSpelled(msg, off + 1 + b, out + [b] + first, end, jumps);
      labels := [first] + rest;
      assert labels[1..] == rest;
      WireBehind(out, first, rest);
    }
  }

  lemma WireBehind(out: seq<byte>, first: Label, rest: seq<Label>)
    ensures out + [|first|] + first + Wire(rest) == out + Wire([first] + rest)
  {
    assert ([first] + rest)[1..] == rest;
  }

  /** A name spelled in the message and short enough is read as spelled. */
  lemma {:induction false} SpelledIsRead(msg: seq<byte>, off: nat, labels: seq<Label>, out: seq<byte>, end: nat, jumps: nat)
    requires jumps <= JUMPS && Spells(msg, off, labels, JUMPS - jumps) && |out + Wire(labels)| <= 255
    ensures ReadName(msg, off, out, end, jumps) == Some((if end != 0 then end else Behind(msg, off), out + Wire(labels)))
    decreases JUMPS - jumps, |labels|
  {
    var b := msg[off];
    if b >= 0xC0 {
      SpelledIsRead(msg, Target(b, msg[off + 1]), labels, out, if end == 0 then off + 2 else end, jumps + 1);
    } else if b != 0 {
      var first := labels[0];
      WireBehind(out, first, labels[1..]);
      assert [first] + labels[1..] == labels;
      SpelledIsRead(msg, off + 1 + b, labels[1..], out + [b] + first, end, jumps);
    } else {
      assert Wire(labels) == [0];
    }
  }

  /** Reading succeeds exactly on the names spelled with at most sixteen pointers in at most 255 bytes. */
  lemma ReadIffSpelled(msg: seq<byte>, off: nat, labels: seq<Label>)
    ensures NameAt(msg, off) == Some((Behind(msg, off), Wire(labels)))
      <==> Spells(msg, off, labels, JUMPS) && |Wire(labels)| <= 255
  {
    assert [] + Wire(labels) == Wire(labels);
    if NameAt(msg, off) == Some((Behind(msg, off), Wire(labels))) {
      var read := ReadIsSpelled(msg, off, [], 0, 0);
      assert [] + Wire(read) == Wire(read);
      WireInjective(read, labels);
    }
    if Spells(msg, off, labels, JUMPS) && |Wire(labels)| <= 255 { SpelledIsRead(msg, off, labels, [], 0, 0); }
  }

  lemma FirstOfWire(labels: seq<Label>)
    ensures Wire(labels)[0] == if labels == [] then 0 else |labels[0]|
  {
  }

  lemma {:induction false} WireInjective(a: seq<Label>, b: seq<Label>)
    requires Wire(a) == Wire(b)
    ensures a == b
  {
    FirstOfWire(a);
    FirstOfWire(b);
    if a != [] && b != [] {
      assert Wire(a) == [|a[0]|] + a[0] + Wire(a[1..]) && Wire(b) == [|b[0]|] + b[0] + Wire(b[1..]);
      assert Wire(a)[1..][..|a[0]|] == a[0] && Wire(b)[1..][..|b[0]|] == b[0];
      assert Wire(a)[1 + |a[0]|..] == Wire(a[1..]) && Wire(b)[1 + |b[0]|..] == Wire(b[1..]);
      WireInjective(a[1..], b[1..]);
    }
  }

  /** The place to go on from lies inside the message, or just at its end, and past the name's start. */
  lemma {:induction false} ReadStaysInside(msg: seq<byte>, off: nat, out: seq<byte>, end: nat, jumps: nat)
    requires jumps <= JUMPS && |out| <= NAME_MAX && ReadName(msg, off, out, end, jumps).Some? && end <= |msg|
    ensures var next := ReadName(msg, off, out, end, jumps).value.0; 0 < next <= |msg| && if end == 0 then off < next else next == end
    decreases JUMPS - jumps, NAME_MAX - |out|
  {
    var b := msg[off];
    if b >= 0xC0 {
      ReadStaysInside(msg, Target(b, msg[off + 1]), out, if end == 0 then off + 2 else end, jumps + 1);
    } else if b != 0 {
      ReadStaysInside(msg, off + 1 + b, out + [b] + msg[off + 1..off + 1 + b], end, jumps);
    }
  }

  lemma Within(s: seq<byte>, lo: nat, hi: nat, i: nat, j: nat)
    requires lo <= hi <= |s| && i <= j <= hi - lo
    ensures s[lo..hi][i..j] == s[lo + i..lo + j]
  {
    var part := s[lo..hi];
    forall k | 0 <= k < j - i ensures part[i..j][k] == s[lo + i..lo + j][k] {
      assert part[i + k] == s[lo + i + k];
    }
  }

  lemma LabelAndRest(n: byte, text: seq<byte>, rest: seq<byte>)
    requires |text| == n
    ensures var w := [n] + text + rest; w[1..1 + n] == text && w[1 + n..|w|] == rest
  {
  }

  /** A name written without compression is spelled where it was written. */
  lemma {:induction false} WrittenIsSpelled(msg: seq<byte>, off: nat, labels: seq<Label>, jumps: nat)
    requires off + |Wire(labels)| <= |msg| && msg[off..off + |Wire(labels)|] == Wire(labels)
    ensures Spells(msg, off, labels, jumps) && Behind(msg, off) == off + |Wire(labels)|
    decreases |labels|
  {
    var w := Wire(labels);
    assert msg[off] == w[0];
    if labels != [] {
      var n := |labels[0]|;
      assert w == [n] + labels[0] + Wire(labels[1..]);
      Within(msg, off, off + |w|, 1, 1 + n);
      Within(msg, off, off + |w|, 1 + n, |w|);
      LabelAndRest(n, labels[0], Wire(labels[1..]));
      WrittenIsSpelled(msg, off + 1 + n, labels[1..], jumps);
    }
  }

  /** A name written and read back, wherever it lies in a message. */
  lemma NameRoundTrip(msg: seq<byte>, off: nat, labels: seq<Label>)
    requires off + |Wire(labels)| <= |msg| && msg[off..off + |Wire(labels)|] == Wire(labels) && |Wire(labels)| <= 255
    ensures NameAt(msg, off) == Some((off + |Wire(labels)|, Wire(labels)))
  {
    WrittenIsSpelled(msg, off, labels, JUMPS);
    SpelledIsRead(msg, off, labels, [], 0, 0);
    assert [] + Wire(labels) == Wire(labels);
  }

  /** The loop of the reader, into a buffer of 256 bytes; 0 for a malformed name. */
  method ReadNameInto(msg: seq<byte>, start: nat, out: array<byte>) returns (next: nat, n: nat)
    requires out.Length == NAME_MAX
    modifies out
    ensures n <= NAME_MAX
    ensures next == 0 <==> NameAt(msg, start).None?
    ensures next != 0 ==> NameAt(msg, start) == Some((next, out[..n]))
  {
    var off: nat, end: nat, jumps: nat := start, 0, 0;
    n := 0;
    assert out[..0] == [];
    if NameAt(msg, start).Some? { ReadStaysInside(msg, start, [], 0, 0); }
    while true
      invariant n <= NAME_MAX && jumps <= JUMPS
      invariant NameAt(msg, start) == ReadName(msg, off, out[..n], end, jumps)
      decreases JUMPS - jumps, NAME_MAX - n
    {
      if off >= |msg| { return 0, n; }
      var b := msg[off];
      if b >= 0xC0 {
        if off + 1 >= |msg| || jumps + 1 > JUMPS { return 0, n; }
        jumps := jumps + 1;
        if end == 0 { end := off + 2; }
        off := Target(b, msg[off + 1]);
        continue;
      }
      if b >= 0x40 { return 0, n; }
      if off + 1 + b > |msg| || n + 1 + b + 1 > NAME_MAX { return 0, n; }
      ghost var before := out[..n];
      out[n] := b;
      n := n + 1;
      assert out[..n] == before + [b];
      if b == 0 {
        next := if end != 0 then end else off + 1;
        return;
      }
      CopyIn(out, n, msg, off + 1, b);
      assert out[..n + b] == before + [b] + msg[off + 1..off + 1 + b];
      n := n + b;
      off := off + 1 + b;
    }
  }

  method CopyIn(out: array<byte>, at: nat, msg: seq<byte>, from: nat, count: nat)
    requires at + count <= out.Length && from + count <= |msg|
    modifies out
    ensures out[..at + count] == old(out[..at]) + msg[from..from + count]
    ensures out[at + count..] == old(out[at + count..])
  {
    for i := 0 to count
      invariant out[..at + i] == old(out[..at]) + msg[from..from + i]
      invariant out[at + i..] == old(out[at + i..])
    {
      out[at + i] := msg[from + i];
      assert out[..at + i + 1] == out[..at + i] + [msg[from + i]];
    }
  }
}
