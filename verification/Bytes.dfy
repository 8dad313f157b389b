/** Bytes and the numbers laid out in them. */
module Bytes {

  type byte = b: int | 0 <= b < 256

  datatype Option<+T> = None | Some(value: T)

  const TWO_16 := 0x1_0000
  const TWO_32 := 0x1_0000_0000
  const TWO_64 := 0x1_0000_0000_0000_0000

  function Min(a: nat, b: nat): nat { if a < b then a else b }

  /** 32-bit sums and differences, as TCP sequence numbers are computed. */
  function Add32(a: nat, b: nat): nat { (a + b) % TWO_32 }

  function Sub32(a: nat, b: nat): nat { (a - b) % TWO_32 }

  // ---- products and quotients ----

  lemma MulLe(a: nat, b: nat, c: nat)
    requires a <= b
    ensures a * c <= b * c
  {
  }

  lemma Distribute(a: nat, b: nat, c: nat)
    ensures (a + b) * c == a * c + b * c
  {
  }

  lemma DivUnique(x: nat, d: nat, q: nat, r: nat)
    requires d > 0 && x == q * d + r && r < d
    ensures x / d == q && x % d == r
  {
    var p := x / d;
    assert x == p * d + x % d;
    if p < q {
      MulLe(p + 1, q, d);
    } else if p > q {
      MulLe(q + 1, p, d);
    }
  }

  function Pow256(n: nat): (r: nat)
    ensures r > 0
  {
    if n == 0 then 1 else 256 * Pow256(n - 1)
  }

  /** The big-endian number held in s. */
  function GetNumber(s: seq<byte>): (r: nat)
    ensures r < Pow256(|s|)
  {
    if s == [] then 0 else GetNumber(s[..|s| - 1]) * 256 + s[|s| - 1]
  }

  /** The low n bytes of value, most significant first. */
  function PutNumber(value: nat, n: nat): (s: seq<byte>)
    ensures |s| == n
  {
    if n == 0 then [] else PutNumber(value / 256, n - 1) + [value % 256]
  }

  lemma GetSnoc(init: seq<byte>, last: byte)
    ensures GetNumber(init + [last]) == GetNumber(init) * 256 + last
  {
    assert (init + [last])[..|init|] == init;
  }

  lemma {:induction false} GetPut(value: nat, n: nat)
    requires value < Pow256(n)
    ensures GetNumber(PutNumber(value, n)) == value
  {
    if n > 0 {
      var init := PutNumber(value / 256, n - 1);
      GetPut(value / 256, n - 1);
      GetSnoc(init, value % 256);
    }
  }

  lemma {:induction false} PutGet(s: seq<byte>)
    ensures PutNumber(GetNumber(s), |s|) == s
  {
    if s != [] {
      PutGet(s[..|s| - 1]);
      assert s == s[..|s| - 1] + [s[|s| - 1]];
    }
  }

  lemma Widths()
    ensures Pow256(1) == 256
    ensures Pow256(2) == TWO_16
    ensures Pow256(4) == TWO_32
    ensures Pow256(8) == TWO_64
  {
    assert Pow256(2) == 256 * 256 * Pow256(0);
    assert Pow256(4) == 256 * 256 * Pow256(2);
    assert Pow256(6) == 256 * 256 * Pow256(4);
    assert Pow256(8) == 256 * 256 * Pow256(6);
  }

  /** The little-endian number held in s. */
  function LeNumber(s: seq<byte>): (r: nat)
    ensures r < Pow256(|s|)
  {
    if s == [] then 0 else LeNumber(s[1..]) * 256 + s[0]
  }

  method ReadNumber(p: array<byte>, at: nat, bytes: nat) returns (value: nat)
    requires at + bytes <= p.Length
    ensures value == GetNumber(p[at..at + bytes])
  {
    value := 0;
    for i := 0 to bytes
      invariant value == GetNumber(p[at..at + i])
    {
      assert p[at..at + i + 1][..i] == p[at..at + i];
      value := value * 256 + p[at + i];
    }
  }

  method WriteNumber(p: array<byte>, at: nat, number: nat, bytes: nat)
    requires at + bytes <= p.Length
    modifies p
    ensures p[..] == old(p[..at]) + PutNumber(number, bytes) + old(p[at + bytes..])
  {
    var n: nat, value: nat := bytes, number;
    while n > 0
      invariant n <= bytes
      invariant p[..at] == old(p[..at]) && p[at + bytes..] == old(p[at + bytes..])
      invariant PutNumber(number, bytes) == PutNumber(value, n) + p[at + n..at + bytes]
    {
      n := n - 1;
      ghost var tail := p[at + n + 1..at + bytes];
      p[at + n] := value % 256;
      assert p[at + n..at + bytes] == [(value % 256) as byte] + tail;
      value := value / 256;
    }
    assert p[..] == p[..at] + p[at..at + bytes] + p[at + bytes..];
  }

  method ReadLittle(p: array<byte>, at: nat, bytes: nat) returns (value: nat)
    requires at + bytes <= p.Length
    ensures value == LeNumber(p[at..at + bytes])
  {
    value := 0;
    var n := bytes;
    while n > 0
      invariant 0 <= n <= bytes
      invariant value == LeNumber(p[at + n..at + bytes])
    {
      n := n - 1;
      assert p[at + n..at + bytes][1..] == p[at + n + 1..at + bytes];
      value := value * 256 + p[at + n];
    }
  }

  method Copy(out: array<byte>, to: nat, source: array<byte>, at: nat, n: nat)
    requires out != source && to + n <= out.Length && at + n <= source.Length
    modifies out
    ensures out[..] == old(out[..to]) + source[at..at + n] + old(out[to + n..])
  {
    for i := 0 to n
      invariant out[..to] == old(out[..to]) && out[to + n..] == old(out[to + n..])
      invariant out[to..to + i] == source[at..at + i]
    {
      out[to + i] := source[at + i];
      assert out[to..to + i + 1] == out[to..to + i] + [source[at + i]];
    }
    assert out[..] == out[..to] + out[to..to + n] + out[to + n..];
  }
}
