/**
 * Huffman codes as the encoder derives them from a list of code lengths, and
 * exactly when that list yields a prefix code (Annex C of ITU-T T.81).
 */
module JpegHuffman {
  import opened Bytes
  import opened JpegBits

  const WIDTH := 16

  /** The code length of each symbol, from the number of codes of each length. */
  function Sizes(bits: seq<byte>, n: nat): seq<nat>
    requires n <= |bits|
  {
    if n == 0 then [] else Sizes(bits, n - 1) + seq(bits[n - 1], _ => n)
  }

  function Shifted(code: nat, d: nat): (r: nat) {
    if d == 0 then code else Shifted(code, d - 1) * 2 % TWO_16
  }

  /** Ascending code lengths, each from 1 to 16. */
  ghost predicate Ascending(sizes: seq<nat>) {
    && (forall k :: 0 <= k < |sizes| ==> 1 <= sizes[k] <= WIDTH)
    && (forall j, k :: 0 <= j <= k < |sizes| ==> sizes[j] <= sizes[k])
  }

  /** The 16-bit code of symbol k: one more than the last, shifted to the new length. */
  function Code(sizes: seq<nat>, k: nat): nat
    requires k < |sizes|
  {
    if k == 0 then 0
    else
      var next := (Code(sizes, k - 1) + 1) % TWO_16;
      if sizes[k] < sizes[k - 1] then next else Shifted(next, sizes[k] - sizes[k - 1])
  }

  /** The share of all 16-bit words that begin with a given code of this length. */
  function Share(size: nat): nat { if size > WIDTH then 0 else Pow2(WIDTH - size) }

  /** The Kraft sum of the first k lengths, in 65536ths. */
  function Kraft(sizes: seq<nat>, k: nat): nat
    requires k <= |sizes|
  {
    if k == 0 then 0 else Kraft(sizes, k - 1) + Share(sizes[k - 1])
  }

  function CodeBits(sizes: seq<nat>, k: nat): (s: seq<bool>)
    requires k < |sizes|
    ensures |s| == sizes[k]
  {
    Bits(Code(sizes, k), sizes[k])
  }

  ghost predicate Fits(sizes: seq<nat>) {
    forall k :: 0 <= k < |sizes| ==> Code(sizes, k) < Pow2(sizes[k])
  }

  ghost predicate PrefixFree(sizes: seq<nat>) {
    forall j, k :: 0 <= j < |sizes| && 0 <= k < |sizes| && j != k ==> !(CodeBits(sizes, j) <= CodeBits(sizes, k))
  }

  // ---- the list of lengths ----

  /** How many of the first n lengths there are to hand out. */
  function Sum(bits: seq<byte>, n: nat): nat
    requires n <= |bits|
  {
    if n == 0 then 0 else Sum(bits, n - 1) + bits[n - 1]
  }

  lemma {:induction false} SizesAscend(bits: seq<byte>, n: nat)
    requires n <= |bits| && n <= WIDTH
    ensures Ascending(Sizes(bits, n)) && |Sizes(bits, n)| == Sum(bits, n)
    ensures forall k :: 0 <= k < |Sizes(bits, n)| ==> Sizes(bits, n)[k] <= n
  {
    if n > 0 { SizesAscend(bits, n - 1); }
  }

  /** How many entries of a list are v. */
  function Occurs(s: seq<nat>, v: nat): nat {
    if s == [] then 0 else Occurs(s[..|s| - 1], v) + if s[|s| - 1] == v then 1 else 0
  }

  lemma {:induction false} OccursAppend(s: seq<nat>, v: nat, count: nat, u: nat)
    ensures Occurs(s + seq(count, _ => u), v) == Occurs(s, v) + if u == v then count else 0
  {
    if count == 0 {
      assert s + seq(count, _ => u) == s;
    } else {
      OccursAppend(s, v, count - 1, u);
      assert (s + seq(count, _ => u))[..|s| + count - 1] == s + seq(count - 1, _ => u);
    }
  }

  /** Each length is given to as many symbols as the table says. */
  lemma {:induction false} SizesCount(bits: seq<byte>, n: nat, size: nat)
    requires n <= |bits|
    ensures Occurs(Sizes(bits, n), size) == if 1 <= size <= n then bits[size - 1] else 0
  {
    if n > 0 {
      SizesCount(bits, n - 1, size);
      OccursAppend(Sizes(bits, n - 1), size, bits[n - 1], n);
    }
  }

  // ---- codes and the Kraft sum ----

  lemma TwiceProduct(a: nat, p: nat)
    ensures a * (2 * p) == 2 * (a * p)
  {
  }

  lemma {:induction false} ShiftedIsProduct(code: nat, d: nat, product: nat)
    requires product == code * Pow2(d) && product < TWO_16
    ensures Shifted(code, d) == product
  {
    if d > 0 {
      TwiceProduct(code, Pow2(d - 1));
      ShiftedIsProduct(code, d - 1, code * Pow2(d - 1));
      SmallTwice(code * Pow2(d - 1), product);
    }
  }

  lemma SmallTwice(half: nat, product: nat)
    requires product == 2 * half && product < TWO_16
    ensures half * 2 % TWO_16 == product
  {
  }

  lemma {:induction false} KraftMonotone(sizes: seq<nat>, j: nat, k: nat)
    requires j <= k <= |sizes|
    ensures Kraft(sizes, j) <= Kraft(sizes, k)
  {
    if j < k { KraftMonotone(sizes, j, k - 1); }
  }

  lemma ShareSplit(size: nat, longer: nat)
    requires size <= longer <= WIDTH
    ensures Share(size) == Pow2(longer - size) * Share(longer)
  {
    PowAdd(longer - size, WIDTH - longer);
  }

  lemma ShareWhole(size: nat)
    requires size <= WIDTH
    ensures Pow2(size) * Share(size) == TWO_16
  {
    PowAdd(size, WIDTH - size);
    Pow2Of16();
  }

  lemma Pow2Of16()
    ensures Pow2(16) == TWO_16
  {
    assert Pow2(8) == 256;
    PowAdd(8, 8);
  }

  lemma MulAssoc(a: nat, b: nat, c: nat)
    ensures a * (b * c) == a * b * c
  {
  }

  lemma {:induction false} MulLess(a: nat, b: nat, c: nat)
    requires a * c < b * c
    ensures a < b
  {
    if a >= b { MulLe(b, a, c); }
  }

  /** One step of the construction, on shares of the code space. */
  lemma CodeStep(sizes: seq<nat>, k: nat) returns (q: nat)
    requires Ascending(sizes) && 0 < k < |sizes|
    requires Code(sizes, k - 1) * Share(sizes[k - 1]) == Kraft(sizes, k - 1)
    ensures q * Share(sizes[k]) == Kraft(sizes, k)
    ensures q < TWO_16 ==> Code(sizes, k) == q
    ensures q == TWO_16 ==> Code(sizes, k) == 0
  {
    var d := sizes[k] - sizes[k - 1];
    var c := Code(sizes, k - 1) + 1;
    OneMore(Code(sizes, k - 1), Share(sizes[k - 1]));
    NextShare(sizes, k, c);
    q := c * Pow2(d);
    CodeNext(sizes, k);
    ShiftedValue(c, d);
  }

  lemma CodeNext(sizes: seq<nat>, k: nat)
    requires Ascending(sizes) && 0 < k < |sizes|
    ensures Code(sizes, k) == Shifted((Code(sizes, k - 1) + 1) % TWO_16, sizes[k] - sizes[k - 1])
  {
  }

  lemma ShiftedValue(c: nat, d: nat)
    ensures c * Pow2(d) < TWO_16 ==> Shifted(c % TWO_16, d) == c * Pow2(d)
    ensures c * Pow2(d) == TWO_16 ==> Shifted(c % TWO_16, d) == 0
  {
    var product := c * Pow2(d);
    if product < TWO_16 {
      LessByFactor(c, Pow2(d));
      assert c % TWO_16 == c;
      ShiftedIsProduct(c, d, product);
    } else if product == TWO_16 {
      ShiftedWraps(c, d);
    }
  }

  /** A code shifted out of its 16 bits leaves zero. */
  lemma {:induction false} ShiftedWraps(code: nat, d: nat)
    requires code * Pow2(d) == TWO_16
    ensures Shifted(code % TWO_16, d) == 0
  {
    if d > 0 {
      var half := code * Pow2(d - 1);
      TwiceProduct(code, Pow2(d - 1));
      LessByFactor(code, Pow2(d - 1));
      ShiftedIsProduct(code, d - 1, half);
    }
  }

  lemma OneMore(a: nat, b: nat)
    ensures (a + 1) * b == a * b + b
  {
  }

  /** As long as the Kraft sum allows, a code is the sum before it, cut to its length. */
  lemma {:induction false} CodeIsKraft(sizes: seq<nat>, k: nat)
    requires Ascending(sizes) && k < |sizes| && Kraft(sizes, k + 1) <= TWO_16
    ensures Code(sizes, k) * Share(sizes[k]) == Kraft(sizes, k)
    ensures Code(sizes, k) < Pow2(sizes[k])
  {
    ShareWhole(sizes[k]);
    if k > 0 {
      CodeIsKraft(sizes, k - 1);
      var q := CodeStep(sizes, k);
      LessByFactor(q, Share(sizes[k]));
    }
    MulLess(Code(sizes, k), Pow2(sizes[k]), Share(sizes[k]));
  }

  lemma LessByFactor(c: nat, p: nat)
    requires p > 0
    ensures c <= c * p
  {
    MulLe(1, p, c);
  }

  lemma NextShare(sizes: seq<nat>, k: nat, c: nat)
    requires Ascending(sizes) && 0 < k < |sizes|
    requires c * Share(sizes[k - 1]) == Kraft(sizes, k)
    ensures c * Pow2(sizes[k] - sizes[k - 1]) * Share(sizes[k]) == Kraft(sizes, k)
  {
    ShareSplit(sizes[k - 1], sizes[k]);
    MulAssoc(c, Pow2(sizes[k] - sizes[k - 1]), Share(sizes[k]));
  }

  // ---- exactly when the codes are a prefix code ----

  lemma QuotientAbove(n: nat, d: nat, q: nat)
    requires d > 0 && q * d <= n
    ensures q <= n / d
  {
    var p := n / d;
    assert n == p * d + n % d;
    OneMore(p, d);
    if p + 1 <= q { MulLe(p + 1, q, d); }
  }

  lemma QuotientBelow(n: nat, d: nat, q: nat)
    requires d > 0 && n < q * d
    ensures n / d < q
  {
    var p := n / d;
    assert n == p * d + n % d;
    if q <= p { MulLe(q, p, d); }
  }

  /** Later codes begin beyond every word that starts with an earlier one. */
  lemma LaterIsBeyond(sizes: seq<nat>, j: nat, a: nat, k: nat, b: nat)
    requires j < k < |sizes| && sizes[j] <= sizes[k] <= WIDTH
    requires a * Share(sizes[j]) == Kraft(sizes, j) && b * Share(sizes[k]) == Kraft(sizes, k)
    ensures (a + 1) * Pow2(sizes[k] - sizes[j]) <= b
  {
    KraftMonotone(sizes, j + 1, k);
    ShareSplit(sizes[j], sizes[k]);
    InUnits(a, Share(sizes[j]), Pow2(sizes[k] - sizes[j]), Share(sizes[k]), b);
  }

  lemma InUnits(a: nat, large: nat, p: nat, small: nat, b: nat)
    requires large == p * small && small > 0 && a * large + large <= b * small
    ensures (a + 1) * p <= b
  {
    OneMore(a, large);
    MulAssoc(a + 1, p, small);
    if b < (a + 1) * p { MulStrict(b, (a + 1) * p, small); }
  }

  /** A number beyond all that extend a is spelled with another beginning. */
  lemma BeyondIsNoExtension(a: nat, short: nat, b: nat, long: nat)
    requires short <= long && a < Pow2(short) && b < Pow2(long) && (a + 1) * Pow2(long - short) <= b
    ensures Bits(b, long)[..short] != Bits(a, short)
  {
    var d := Pow2(long - short);
    QuotientAbove(b, d, a + 1);
    PowAdd(short, long - short);
    QuotientBelow(b, d, Pow2(short));
    BitsPrefix(b, long, short);
    ValueOfBits(a, short);
    ValueOfBits(b / d, short);
  }

  lemma LaterIsNoExtension(sizes: seq<nat>, j: nat, k: nat)
    requires Ascending(sizes) && j < k < |sizes| && Kraft(sizes, |sizes|) <= TWO_16
    ensures !(CodeBits(sizes, j) <= CodeBits(sizes, k)) && !(CodeBits(sizes, k) <= CodeBits(sizes, j))
  {
    KraftMonotone(sizes, k + 1, |sizes|);
    KraftMonotone(sizes, j + 1, |sizes|);
    CodeIsKraft(sizes, j);
    CodeIsKraft(sizes, k);
    WordsApart(sizes, j, Code(sizes, j), k, Code(sizes, k));
  }

  lemma WordsApart(sizes: seq<nat>, j: nat, a: nat, k: nat, b: nat)
    requires j < k < |sizes| && sizes[j] <= sizes[k] <= WIDTH
    requires a * Share(sizes[j]) == Kraft(sizes, j) && b * Share(sizes[k]) == Kraft(sizes, k)
    requires a < Pow2(sizes[j]) && b < Pow2(sizes[k])
    ensures !(Bits(a, sizes[j]) <= Bits(b, sizes[k])) && !(Bits(b, sizes[k]) <= Bits(a, sizes[j]))
  {
    LaterIsBeyond(sizes, j, a, k, b);
    BeyondIsNoExtension(a, sizes[j], b, sizes[k]);
  }

  lemma MulStrict(a: nat, b: nat, c: nat)
    requires a < b && c > 0
    ensures a * c < b * c
  {
    MulLe(a + 1, b, c);
    OneMore(a, c);
  }

  /** The first code for which the space is already used up. */
  lemma FirstOverflow(sizes: seq<nat>) returns (m: nat)
    requires Kraft(sizes, |sizes|) > TWO_16
    ensures m < |sizes| && Kraft(sizes, m) <= TWO_16 < Kraft(sizes, m + 1)
  {
    m := FirstOverflowFrom(sizes, |sizes|);
  }

  lemma {:induction false} FirstOverflowFrom(sizes: seq<nat>, n: nat) returns (m: nat)
    requires n <= |sizes| && Kraft(sizes, n) > TWO_16
    ensures m < n && Kraft(sizes, m) <= TWO_16 < Kraft(sizes, m + 1)
  {
    m := n - 1;
    if Kraft(sizes, m) > TWO_16 { m := FirstOverflowFrom(sizes, m); }
  }

  lemma OverflowingCode(sizes: seq<nat>, m: nat)
    requires Ascending(sizes) && m < |sizes| && Kraft(sizes, m) <= TWO_16 < Kraft(sizes, m + 1)
    ensures m > 0
    ensures if sizes[m] < WIDTH then Code(sizes, m) == Pow2(sizes[m]) else Code(sizes, m) == 0
  {
    ShareWhole(sizes[m]);
    LessByFactor(Share(sizes[m]), Pow2(sizes[m]));
    assert m > 0;
    CodeIsKraft(sizes, m - 1);
    var q := CodeStep(sizes, m);
    OneMore(q, Share(sizes[m]));
    var p, s := Pow2(sizes[m]), Share(sizes[m]);
    MulLess(p, q + 1, s);
    if q > p { MulStrict(p, q, s); }
    assert q == p;
    Pow2Of16();
    PowMonotone(sizes[m], WIDTH);
  }

  lemma {:induction false} ZeroBits(n: nat, m: nat)
    requires m <= n
    ensures Bits(0, n)[..m] == Bits(0, m)
  {
    BitsPrefix(0, n, m);
    DivUnique(0, Pow2(n - m), 0, 0);
  }

  /**
   * The codes fit their lengths and none is a prefix of another exactly when
   * the lengths share out no more than the whole code space.
   */
  lemma PrefixCodeIffKraft(sizes: seq<nat>)
    requires Ascending(sizes)
    ensures Fits(sizes) && PrefixFree(sizes) <==> Kraft(sizes, |sizes|) <= TWO_16
  {
    if Kraft(sizes, |sizes|) <= TWO_16 {
      forall k | 0 <= k < |sizes| ensures Code(sizes, k) < Pow2(sizes[k]) {
        KraftMonotone(sizes, k + 1, |sizes|);
        CodeIsKraft(sizes, k);
      }
      forall j, k | 0 <= j < |sizes| && 0 <= k < |sizes| && j != k ensures !(CodeBits(sizes, j) <= CodeBits(sizes, k)) {
        if j < k { LaterIsNoExtension(sizes, j, k); } else { LaterIsNoExtension(sizes, k, j); }
      }
    } else {
      var m := FirstOverflow(sizes);
      OverflowingCode(sizes, m);
      if sizes[m] == WIDTH {
        ZeroBits(sizes[m], sizes[0]);
        assert CodeBits(sizes, 0) <= CodeBits(sizes, m);
      }
    }
  }
}
