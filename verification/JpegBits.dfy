/** Bit strings, most significant bit first, and the numbers they spell. */
module JpegBits {
  import opened Bytes

  function Pow2(n: nat): (r: nat)
    ensures r > 0
  {
    if n == 0 then 1 else 2 * Pow2(n - 1)
  }

  /** A left shift, wide enough to keep every bit. */
  function Shl(v: nat, n: nat): nat { if n == 0 then v else 2 * Shl(v, n - 1) }

  lemma {:induction false} ShlIsProduct(v: nat, n: nat)
    ensures Shl(v, n) == v * Pow2(n)
  {
    if n > 0 {
      ShlIsProduct(v, n - 1);
      assert v * (2 * Pow2(n - 1)) == 2 * (v * Pow2(n - 1));
    }
  }

  lemma {:induction false} PowAdd(m: nat, n: nat)
    ensures Pow2(m + n) == Pow2(m) * Pow2(n)
  {
    if n > 0 { PowAdd(m, n - 1); }
  }

  lemma {:induction false} PowMonotone(m: nat, n: nat)
    requires m <= n
    ensures Pow2(m) <= Pow2(n)
    ensures m < n ==> Pow2(m) < Pow2(n)
  {
    if m < n { PowMonotone(m, n - 1); }
  }

  /** The low n bits of value. */
  function Bits(value: nat, n: nat): (s: seq<bool>)
    ensures |s| == n
  {
    if n == 0 then [] else Bits(value / 2, n - 1) + [value % 2 == 1]
  }

  function Value(s: seq<bool>): (r: nat)
    ensures r < Pow2(|s|)
  {
    if s == [] then 0 else 2 * Value(s[..|s| - 1]) + if s[|s| - 1] then 1 else 0
  }

  lemma {:induction false} ValueOfBits(value: nat, n: nat)
    requires value < Pow2(n)
    ensures Value(Bits(value, n)) == value
  {
    if n > 0 {
      ValueOfBits(value / 2, n - 1);
      assert Bits(value, n)[..n - 1] == Bits(value / 2, n - 1);
    }
  }

  lemma {:induction false} BitsOfValue(s: seq<bool>)
    ensures Bits(Value(s), |s|) == s
  {
    if s != [] { BitsOfValue(s[..|s| - 1]); }
  }

  lemma ValueSnoc(s: seq<bool>, bit: bool)
    ensures Value(s + [bit]) == 2 * Value(s) + if bit then 1 else 0
  {
    assert (s + [bit])[..|s|] == s;
  }

  lemma Doubled(x: nat, p: nat, y: nat)
    ensures 2 * (x * p + y) == x * (2 * p) + 2 * y
  {
  }

  lemma {:induction false} ValueConcat(a: seq<bool>, b: seq<bool>)
    ensures Value(a + b) == Value(a) * Pow2(|b|) + Value(b)
  {
    if b == [] {
      assert a + b == a;
    } else {
      var init, last := b[..|b| - 1], b[|b| - 1];
      ValueConcat(a, init);
      assert a + b == (a + init) + [last];
      ValueSnoc(a + init, last);
      Doubled(Value(a), Pow2(|init|), Value(init));
    }
  }

  /** A prefix is the number shifted right. */
  lemma {:induction false} BitsPrefix(value: nat, n: nat, m: nat)
    requires m <= n
    ensures Bits(value, n)[..m] == Bits(value / Pow2(n - m), m)
  {
    if m < n {
      BitsPrefix(value / 2, n - 1, m);
      DivTwice(value, Pow2(n - 1 - m));
    }
  }

  lemma DivTwice(value: nat, d: nat)
    requires d > 0
    ensures value / 2 / d == value / (2 * d)
  {
    var q, r := value / (2 * d), value % (2 * d);
    assert value == q * (2 * d) + r;
    assert value / 2 == q * d + r / 2 by { assert q * (2 * d) == 2 * (q * d); }
    assert r / 2 < d;
    DivUnique(value / 2, d, q, r / 2);
  }

  /** Bitwise or. */
  function Or(a: nat, b: nat): nat {
    if a == 0 && b == 0 then 0 else 2 * Or(a / 2, b / 2) + if a % 2 == 1 || b % 2 == 1 then 1 else 0
  }

  lemma {:induction false} OrZero(a: nat)
    ensures Or(0, a) == a
  {
    if a > 0 { OrZero(a / 2); }
  }

  /** Numbers that share no bit are joined by adding them. */
  lemma {:induction false} OrDisjoint(high: nat, low: nat, k: nat)
    requires low < Pow2(k)
    ensures Or(high * Pow2(k), low) == high * Pow2(k) + low
  {
    if k == 0 {
      OrSym(high, 0);
      OrZero(high);
    } else {
      var p := Pow2(k - 1);
      assert high * Pow2(k) == 2 * (high * p);
      OrDisjoint(high, low / 2, k - 1);
      if high * p == 0 && low == 0 { } else { }
    }
  }

  lemma {:induction false} OrSym(a: nat, b: nat)
    ensures Or(a, b) == Or(b, a)
  {
    if a > 0 || b > 0 { OrSym(a / 2, b / 2); }
  }
}
