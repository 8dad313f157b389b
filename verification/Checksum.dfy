/** The internet checksum: a sum of 16-bit words, its carries folded back in, complemented. */
module Checksum {
  import opened Bytes

  const ONES := 0xFFFF

  function Pair(high: byte, low: byte): nat {
    var h: nat := high;
    h * 256 + low
  }

  /** The sum of the big-endian words, an odd last byte counting as the high half of one. */
  function Sum(data: seq<byte>): nat {
    if data == [] then 0
    else if |data| % 2 == 1 then Sum(data[..|data| - 1]) + Pair(data[|data| - 1], 0)
    else Sum(data[..|data| - 2]) + Pair(data[|data| - 2], data[|data| - 1])
  }

  function Fold(sum: nat): (r: nat)
    ensures r <= ONES
  {
    if sum < TWO_16 then sum else Fold(sum % TWO_16 + sum / TWO_16)
  }

  function Cksum(data: seq<byte>): (r: nat)
    ensures r <= ONES
  {
    ONES - Fold(Sum(data))
  }

  /** Folding keeps the remainder modulo 65535, and only zero folds to zero. */
  lemma {:induction false} FoldIsRemainder(sum: nat)
    ensures Fold(sum) % ONES == sum % ONES && (Fold(sum) == 0 <==> sum == 0)
  {
    if sum >= TWO_16 {
      FoldIsRemainder(sum % TWO_16 + sum / TWO_16);
      CarryIsRemainder(sum / TWO_16, sum % TWO_16);
    }
  }

  lemma CarryIsRemainder(high: nat, low: nat)
    ensures (high * TWO_16 + low) % ONES == (low + high) % ONES
  {
  }

  /** Data passes the check exactly when its words sum to a positive multiple of 65535. */
  lemma PassesIff(data: seq<byte>)
    ensures Cksum(data) == 0 <==> Sum(data) > 0 && Sum(data) % ONES == 0
  {
    FoldIsRemainder(Sum(data));
  }

  /** The word at an even place replaced. */
  function SetWord(data: seq<byte>, at: nat, word: nat): (r: seq<byte>)
    requires at + 1 < |data|
    ensures |r| == |data|
  {
    data[at := word / 256 % 256][at + 1 := word % 256]
  }

  function WordAt(data: seq<byte>, at: nat): nat
    requires at + 1 < |data|
  {
    Pair(data[at], data[at + 1])
  }

  lemma {:induction false} SumOfSetWord(data: seq<byte>, at: nat, word: nat)
    requires at % 2 == 0 && at + 1 < |data| && word <= ONES
    ensures Sum(SetWord(data, at, word)) == Sum(data) - WordAt(data, at) + word
    decreases |data|
  {
    var r := SetWord(data, at, word);
    var n := if |data| % 2 == 1 then |data| - 1 else |data| - 2;
    if at < n {
      assert r[..n] == SetWord(data[..n], at, word);
      SumOfSetWord(data[..n], at, word);
    } else {
      assert r[..n] == data[..n];
    }
  }

  /** Data whose checksum word was zero passes once its checksum is written there. */
  lemma WrittenChecksumPasses(data: seq<byte>, at: nat)
    requires at % 2 == 0 && at + 1 < |data| && WordAt(data, at) == 0
    ensures Cksum(SetWord(data, at, Cksum(data))) == 0
  {
    SumOfSetWord(data, at, Cksum(data));
    FoldIsRemainder(Sum(data));
    PassesIff(SetWord(data, at, Cksum(data)));
    ComplementIsZero(Sum(data), Fold(Sum(data)));
  }

  lemma ComplementIsZero(sum: nat, folded: nat)
    requires folded % ONES == sum % ONES && folded <= ONES
    ensures (sum + (ONES - folded)) % ONES == 0
  {
  }

  /**
   * One changed word escapes the check exactly when it changed between zero and
   * all ones, in data that is not all zero afterwards.
   */
  lemma ChangedWordPassesIff(data: seq<byte>, at: nat, word: nat)
    requires at % 2 == 0 && at + 1 < |data| && word <= ONES && Cksum(data) == 0
    ensures Cksum(SetWord(data, at, word)) == 0 <==>
      word % ONES == WordAt(data, at) % ONES && Sum(SetWord(data, at, word)) > 0
  {
    SumOfSetWord(data, at, word);
    PassesIff(data);
    PassesIff(SetWord(data, at, word));
    SameRemainder(Sum(data), WordAt(data, at), word);
  }

  lemma SameRemainder(sum: nat, was: nat, now: nat)
    requires sum % ONES == 0 && was <= sum && was <= ONES && now <= ONES
    ensures (sum - was + now) % ONES == 0 <==> now % ONES == was % ONES
  {
  }

  lemma SumTwo(data: seq<byte>, i: nat)
    requires i % 2 == 0 && i + 1 < |data|
    ensures Sum(data[..i + 2]) == Sum(data[..i]) + Pair(data[i], data[i + 1])
  {
    assert data[..i + 2][..i] == data[..i];
  }

  lemma SumOne(data: seq<byte>, i: nat)
    requires i % 2 == 0 && i + 1 == |data|
    ensures Sum(data) == Sum(data[..i]) + Pair(data[i], 0)
  {
  }

  /** The checksum of len bytes from a place on. */
  method InetCksum(data: array<byte>, at: nat, len: nat) returns (r: nat)
    requires at + len <= data.Length
    ensures r == Cksum(data[at..at + len])
  {
    var sum: nat, i: nat := 0, 0;
    ghost var s := data[at..at + len];
    assert s[..0] == [];
    while i + 1 < len
      invariant i <= len && i % 2 == 0 && sum == Sum(s[..i])
    {
      SumTwo(s, i);
      assert s[i] == data[at + i] && s[i + 1] == data[at + i + 1];
      sum := sum + Pair(data[at + i], data[at + i + 1]);
      i := i + 2;
    }
    assert s[..len] == s;
    if len % 2 == 1 {
      SumOne(s, i);
      sum := sum + Pair(data[at + len - 1], 0);
    }
    sum := FoldCarries(sum);
    r := ONES - sum;
  }

  method FoldCarries(total: nat) returns (sum: nat)
    ensures sum == Fold(total)
  {
    sum := total;
    while sum / TWO_16 != 0
      invariant Fold(sum) == Fold(total)
      decreases sum
    {
      sum := sum % TWO_16 + sum / TWO_16;
    }
  }
}
