/** Huffman tables: building them in place, writing a symbol, and reading it back. */
module JpegTables {
  import opened Bytes
  import opened JpegBits
  import opened JpegHuffman

  type Word = w: int | 0 <= w < 0x1_0000

  datatype Table = Table(sizes: seq<nat>, values: seq<byte>)

  ghost predicate Valid(t: Table) {
    && Ascending(t.sizes) && |t.values| == |t.sizes|
    && Kraft(t.sizes, |t.sizes|) <= TWO_16
  }

  /** The last of the first n entries for a symbol, or n when there is none. */
  function Entry(values: seq<byte>, symbol: byte, n: nat): (k: nat)
    requires n <= |values|
    ensures k <= n
    ensures if k < n then values[k] == symbol else symbol !in values[..n]
  {
    if n == 0 then 0
    else if values[n - 1] == symbol then n - 1
    else
      assert values[..n] == values[..n - 1] + [values[n - 1]];
      var k := Entry(values, symbol, n - 1);
      if k == n - 1 then n else k
  }

  predicate Knows(t: Table, symbol: byte) { |t.values| <= |t.sizes| && symbol in t.values }

  /** A symbol's code, and nothing for one without a code. */
  function Encode(t: Table, symbol: byte): seq<bool> {
    var k := Entry(t.values, symbol, |t.values|);
    if k < |t.values| && k < |t.sizes| then CodeBits(t.sizes, k) else []
  }

  /** The first code from i on that is this word. */
  function Match(sizes: seq<nat>, word: seq<bool>, i: nat): (k: nat)
    requires i <= |sizes|
    ensures i <= k <= |sizes|
    ensures k < |sizes| ==> CodeBits(sizes, k) == word
    ensures forall j :: i <= j < k ==> CodeBits(sizes, j) != word
    decreases |sizes| - i
  {
    if i == |sizes| || CodeBits(sizes, i) == word then i else Match(sizes, word, i + 1)
  }

  /** Reads a symbol bit by bit, from n bits on. */
  function Decode(t: Table, stream: seq<bool>, n: nat): Option<(byte, seq<bool>)>
    decreases |stream| - n
  {
    if n > WIDTH || n > |stream| then None
    else
      var k := Match(t.sizes, stream[..n], 0);
      if k < |t.sizes| && k < |t.values| then Some((t.values[k], stream[n..]))
      else Decode(t, stream, n + 1)
  }

  lemma WrongWord(t: Table, k: nat, rest: seq<bool>, n: nat)
    requires Valid(t) && k < |t.sizes| && n < t.sizes[k]
    ensures Match(t.sizes, (CodeBits(t.sizes, k) + rest)[..n], 0) == |t.sizes|
  {
    PrefixCodeIffKraft(t.sizes);
    assert (CodeBits(t.sizes, k) + rest)[..n] == CodeBits(t.sizes, k)[..n];
    forall i | 0 <= i < |t.sizes| ensures CodeBits(t.sizes, i) != CodeBits(t.sizes, k)[..n] { }
  }

  lemma RightWord(t: Table, k: nat)
    requires Valid(t) && k < |t.sizes|
    ensures Match(t.sizes, CodeBits(t.sizes, k), 0) == k
  {
    PrefixCodeIffKraft(t.sizes);
    var i := Match(t.sizes, CodeBits(t.sizes, k), 0);
    assert CodeBits(t.sizes, i) <= CodeBits(t.sizes, k);
  }

  lemma {:induction false} DecodeCode(t: Table, k: nat, rest: seq<bool>, n: nat)
    requires Valid(t) && k < |t.sizes| && n <= t.sizes[k]
    ensures Decode(t, CodeBits(t.sizes, k) + rest, n) == Some((t.values[k], rest))
    decreases t.sizes[k] - n
  {
    var word := CodeBits(t.sizes, k);
    if n < |word| {
      WrongWord(t, k, rest, n);
      DecodeCode(t, k, rest, n + 1);
    } else {
      RightWord(t, k);
      assert (word + rest)[..n] == word && (word + rest)[n..] == rest;
    }
  }

  /** A symbol's code, whatever follows it, is read back as that symbol. */
  lemma DecodeEncode(t: Table, symbol: byte, rest: seq<bool>)
    requires Valid(t) && Knows(t, symbol)
    ensures Decode(t, Encode(t, symbol) + rest, 1) == Some((symbol, rest))
  {
    assert t.values[..|t.values|] == t.values;
    DecodeCode(t, Entry(t.values, symbol, |t.values|), rest, 1);
  }

  /** A symbol's code is read as that symbol, whatever follows. */
  ghost predicate Reads(t: Table, symbol: byte) {
    forall rest: seq<bool> :: Decode(t, Encode(t, symbol) + rest, 1) == Some((symbol, rest))
  }

  lemma KnownReads(t: Table, symbol: byte)
    requires Valid(t) && Knows(t, symbol)
    ensures Reads(t, symbol)
  {
    forall rest: seq<bool> ensures Decode(t, Encode(t, symbol) + rest, 1) == Some((symbol, rest)) {
      DecodeEncode(t, symbol, rest);
    }
  }

  lemma ReadSymbol(t: Table, symbol: byte, rest: seq<bool>)
    requires Reads(t, symbol)
    ensures Decode(t, Encode(t, symbol) + rest, 1) == Some((symbol, rest))
  {
  }

  // ---- the tables built in place ----

  function Lengths(huffsize: seq<byte>): seq<nat> { huffsize }

  method GetCodeLengths(huffsize: array<byte>, bits: array<byte>)
    requires bits.Length == WIDTH && Sum(bits[..], WIDTH) < huffsize.Length && huffsize != bits
    modifies huffsize
    ensures Sum(bits[..], WIDTH) < huffsize.Length
    ensures Lengths(huffsize[..Sum(bits[..], WIDTH)]) == Sizes(bits[..], WIDTH)
    ensures huffsize[Sum(bits[..], WIDTH)] == 0
  {
    var k := 0;
    ghost var b := bits[..];
    for i := 0 to WIDTH
      invariant k == Sum(b, i) <= Sum(b, WIDTH) && bits[..] == b
      invariant Lengths(huffsize[..k]) == Sizes(b, i)
      invariant i > 0 ==> huffsize[k] == 0
    {
      SumMonotone(b, i + 1, WIDTH);
      for j := 0 to bits[i]
        invariant k == Sum(b, i) + j && bits[..] == b
        invariant Lengths(huffsize[..k]) == Sizes(b, i) + seq(j, _ => i + 1)
      {
        huffsize[k] := i + 1;
        k := k + 1;
        assert huffsize[..k] == huffsize[..k - 1] + [i + 1];
      }
      huffsize[k] := 0;
    }
  }

  lemma {:induction false} SumMonotone(bits: seq<byte>, m: nat, n: nat)
    requires m <= n <= |bits|
    ensures Sum(bits, m) <= Sum(bits, n)
  {
    if m < n { SumMonotone(bits, m, n - 1); }
  }

  lemma SameLength(sizes: seq<nat>, k: nat)
    requires 0 < k < |sizes| && sizes[k] == sizes[k - 1]
    ensures Code(sizes, k) == (Code(sizes, k - 1) + 1) % TWO_16
  {
  }

  lemma NextLength(sizes: seq<nat>, k: nat)
    requires 0 < k < |sizes| && sizes[k] > sizes[k - 1]
    ensures Code(sizes, k) == Shifted((Code(sizes, k - 1) + 1) % TWO_16, sizes[k] - sizes[k - 1])
  {
  }

  /** A code carried from one length to the next that occurs. */
  method ShiftCode(from: Word, size: nat, target: nat, ghost sizes: seq<nat>, ghost k: nat) returns (code: Word)
    requires 0 < k < |sizes| && size == sizes[k - 1] < target == sizes[k]
    requires from == (Code(sizes, k - 1) + 1) % TWO_16
    ensures code == Code(sizes, k)
  {
    var sz := size;
    code := from;
    while sz != target
      invariant size <= sz <= target && code == Shifted(from, sz - size)
      decreases target - sz
    {
      code := code * 2 % 0x1_0000;
      sz := sz + 1;
    }
    NextLength(sizes, k);
  }

  /** The codes of one length, from index k on. */
  method RunOfCodes(codes: array<Word>, huffsize: array<byte>, count: nat, start: nat, first: Word) returns (k: nat, code: Word)
    requires start < count < huffsize.Length && count <= codes.Length
    requires first == Code(Lengths(huffsize[..count]), start) && huffsize[start] != huffsize[count]
    modifies codes
    ensures start < k <= count && huffsize[k] != huffsize[k - 1] && huffsize[k - 1] == huffsize[start]
    ensures code == (Code(Lengths(huffsize[..count]), k - 1) + 1) % TWO_16
    ensures forall j :: 0 <= j < start ==> codes[j] == old(codes[j])
    ensures forall j :: start <= j < k ==> codes[j] == Code(Lengths(huffsize[..count]), j)
  {
    ghost var sizes := Lengths(huffsize[..count]);
    var sz := huffsize[start];
    codes[start] := first;
    k, code := start + 1, (first + 1) % 0x1_0000;
    while huffsize[k] == sz
      invariant start < k <= count && sizes[k - 1] == sz && code == (Code(sizes, k - 1) + 1) % TWO_16
      invariant forall j :: 0 <= j < start ==> codes[j] == old(codes[j])
      invariant forall j :: start <= j < k ==> codes[j] == Code(sizes, j)
      decreases count - k
    {
      SameLength(sizes, k);
      codes[k] := code;
      k, code := k + 1, (code + 1) % 0x1_0000;
    }
  }

  lemma AscendingAt(sizes: seq<nat>, k: nat)
    requires Ascending(sizes) && k < |sizes|
    ensures 1 <= sizes[k] && (k > 0 ==> sizes[k - 1] <= sizes[k])
  {
  }

  /** The first zero length is the one behind the list. */
  lemma EndsAt(sizes: seq<nat>, k: nat, huffsize: seq<byte>)
    requires Ascending(sizes) && k <= |sizes| < |huffsize| && sizes == huffsize[..|sizes|] && huffsize[k] == 0
    ensures k == |sizes|
  {
  }

  method GetCodes(codes: array<Word>, huffsize: array<byte>, count: nat)
    requires 0 < count < huffsize.Length && count <= codes.Length
    requires Ascending(Lengths(huffsize[..count])) && huffsize[count] == 0
    modifies codes
    ensures forall k :: 0 <= k < count ==> codes[k] == Code(Lengths(huffsize[..count]), k)
  {
    ghost var sizes := Lengths(huffsize[..count]);
    var code: Word, k := 0, 0;
    while true
      invariant k < count && code == Code(sizes, k)
      invariant forall j :: 0 <= j < k ==> codes[j] == Code(sizes, j)
      decreases count - k
    {
      AscendingAt(sizes, k);
      k, code := RunOfCodes(codes, huffsize, count, k, code);
      if huffsize[k] == 0 {
        EndsAt(sizes, k, huffsize[..]);
        return;
      }
      AscendingAt(sizes, k);
      code := ShiftCode(code, huffsize[k - 1], huffsize[k], sizes, k);
    }
  }

  /** The tables indexed by symbol; the last entry for a symbol decides. */
  method GetExtended(ehuffsize: array<byte>, ehuffcode: array<Word>, huffval: array<byte>, huffsize: array<byte>, huffcode: array<Word>, count: nat)
    requires ehuffsize.Length >= 256 && ehuffcode.Length >= 256
    requires 0 < count <= huffval.Length && count <= huffsize.Length && count <= huffcode.Length
    requires ehuffsize != huffval && ehuffsize != huffsize && ehuffcode != huffcode
    modifies ehuffsize, ehuffcode
    ensures forall v: byte :: v < 256 ==>
      var k := Entry(huffval[..count], v, count);
      (ehuffsize[v], ehuffcode[v]) == if k < count then (huffsize[k], huffcode[k]) else old((ehuffsize[v], ehuffcode[v]))
  {
    ghost var values := huffval[..count];
    for i := 0 to count
      invariant forall v: byte :: v < 256 ==>
        var k := Entry(values, v, i);
        (ehuffsize[v], ehuffcode[v]) == if k < i then (huffsize[k], huffcode[k]) else old((ehuffsize[v], ehuffcode[v]))
    {
      var val := huffval[i];
      ehuffcode[val] := huffcode[i];
      ehuffsize[val] := huffsize[i];
    }
  }
}
