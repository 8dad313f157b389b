/**
 * The bit buffer, the byte stuffing and the output buffer behind the entropy
 * coder, and what a reader of the bytes gets back.
 */
module JpegWriter {
  import opened Bytes
  import opened JpegBits
  import opened JpegHuffman
  import opened JpegTables
  import opened JpegCodec

  // ---- bytes ----

  /** A zero after every 0xFF, so that no marker appears in the data. */
  function Stuff(s: seq<byte>): seq<byte> {
    if s == [] then []
    else Stuff(s[..|s| - 1]) + if s[|s| - 1] == 0xFF then [0xFF, 0] else [s[|s| - 1]]
  }

  /** The data up to the first marker, its stuffed zeros removed. */
  function Unstuff(s: seq<byte>): seq<byte> {
    if s == [] then []
    else if s[0] != 0xFF then [s[0]] + Unstuff(s[1..])
    else if |s| > 1 && s[1] == 0 then [0xFF] + Unstuff(s[2..])
    else []
  }

  lemma {:induction false} StuffConcat(a: seq<byte>, b: seq<byte>)
    ensures Stuff(a + b) == Stuff(a) + Stuff(b)
  {
    if b == [] {
      assert a + b == a;
    } else {
      var init := b[..|b| - 1];
      StuffConcat(a, init);
      assert (a + b)[..|a + b| - 1] == a + init;
    }
  }

  lemma StuffFirst(s: seq<byte>)
    requires s != []
    ensures Stuff(s) == (if s[0] == 0xFF then [0xFF, 0] else [s[0]]) + Stuff(s[1..])
  {
    assert s == [s[0]] + s[1..];
    StuffConcat([s[0]], s[1..]);
    assert [s[0]][..0] == [];
  }

  /** A reader stops at the marker that follows and has exactly the data. */
  lemma {:induction false} StuffRoundTrip(s: seq<byte>, marker: seq<byte>)
    requires marker == [] || (|marker| > 1 && marker[0] == 0xFF && marker[1] != 0)
    ensures Unstuff(Stuff(s) + marker) == s
  {
    if s == [] {
      assert Stuff(s) + marker == marker;
    } else {
      StuffFirst(s);
      StuffRoundTrip(s[1..], marker);
      var stream, tail := Stuff(s) + marker, Stuff(s[1..]) + marker;
      if s[0] == 0xFF {
        assert stream == [0xFF, 0] + tail && stream[2..] == tail;
      } else {
        assert stream == [s[0]] + tail && stream[1..] == tail;
      }
      assert [s[0]] + s[1..] == s;
    }
  }

  /** The whole bytes in a string of bits. */
  function Pack(bits: seq<bool>): seq<byte> {
    if |bits| < 8 then []
    else
      var word := bits[..8];
      EightBits(word);
      [Value(word)] + Pack(bits[8..])
  }

  function Unpack(s: seq<byte>): (r: seq<bool>)
    ensures |r| == 8 * |s|
  {
    if s == [] then [] else Bits(s[0], 8) + Unpack(s[1..])
  }

  lemma EightBits(word: seq<bool>)
    requires |word| == 8
    ensures Value(word) < 256
  {
    assert Pow2(8) == 256;
  }

  lemma {:induction false} UnpackPack(bits: seq<bool>)
    requires |bits| % 8 == 0
    ensures Unpack(Pack(bits)) == bits
  {
    if |bits| >= 8 {
      var word := bits[..8];
      EightBits(word);
      BitsOfValue(word);
      UnpackPack(bits[8..]);
      assert bits == word + bits[8..];
    }
  }

  /** Appending eight more bits to whole bytes appends one byte. */
  lemma {:induction false} PackAppend(bits: seq<bool>, word: seq<bool>)
    requires |bits| % 8 == 0 && |word| == 8 && Value(word) < 256
    ensures Pack(bits + word) == Pack(bits) + [Value(word)]
  {
    if bits == [] {
      assert bits + word == word && word[..8] == word;
    } else {
      PackAppend(bits[8..], word);
      assert (bits + word)[..8] == bits[..8] && (bits + word)[8..] == bits[8..] + word;
    }
  }

  /** The bytes of a scan: its bits, filled up with zeros to a whole byte, and stuffed. */
  function Padding(n: nat): seq<bool> { if n % 8 == 0 then [] else Bits(0, 8 - n % 8) }

  function ScanBytes(bits: seq<bool>): seq<byte> { Stuff(Pack(bits + Padding(|bits|))) }

  /** What a reader finds in the file after the scan's header, up to the end-of-image marker. */
  function ReadScan(s: seq<byte>): seq<bool> { Unpack(Unstuff(s)) }

  lemma BytesRoundTrip(bits: seq<bool>, marker: seq<byte>)
    requires marker == [] || (|marker| > 1 && marker[0] == 0xFF && marker[1] != 0)
    ensures ReadScan(ScanBytes(bits) + marker) == bits + Padding(|bits|)
  {
    StuffRoundTrip(Pack(bits + Padding(|bits|)), marker);
    UnpackPack(bits + Padding(|bits|));
  }

  /**
   * Every sequence of blocks in range comes back from the bytes written for it,
   * with nothing but zeros to fill the last byte left over.
   */
  lemma FileRoundTrip(s: Scan, blocks: seq<JpegCodec.Block>, marker: seq<byte>)
    requires ScanShape(s, Components(blocks)) && ScanInRange(s, blocks)
    requires forall i :: 0 <= i < |s.coders| ==> Complete(s.coders[i])
    requires forall i :: 0 <= i < |blocks| ==> |blocks[i].du| == BLOCK
    requires marker == [] || (|marker| > 1 && marker[0] == 0xFF && marker[1] != 0)
    ensures var bits := EncodeScan(s, blocks);
      DecodeScan(s, Components(blocks), ReadScan(ScanBytes(bits) + marker)) == Some((blocks, Padding(|bits|)))
  {
    var bits := EncodeScan(s, blocks);
    BytesRoundTrip(bits, marker);
    ScanRoundTrip(s, blocks, Padding(|bits|));
  }

  // ---- the bit buffer ----

  /** The bits waiting in the buffer, at its high end. */
  function Buffered(pending: seq<bool>): nat
    requires |pending| <= 32
  {
    Shl(Value(pending), 32 - |pending|)
  }

  lemma Scale(v: nat, m: nat, n: nat)
    requires m <= n
    ensures v * Pow2(n) == v * Pow2(m) * Pow2(n - m)
  {
    PowAdd(m, n - m);
    MulAssoc(v, Pow2(m), Pow2(n - m));
  }

  lemma ScaleLess(v: nat, m: nat, n: nat)
    requires v < Pow2(m)
    ensures v * Pow2(n) < Pow2(m + n)
  {
    PowAdd(m, n);
    MulStrict(v, Pow2(m), Pow2(n));
  }

  lemma JoinNumbers(v: nat, b: nat, n: nat, free: nat)
    requires b < Pow2(n)
    ensures Or(v * Pow2(n + free), b * Pow2(free)) == (v * Pow2(n) + b) * Pow2(free)
  {
    ScaleLess(b, n, free);
    OrDisjoint(v, b * Pow2(free), n + free);
    Scale(v, n, n + free);
    Distribute(v * Pow2(n), b, Pow2(free));
  }

  /** Joining new bits below those that wait. */
  lemma JoinBits(pending: seq<bool>, bits: nat, n: nat)
    requires |pending| + n <= 32 && bits < Pow2(n)
    ensures var free := 32 - |pending| - n;
      Or(Buffered(pending), Shl(bits, free)) == Buffered(pending + Bits(bits, n))
  {
    var free := 32 - |pending| - n;
    ShlIsProduct(Value(pending), n + free);
    ShlIsProduct(bits, free);
    ShlIsProduct(Value(pending) * Pow2(n) + bits, free);
    JoinNumbers(Value(pending), bits, n, free);
    ValueConcat(pending, Bits(bits, n));
    ValueOfBits(bits, n);
  }

  /** A number of m low bits and others above them, with free zeros below. */
  lemma SplitNumber(w: nat, r: nat, m: nat, free: nat) returns (low: nat)
    requires r < Pow2(m)
    ensures (w * Pow2(m) + r) * Pow2(free) == w * Pow2(m + free) + low
    ensures low == r * Pow2(free) < Pow2(m + free)
  {
    low := r * Pow2(free);
    Distribute(w * Pow2(m), r, Pow2(free));
    Scale(w, m, m + free);
    ScaleLess(r, m, free);
  }

  lemma HighByte(w: nat, low: nat)
    requires low < 0x100_0000
    ensures (w * 0x100_0000 + low) / 0x100_0000 == w
    ensures w < 256 ==> (w * 0x100_0000 + low) * 256 % 0x1_0000_0000 == low * 256
  {
  }

  /** The buffer's high byte is the first eight bits; a shift leaves the others. */
  lemma TakeByte(pending: seq<bool>)
    requires 8 <= |pending| <= 32
    ensures Buffered(pending) / 0x100_0000 == Value(pending[..8]) < 256
    ensures Buffered(pending) * 256 % 0x1_0000_0000 == Buffered(pending[8..])
  {
    var word, rest, free := pending[..8], pending[8..], 32 - |pending|;
    EightBits(word);
    assert pending == word + rest;
    ValueConcat(word, rest);
    ShlIsProduct(Value(pending), free);
    var low := SplitNumber(Value(word), Value(rest), |rest|, free);
    Powers24();
    HighByte(Value(word), low);
    ShlIsProduct(Value(rest), free);
    ShlAgain(Value(rest), free);
  }

  lemma {:induction false} ShlAdd(v: nat, m: nat, n: nat)
    ensures Shl(v, m + n) == Shl(Shl(v, m), n)
  {
    if n > 0 { ShlAdd(v, m, n - 1); }
  }

  lemma ShlAgain(v: nat, n: nat)
    ensures Shl(v, n + 8) == Shl(v, n) * 256
  {
    ShlAdd(v, n, 8);
    ShlIsProduct(Shl(v, n), 8);
    Powers24();
  }

  lemma {:induction false} ShlZero(n: nat)
    ensures Shl(0, n) == 0
  {
    if n > 0 { ShlZero(n - 1); }
  }

  lemma NothingBuffered(pending: seq<bool>)
    requires pending == []
    ensures Buffered(pending) == 0
  {
    ShlZero(32 - |pending|);
  }

  lemma Powers24()
    ensures Pow2(8) == 256 && Pow2(24) == 0x100_0000
  {
    assert Pow2(8) == 256;
    PowAdd(8, 8);
    PowAdd(16, 8);
  }
}
