/** The four tables the encoder uses, and that they can write every coefficient in range. */
module JpegStandard {
  import opened Bytes
  import opened JpegBits
  import opened JpegHuffman
  import opened JpegTables
  import opened JpegCodec

  const LUMA_DC_LENGTHS: seq<byte> := [0, 1, 5, 1, 1, 1, 1, 1, 1, 0, 0, 0, 0, 0, 0, 0]
  const LUMA_DC: seq<byte> := [0, 1, 2, 3, 4, 5, 6, 7, 8, 9, 10, 11]

  const LUMA_AC_LENGTHS: seq<byte> := [0, 2, 1, 3, 3, 2, 4, 3, 5, 5, 4, 4, 0, 0, 1, 125]
  const LUMA_AC_0: seq<byte> := [0x01, 0x02, 0x03, 0x00, 0x04, 0x11, 0x05, 0x12, 0x21, 0x31, 0x41, 0x06, 0x13, 0x51, 0x61, 0x07]
  const LUMA_AC_1: seq<byte> := [0x22, 0x71, 0x14, 0x32, 0x81, 0x91, 0xA1, 0x08, 0x23, 0x42, 0xB1, 0xC1, 0x15, 0x52, 0xD1, 0xF0]
  const LUMA_AC_2: seq<byte> := [0x24, 0x33, 0x62, 0x72, 0x82, 0x09, 0x0A, 0x16, 0x17, 0x18, 0x19, 0x1A, 0x25, 0x26, 0x27, 0x28]
  const LUMA_AC_3: seq<byte> := [0x29, 0x2A, 0x34, 0x35, 0x36, 0x37, 0x38, 0x39, 0x3A, 0x43, 0x44, 0x45, 0x46, 0x47, 0x48, 0x49]
  const LUMA_AC_4: seq<byte> := [0x4A, 0x53, 0x54, 0x55, 0x56, 0x57, 0x58, 0x59, 0x5A, 0x63, 0x64, 0x65, 0x66, 0x67, 0x68, 0x69]
  const LUMA_AC_5: seq<byte> := [0x6A, 0x73, 0x74, 0x75, 0x76, 0x77, 0x78, 0x79, 0x7A, 0x83, 0x84, 0x85, 0x86, 0x87, 0x88, 0x89]
  const LUMA_AC_6: seq<byte> := [0x8A, 0x92, 0x93, 0x94, 0x95, 0x96, 0x97, 0x98, 0x99, 0x9A, 0xA2, 0xA3, 0xA4, 0xA5, 0xA6, 0xA7]
  const LUMA_AC_7: seq<byte> := [0xA8, 0xA9, 0xAA, 0xB2, 0xB3, 0xB4, 0xB5, 0xB6, 0xB7, 0xB8, 0xB9, 0xBA, 0xC2, 0xC3, 0xC4, 0xC5]
  const LUMA_AC_8: seq<byte> := [0xC6, 0xC7, 0xC8, 0xC9, 0xCA, 0xD2, 0xD3, 0xD4, 0xD5, 0xD6, 0xD7, 0xD8, 0xD9, 0xDA, 0xE1, 0xE2]
  const LUMA_AC_9: seq<byte> := [0xE3, 0xE4, 0xE5, 0xE6, 0xE7, 0xE8, 0xE9, 0xEA, 0xF1, 0xF2, 0xF3, 0xF4, 0xF5, 0xF6, 0xF7, 0xF8]
  const LUMA_AC_10: seq<byte> := [0xF9, 0xFA]
  const LUMA_AC: seq<byte> := LUMA_AC_0 + LUMA_AC_1 + LUMA_AC_2 + LUMA_AC_3 + LUMA_AC_4 + LUMA_AC_5 + LUMA_AC_6 + LUMA_AC_7 + LUMA_AC_8 + LUMA_AC_9 + LUMA_AC_10

  const CHROMA_DC_LENGTHS: seq<byte> := [0, 3, 1, 1, 1, 1, 1, 1, 1, 1, 1, 0, 0, 0, 0, 0]
  const CHROMA_DC: seq<byte> := [0, 1, 2, 3, 4, 5, 6, 7, 8, 9, 10, 11]

  const CHROMA_AC_LENGTHS: seq<byte> := [0, 2, 1, 2, 4, 4, 3, 4, 7, 5, 4, 4, 0, 1, 2, 119]
  const CHROMA_AC_0: seq<byte> := [0x00, 0x01, 0x02, 0x03, 0x11, 0x04, 0x05, 0x21, 0x31, 0x06, 0x12, 0x41, 0x51, 0x07, 0x61, 0x71]
  const CHROMA_AC_1: seq<byte> := [0x13, 0x22, 0x32, 0x81, 0x08, 0x14, 0x42, 0x91, 0xA1, 0xB1, 0xC1, 0x09, 0x23, 0x33, 0x52, 0xF0]
  const CHROMA_AC_2: seq<byte> := [0x15, 0x62, 0x72, 0xD1, 0x0A, 0x16, 0x24, 0x34, 0xE1, 0x25, 0xF1, 0x17, 0x18, 0x19, 0x1A, 0x26]
  const CHROMA_AC_3: seq<byte> := [0x27, 0x28, 0x29, 0x2A, 0x35, 0x36, 0x37, 0x38, 0x39, 0x3A, 0x43, 0x44, 0x45, 0x46, 0x47, 0x48]
  const CHROMA_AC_4: seq<byte> := [0x49, 0x4A, 0x53, 0x54, 0x55, 0x56, 0x57, 0x58, 0x59, 0x5A, 0x63, 0x64, 0x65, 0x66, 0x67, 0x68]
  const CHROMA_AC_5: seq<byte> := [0x69, 0x6A, 0x73, 0x74, 0x75, 0x76, 0x77, 0x78, 0x79, 0x7A, 0x82, 0x83, 0x84, 0x85, 0x86, 0x87]
  const CHROMA_AC_6: seq<byte> := [0x88, 0x89, 0x8A, 0x92, 0x93, 0x94, 0x95, 0x96, 0x97, 0x98, 0x99, 0x9A, 0xA2, 0xA3, 0xA4, 0xA5]
  const CHROMA_AC_7: seq<byte> := [0xA6, 0xA7, 0xA8, 0xA9, 0xAA, 0xB2, 0xB3, 0xB4, 0xB5, 0xB6, 0xB7, 0xB8, 0xB9, 0xBA, 0xC2, 0xC3]
  const CHROMA_AC_8: seq<byte> := [0xC4, 0xC5, 0xC6, 0xC7, 0xC8, 0xC9, 0xCA, 0xD2, 0xD3, 0xD4, 0xD5, 0xD6, 0xD7, 0xD8, 0xD9, 0xDA]
  const CHROMA_AC_9: seq<byte> := [0xE2, 0xE3, 0xE4, 0xE5, 0xE6, 0xE7, 0xE8, 0xE9, 0xEA, 0xF2, 0xF3, 0xF4, 0xF5, 0xF6, 0xF7, 0xF8]
  const CHROMA_AC_10: seq<byte> := [0xF9, 0xFA]
  const CHROMA_AC: seq<byte> := CHROMA_AC_0 + CHROMA_AC_1 + CHROMA_AC_2 + CHROMA_AC_3 + CHROMA_AC_4 + CHROMA_AC_5 + CHROMA_AC_6 + CHROMA_AC_7 + CHROMA_AC_8 + CHROMA_AC_9 + CHROMA_AC_10

  function MakeTable(lengths: seq<byte>, values: seq<byte>): Table
    requires |lengths| == WIDTH
  {
    Table(Sizes(lengths, WIDTH), values)
  }

  /** The Kraft sum straight from the numbers of codes of each length. */
  function KraftOf(bits: seq<byte>, n: nat): nat
    requires n <= |bits|
  {
    if n == 0 then 0 else KraftOf(bits, n - 1) + bits[n - 1] * Share(n)
  }

  lemma {:induction false} KraftAppend(sizes: seq<nat>, count: nat, size: nat)
    ensures var all := sizes + seq(count, _ => size);
      Kraft(all, |all|) == Kraft(sizes, |sizes|) + count * Share(size)
  {
    var all := sizes + seq(count, _ => size);
    if count == 0 {
      assert all == sizes;
    } else {
      KraftAppend(sizes, count - 1, size);
      var init := sizes + seq(count - 1, _ => size);
      KraftPrefix(all, init, |init|);
      OneMore(count - 1, Share(size));
    }
  }

  lemma {:induction false} KraftPrefix(s: seq<nat>, t: seq<nat>, n: nat)
    requires n <= |s| && n <= |t| && s[..n] == t[..n]
    ensures Kraft(s, n) == Kraft(t, n)
  {
    if n > 0 {
      assert s[..n][n - 1] == s[n - 1] && t[..n][n - 1] == t[n - 1];
      assert s[..n - 1] == s[..n][..n - 1] && t[..n - 1] == t[..n][..n - 1];
      KraftPrefix(s, t, n - 1);
    }
  }

  lemma {:induction false} KraftOfSizes(bits: seq<byte>, n: nat)
    requires n <= |bits|
    ensures var sizes := Sizes(bits, n); Kraft(sizes, |sizes|) == KraftOf(bits, n)
  {
    if n > 0 {
      KraftOfSizes(bits, n - 1);
      KraftAppend(Sizes(bits, n - 1), bits[n - 1], n);
    }
  }

  lemma MadeValid(lengths: seq<byte>, values: seq<byte>)
    requires |lengths| == WIDTH && Sum(lengths, WIDTH) == |values| && KraftOf(lengths, WIDTH) <= TWO_16
    ensures Valid(MakeTable(lengths, values))
  {
    SizesAscend(lengths, WIDTH);
    KraftOfSizes(lengths, WIDTH);
  }

  /** The share of each code length. */
  lemma Shares()
    ensures Share(16) == 1 && Share(15) == 2
    ensures Share(14) == 4 && Share(13) == 8
    ensures Share(12) == 16 && Share(11) == 32
    ensures Share(10) == 64 && Share(9) == 128
    ensures Share(8) == 256 && Share(7) == 512
    ensures Share(6) == 1024 && Share(5) == 2048
    ensures Share(4) == 4096 && Share(3) == 8192
    ensures Share(2) == 16384 && Share(1) == 32768
  {
    assert Share(15) == 2 * Share(16);
    assert Share(14) == 2 * Share(15);
    assert Share(13) == 2 * Share(14);
    assert Share(12) == 2 * Share(13);
    assert Share(11) == 2 * Share(12);
    assert Share(10) == 2 * Share(11);
    assert Share(9) == 2 * Share(10);
    assert Share(8) == 2 * Share(9);
    assert Share(7) == 2 * Share(8);
    assert Share(6) == 2 * Share(7);
    assert Share(5) == 2 * Share(6);
    assert Share(4) == 2 * Share(5);
    assert Share(3) == 2 * Share(4);
    assert Share(2) == 2 * Share(3);
    assert Share(1) == 2 * Share(2);
  }

  /** Both sums over the sixteen lengths, written out. */
  lemma SumsAll(bits: seq<byte>, b: seq<int>)
    requires |bits| == WIDTH && b == bits
    ensures Sum(bits, WIDTH) == b[0] + b[1] + b[2] + b[3] + b[4] + b[5] + b[6] + b[7] + b[8] + b[9] + b[10] + b[11] + b[12] + b[13] + b[14] + b[15]
    ensures KraftOf(bits, WIDTH) == b[0] * 32768 + b[1] * 16384 + b[2] * 8192 + b[3] * 4096 + b[4] * 2048 + b[5] * 1024 + b[6] * 512 + b[7] * 256 + b[8] * 128 + b[9] * 64 + b[10] * 32 + b[11] * 16 + b[12] * 8 + b[13] * 4 + b[14] * 2 + b[15] * 1
  {
    Shares();
    assert Sum(bits, 2) == Sum(bits, 0) + b[0] + b[1];
    assert KraftOf(bits, 2) == KraftOf(bits, 0) + b[0] * 32768 + b[1] * 16384;
    assert Sum(bits, 4) == Sum(bits, 2) + b[2] + b[3];
    assert KraftOf(bits, 4) == KraftOf(bits, 2) + b[2] * 8192 + b[3] * 4096;
    assert Sum(bits, 6) == Sum(bits, 4) + b[4] + b[5];
    assert KraftOf(bits, 6) == KraftOf(bits, 4) + b[4] * 2048 + b[5] * 1024;
    assert Sum(bits, 8) == Sum(bits, 6) + b[6] + b[7];
    assert KraftOf(bits, 8) == KraftOf(bits, 6) + b[6] * 512 + b[7] * 256;
    assert Sum(bits, 10) == Sum(bits, 8) + b[8] + b[9];
    assert KraftOf(bits, 10) == KraftOf(bits, 8) + b[8] * 128 + b[9] * 64;
    assert Sum(bits, 12) == Sum(bits, 10) + b[10] + b[11];
    assert KraftOf(bits, 12) == KraftOf(bits, 10) + b[10] * 32 + b[11] * 16;
    assert Sum(bits, 14) == Sum(bits, 12) + b[12] + b[13];
    assert KraftOf(bits, 14) == KraftOf(bits, 12) + b[12] * 8 + b[13] * 4;
    assert Sum(bits, 16) == Sum(bits, 14) + b[14] + b[15];
    assert KraftOf(bits, 16) == KraftOf(bits, 14) + b[14] * 2 + b[15] * 1;
  }

  lemma LumaDcSums(lengths: seq<byte>)
    requires lengths == LUMA_DC_LENGTHS
    ensures Sum(lengths, WIDTH) == 12 && KraftOf(lengths, WIDTH) <= TWO_16
  {
    assert lengths[0] == 0 && lengths[1] == 1 && lengths[2] == 5 && lengths[3] == 1;
    assert lengths[4] == 1 && lengths[5] == 1 && lengths[6] == 1 && lengths[7] == 1;
    assert lengths[8] == 1 && lengths[9] == 0 && lengths[10] == 0 && lengths[11] == 0;
    assert lengths[12] == 0 && lengths[13] == 0 && lengths[14] == 0 && lengths[15] == 0;
    SumsAll(lengths, lengths);
  }

  lemma LumaDcValid(lengths: seq<byte>, values: seq<byte>)
    requires lengths == LUMA_DC_LENGTHS && values == LUMA_DC
    ensures Valid(MakeTable(lengths, values))
  {
    LumaDcSums(lengths);
    MadeValid(lengths, values);
  }

  lemma LumaDcKnows(lengths: seq<byte>, values: seq<byte>)
    requires lengths == LUMA_DC_LENGTHS && values == LUMA_DC
    ensures KnowsDc(MakeTable(lengths, values))
  {
    LumaDcValid(lengths, values);
  }

  lemma LumaAcSums(lengths: seq<byte>)
    requires lengths == LUMA_AC_LENGTHS
    ensures Sum(lengths, WIDTH) == 162 && KraftOf(lengths, WIDTH) <= TWO_16
  {
    assert lengths[0] == 0 && lengths[1] == 2 && lengths[2] == 1 && lengths[3] == 3;
    assert lengths[4] == 3 && lengths[5] == 2 && lengths[6] == 4 && lengths[7] == 3;
    assert lengths[8] == 5 && lengths[9] == 5 && lengths[10] == 4 && lengths[11] == 4;
    assert lengths[12] == 0 && lengths[13] == 0 && lengths[14] == 1 && lengths[15] == 125;
    SumsAll(lengths, lengths);
  }

  lemma LumaAcValid(lengths: seq<byte>, values: seq<byte>)
    requires lengths == LUMA_AC_LENGTHS && values == LUMA_AC
    ensures Valid(MakeTable(lengths, values))
  {
    LumaAcSums(lengths);
    MadeValid(lengths, values);
  }

  predicate InLumaAcRows(v: byte) {
    || v in LUMA_AC_0
    || v in LUMA_AC_1
    || v in LUMA_AC_2
    || v in LUMA_AC_3
    || v in LUMA_AC_4
    || v in LUMA_AC_5
    || v in LUMA_AC_6
    || v in LUMA_AC_7
    || v in LUMA_AC_8
    || v in LUMA_AC_9
    || v in LUMA_AC_10
  }

  lemma LumaAcRows(v: byte)
    requires InLumaAcRows(v)
    ensures v in LUMA_AC
  {
  }

  lemma LumaAcCovers(v: byte)
    requires v == END_OF_BLOCK || v == SIXTEEN_ZEROS || 1 <= v % 16 <= 10
    ensures InLumaAcRows(v)
  {
  }

  lemma LumaAcKnows(lengths: seq<byte>, values: seq<byte>)
    requires lengths == LUMA_AC_LENGTHS && values == LUMA_AC
    ensures KnowsAc(MakeTable(lengths, values))
  {
    var t := MakeTable(lengths, values);
    LumaAcValid(lengths, values);
    forall v: byte | v == END_OF_BLOCK || v == SIXTEEN_ZEROS || 1 <= v % 16 <= 10 ensures Knows(t, v) {
      LumaAcCovers(v);
      LumaAcRows(v);
    }
  }

  lemma ChromaDcSums(lengths: seq<byte>)
    requires lengths == CHROMA_DC_LENGTHS
    ensures Sum(lengths, WIDTH) == 12 && KraftOf(lengths, WIDTH) <= TWO_16
  {
    assert lengths[0] == 0 && lengths[1] == 3 && lengths[2] == 1 && lengths[3] == 1;
    assert lengths[4] == 1 && lengths[5] == 1 && lengths[6] == 1 && lengths[7] == 1;
    assert lengths[8] == 1 && lengths[9] == 1 && lengths[10] == 1 && lengths[11] == 0;
    assert lengths[12] == 0 && lengths[13] == 0 && lengths[14] == 0 && lengths[15] == 0;
    SumsAll(lengths, lengths);
  }

  lemma ChromaDcValid(lengths: seq<byte>, values: seq<byte>)
    requires lengths == CHROMA_DC_LENGTHS && values == CHROMA_DC
    ensures Valid(MakeTable(lengths, values))
  {
    ChromaDcSums(lengths);
    MadeValid(lengths, values);
  }

  lemma ChromaDcKnows(lengths: seq<byte>, values: seq<byte>)
    requires lengths == CHROMA_DC_LENGTHS && values == CHROMA_DC
    ensures KnowsDc(MakeTable(lengths, values))
  {
    ChromaDcValid(lengths, values);
  }

  lemma ChromaAcSums(lengths: seq<byte>)
    requires lengths == CHROMA_AC_LENGTHS
    ensures Sum(lengths, WIDTH) == 162 && KraftOf(lengths, WIDTH) <= TWO_16
  {
    assert lengths[0] == 0 && lengths[1] == 2 && lengths[2] == 1 && lengths[3] == 2;
    assert lengths[4] == 4 && lengths[5] == 4 && lengths[6] == 3 && lengths[7] == 4;
    assert lengths[8] == 7 && lengths[9] == 5 && lengths[10] == 4 && lengths[11] == 4;
    assert lengths[12] == 0 && lengths[13] == 1 && lengths[14] == 2 && lengths[15] == 119;
    SumsAll(lengths, lengths);
  }

  lemma ChromaAcValid(lengths: seq<byte>, values: seq<byte>)
    requires lengths == CHROMA_AC_LENGTHS && values == CHROMA_AC
    ensures Valid(MakeTable(lengths, values))
  {
    ChromaAcSums(lengths);
    MadeValid(lengths, values);
  }

  predicate InChromaAcRows(v: byte) {
    || v in CHROMA_AC_0
    || v in CHROMA_AC_1
    || v in CHROMA_AC_2
    || v in CHROMA_AC_3
    || v in CHROMA_AC_4
    || v in CHROMA_AC_5
    || v in CHROMA_AC_6
    || v in CHROMA_AC_7
    || v in CHROMA_AC_8
    || v in CHROMA_AC_9
    || v in CHROMA_AC_10
  }

  lemma ChromaAcRows(v: byte)
    requires InChromaAcRows(v)
    ensures v in CHROMA_AC
  {
  }

  lemma ChromaAcCovers(v: byte)
    requires v == END_OF_BLOCK || v == SIXTEEN_ZEROS || 1 <= v % 16 <= 10
    ensures InChromaAcRows(v)
  {
  }

  lemma ChromaAcKnows(lengths: seq<byte>, values: seq<byte>)
    requires lengths == CHROMA_AC_LENGTHS && values == CHROMA_AC
    ensures KnowsAc(MakeTable(lengths, values))
  {
    var t := MakeTable(lengths, values);
    ChromaAcValid(lengths, values);
    forall v: byte | v == END_OF_BLOCK || v == SIXTEEN_ZEROS || 1 <= v % 16 <= 10 ensures Knows(t, v) {
      ChromaAcCovers(v);
      ChromaAcRows(v);
    }
  }

  function Luma(): Coder { Coder(MakeTable(LUMA_DC_LENGTHS, LUMA_DC), MakeTable(LUMA_AC_LENGTHS, LUMA_AC)) }

  function Chroma(): Coder { Coder(MakeTable(CHROMA_DC_LENGTHS, CHROMA_DC), MakeTable(CHROMA_AC_LENGTHS, CHROMA_AC)) }

  lemma LumaComplete()
    ensures Complete(Luma())
  {
    LumaDcValid(LUMA_DC_LENGTHS, LUMA_DC);
    LumaDcKnows(LUMA_DC_LENGTHS, LUMA_DC);
    LumaAcValid(LUMA_AC_LENGTHS, LUMA_AC);
    LumaAcKnows(LUMA_AC_LENGTHS, LUMA_AC);
  }

  lemma ChromaComplete()
    ensures Complete(Chroma())
  {
    ChromaDcValid(CHROMA_DC_LENGTHS, CHROMA_DC);
    ChromaDcKnows(CHROMA_DC_LENGTHS, CHROMA_DC);
    ChromaAcValid(CHROMA_AC_LENGTHS, CHROMA_AC);
    ChromaAcKnows(CHROMA_AC_LENGTHS, CHROMA_AC);
  }

  /** The encoder's own tables are prefix codes and leave no coefficient in range without a code. */
  lemma StandardTablesComplete()
    ensures Complete(Luma()) && Complete(Chroma())
  {
    LumaComplete();
    ChromaComplete();
  }
}
