/** The tables expanded, a whole scan encoded, and what a decoder makes of the bytes. */
module JpegImage {
  import opened Bytes
  import opened JpegBits
  import opened JpegHuffman
  import opened JpegTables
  import opened JpegCodec
  import opened JpegWriter
  import opened JpegEncoder
  import opened JpegStandard

  lemma EntryStands(t: Table, v: byte, k: nat)
    requires Valid(t) && Knows(t, v) && k == Entry(t.values, v, |t.values|)
    ensures k < |t.values| && 1 <= t.sizes[k] <= WIDTH && Code(t.sizes, k) < Pow2(t.sizes[k])
    ensures Encode(t, v) == Bits(Code(t.sizes, k), t.sizes[k])
  {
    assert t.values[..|t.values|] == t.values;
    KraftMonotone(t.sizes, k + 1, |t.sizes|);
    CodeIsKraft(t.sizes, k);
  }

  /** The lengths and codes in the order of the table. */
  method ExpandCodes(bits: seq<byte>, count: nat) returns (huffsize: array<byte>, huffcode: array<Word>)
    requires |bits| == WIDTH && 0 < count <= 256 && Sum(bits, WIDTH) == count
    ensures fresh(huffsize) && fresh(huffcode) && huffsize.Length == 257 && huffcode.Length == 256
    ensures Lengths(huffsize[..count]) == Sizes(bits, WIDTH)
    ensures forall k :: 0 <= k < count ==> huffcode[k] == Code(Lengths(huffsize[..count]), k)
  {
    var lengths := new byte[WIDTH](i requires 0 <= i < WIDTH => bits[i]);
    assert lengths[..] == bits;
    huffsize := new byte[257](_ => 0);
    GetCodeLengths(huffsize, lengths);
    SizesAscend(bits, WIDTH);
    huffcode := new Word[256](_ => 0);
    GetCodes(huffcode, huffsize, count);
  }

  lemma ArraysStand(t: Table, len: seq<byte>, code: seq<Word>)
    requires Valid(t) && |len| >= 256 && |code| >= 256 && |t.values| <= 256
    requires forall v: byte :: v < 256 ==>
      var k := Entry(t.values, v, |t.values|);
      k < |t.values| ==> len[v] == t.sizes[k] && code[v] == Code(t.sizes, k)
    ensures Stands(len, code, t)
  {
    forall v: byte | v < 256 && Knows(t, v)
      ensures 1 <= len[v] <= WIDTH && code[v] < Pow2(len[v]) && Bits(code[v], len[v]) == Encode(t, v)
    {
      EntryStands(t, v, Entry(t.values, v, |t.values|));
    }
  }

  /** A table expanded into arrays indexed by symbol. */
  method Expand(bits: seq<byte>, values: seq<byte>) returns (len: seq<byte>, code: seq<Word>)
    requires |bits| == WIDTH && 0 < |values| <= 256
    requires Sum(bits, WIDTH) == |values| && KraftOf(bits, WIDTH) <= TWO_16
    ensures Stands(len, code, MakeTable(bits, values))
  {
    ghost var t := MakeTable(bits, values);
    MadeValid(bits, values);
    var count := |values|;
    var huffsize, huffcode := ExpandCodes(bits, count);
    var huffval := new byte[count](i requires 0 <= i < count => values[i]);
    assert huffval[..count] == values;
    var ehuffsize, ehuffcode := new byte[257](_ => 0), new Word[256](_ => 0);
    GetExtended(ehuffsize, ehuffcode, huffval, huffsize, huffcode, count);
    len, code := ehuffsize[..], ehuffcode[..];
    forall k | 0 <= k < count ensures huffsize[k] == t.sizes[k] && huffcode[k] == Code(t.sizes, k) {
      assert Lengths(huffsize[..count])[k] == huffsize[k];
    }
    ArraysStand(t, len, code);
  }

  /** The symbol-indexed arrays for one component. */
  datatype Arrays = Arrays(dcLen: seq<byte>, dcCode: seq<Word>, acLen: seq<byte>, acCode: seq<Word>)

  ghost predicate StandFor(a: Arrays, c: Coder) { Stands(a.dcLen, a.dcCode, c.dc) && Stands(a.acLen, a.acCode, c.ac) }

  method ExpandBoth(dcBits: seq<byte>, dcValues: seq<byte>, acBits: seq<byte>, acValues: seq<byte>) returns (a: Arrays)
    requires |dcBits| == WIDTH && 0 < |dcValues| <= 256 && Sum(dcBits, WIDTH) == |dcValues| && KraftOf(dcBits, WIDTH) <= TWO_16
    requires |acBits| == WIDTH && 0 < |acValues| <= 256 && Sum(acBits, WIDTH) == |acValues| && KraftOf(acBits, WIDTH) <= TWO_16
    ensures StandFor(a, Coder(MakeTable(dcBits, dcValues), MakeTable(acBits, acValues)))
  {
    var dcLen, dcCode := Expand(dcBits, dcValues);
    var acLen, acCode := Expand(acBits, acValues);
    a := Arrays(dcLen, dcCode, acLen, acCode);
  }

  method ExpandLuma() returns (a: Arrays)
    ensures StandFor(a, Luma())
  {
    LumaDcSums(LUMA_DC_LENGTHS);
    LumaAcSums(LUMA_AC_LENGTHS);
    a := ExpandBoth(LUMA_DC_LENGTHS, LUMA_DC, LUMA_AC_LENGTHS, LUMA_AC);
  }

  method ExpandChroma() returns (a: Arrays)
    ensures StandFor(a, Chroma())
  {
    ChromaDcSums(CHROMA_DC_LENGTHS);
    ChromaAcSums(CHROMA_AC_LENGTHS);
    a := ExpandBoth(CHROMA_DC_LENGTHS, CHROMA_DC, CHROMA_AC_LENGTHS, CHROMA_AC);
  }

  /** The scan of an image: one luma and two chroma components, all predictions zero. */
  function Fresh(): Scan { Scan([Luma(), Chroma(), Chroma()], [0, 0, 0]) }

  /** Blocks of equal samples have nothing but their first coefficient. */
  ghost predicate ConstantBlocks(blocks: seq<JpegCodec.Block>, constant: seq<bool>) {
    && |constant| == |blocks|
    && forall i, k :: 0 <= i < |blocks| && constant[i] && 1 <= k < |blocks[i].du| ==> blocks[i].du[k] == 0
  }

  ghost predicate Encodable(s: Scan, blocks: seq<JpegCodec.Block>) {
    && ScanShape(s, Components(blocks)) && ScanInRange(s, blocks)
    && (forall i :: 0 <= i < |blocks| ==> |blocks[i].du| == BLOCK)
  }

  lemma EncodableTail(s: Scan, blocks: seq<JpegCodec.Block>)
    requires Encodable(s, blocks) && blocks != []
    ensures var (c, du) := (blocks[0].component, blocks[0].du);
      && c < |s.coders| == |s.preds| && InRange(s.preds[c], du)
      && Encodable(After(s, c, du[0]), blocks[1..])
      && EncodeScan(s, blocks) == EncodeBlock(s.coders[c], s.preds[c], du) + EncodeScan(After(s, c, du[0]), blocks[1..])
  {
    TailShape(s, blocks);
    forall i | 0 <= i < |blocks[1..]| ensures |blocks[1..][i].du| == BLOCK { assert blocks[1..][i] == blocks[i + 1]; }
  }

  /** Encodes one block and updates its component's prediction. */
  method EncodeNext(e: Encoder, arrays: seq<Arrays>, s: Scan, block: JpegCodec.Block, constant: bool) returns (t: Scan)
    requires e.Valid() && |arrays| == |s.coders| == |s.preds| && block.component < |arrays|
    requires StandFor(arrays[block.component], s.coders[block.component]) && Complete(s.coders[block.component])
    requires InRange(s.preds[block.component], block.du)
    requires constant ==> forall k :: 1 <= k < BLOCK ==> block.du[k] == 0
    modifies e, e.output
    ensures e.Valid() && t == After(s, block.component, block.du[0])
    ensures e.Written() == old(e.Written()) + EncodeBlock(s.coders[block.component], s.preds[block.component], block.du)
  {
    var c := block.component;
    var a := arrays[c];
    if constant { ConstantIsGeneral(s.coders[c], s.preds[c], block.du); }
    var next := e.EncodeUnit(a.dcLen, a.dcCode, a.acLen, a.acCode, block.du, constant, s.preds[c], s.coders[c]);
    t := s.(preds := s.preds[c := next]);
  }

  ghost predicate ArraysFor(arrays: seq<Arrays>, coders: seq<Coder>) {
    && |arrays| == |coders|
    && forall i :: 0 <= i < |coders| ==> StandFor(arrays[i], coders[i]) && Complete(coders[i])
  }

  lemma ArraysAt(arrays: seq<Arrays>, coders: seq<Coder>, c: nat)
    requires ArraysFor(arrays, coders) && c < |coders|
    ensures StandFor(arrays[c], coders[c]) && Complete(coders[c])
  {
  }

  /** Encodes the first of the blocks still to come. */
  method EncodeHead(e: Encoder, arrays: seq<Arrays>, s: Scan, rest: seq<JpegCodec.Block>, constant: bool) returns (t: Scan)
    requires e.Valid() && ArraysFor(arrays, s.coders) && Encodable(s, rest) && rest != []
    requires constant ==> forall k :: 1 <= k < |rest[0].du| ==> rest[0].du[k] == 0
    modifies e, e.output
    ensures e.Valid() && t.coders == s.coders && Encodable(t, rest[1..])
    ensures e.Written() + EncodeScan(t, rest[1..]) == old(e.Written()) + EncodeScan(s, rest)
  {
    EncodableTail(s, rest);
    ghost var c, du := rest[0].component, rest[0].du;
    ArraysAt(arrays, s.coders, c);
    Regroup(e.Written(), EncodeBlock(s.coders[c], s.preds[c], du), EncodeScan(After(s, c, du[0]), rest[1..]));
    t := EncodeNext(e, arrays, s, rest[0], constant);
  }

  lemma ConstantAt(blocks: seq<JpegCodec.Block>, constant: seq<bool>, i: nat)
    requires ConstantBlocks(blocks, constant) && i < |blocks|
    ensures constant[i] ==> forall k :: 1 <= k < |blocks[i..][0].du| ==> blocks[i..][0].du[k] == 0
    ensures blocks[i..] != [] && blocks[i..][1..] == blocks[i + 1..]
  {
  }

  lemma NothingLeft(s: Scan, blocks: seq<JpegCodec.Block>, bits: seq<bool>)
    requires Encodable(s, blocks) && blocks == []
    ensures bits + EncodeScan(s, blocks) == bits
  {
  }

  method EncodeUnits(e: Encoder, arrays: seq<Arrays>, start: Scan, blocks: seq<JpegCodec.Block>, constant: seq<bool>)
    requires e.Valid() && ArraysFor(arrays, start.coders) && Encodable(start, blocks) && ConstantBlocks(blocks, constant)
    modifies e, e.output
    ensures e.Valid() && e.Written() == old(e.Written()) + EncodeScan(start, blocks)
  {
    var s, i := start, 0;
    ghost var goal := e.Written() + EncodeScan(s, blocks);
    assert blocks[0..] == blocks;
    while i < |blocks|
      invariant i <= |blocks| && e.Valid() && s.coders == start.coders && Encodable(s, blocks[i..])
      invariant e.Written() + EncodeScan(s, blocks[i..]) == goal
    {
      ConstantAt(blocks, constant, i);
      s := EncodeHead(e, arrays, s, blocks[i..], constant[i]);
      i := i + 1;
    }
    NothingLeft(s, blocks[i..], e.Written());
  }

  /** What a decoder must make of an image: its blocks, and the zeros that fill the last byte. */
  ghost predicate Readable(s: Scan, blocks: seq<JpegCodec.Block>, bytes: seq<byte>) {
    && Encodable(s, blocks)
    && DecodeScan(s, Components(blocks), ReadScan(bytes)) == Some((blocks, Padding(|EncodeScan(s, blocks)|)))
  }

  lemma EncodedIsReadable(arrays: seq<Arrays>, s: Scan, blocks: seq<JpegCodec.Block>)
    requires ArraysFor(arrays, s.coders) && Encodable(s, blocks)
    ensures Readable(s, blocks, ScanBytes(EncodeScan(s, blocks)) + [0xFF, 0xD9])
  {
    forall i | 0 <= i < |s.coders| ensures Complete(s.coders[i]) { ArraysAt(arrays, s.coders, i); }
    FileRoundTrip(s, blocks, [0xFF, 0xD9]);
  }

  /** The entropy-coded data of blocks and the marker after it. */
  method EncodeBlocks(arrays: seq<Arrays>, s: Scan, blocks: seq<JpegCodec.Block>, constant: seq<bool>) returns (bytes: seq<byte>)
    requires ArraysFor(arrays, s.coders) && Encodable(s, blocks) && ConstantBlocks(blocks, constant)
    ensures bytes == ScanBytes(EncodeScan(s, blocks)) + [0xFF, 0xD9]
  {
    ghost var bits := EncodeScan(s, blocks);
    var e := new Encoder();
    EncodeUnits(e, arrays, s, blocks, constant);
    assert e.Written() == bits;
    bytes := Close(e, bits);
  }

  method Close(e: Encoder, ghost bits: seq<bool>) returns (bytes: seq<byte>)
    requires e.Valid() && e.Written() == bits
    modifies e, e.output
    ensures bytes == ScanBytes(bits) + [0xFF, 0xD9]
  {
    e.Finish();
    bytes := e.sink;
  }

  method ExpandImage() returns (arrays: seq<Arrays>)
    ensures ArraysFor(arrays, Fresh().coders)
  {
    var luma := ExpandLuma();
    var chroma := ExpandChroma();
    StandardTablesComplete();
    arrays := [luma, chroma, chroma];
    ThreeComponents(luma, Luma(), chroma, Chroma());
  }

  lemma ThreeComponents(a: Arrays, luma: Coder, b: Arrays, chroma: Coder)
    requires StandFor(a, luma) && StandFor(b, chroma) && Complete(luma) && Complete(chroma)
    ensures ArraysFor([a, b, b], [luma, chroma, chroma])
  {
  }

  /** An image, from its blocks to its bytes and, for the decoder, back. */
  method EncodeImage(blocks: seq<JpegCodec.Block>, constant: seq<bool>) returns (bytes: seq<byte>)
    requires Encodable(Fresh(), blocks) && ConstantBlocks(blocks, constant)
    ensures Readable(Fresh(), blocks, bytes)
  {
    var arrays := ExpandImage();
    bytes := EncodeBlocks(arrays, Fresh(), blocks, constant);
    EncodedIsReadable(arrays, Fresh(), blocks);
  }
}
