/**
 * The entropy-coded form of blocks of coefficients, the decoder of ITU-T T.81
 * for it, and the proof that decoding gives every block back.
 */
module JpegCodec {
  import opened Bytes
  import opened JpegBits
  import opened JpegHuffman
  import opened JpegTables

  // ---- numbers ----

  function BitLength(n: nat): (r: nat) { if n == 0 then 0 else 1 + BitLength(n / 2) }

  function Abs(v: int): nat { if v < 0 then -v else v }

  function Size(v: int): (r: nat)
    ensures r >= 1
  {
    if BitLength(Abs(v)) == 0 then 1 else BitLength(Abs(v))
  }

  /** The low bits of v, of one less when it is negative. */
  function Low(v: int): nat { (if v < 0 then v - 1 else v) % Pow2(Size(v)) }

  function Number(v: int): seq<bool> { Bits(Low(v), Size(v)) }

  /** The number that size bits stand for (F.2.2.1 of ITU-T T.81). */
  function Extend(v: nat, size: nat): int
    requires size >= 1
  {
    if v < Pow2(size - 1) then v + 1 - Pow2(size) else v
  }

  lemma {:induction false} BitLengthBounds(n: nat)
    requires n > 0
    ensures BitLength(n) > 0 && Pow2(BitLength(n) - 1) <= n < Pow2(BitLength(n))
  {
    if n > 1 { BitLengthBounds(n / 2); }
  }

  lemma {:induction false} BitLengthAtMost(n: nat, k: nat)
    requires n < Pow2(k)
    ensures BitLength(n) <= k
  {
    if n > 0 && k > 0 { BitLengthAtMost(n / 2, k - 1); }
  }

  lemma SmallMod(v: nat, p: nat)
    requires v < p
    ensures v % p == v
  {
    DivUnique(v, p, 0, v);
  }

  lemma ModOfNegative(v: int, p: nat)
    requires v < 0 < v + p
    ensures (v - 1) % p == p - 1 + v
  {
    assert (v - 1 + p) % p == v - 1 + p;
  }

  lemma LowValue(v: int)
    requires Abs(v) < Pow2(Size(v))
    ensures Low(v) == if v < 0 then Pow2(Size(v)) - 1 + v else v
  {
    var p := Pow2(Size(v));
    if v < 0 { ModOfNegative(v, p); } else { SmallMod(v, p); }
  }

  lemma SizeBounds(v: int)
    requires v != 0
    ensures Pow2(Size(v) - 1) <= Abs(v) < Pow2(Size(v))
  {
    BitLengthBounds(Abs(v));
  }

  lemma NumberIsExtended(v: int)
    requires v != 0
    ensures Extend(Value(Number(v)), Size(v)) == v
  {
    SizeBounds(v);
    LowValue(v);
    ValueOfBits(Low(v), Size(v));
  }

  method VariableLength(value: int) returns (low: Word, size: nat)
    requires Abs(value) < 0x1_0000
    ensures size == Size(value) <= 16 && low == Low(value)
  {
    var abs, v := value, value;
    if value < 0 { abs, v := -value, value - 1; }
    size := 1;
    abs := abs / 2;
    while abs != 0
      invariant abs >= 0 && Size(value) == size + BitLength(abs)
    {
      size := size + 1;
      abs := abs / 2;
    }
    Pow2Of16();
    BitLengthAtMost(Abs(value), 16);
    PowMonotone(size, 16);
    low := v % Pow2(size);
  }

  // ---- blocks ----

  const BLOCK := 64
  const END_OF_BLOCK: byte := 0x00
  const SIXTEEN_ZEROS: byte := 0xF0

  function Zeros(n: nat): (s: seq<int>)
    ensures |s| == n
  {
    seq(n, _ => 0)
  }

  function Symbol(run: nat, v: int): byte
    requires run < 16 && Size(v) < 16
  {
    run * 16 + Size(v)
  }

  function EncodeDc(t: Table, diff: int): seq<bool> {
    if diff == 0 then Encode(t, 0)
    else if Size(diff) < 256 then Encode(t, Size(diff)) + Number(diff)
    else []
  }

  /** The last coefficient that is not zero; 0 when only the first may be. */
  function LastNonZero(du: seq<int>, i: nat): (last: nat)
    requires i < |du|
    ensures last <= i
    ensures forall k :: last < k <= i ==> du[k] == 0
    ensures last > 0 ==> du[last] != 0
  {
    if i == 0 || du[i] != 0 then i else LastNonZero(du, i - 1)
  }

  /** The coefficients from i on, with run zeros before them not yet written. */
  function EncodeAc(t: Table, du: seq<int>, i: nat, last: nat, run: nat): seq<bool>
    requires last < |du| && run < 16
    decreases |du| - i
  {
    if i > last then if last == BLOCK - 1 then [] else Encode(t, END_OF_BLOCK)
    else if du[i] == 0 then
      if run + 1 == 16 then Encode(t, SIXTEEN_ZEROS) + EncodeAc(t, du, i + 1, last, 0)
      else EncodeAc(t, du, i + 1, last, run + 1)
    else if Size(du[i]) < 16 then
      Encode(t, Symbol(run, du[i])) + Number(du[i]) + EncodeAc(t, du, i + 1, last, 0)
    else []
  }

  datatype Coder = Coder(dc: Table, ac: Table)

  /** One block: the change of its first coefficient, then the others. */
  function EncodeBlock(c: Coder, pred: int, du: seq<int>): seq<bool>
    requires |du| == BLOCK
  {
    EncodeDc(c.dc, du[0] - pred) + EncodeAc(c.ac, du, 1, LastNonZero(du, BLOCK - 1), 0)
  }

  /** What is written for a block of equal samples, of which only the first coefficient is computed. */
  function EncodeConstant(c: Coder, pred: int, first: int): seq<bool> {
    EncodeDc(c.dc, first - pred) + Encode(c.ac, END_OF_BLOCK)
  }

  /** A block of equal samples is written as any block whose other coefficients are zero. */
  lemma ConstantIsGeneral(c: Coder, pred: int, du: seq<int>)
    requires |du| == BLOCK && forall i :: 1 <= i < BLOCK ==> du[i] == 0
    ensures EncodeConstant(c, pred, du[0]) == EncodeBlock(c, pred, du)
  {
    assert LastNonZero(du, BLOCK - 1) == 0;
  }

  // ---- decoding ----

  function DecodeNumber(stream: seq<bool>, size: nat): Option<(int, seq<bool>)> {
    if size == 0 then Some((0, stream))
    else if |stream| < size then None
    else Some((Extend(Value(stream[..size]), size), stream[size..]))
  }

  function DecodeDc(t: Table, stream: seq<bool>): Option<(int, seq<bool>)> {
    match Decode(t, stream, 1)
    case None => None
    case Some((size, rest)) => DecodeNumber(rest, size)
  }

  function Prepend(s: seq<int>, r: Option<(seq<int>, seq<bool>)>): Option<(seq<int>, seq<bool>)> {
    match r
    case None => None
    case Some((tail, rest)) => Some((s + tail, rest))
  }

  /** Coefficients k to 63 (F.2.2.2 of ITU-T T.81). */
  function DecodeAc(t: Table, stream: seq<bool>, k: nat): (r: Option<(seq<int>, seq<bool>)>)
    requires k <= BLOCK
    decreases BLOCK - k, |stream|
  {
    if k == BLOCK then Some(([], stream))
    else
      match Decode(t, stream, 1)
      case None => None
      case Some((symbol, rest)) =>
        var run, size := symbol / 16, symbol % 16;
        if size == 0 && run != 15 then Some((Zeros(BLOCK - k), rest))
        else if size == 0 then if k + 16 > BLOCK then None else Prepend(Zeros(16), DecodeAc(t, rest, k + 16))
        else if k + run >= BLOCK then None
        else
          match DecodeNumber(rest, size)
          case None => None
          case Some((v, after)) => Prepend(Zeros(run) + [v], DecodeAc(t, after, k + run + 1))
  }

  function DecodeBlock(c: Coder, pred: int, stream: seq<bool>): Option<(seq<int>, seq<bool>)> {
    match DecodeDc(c.dc, stream)
    case None => None
    case Some((diff, rest)) => Prepend([pred + diff], DecodeAc(c.ac, rest, 1))
  }

  // ---- decoding undoes encoding ----

  ghost predicate KnowsDc(t: Table) { forall size: byte :: size <= 11 ==> Knows(t, size) }

  ghost predicate KnowsAc(t: Table) {
    && Knows(t, END_OF_BLOCK) && Knows(t, SIXTEEN_ZEROS)
    && (forall symbol: byte :: 1 <= symbol % 16 <= 10 ==> Knows(t, symbol))
  }

  /** The tables can write every coefficient in range. */
  ghost predicate Complete(c: Coder) { Valid(c.dc) && Valid(c.ac) && KnowsDc(c.dc) && KnowsAc(c.ac) }

  predicate InRange(pred: int, du: seq<int>) {
    |du| == BLOCK && Abs(du[0] - pred) <= 2047 && forall i :: 1 <= i < BLOCK ==> Abs(du[i]) <= 1023
  }

  lemma SizeInRange(v: int, k: nat)
    requires k > 0 && Abs(v) < Pow2(k)
    ensures Size(v) <= k
  {
    BitLengthAtMost(Abs(v), k);
  }

  lemma Powers()
    ensures Pow2(10) == 1024 && Pow2(11) == 2048
  {
    assert Pow2(5) == 32;
    PowAdd(5, 5);
  }

  lemma NumberRoundTrip(v: int, rest: seq<bool>)
    requires v != 0
    ensures DecodeNumber(Number(v) + rest, Size(v)) == Some((v, rest))
  {
    NumberIsExtended(v);
    assert (Number(v) + rest)[..Size(v)] == Number(v) && (Number(v) + rest)[Size(v)..] == rest;
  }

  ghost predicate ReadsDc(t: Table) { forall size: byte :: size <= 11 ==> Reads(t, size) }

  ghost predicate ReadsAc(t: Table) {
    && Reads(t, END_OF_BLOCK) && Reads(t, SIXTEEN_ZEROS)
    && (forall symbol: byte :: 1 <= symbol % 16 <= 10 ==> Reads(t, symbol))
  }

  lemma CompleteReads(c: Coder)
    requires Complete(c)
    ensures ReadsDc(c.dc) && ReadsAc(c.ac)
  {
    forall size: byte | size <= 11 ensures Reads(c.dc, size) { KnownReads(c.dc, size); }
    forall symbol: byte | symbol == END_OF_BLOCK || symbol == SIXTEEN_ZEROS || 1 <= symbol % 16 <= 10 ensures Reads(c.ac, symbol) {
      KnownReads(c.ac, symbol);
    }
  }

  lemma DcRoundTrip(t: Table, diff: int, rest: seq<bool>)
    requires ReadsDc(t) && Abs(diff) <= 2047
    ensures DecodeDc(t, EncodeDc(t, diff) + rest) == Some((diff, rest))
  {
    if diff == 0 {
      ReadSymbol(t, 0, rest);
    } else {
      Powers();
      SizeInRange(diff, 11);
      var size: byte := Size(diff);
      ReadSymbol(t, size, Number(diff) + rest);
      assert Encode(t, size) + Number(diff) + rest == Encode(t, size) + (Number(diff) + rest);
      NumberRoundTrip(diff, rest);
    }
  }

  lemma CoefficientRoundTrip(t: Table, run: nat, v: int, rest: seq<bool>)
    requires ReadsAc(t) && run < 16 && v != 0 && Size(v) <= 10
    ensures Decode(t, Encode(t, Symbol(run, v)) + Number(v) + rest, 1) == Some((Symbol(run, v), Number(v) + rest))
    ensures Symbol(run, v) / 16 == run && Symbol(run, v) % 16 == Size(v)
  {
    assert Reads(t, Symbol(run, v));
    ReadSymbol(t, Symbol(run, v), Number(v) + rest);
    assert Encode(t, Symbol(run, v)) + Number(v) + rest == Encode(t, Symbol(run, v)) + (Number(v) + rest);
  }

  lemma CoefficientInRange(v: int)
    requires Abs(v) <= 1023
    ensures Size(v) <= 10
  {
    Powers();
    SizeInRange(v, 10);
  }

  lemma PrependRun(du: seq<int>, k: nat, i: nat)
    requires k <= i < |du| && forall j :: k <= j < i ==> du[j] == 0
    ensures Zeros(i - k) + [du[i]] + du[i + 1..] == du[k..]
  {
  }

  ghost predicate Waiting(du: seq<int>, i: nat, last: nat, run: nat) {
    && |du| == BLOCK && last < BLOCK && run < 16 && run < i <= last + 1
    && (forall k :: 1 <= k < BLOCK ==> Abs(du[k]) <= 1023)
    && (forall k :: i - run <= k < i ==> du[k] == 0)
    && (forall k :: last < k < BLOCK ==> du[k] == 0)
    && (i <= last ==> du[last] != 0) && (i > last ==> run == 0)
  }

  /** The coefficients, from the first zero not yet written on, are read back. */
  ghost predicate AcReads(t: Table, du: seq<int>, i: nat, last: nat, run: nat, rest: seq<bool>)
    requires Waiting(du, i, last, run)
  {
    DecodeAc(t, EncodeAc(t, du, i, last, run) + rest, i - run) == Some((du[i - run..], rest))
  }

  lemma {:induction false} AcRoundTrip(t: Table, du: seq<int>, i: nat, last: nat, run: nat, rest: seq<bool>)
    requires ReadsAc(t) && Waiting(du, i, last, run)
    ensures AcReads(t, du, i, last, run, rest)
    decreases BLOCK - i
  {
    if i > last {
      AcEnds(t, du, i, last, rest);
    } else if du[i] == 0 && run + 1 == 16 {
      AcRoundTrip(t, du, i + 1, last, 0, rest);
      AcSixteen(t, du, i, last, rest);
    } else if du[i] == 0 {
      AcRoundTrip(t, du, i + 1, last, run + 1, rest);
      AcZero(t, du, i, last, run, rest);
    } else {
      AcRoundTrip(t, du, i + 1, last, 0, rest);
      AcCoefficient(t, du, i, last, run, rest);
    }
  }

  lemma AcZero(t: Table, du: seq<int>, i: nat, last: nat, run: nat, rest: seq<bool>)
    requires Waiting(du, i, last, run) && i <= last && run + 1 < 16 && du[i] == 0
    requires Waiting(du, i + 1, last, run + 1) && AcReads(t, du, i + 1, last, run + 1, rest)
    ensures AcReads(t, du, i, last, run, rest)
  {
  }

  lemma AcEnds(t: Table, du: seq<int>, i: nat, last: nat, rest: seq<bool>)
    requires ReadsAc(t) && Waiting(du, i, last, 0) && i > last
    ensures AcReads(t, du, i, last, 0, rest)
  {
    if last == BLOCK - 1 {
      assert [] + rest == rest;
    } else {
      ReadSymbol(t, END_OF_BLOCK, rest);
      assert Zeros(BLOCK - i) == du[i..];
    }
  }

  lemma AcSixteen(t: Table, du: seq<int>, i: nat, last: nat, rest: seq<bool>)
    requires ReadsAc(t) && Waiting(du, i, last, 15) && i <= last && du[i] == 0
    requires Waiting(du, i + 1, last, 0) && AcReads(t, du, i + 1, last, 0, rest)
    ensures AcReads(t, du, i, last, 15, rest)
  {
    var tail := EncodeAc(t, du, i + 1, last, 0);
    ReadSymbol(t, SIXTEEN_ZEROS, tail + rest);
    Regroup(Encode(t, SIXTEEN_ZEROS), tail, rest);
    assert Zeros(16) + du[i + 1..] == du[i - 15..];
  }

  lemma CoefficientEncoded(t: Table, du: seq<int>, i: nat, last: nat, run: nat)
    requires i <= last < |du| && run < 16 && du[i] != 0 && Size(du[i]) < 16
    ensures EncodeAc(t, du, i, last, run) == Encode(t, Symbol(run, du[i])) + Number(du[i]) + EncodeAc(t, du, i + 1, last, 0)
  {
  }

  lemma CoefficientReads(t: Table, du: seq<int>, i: nat, run: nat, tail: seq<bool>, rest: seq<bool>)
    requires ReadsAc(t) && |du| == BLOCK && run < 16 && run < i < BLOCK && du[i] != 0 && Abs(du[i]) <= 1023
    requires forall k :: i - run <= k < i ==> du[k] == 0
    requires Size(du[i]) <= 10 && DecodeAc(t, tail + rest, i + 1) == Some((du[i + 1..], rest))
    ensures DecodeAc(t, Encode(t, Symbol(run, du[i])) + Number(du[i]) + tail + rest, i - run) == Some((du[i - run..], rest))
  {
    Regroup(Encode(t, Symbol(run, du[i])) + Number(du[i]), tail, rest);
    CoefficientStep(t, i - run, run, du[i], tail + rest, du[i + 1..], rest);
    PrependRun(du, i - run, i);
  }

  lemma AcCoefficient(t: Table, du: seq<int>, i: nat, last: nat, run: nat, rest: seq<bool>)
    requires ReadsAc(t) && Waiting(du, i, last, run) && i <= last && du[i] != 0
    requires Waiting(du, i + 1, last, 0) && AcReads(t, du, i + 1, last, 0, rest)
    ensures AcReads(t, du, i, last, run, rest)
  {
    CoefficientInRange(du[i]);
    CoefficientEncoded(t, du, i, last, run);
    CoefficientReads(t, du, i, run, EncodeAc(t, du, i + 1, last, 0), rest);
  }

  lemma Regroup(a: seq<bool>, b: seq<bool>, c: seq<bool>)
    ensures a + b + c == a + (b + c)
  {
  }

  /** One symbol and its number are a run of zeros and a coefficient. */
  lemma CoefficientStep(t: Table, k: nat, run: nat, v: int, after: seq<bool>, tail: seq<int>, rest: seq<bool>)
    requires ReadsAc(t) && run < 16 && v != 0 && Size(v) <= 10 && 0 < k && k + run < BLOCK
    requires DecodeAc(t, after, k + run + 1) == Some((tail, rest))
    ensures DecodeAc(t, Encode(t, Symbol(run, v)) + Number(v) + after, k) == Some((Zeros(run) + [v] + tail, rest))
  {
    CoefficientRoundTrip(t, run, v, after);
    NumberRoundTrip(v, after);
  }

  lemma BlockFromParts(c: Coder, pred: int, du: seq<int>, dc: seq<bool>, ac: seq<bool>, rest: seq<bool>)
    requires du != [] && DecodeDc(c.dc, dc + (ac + rest)) == Some((du[0] - pred, ac + rest))
    requires DecodeAc(c.ac, ac + rest, 1) == Some((du[1..], rest))
    ensures DecodeBlock(c, pred, dc + ac + rest) == Some((du, rest))
  {
    Regroup(dc, ac, rest);
    assert [du[0]] + du[1..] == du;
  }

  lemma AcWhole(t: Table, du: seq<int>, rest: seq<bool>)
    requires ReadsAc(t) && |du| == BLOCK && forall i :: 1 <= i < BLOCK ==> Abs(du[i]) <= 1023
    ensures DecodeAc(t, EncodeAc(t, du, 1, LastNonZero(du, BLOCK - 1), 0) + rest, 1) == Some((du[1..], rest))
  {
    var last := LastNonZero(du, BLOCK - 1);
    assert Waiting(du, 1, last, 0);
    AcRoundTrip(t, du, 1, last, 0, rest);
  }

  lemma BlockReads(c: Coder, pred: int, du: seq<int>, rest: seq<bool>)
    requires ReadsDc(c.dc) && ReadsAc(c.ac) && InRange(pred, du)
    ensures DecodeBlock(c, pred, EncodeBlock(c, pred, du) + rest) == Some((du, rest))
  {
    var dc, ac := EncodeDc(c.dc, du[0] - pred), EncodeAc(c.ac, du, 1, LastNonZero(du, BLOCK - 1), 0);
    AcWhole(c.ac, du, rest);
    DcRoundTrip(c.dc, du[0] - pred, ac + rest);
    BlockFromParts(c, pred, du, dc, ac, rest);
  }

  /** A block is read back whole, whatever follows it. */
  lemma BlockRoundTrip(c: Coder, pred: int, du: seq<int>, rest: seq<bool>)
    requires Complete(c) && InRange(pred, du)
    ensures DecodeBlock(c, pred, EncodeBlock(c, pred, du) + rest) == Some((du, rest))
  {
    CompleteReads(c);
    BlockReads(c, pred, du, rest);
  }

  // ---- a whole scan ----

  /** A block of one of the three colour components. */
  datatype Block = Block(component: nat, du: seq<int>)

  datatype Scan = Scan(coders: seq<Coder>, preds: seq<int>)

  predicate ScanShape(s: Scan, components: seq<nat>) {
    |s.preds| == |s.coders| && forall i :: 0 <= i < |components| ==> components[i] < |s.coders|
  }

  /** The scan once a block of component c with this first coefficient is written. */
  function After(s: Scan, c: nat, first: int): (r: Scan)
    requires c < |s.preds|
    ensures |r.preds| == |s.preds| && r.coders == s.coders
  {
    s.(preds := s.preds[c := first])
  }

  function Components(blocks: seq<Block>): (r: seq<nat>)
    ensures |r| == |blocks|
  {
    seq(|blocks|, i requires 0 <= i < |blocks| => blocks[i].component)
  }

  /** Blocks one after another, each predicted from the last of its component. */
  function EncodeScan(s: Scan, blocks: seq<Block>): seq<bool>
    requires ScanShape(s, Components(blocks)) && forall i :: 0 <= i < |blocks| ==> |blocks[i].du| == BLOCK
    decreases |blocks|
  {
    if blocks == [] then []
    else
      var (c, du) := (blocks[0].component, blocks[0].du);
      assert Components(blocks)[0] == c && Components(blocks[1..]) == Components(blocks)[1..];
      EncodeBlock(s.coders[c], s.preds[c], du) + EncodeScan(After(s, c, du[0]), blocks[1..])
  }

  function DecodeScan(s: Scan, components: seq<nat>, stream: seq<bool>): Option<(seq<Block>, seq<bool>)>
    requires ScanShape(s, components)
    decreases |components|
  {
    if components == [] then Some(([], stream))
    else
      var c := components[0];
      match DecodeBlock(s.coders[c], s.preds[c], stream)
      case None => None
      case Some((du, rest)) =>
        if du == [] then None
        else
          match DecodeScan(After(s, c, du[0]), components[1..], rest)
          case None => None
          case Some((blocks, after)) => Some(([Block(c, du)] + blocks, after))
  }

  /** Every block's coefficients are in range, the first of each relative to the one before it. */
  ghost predicate ScanInRange(s: Scan, blocks: seq<Block>)
    requires ScanShape(s, Components(blocks))
    decreases |blocks|
  {
    blocks == [] ||
    (var (c, du) := (blocks[0].component, blocks[0].du);
     assert Components(blocks)[0] == c && Components(blocks[1..]) == Components(blocks)[1..];
     InRange(s.preds[c], du) && ScanInRange(After(s, c, du[0]), blocks[1..]))
  }

  lemma DecodeFirst(s: Scan, components: seq<nat>, c: nat, du: seq<int>, tail: seq<Block>, stream: seq<bool>, after: seq<bool>, rest: seq<bool>)
    requires ScanShape(s, components) && components != [] && components[0] == c && du != []
    requires DecodeBlock(s.coders[c], s.preds[c], stream) == Some((du, after))
    requires ScanShape(After(s, c, du[0]), components[1..])
    requires DecodeScan(After(s, c, du[0]), components[1..], after) == Some((tail, rest))
    ensures DecodeScan(s, components, stream) == Some(([Block(c, du)] + tail, rest))
  {
  }

  lemma TailShape(s: Scan, blocks: seq<Block>)
    requires blocks != [] && |blocks[0].du| == BLOCK && ScanShape(s, Components(blocks))
    ensures blocks[0].component < |s.coders|
    ensures Components(blocks)[0] == blocks[0].component && Components(blocks[1..]) == Components(blocks)[1..]
    ensures ScanShape(After(s, blocks[0].component, blocks[0].du[0]), Components(blocks[1..]))
  {
    assert Components(blocks)[0] == blocks[0].component && Components(blocks[1..]) == Components(blocks)[1..];
  }

  /** Decoding the bits written for any sequence of blocks gives the blocks back. */
  lemma {:induction false} ScanRoundTrip(s: Scan, blocks: seq<Block>, rest: seq<bool>)
    requires ScanShape(s, Components(blocks)) && ScanInRange(s, blocks)
    requires forall i :: 0 <= i < |s.coders| ==> Complete(s.coders[i])
    requires forall i :: 0 <= i < |blocks| ==> |blocks[i].du| == BLOCK
    ensures DecodeScan(s, Components(blocks), EncodeScan(s, blocks) + rest) == Some((blocks, rest))
    decreases |blocks|
  {
    if blocks == [] {
      assert [] + rest == rest;
    } else {
      TailShape(s, blocks);
      var (c, du) := (blocks[0].component, blocks[0].du);
      var t := After(s, c, du[0]);
      var first, tail := EncodeBlock(s.coders[c], s.preds[c], du), EncodeScan(t, blocks[1..]);
      ScanRoundTrip(t, blocks[1..], rest);
      BlockRoundTrip(s.coders[c], s.preds[c], du, tail + rest);
      Regroup(first, tail, rest);
      DecodeFirst(s, Components(blocks), c, du, blocks[1..], first + tail + rest, tail + rest, rest);
      assert [blocks[0]] + blocks[1..] == blocks;
    }
  }
}
