/** The entropy coder as it runs: one bit buffer, one output buffer, and the loops over a block. */
module JpegEncoder {
  import opened Bytes
  import opened JpegBits
  import opened JpegHuffman
  import opened JpegTables
  import opened JpegCodec
  import opened JpegWriter

  const BUFFER := 1024

  /** The symbol-indexed arrays that stand for a table. */
  ghost predicate Stands(len: seq<byte>, code: seq<Word>, t: Table) {
    && |len| >= 256 && |code| >= 256
    && forall v: byte :: v < 256 && Knows(t, v) ==>
         1 <= len[v] <= WIDTH && code[v] < Pow2(len[v]) && Bits(code[v], len[v]) == Encode(t, v)
  }

  class Encoder {
    const output: array<byte>
    var count: nat
    var sink: seq<byte>
    var bitbuffer: nat
    var location: nat
    /** The bits already sent as whole bytes, and those after them. */
    ghost var done: seq<bool>
    ghost var pending: seq<bool>

    /** All bits written so far. */
    ghost function Written(): seq<bool> reads this { done + pending }

    ghost predicate BufferReady()
      reads this
    {
      output.Length == BUFFER && count < BUFFER - 1
    }

    /** What has been handed on and what still waits in the output buffer. */
    ghost function Sent(): seq<byte>
      reads this, output
      requires BufferReady()
    {
      sink + output[..count]
    }

    /** The output is that of the whole bytes and the buffer holds the bits after them. */
    ghost predicate Holds()
      reads this, output
    {
      && BufferReady() && |pending| <= 32 && location == |pending| && |done| % 8 == 0
      && bitbuffer == Buffered(pending) && Sent() == Stuff(Pack(done))
    }

    ghost predicate Valid()
      reads this, output
    {
      Holds() && location < 8
    }

    constructor ()
      ensures Valid() && fresh(output) && Written() == []
    {
      output := new byte[BUFFER];
      count, sink, bitbuffer, location, done, pending := 0, [], 0, 0, [], [];
      new;
      NothingBuffered(pending);
      assert output[..count] == [];
    }

    method EmitByte(value: byte)
      requires BufferReady()
      modifies this`count, this`sink, output
      ensures BufferReady() && Sent() == old(Sent()) + [value]
    {
      ghost var before := Sent();
      output[count] := value;
      count := count + 1;
      assert output[..count] == old(output[..count]) + [value];
      if count == BUFFER - 1 {
        sink := sink + output[..count];
        count := 0;
        assert output[..count] == [];
      }
    }

    method CopyIn(data: seq<byte>, n: nat)
      requires BufferReady() && n <= |data| && count + n < BUFFER
      modifies output
      ensures output[..count + n] == old(output[..count]) + data[..n]
    {
      for i := 0 to n
        invariant output[..count + i] == old(output[..count]) + data[..i]
      {
        output[count + i] := data[i];
        assert output[..count + i + 1] == old(output[..count]) + data[..i] + [data[i]];
      }
    }

    /** A run of bytes: as many as fill the buffer, then the rest. */
    method WriteBlock(data: seq<byte>)
      requires BufferReady()
      modifies this`count, this`sink, output
      ensures BufferReady() && Sent() == old(Sent()) + data
      decreases |data|
    {
      ghost var before := Sent();
      var capped := Min(|data|, BUFFER - 1 - count);
      CopyIn(data, capped);
      count := count + capped;
      assert sink + output[..count] == before + data[..capped];
      if count == BUFFER - 1 {
        sink := sink + output[..count];
        count := 0;
        assert Sent() == sink;
      }
      if capped < |data| {
        WriteBlock(data[capped..]);
        assert before + data[..capped] + data[capped..] == before + data;
      } else {
        assert data[..capped] == data;
      }
    }

    method EmitStuffed(c: byte)
      requires BufferReady()
      modifies this`count, this`sink, output
      ensures BufferReady() && Sent() == old(Sent()) + if c == 0xFF then [0xFF, 0] else [c]
    {
      EmitByte(c);
      if c == 0xFF { EmitByte(0); }
    }

    method SendByte()
      requires Holds() && location >= 8
      modifies this, output
      ensures Holds() && location == old(location) - 8 && Written() == old(Written())
    {
      ByteLeaves(done, pending);
      var c: byte := bitbuffer / 0x100_0000;
      EmitStuffed(c);
      bitbuffer := bitbuffer * 256 % 0x1_0000_0000;
      location := location - 8;
      EightMoved(done, pending);
      done, pending := done + pending[..8], pending[8..];
    }

    method WriteBits(n: nat, word: Word)
      requires Valid() && 1 <= n <= 16 && word < Pow2(n)
      modifies this, output
      ensures Valid() && Written() == old(Written()) + Bits(word, n)
    {
      var nloc := location + n;
      JoinBits(pending, word, n);
      bitbuffer := Or(bitbuffer, Shl(word, 32 - nloc));
      location := nloc;
      pending := pending + Bits(word, n);
      assert Written() == old(Written()) + Bits(word, n);
      while location >= 8
        invariant Holds() && Written() == old(Written()) + Bits(word, n)
        decreases location
      {
        SendByte();
      }
    }

    method WriteSymbol(len: seq<byte>, code: seq<Word>, v: byte, ghost t: Table)
      requires Valid() && Stands(len, code, t) && Knows(t, v)
      modifies this, output
      ensures Valid() && Written() == old(Written()) + Encode(t, v)
    {
      WriteBits(len[v], code[v]);
    }

    /** A number that is not zero, behind the symbol for its size and the zeros before it. */
    method WriteValue(len: seq<byte>, code: seq<Word>, zeros: nat, v: int, ghost t: Table)
      requires Valid() && Stands(len, code, t) && zeros < 16 && v != 0 && Abs(v) <= 2047
      requires Size(v) < 16 && Knows(t, Symbol(zeros, v))
      modifies this, output
      ensures Valid() && Written() == old(Written()) + Encode(t, Symbol(zeros, v)) + Number(v)
    {
      NumberFits(v);
      var low, size := VariableLength(v);
      WriteSymbol(len, code, zeros * 16 + size, t);
      WriteBits(size, low);
    }

    method WriteDc(len: seq<byte>, code: seq<Word>, diff: int, ghost t: Table)
      requires Valid() && Stands(len, code, t) && KnowsDc(t) && Abs(diff) <= 2047
      modifies this, output
      ensures Valid() && Written() == old(Written()) + EncodeDc(t, diff)
    {
      if diff != 0 {
        NumberFits(diff);
        WriteValue(len, code, 0, diff, t);
      } else {
        WriteSymbol(len, code, 0, t);
      }
    }

    /** The zeros in front of coefficient i, as runs of sixteen; the rest of them are counted. */
    method SkipZeros(len: seq<byte>, code: seq<Word>, du: seq<int>, start: nat, last: nat, ghost t: Table)
        returns (i: nat, zeros: nat)
      requires Valid() && Stands(len, code, t) && KnowsAc(t)
      requires |du| == BLOCK && 1 <= start <= last < BLOCK && du[last] != 0
      modifies this, output
      ensures Valid() && start <= i <= last && zeros < 16 && du[i] != 0
      ensures Written() + EncodeAc(t, du, i, last, zeros) == old(Written()) + EncodeAc(t, du, start, last, 0)
    {
      i, zeros := start, 0;
      ghost var goal := Written() + EncodeAc(t, du, start, last, 0);
      while du[i] == 0
        invariant Valid() && start <= i <= last && zeros < 16
        invariant Written() + EncodeAc(t, du, i, last, zeros) == goal
        decreases last - i
      {
        ghost var before := Written();
        ZeroWritten(t, du, i, last, zeros, Written());
        zeros := zeros + 1;
        i := i + 1;
        if zeros == 16 {
          WriteSymbol(len, code, SIXTEEN_ZEROS, t);
          zeros := 0;
        }
      }
    }

    /** The next coefficient that is not zero, with the zeros in front of it. */
    method WriteRun(len: seq<byte>, code: seq<Word>, du: seq<int>, start: nat, last: nat, ghost t: Table) returns (next: nat)
      requires Valid() && Stands(len, code, t) && KnowsAc(t)
      requires |du| == BLOCK && 1 <= start <= last < BLOCK && du[last] != 0
      requires forall i :: 1 <= i < BLOCK ==> Abs(du[i]) <= 1023
      modifies this, output
      ensures Valid() && start < next <= last + 1
      ensures Written() + EncodeAc(t, du, next, last, 0) == old(Written()) + EncodeAc(t, du, start, last, 0)
    {
      var i, zeros := SkipZeros(len, code, du, start, last, t);
      CoefficientKnown(t, zeros, du[i]);
      CoefficientWritten(t, du, i, last, zeros, Written());
      WriteValue(len, code, zeros, du[i], t);
      next := i + 1;
    }

    method WriteAc(len: seq<byte>, code: seq<Word>, du: seq<int>, ghost t: Table)
      requires Valid() && Stands(len, code, t) && KnowsAc(t)
      requires |du| == BLOCK && forall i :: 1 <= i < BLOCK ==> Abs(du[i]) <= 1023
      modifies this, output
      ensures Valid() && Written() == old(Written()) + EncodeAc(t, du, 1, LastNonZero(du, BLOCK - 1), 0)
    {
      var last := BLOCK - 1;
      while last > 0 && du[last] == 0
        invariant 0 <= last < BLOCK && LastNonZero(du, BLOCK - 1) == LastNonZero(du, last)
      {
        last := last - 1;
      }
      ghost var goal := Written() + EncodeAc(t, du, 1, last, 0);
      var i := 1;
      while i <= last
        invariant Valid() && 1 <= i <= last + 1
        invariant Written() + EncodeAc(t, du, i, last, 0) == goal
      {
        i := WriteRun(len, code, du, i, last, t);
      }
      if last != BLOCK - 1 { WriteSymbol(len, code, END_OF_BLOCK, t); }
    }

    /** One block, of which only the first coefficient is looked at when all its samples are equal. */
    method EncodeUnit(dcLen: seq<byte>, dcCode: seq<Word>, acLen: seq<byte>, acCode: seq<Word>,
                      du: seq<int>, constant: bool, pred: int, ghost c: Coder) returns (next: int)
      requires Valid() && Stands(dcLen, dcCode, c.dc) && Stands(acLen, acCode, c.ac) && KnowsDc(c.dc) && KnowsAc(c.ac)
      requires |du| == BLOCK && Abs(du[0] - pred) <= 2047 && (!constant ==> InRange(pred, du))
      modifies this, output
      ensures Valid() && next == du[0]
      ensures Written() == old(Written()) + if constant then EncodeConstant(c, pred, du[0]) else EncodeBlock(c, pred, du)
    {
      next := du[0];
      UnitBits(c, pred, du, Written());
      WriteDc(dcLen, dcCode, du[0] - pred, c.dc);
      if constant {
        WriteSymbol(acLen, acCode, END_OF_BLOCK, c.ac);
      } else {
        WriteAc(acLen, acCode, du, c.ac);
      }
    }

    /** Zeros up to a whole byte. */
    method FillByte()
      requires Valid()
      modifies this, output
      ensures BufferReady() && Sent() == ScanBytes(old(Written()))
    {
      RestOf(done, pending);
      ghost var before := Written();
      FillsUp(|before|, location);
      if location > 0 { WriteBits(8 - location, 0); }
      WholeBytes(done, pending, before);
    }

    /** The end of the scan: the last byte filled up, the end-of-image marker, all output handed on. */
    method Finish()
      requires Valid()
      modifies this, output
      ensures sink == ScanBytes(old(Written())) + [0xFF, 0xD9] && count == 0
    {
      FillByte();
      WriteBlock([0xFF, 0xD9]);
      sink := sink + output[..count];
      count := 0;
    }
  }

  lemma EightMoved(a: seq<bool>, b: seq<bool>)
    requires |b| >= 8
    ensures (a + b[..8]) + b[8..] == a + b
  {
  }

  /** Once the last byte is filled up, nothing waits any more. */
  lemma WholeBytes(done: seq<bool>, pending: seq<bool>, before: seq<bool>)
    requires |done| % 8 == 0 && |pending| < 8 && done + pending == before + Padding(|before|)
    requires (|before| + |Padding(|before|)|) % 8 == 0
    ensures Stuff(Pack(done)) == ScanBytes(before)
  {
    assert |done + pending| == |before| + |Padding(|before|)|;
    RestOf(done, pending);
    assert pending == [] && done + pending == done;
  }

  lemma FillsUp(n: nat, location: nat)
    requires location == n % 8
    ensures Padding(n) == if location == 0 then [] else Bits(0, 8 - location)
    ensures (n + |Padding(n)|) % 8 == 0
  {
  }

  /** Behind whole bytes, what is left over is the rest of the length by eight. */
  lemma RestOf(a: seq<bool>, b: seq<bool>)
    requires |a| % 8 == 0 && |b| < 8
    ensures |b| == |a + b| % 8
  {
  }

  lemma NumberFits(v: int)
    requires v != 0 && Abs(v) <= 2047
    ensures Size(v) <= 11 && Low(v) < Pow2(Size(v))
  {
    Powers();
    SizeInRange(v, 11);
    SizeBounds(v);
    LowValue(v);
  }

  lemma UnitBits(c: Coder, pred: int, du: seq<int>, bits: seq<bool>)
    requires |du| == BLOCK
    ensures bits + EncodeDc(c.dc, du[0] - pred) + Encode(c.ac, END_OF_BLOCK) == bits + EncodeConstant(c, pred, du[0])
    ensures bits + EncodeDc(c.dc, du[0] - pred) + EncodeAc(c.ac, du, 1, LastNonZero(du, BLOCK - 1), 0) == bits + EncodeBlock(c, pred, du)
  {
  }

  lemma CoefficientKnown(t: Table, run: nat, v: int)
    requires KnowsAc(t) && run < 16 && Abs(v) <= 1023
    ensures Size(v) <= 10 && Knows(t, Symbol(run, v))
  {
    CoefficientInRange(v);
    assert Symbol(run, v) % 16 == Size(v);
  }

  lemma ZeroWritten(t: Table, du: seq<int>, i: nat, last: nat, run: nat, bits: seq<bool>)
    requires i <= last < |du| && run < 16 && du[i] == 0
    ensures bits + EncodeAc(t, du, i, last, run) ==
      if run + 1 == 16 then bits + Encode(t, SIXTEEN_ZEROS) + EncodeAc(t, du, i + 1, last, 0)
      else bits + EncodeAc(t, du, i + 1, last, run + 1)
  {
  }

  lemma CoefficientWritten(t: Table, du: seq<int>, i: nat, last: nat, run: nat, bits: seq<bool>)
    requires i <= last < |du| && run < 16 && du[i] != 0 && Size(du[i]) < 16
    ensures bits + EncodeAc(t, du, i, last, run) ==
      bits + Encode(t, Symbol(run, du[i])) + Number(du[i]) + EncodeAc(t, du, i + 1, last, 0)
  {
    ThreeParts(bits, Encode(t, Symbol(run, du[i])), Number(du[i]), EncodeAc(t, du, i + 1, last, 0));
  }

  lemma ThreeParts(bits: seq<bool>, a: seq<bool>, b: seq<bool>, c: seq<bool>)
    ensures bits + (a + b + c) == bits + a + b + c
  {
  }

  /** What one round of the loop sends: the first byte of what waits. */
  lemma ByteLeaves(done: seq<bool>, pending: seq<bool>)
    requires |done| % 8 == 0 && 8 <= |pending| <= 32
    ensures var c := Buffered(pending) / 0x100_0000;
      && c < 256
      && Stuff(Pack(done + pending[..8])) == Stuff(Pack(done)) + (if c == 0xFF then [0xFF, 0] else [c])
    ensures Buffered(pending) * 256 % 0x1_0000_0000 == Buffered(pending[8..])
  {
    TakeByte(pending);
    PackAppend(done, pending[..8]);
    StuffLast(Pack(done), Value(pending[..8]));
  }

  lemma StuffLast(s: seq<byte>, c: nat)
    requires c < 256
    ensures Stuff(s + [c]) == Stuff(s) + if c == 0xFF then [0xFF, 0] else [c]
  {
    assert (s + [c])[..|s|] == s;
  }
}
