/**
 * The bytes of an open file that is held in its buffer: reading, writing and moving the position, and
 * what is saved of it.
 */
module DosFileData {
  import opened Bytes

  const CAP := 65024
  const SAVED := 512

  /** The buffer, how much of it is the file, and the position every handle of the file shares. */
  datatype Body = Body(data: seq<byte>, size: nat, pos: nat) {
    predicate Fits() { |data| == CAP && size <= CAP }

    function Contents(): seq<byte>
      requires Fits()
    {
      data[..size]
    }
  }

  /** How many of so many bytes there is room for at the position. */
  function Room(f: Body, want: nat): nat { if f.pos >= CAP then 0 else Min(want, CAP - f.pos) }

  function Put(f: Body, bytes: seq<byte>): (r: Body)
    requires f.Fits()
    ensures r.Fits()
  {
    var n := Room(f, |bytes|);
    if n == 0 then f
    else
      var end := f.pos + n;
      Body(f.data[..f.pos] + bytes[..n] + f.data[end..], if end > f.size then end else f.size, end)
  }

  /** How many of so many bytes are left to read. */
  function Left(f: Body, want: nat): nat { if f.pos >= f.size then 0 else Min(want, f.size - f.pos) }

  function Got(f: Body, want: nat): seq<byte>
    requires f.Fits()
  {
    var n := Left(f, want);
    if n == 0 then [] else f.data[f.pos..f.pos + n]
  }

  /** A number cut to 32 bits, with its sign. */
  function Signed(x: int): int {
    if x % TWO_32 >= 0x8000_0000 then x % TWO_32 - TWO_32 else x % TWO_32
  }

  function Target(f: Body, whence: nat, offset: int): nat {
    var at := Signed((if whence == 1 then f.pos else if whence == 2 then f.size else 0) + offset);
    if at < 0 then 0 else at
  }

  datatype Use = Write(bytes: seq<byte>) | Read(want: nat) | Move(whence: nat, offset: int)

  function Step(f: Body, u: Use): (r: Body)
    requires f.Fits()
    ensures r.Fits()
  {
    match u
    case Write(bytes) => Put(f, bytes)
    case Read(want) => f.(pos := f.pos + Left(f, want))
    case Move(whence, offset) => f.(pos := Target(f, whence, offset))
  }

  function Run(f: Body, uses: seq<Use>): (r: Body)
    requires f.Fits()
    ensures r.Fits()
  {
    if uses == [] then f else Step(Run(f, uses[..|uses| - 1]), uses[|uses| - 1])
  }

  // ---- what a place holds ----

  /** The use stores a byte at place i. */
  predicate Stores(f: Body, u: Use, i: nat) { u.Write? && f.pos <= i < f.pos + Room(f, |u.bytes|) }

  /** The byte written last at place i. */
  function Latest(f: Body, uses: seq<Use>, i: nat): Option<byte>
    requires f.Fits()
  {
    if uses == [] then None
    else
      var g, u := Run(f, uses[..|uses| - 1]), uses[|uses| - 1];
      if Stores(g, u, i) then Some(u.bytes[i - g.pos]) else Latest(f, uses[..|uses| - 1], i)
  }

  lemma PutAt(f: Body, bytes: seq<byte>, i: nat)
    requires f.Fits() && i < CAP
    ensures Put(f, bytes).data[i] == if Stores(f, Write(bytes), i) then bytes[i - f.pos] else f.data[i]
  {
  }

  /** Every place of the buffer holds the byte written there last, or what the buffer held before. */
  lemma {:induction false} PlaceHoldsLatest(f: Body, uses: seq<Use>, i: nat)
    requires f.Fits() && i < CAP
    ensures Run(f, uses).data[i] == match Latest(f, uses, i) case Some(b) => b case None => f.data[i]
  {
    if uses != [] {
      var init, u := uses[..|uses| - 1], uses[|uses| - 1];
      PlaceHoldsLatest(f, init, i);
      if u.Write? { PutAt(Run(f, init), u.bytes, i); }
    }
  }

  /** A read returns, place by place, what was written last, or the file as it was opened. */
  lemma ReadReturnsLatest(f: Body, uses: seq<Use>, want: nat, k: nat)
    requires f.Fits() && k < |Got(Run(f, uses), want)|
    ensures var i := Run(f, uses).pos + k;
      i < CAP && Got(Run(f, uses), want)[k] == match Latest(f, uses, i) case Some(b) => b case None => f.data[i]
  {
    var g := Run(f, uses);
    GotAt(g, want, k);
    PlaceHoldsLatest(f, uses, g.pos + k);
  }

  lemma GotAt(f: Body, want: nat, k: nat)
    requires f.Fits() && k < |Got(f, want)|
    ensures f.pos + k < f.size && Got(f, want)[k] == f.data[f.pos + k]
  {
  }

  /** The size is the end of the farthest write, or the size at first. */
  lemma {:induction false} SizeIsFarthest(f: Body, uses: seq<Use>, i: nat)
    requires f.Fits() && (i < f.size || Latest(f, uses, i).Some?)
    ensures i < Run(f, uses).size
  {
    if uses != [] {
      var init, u := uses[..|uses| - 1], uses[|uses| - 1];
      if !Stores(Run(f, init), u, i) { SizeIsFarthest(f, init, i); }
    }
  }

  /** What is written and read again at the same place is what was written, as far as there was room. */
  lemma WriteThenRead(f: Body, bytes: seq<byte>)
    requires f.Fits() && f.pos < 0x8000_0000
    ensures Got(Run(f, [Write(bytes), Move(0, f.pos)]), |bytes|) == bytes[..Room(f, |bytes|)]
  {
    var uses := [Write(bytes), Move(0, f.pos)];
    assert uses[..1] == [Write(bytes)] && uses[..1][..0] == [];
    assert Run(f, []) == f && Run(f, uses[..1]) == Put(f, bytes);
    BackTo(Put(f, bytes), f.pos);
    assert Run(f, uses) == Put(f, bytes).(pos := f.pos);
    GotBack(f, bytes);
  }

  lemma BackTo(f: Body, at: nat)
    requires f.Fits() && at < 0x8000_0000
    ensures Step(f, Move(0, at)) == f.(pos := at)
  {
  }

  lemma GotBack(f: Body, bytes: seq<byte>)
    requires f.Fits()
    ensures Got(Put(f, bytes).(pos := f.pos), |bytes|) == bytes[..Room(f, |bytes|)]
  {
    var g, n := Put(f, bytes), Room(f, |bytes|);
    if n > 0 {
      assert g.data[f.pos..f.pos + n] == bytes[..n];
    }
  }

  lemma RunTwo(f: Body, u: Use, v: Use)
    requires f.Fits()
    ensures Run(f, [u, v]) == Step(Step(f, u), v)
  {
    assert [u, v][..1] == [u] && [u][..0] == [];
    assert Run(f, []) == f && Run(f, [u]) == Step(f, u);
  }

  /** After a move to the end, a write appends to the file as much as there is room for, and keeps the rest of it. */
  lemma EndThenWrite(f: Body, bytes: seq<byte>)
    requires f.Fits()
    ensures var g := Run(f, [Move(2, 0), Write(bytes)]);
      g.Contents() == f.Contents() + bytes[..Min(|bytes|, CAP - f.size)] && g.pos == g.size
  {
    RunTwo(f, Move(2, 0), Write(bytes));
    ToEnd(f);
    PutAtEnd(f.(pos := f.size), bytes);
  }

  lemma ToEnd(f: Body)
    requires f.Fits()
    ensures Step(f, Move(2, 0)) == f.(pos := f.size)
  {
  }

  lemma PutAtEnd(f: Body, bytes: seq<byte>)
    requires f.Fits() && f.pos == f.size
    ensures var g := Put(f, bytes);
      g.Contents() == f.Contents() + bytes[..Min(|bytes|, CAP - f.size)] && g.pos == g.size
  {
    var n := Room(f, |bytes|);
    if n > 0 {
      assert Put(f, bytes).data[..f.size + n] == f.data[..f.size] + bytes[..n];
    }
  }

  /** After a move back over what was read, the same is read again. */
  lemma BackThenRead(f: Body, want: nat)
    requires f.Fits() && f.pos < 0x8000_0000
    ensures var read := Got(f, want);
      var g := Run(f, [Read(want), Move(1, -|read|)]);
      g.pos == f.pos && Got(g, want) == read
  {
    var n: int := |Got(f, want)|;
    RunTwo(f, Read(want), Move(1, -n));
    assert n == Left(f, want);
  }

  // ---- gaps ----

  /** Every byte of the file was in it when it was opened or was written since. */
  ghost predicate NoLeftovers(f: Body, uses: seq<Use>)
    requires f.Fits()
  {
    forall i: nat :: i < Run(f, uses).size ==> i < f.size || Latest(f, uses, i).Some?
  }

  /**
   * A file without leftovers in it stays so exactly when nothing is written past its end: the gap that
   * such a write leaves is not cleared.
   */
  lemma GapIff(f: Body, uses: seq<Use>, bytes: seq<byte>)
    requires f.Fits() && NoLeftovers(f, uses)
    ensures NoLeftovers(f, uses + [Write(bytes)]) <==>
      Room(Run(f, uses), |bytes|) == 0 || Run(f, uses).pos <= Run(f, uses).size
  {
    var g, longer := Run(f, uses), uses + [Write(bytes)];
    assert longer[..|uses|] == uses;
    var h := Run(f, longer);
    assert h == Put(g, bytes);
    if Room(g, |bytes|) != 0 && g.pos > g.size {
      if Latest(f, uses, g.size).Some? { SizeIsFarthest(f, uses, g.size); }
      if g.size < f.size { SizeIsFarthest(f, uses, g.size); }
      assert Latest(f, longer, g.size) == Latest(f, uses, g.size);
      assert g.size < h.size;
    } else {
      forall i: nat | i < h.size ensures i < f.size || Latest(f, longer, i).Some? {
        if !Stores(g, Write(bytes), i) {
          assert Latest(f, longer, i) == Latest(f, uses, i);
          assert i < g.size;
        }
      }
    }
  }

  /** Reading and moving leave nothing behind. */
  lemma OthersLeaveNoGap(f: Body, uses: seq<Use>, u: Use)
    requires f.Fits() && NoLeftovers(f, uses) && !u.Write?
    ensures NoLeftovers(f, uses + [u])
  {
    var longer := uses + [u];
    assert longer[..|uses|] == uses;
    forall i: nat | i < Run(f, longer).size ensures i < f.size || Latest(f, longer, i).Some? {
      assert Latest(f, longer, i) == Latest(f, uses, i);
    }
  }

  /** A new file whose first byte is written at place 1 begins with whatever its buffer held. */
  lemma GapShowsBuffer(f: Body, b: byte)
    requires f.Fits() && f.size == 0
    ensures var uses := [Move(0, 1), Write([b]), Move(0, 0)];
      !NoLeftovers(f, uses) && Got(Run(f, uses), 2) == [f.data[0], b]
  {
    var uses := [Move(0, 1), Write([b]), Move(0, 0)];
    var one, two := [Move(0, 1)], [Move(0, 1), Write([b])];
    assert uses[..2] == two && two[..1] == one && one[..0] == [];
    var g := f.(pos := 1);
    assert Run(f, []) == f && Run(f, one) == g;
    assert Run(f, two) == Put(g, [b]);
    var h := Put(g, [b]);
    PutAt(g, [b], 0);
    PutAt(g, [b], 1);
    assert Run(f, uses) == h.(pos := 0);
    assert Got(h.(pos := 0), 2) == [h.data[0], h.data[1]];
    assert Latest(f, [], 0) == None;
    assert Latest(f, one, 0) == None;
    assert Latest(f, two, 0) == None;
    assert Latest(f, uses, 0) == None;
  }

  // ---- saving ----

  /** What a flush hands to the kernel: one block, filled up with zeros. */
  function Saved(f: Body): (r: seq<byte>)
    requires f.Fits()
    ensures |r| == SAVED
  {
    seq(SAVED, i requires 0 <= i < SAVED => if i < f.size then f.data[i] else 0)
  }

  /** The whole file is saved exactly when it is no longer than a block. */
  lemma SavedWholeIff(f: Body)
    requires f.Fits()
    ensures f.Contents() <= Saved(f) <==> f.size <= SAVED
    ensures forall i :: f.size <= i < SAVED ==> Saved(f)[i] == 0
  {
    if f.size <= SAVED {
      assert f.Contents() == Saved(f)[..f.size];
    }
  }

  // ---- the buffer in place ----

  class OpenBody {
    const data: array<byte>
    var size: nat
    var pos: nat

    ghost predicate Valid()
      reads this
    {
      data.Length == CAP && size <= CAP
    }

    ghost function Abstract(): Body
      reads this, data
    {
      Body(data[..], size, pos)
    }

    constructor ()
      ensures Valid() && fresh(data) && size == pos == 0
    {
      data := new byte[CAP];
      size, pos := 0, 0;
    }

    method WriteBytes(memory: seq<byte>) returns (done: nat)
      requires Valid()
      modifies this, data
      ensures Valid() && Abstract() == Put(old(Abstract()), memory) && done == Room(old(Abstract()), |memory|)
    {
      ghost var f := Abstract();
      done := 0;
      while done < |memory| && pos < CAP
        invariant Valid() && done <= |memory| && pos == f.pos + done && (done > 0 ==> pos <= CAP)
        invariant size == if done > 0 && pos > f.size then pos else f.size
        invariant Partly(data[..], f.data, memory, f.pos, done)
      {
        data[pos] := memory[done];
        pos, done := pos + 1, done + 1;
        if pos > size { size := pos; }
      }
      PartlyIsPut(data[..], f, memory, done);
    }

    method ReadBytes(want: nat) returns (bytes: seq<byte>)
      requires Valid()
      modifies this`pos
      ensures Valid() && bytes == Got(old(Abstract()), want) && Abstract() == Step(old(Abstract()), Read(want))
    {
      bytes := [];
      ghost var at := pos;
      while |bytes| < want && pos < size
        invariant pos == at + |bytes| && |bytes| <= want && (bytes != [] ==> pos <= size)
        invariant bytes == if bytes == [] then [] else data[at..pos]
      {
        bytes := bytes + [data[pos]];
        pos := pos + 1;
        assert data[at..pos] == data[at..pos - 1] + [data[pos - 1]];
      }
    }

    method MoveTo(whence: nat, offset: int)
      requires Valid()
      modifies this`pos
      ensures Valid() && Abstract() == Step(old(Abstract()), Move(whence, offset))
    {
      var base := if whence == 1 then pos else if whence == 2 then size else 0;
      var at := Signed(base + offset);
      pos := if at < 0 then 0 else at;
    }

    method Flush() returns (block: array<byte>)
      requires Valid()
      ensures fresh(block) && block[..] == Saved(Abstract())
    {
      block := new byte[SAVED];
      for i := 0 to SAVED
        invariant forall k :: 0 <= k < i ==> block[k] == Saved(Abstract())[k]
      {
        block[i] := if i < size then data[i] else 0;
      }
      assert block[..] == Saved(Abstract());
    }
  }

  /** The first n bytes stand in their places, the others are as before. */
  ghost predicate Partly(now: seq<byte>, was: seq<byte>, bytes: seq<byte>, at: nat, n: nat) {
    && |now| == |was| && n <= |bytes| && (n > 0 ==> at + n <= |was|)
    && forall k :: 0 <= k < |now| ==> now[k] == if at <= k < at + n then bytes[k - at] else was[k]
  }

  lemma PartlyIsPut(now: seq<byte>, f: Body, bytes: seq<byte>, n: nat)
    requires f.Fits() && n == Room(f, |bytes|) && Partly(now, f.data, bytes, f.pos, n)
    ensures now == Put(f, bytes).data
  {
    forall k | 0 <= k < CAP ensures now[k] == Put(f, bytes).data[k] {
      PutAt(f, bytes, k);
    }
  }
}
