/** The memory services as the emulator runs them: one table, scanned and updated in place. */
module DosArenaState {
  import opened Bytes
  import opened DosArena

  lemma TopSnoc(t: seq<Block>, i: nat, low: nat)
    requires i < |t|
    ensures var r := Top(t[..i], low);
      Top(t[..i + 1], low) == if t[i].owner != 0 && End(t[i]) > r then End(t[i]) else r
  {
    assert t[..i + 1][..i] == t[..i];
  }

  lemma StopSnoc(t: seq<Block>, i: nat, base: int, ignore: int)
    requires i < |t|
    ensures var r := Stop(t[..i], base, ignore);
      Stop(t[..i + 1], base, ignore) == if t[i].owner != 0 && i != ignore && base <= t[i].seg < r then t[i].seg else r
  {
    assert t[..i + 1][..i] == t[..i];
  }

  class Memory {
    const blocks: array<Block>
    var cursor: Word
    var psp: Word
    var parents: seq<Word>

    ghost predicate Valid() reads this { blocks.Length == ENTRIES }

    function Abstract(): Arena
      reads this, blocks
      requires Valid()
    {
      Arena(blocks[..], cursor, psp, parents)
    }

    constructor ()
      ensures Valid() && fresh(blocks)
      ensures Abstract() == Arena(Blank(), 0x2000, PSP, [])
    {
      blocks := new Block[ENTRIES](_ => Block(0, 0, 0));
      cursor := 0x2000;
      psp := PSP;
      parents := [];
      new;
      assert blocks[..] == Blank();
    }

    method FindBlock(seg: Word) returns (i: nat)
      requires Valid()
      ensures i == Find(blocks[..], seg, 0)
    {
      i := 0;
      while i < blocks.Length && !(blocks[i].owner != 0 && blocks[i].seg == seg)
        invariant i <= blocks.Length && Find(blocks[..], seg, 0) == Find(blocks[..], seg, i)
      {
        i := i + 1;
      }
    }

    method AddBlock(seg: Word, size: Word, owner: Word) returns (added: bool)
      requires Valid()
      modifies blocks
      ensures blocks[..] == Add(old(blocks[..]), Block(seg, size, owner))
      ensures added == !Full(old(blocks[..]))
    {
      var i := 0;
      while i < blocks.Length && blocks[i].owner != 0
        invariant i <= blocks.Length && Spare(blocks[..], 0) == Spare(blocks[..], i)
      {
        i := i + 1;
      }
      added := i < blocks.Length;
      if added {
        assert !Live(blocks[..], i);
        blocks[i] := Block(seg, size, owner);
      }
    }

    method MoveCursor()
      requires Valid() && Top(blocks[..], PSP) < 0x1_0000
      modifies this`cursor
      ensures cursor == Top(blocks[..], PSP)
    {
      var top := PSP;
      ghost var t := blocks[..];
      for i := 0 to blocks.Length
        invariant top == Top(t[..i], PSP)
      {
        TopSnoc(t, i, PSP);
        if blocks[i].owner != 0 && blocks[i].seg + blocks[i].size > top { top := blocks[i].seg + blocks[i].size; }
      }
      assert t[..blocks.Length] == t;
      cursor := top;
    }

    method RoomAt(base: Word, ignore: int) returns (room: Word)
      requires Valid()
      ensures room == Room(blocks[..], base, ignore)
    {
      var end := MEMORY_END;
      ghost var t := blocks[..];
      for i := 0 to blocks.Length
        invariant end == Stop(t[..i], base, ignore)
        invariant forall k :: 0 <= k < i && k != ignore ==> !Holds(t[k], base)
      {
        StopSnoc(t, i, base, ignore);
        if blocks[i].owner != 0 && i != ignore {
          if blocks[i].seg <= base < blocks[i].seg + blocks[i].size {
            assert Holds(t[i], base);
            return 0;
          }
          if base <= blocks[i].seg < end { end := blocks[i].seg; }
        }
      }
      assert t[..blocks.Length] == t;
      room := if end > base then end - base else 0;
    }

    /** Tries every address a hole can begin at. */
    method SearchSpace(want: Word) returns (s: Search)
      requires Valid()
      ensures s == Survey(blocks[..], want, |blocks[..]| + 1)
    {
      var largest: Word, chosen: Word := 0, 0;
      for i := 0 to blocks.Length + 1
        invariant Search(largest, chosen) == Survey(blocks[..], want, i)
      {
        var base: Word := PSP;
        if i < blocks.Length {
          if blocks[i].owner == 0 { continue; }
          base := (blocks[i].seg + blocks[i].size) % 0x1_0000;
        }
        var room := RoomAt(base, -1);
        if room > largest { largest := room; }
        if room >= want && room != 0 && (chosen == 0 || base < chosen) { chosen := base; }
      }
      s := Search(largest, chosen);
    }

    /** AH=48h. */
    method AllocateMemory(want: Word) returns (answer: Answer)
      requires Valid() && Inv(Abstract())
      modifies this`cursor, blocks
      ensures (Abstract(), answer) == DoAllocate(old(Abstract()), want)
      ensures Inv(Abstract())
    {
      AllocateKeeps(Abstract(), want);
      ghost var before := blocks[..];
      var s := SearchSpace(want);
      if s.chosen == 0 { return TooBig(s.largest); }
      var added := AddBlock(s.chosen, if want == 0 then 1 else want, psp);
      if !added {
        assert blocks[..] == before;
        return TooBig(s.largest);
      }
      GrantedTop(before, cursor, want, psp);
      MoveCursor();
      answer := Granted(s.chosen);
    }

    /** AH=49h. */
    method ReleaseMemory(seg: Word) returns (answer: Answer)
      requires Valid() && Inv(Abstract())
      modifies this`cursor, blocks
      ensures (Abstract(), answer) == DoRelease(old(Abstract()), seg)
      ensures Inv(Abstract())
    {
      ReleaseKeeps(Abstract(), seg);
      var i := FindBlock(seg);
      if i == blocks.Length { return Failed(9); }
      ghost var before := blocks[..];
      blocks[i] := blocks[i].(owner := 0);
      assert blocks[..] == Freed(before, i);
      SubTop(before, cursor, blocks[..]);
      MoveCursor();
      answer := Done;
    }

    /** AH=4Ah. */
    method ResizeMemory(seg: Word, size: Word) returns (answer: Answer)
      requires Valid() && Inv(Abstract())
      modifies this`cursor, blocks
      ensures (Abstract(), answer) == DoResize(old(Abstract()), seg, size)
      ensures Inv(Abstract())
    {
      ResizeKeeps(Abstract(), seg, size);
      var i := FindBlock(seg);
      if i == blocks.Length { return Failed(9); }
      var room := RoomAt(seg, i);
      if size > room { return TooBig(room); }
      ghost var before := blocks[..];
      blocks[i] := blocks[i].(size := size);
      assert blocks[..] == before[i := before[i].(size := size)];
      ResizedTop(before, cursor, i, size);
      MoveCursor();
      answer := Done;
    }

    /** AH=4Bh once the environment's length and the load's outcome are known. */
    method ExecProgram(environment: Paragraphs, load: Load) returns (answer: Answer)
      requires Valid() && Inv(Abstract())
      modifies this, blocks
      ensures (Abstract(), answer) == DoExec(old(Abstract()), environment, load)
      ensures Inv(Abstract())
    {
      ExecKeeps(Abstract(), environment, load);
      if |parents| >= NESTING { return Failed(2); }
      var env := cursor;
      var child := env + environment;
      if child < 0x1100 || child > 0x8000 { return Failed(2); }
      if load == NotLoaded { return Failed(2); }
      ghost var before := blocks[..];
      cursor := Reach(child, load);
      var added := AddBlock(child, cursor - child, child);
      if !added {
        assert blocks[..] == before;
        return Failed(2);
      }
      added := AddBlock(env, child - env, child);
      parents := parents + [psp];
      psp := child;
      answer := Done;
    }

    method DropBlocks()
      requires Valid()
      modifies blocks
      ensures blocks[..] == Dropped(old(blocks[..]), psp)
    {
      ghost var before := blocks[..];
      for i := 0 to blocks.Length
        invariant forall k :: 0 <= k < blocks.Length ==> blocks[k] == if k < i then Dropped(before, psp)[k] else before[k]
      {
        if blocks[i].owner == psp { blocks[i] := blocks[i].(owner := 0); }
      }
    }

    /** The end of a program; the first one's leaves everything as it is. */
    method EndProgram() returns (answer: Answer)
      requires Valid() && Inv(Abstract())
      modifies this, blocks
      ensures (Abstract(), answer) == DoTerminate(old(Abstract()))
      ensures Inv(Abstract())
    {
      TerminateKeeps(Abstract());
      if parents == [] { return Done; }
      ghost var before := blocks[..];
      DropBlocks();
      SubTop(before, cursor, blocks[..]);
      MoveCursor();
      psp := parents[|parents| - 1];
      parents := parents[..|parents| - 1];
      answer := Done;
    }
  }

  lemma GrantedTop(t: seq<Block>, cursor: nat, want: Word, owner: Word)
    requires Placed(t, cursor) && cursor <= MEMORY_END && Survey(t, want, |t| + 1).chosen != 0
    ensures Top(Add(t, Block(Survey(t, want, |t| + 1).chosen, if want == 0 then 1 else want, owner)), PSP) <= MEMORY_END
  {
    var chosen := Survey(t, want, |t| + 1).chosen;
    var i := ChosenIsOffered(t, want, |t| + 1);
    RoomEnds(t, chosen, -1);
    TopFits(t, cursor, Block(chosen, if want == 0 then 1 else want, owner));
  }

  lemma SubTop(t: seq<Block>, cursor: nat, u: seq<Block>)
    requires Placed(t, cursor) && PSP <= cursor
    requires forall k :: Live(u, k) ==> Live(t, k) && u[k] == t[k]
    ensures Top(u, PSP) <= cursor
  {
    TopIsLeast(u, PSP, cursor);
  }

  lemma ResizedTop(t: seq<Block>, cursor: nat, i: nat, size: Word)
    requires Placed(t, cursor) && cursor <= MEMORY_END && Live(t, i) && size <= Room(t, t[i].seg, i)
    ensures Top(t[i := t[i].(size := size)], PSP) <= MEMORY_END
  {
    RoomEnds(t, t[i].seg, i);
    var u := t[i := t[i].(size := size)];
    forall k | Live(u, k) ensures End(u[k]) <= MEMORY_END { assert Live(t, k); }
    TopIsLeast(u, PSP, MEMORY_END);
  }

  lemma TopFits(t: seq<Block>, cursor: nat, b: Block)
    requires Placed(t, cursor) && cursor <= MEMORY_END && End(b) <= MEMORY_END
    ensures Top(Add(t, b), PSP) <= MEMORY_END
  {
    var u := Add(t, b);
    forall k | Live(u, k) ensures End(u[k]) <= MEMORY_END { assert u[k] == b || (Live(t, k) && u[k] == t[k]); }
    TopIsLeast(u, PSP, MEMORY_END);
  }
}
