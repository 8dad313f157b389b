/**
 * What calls undo each other, which runs keep the blocks' starts distinct,
 * and the runs that show a zero-length block in the way.
 */
module DosLifetimes {
  import opened Bytes
  import opened DosArena
  import opened DosHoles

  // ---- what one call undoes ----

  /** The same live blocks in the same entries. */
  ghost predicate SameLive(t: seq<Block>, u: seq<Block>) {
    |t| == |u| && forall k :: 0 <= k < |t| ==> (Live(t, k) <==> Live(u, k)) && (Live(t, k) ==> t[k] == u[k])
  }

  lemma SameTop(t: seq<Block>, u: seq<Block>)
    requires SameLive(t, u)
    ensures Top(t, PSP) == Top(u, PSP)
  {
    TopIsAbove(t, PSP);
    TopIsAbove(u, PSP);
    forall k | Live(t, k) ensures End(t[k]) <= Top(u, PSP) { assert Live(u, k); }
    TopIsLeast(t, PSP, Top(u, PSP));
    forall k | Live(u, k) ensures End(u[k]) <= Top(t, PSP) { assert Live(t, k); }
    TopIsLeast(u, PSP, Top(t, PSP));
  }

  /** No live block starts where there is room. */
  lemma RoomIsUnstarted(t: seq<Block>, base: Word, k: int)
    requires Live(t, k) && Room(t, base, -1) > 0
    ensures t[k].seg != base
  {
    if t[k].seg == base { StopIsBelow(t, base, -1, k); }
  }

  lemma AddedIsFound(t: seq<Block>, b: Block)
    requires !Full(t) && b.owner != 0 && forall k :: Live(t, k) ==> t[k].seg != b.seg
    ensures Find(Add(t, b), b.seg, 0) == Spare(t, 0) < |t|
  {
    var i, r := Find(Add(t, b), b.seg, 0), Add(t, b);
    if i < |t| { AddLive(t, b, i); }
    assert Live(r, Spare(t, 0)) && r[Spare(t, 0)].seg == b.seg;
  }

  /** Releasing what was just allocated leaves the blocks as they were. */
  lemma ReleaseUndoesAllocate(a: Arena, want: Word)
    requires Inv(a) && DoAllocate(a, want).1.Granted?
    ensures var granted := DoAllocate(a, want);
      var r := DoRelease(granted.0, granted.1.seg);
      && r.1 == Done
      && SameLive(r.0.blocks, a.blocks)
      && r.0.cursor == Top(a.blocks, PSP) <= a.cursor
      && (r.0.psp, r.0.parents) == (a.psp, a.parents)
  {
    var t := a.blocks;
    var base := Survey(t, want, |t| + 1).chosen;
    var i := ChosenIsOffered(t, want, |t| + 1);
    forall k | Live(t, k) ensures t[k].seg != base { RoomIsUnstarted(t, base, k); }
    var b := Block(base, if want == 0 then 1 else want, a.psp);
    AddedIsFound(t, b);
    SameTop(Freed(Add(t, b), Spare(t, 0)), t);
    TopKeeps(t, a.cursor);
  }

  lemma DropAdded(t: seq<Block>, b: Block)
    requires b.owner != 0
    ensures SameLive(Dropped(Add(t, b), b.owner), Dropped(t, b.owner))
  {
  }

  lemma SameLiveTrans(t: seq<Block>, u: seq<Block>, v: seq<Block>)
    requires SameLive(t, u) && SameLive(u, v)
    ensures SameLive(t, v)
  {
  }

  lemma DropPair(t: seq<Block>, b: Block, e: Block)
    requires b.owner == e.owner != 0
    ensures SameLive(Dropped(Add(Add(t, b), e), b.owner), Dropped(t, b.owner))
  {
    DropAdded(t, b);
    DropAdded(Add(t, b), e);
    SameLiveTrans(Dropped(Add(Add(t, b), e), b.owner), Dropped(Add(t, b), b.owner), Dropped(t, b.owner));
  }

  lemma DropStranger(t: seq<Block>, owner: Word)
    requires owner != 0 && forall k :: Live(t, k) ==> t[k].owner != owner
    ensures Dropped(t, owner) == t
  {
    forall k | 0 <= k < |t| ensures Dropped(t, owner)[k] == t[k] {
      if Live(t, k) { assert t[k].owner != owner; }
    }
  }

  /** The arena as it should be once the child under this PSP is gone. */
  function Without(a: Arena, child: Word): Arena { Recount(a, Dropped(a.blocks, child)) }

  ghost predicate Resumed(r: Arena, a: Arena) {
    r.psp == a.psp && r.parents == a.parents && r.cursor == a.cursor && SameLive(r.blocks, a.blocks)
  }

  /** What the end of a started child leaves, field by field. */
  lemma StartedThenEnded(a: Arena, environment: Paragraphs, top: Word)
    requires a.cursor + environment < top
    ensures var s := Started(a, environment, top);
      DoTerminate(s).0 == Recount(a, Dropped(s.blocks, a.cursor + environment))
  {
    var s := Started(a, environment, top);
    assert s.parents[..|s.parents| - 1] == a.parents;
  }

  lemma TerminateUndoesStarted(a: Arena, environment: Paragraphs, top: Word)
    requires a.cursor + environment < top
    ensures Resumed(DoTerminate(Started(a, environment, top)).0, Without(a, a.cursor + environment))
  {
    StartedThenEnded(a, environment, top);
    var child := a.cursor + environment;
    var b, e := Block(child, top - child, child), Block(a.cursor, environment, child);
    DropPair(a.blocks, b, e);
    SameTop(Dropped(Started(a, environment, top).blocks, child), Dropped(a.blocks, child));
  }

  lemma ExecIsStarted(a: Arena, environment: Paragraphs, load: Load)
    requires DoExec(a, environment, load).1 == Done
    ensures Admissible(a, environment) && load != NotLoaded
    ensures DoExec(a, environment, load).0 == Started(a, environment, Reach(a.cursor + environment, load))
  {
  }

  /**
   * A child that ends gives its parent back its PSP and all its blocks,
   * except those already owned under the child's PSP address; the parent
   * gets back exactly its own table if and only if there are none.
   */
  lemma TerminateUndoesExec(a: Arena, environment: Paragraphs, load: Load)
    requires Inv(a) && DoExec(a, environment, load).1 == Done
    ensures var child := DoExec(a, environment, load).0;
      && Resumed(DoTerminate(child).0, Without(a, child.psp))
      && (Without(a, child.psp).blocks == a.blocks <==> forall k :: Live(a.blocks, k) ==> a.blocks[k].owner != child.psp)
  {
    var child := a.cursor + environment;
    ExecIsStarted(a, environment, load);
    TerminateUndoesStarted(a, environment, Reach(child, load));
    if forall k :: Live(a.blocks, k) ==> a.blocks[k].owner != child {
      DropStranger(a.blocks, child);
    } else {
      var k :| Live(a.blocks, k) && a.blocks[k].owner == child;
      assert Dropped(a.blocks, child)[k].owner == 0;
    }
  }

  // ---- distinct starts ----

  ghost predicate Distinct(t: seq<Block>) {
    forall i, j :: Live(t, i) && Live(t, j) && i != j ==> t[i].seg != t[j].seg
  }

  lemma AddDistinct(t: seq<Block>, b: Block)
    requires Distinct(t) && b.owner != 0 && !Full(t)
    ensures Distinct(Add(t, b)) <==> forall k :: Live(t, k) ==> t[k].seg != b.seg
  {
    var r, n := Add(t, b), Spare(t, 0);
    assert Live(r, n) && r[n] == b;
    assert forall k :: Live(t, k) ==> k != n && Live(r, k) && r[k] == t[k];
    assert forall k :: Live(r, k) && k != n ==> Live(t, k) && r[k] == t[k];
  }

  /** Every call but EXEC keeps the starts distinct. */
  lemma DistinctKept(a: Arena, c: Call)
    requires Inv(a) && Distinct(a.blocks) && !c.Exec?
    ensures Distinct(Step(a, c).0.blocks)
  {
    var t := a.blocks;
    match c
    case Allocate(want) =>
      var base := Survey(t, want, |t| + 1).chosen;
      if base != 0 && !Full(t) {
        var i := ChosenIsOffered(t, want, |t| + 1);
        forall k | Live(t, k) ensures t[k].seg != base { RoomIsUnstarted(t, base, k); }
        AddDistinct(t, Block(base, if want == 0 then 1 else want, a.psp));
      }
    case Release(seg) =>
      var i := Find(t, seg, 0);
      if i < |t| { SubDistinct(t, Freed(t, i)); }
    case Resize(seg, size) =>
      var i := Find(t, seg, 0);
      if i < |t| { SubDistinct(t, t[i := t[i].(size := size)]); }
    case Terminate => SubDistinct(t, Dropped(t, a.psp));
  }

  lemma SubDistinct(t: seq<Block>, u: seq<Block>)
    requires Distinct(t) && forall k :: Live(u, k) ==> Live(t, k) && u[k].seg == t[k].seg
    ensures Distinct(u)
  {
  }

  /** Only a zero-length block can start at the cursor. */
  lemma StartsAtCursor(t: seq<Block>, cursor: Word)
    requires Placed(t, cursor)
    ensures (exists k :: Live(t, k) && t[k].seg == cursor) <==> Marked(t, cursor)
  {
    if k :| Live(t, k) && t[k].seg == cursor { assert End(t[k]) <= cursor; }
  }

  lemma PairDistinct(t: seq<Block>, cursor: Word, b: Block, e: Block)
    requires Distinct(t) && Placed(t, cursor) && !Full(t) && b.owner != 0 && e.owner != 0 && e.seg == cursor < b.seg
    ensures Distinct(Add(Add(t, b), e)) <==> !Marked(t, cursor) || Full(Add(t, b))
  {
    var r := Add(t, b);
    forall k | Live(t, k) ensures t[k].seg != b.seg { assert End(t[k]) <= cursor; }
    AddDistinct(t, b);
    StartsAtCursor(t, cursor);
    forall k ensures (Live(r, k) && r[k].seg == cursor) <==> (Live(t, k) && t[k].seg == cursor) { AddLive(t, b, k); }
    if !Full(r) { AddDistinct(r, e); }
  }

  /**
   * EXEC keeps the starts distinct exactly when no zero-length block lies at
   * the cursor, or the table is too full to record the environment there.
   */
  lemma ExecDistinct(a: Arena, environment: Paragraphs, load: Load)
    requires Inv(a) && Distinct(a.blocks) && DoExec(a, environment, load).1 == Done
    ensures var child := a.cursor + environment;
      var own := Block(child, Reach(child, load) - child, child);
      Distinct(DoExec(a, environment, load).0.blocks) <==> !Marked(a.blocks, a.cursor) || Full(Add(a.blocks, own))
  {
    var child := a.cursor + environment;
    PairDistinct(a.blocks, a.cursor, Block(child, Reach(child, load) - child, child), Block(a.cursor, environment, child));
  }

  /** As long as nothing is resized to nothing, no run makes a zero-length block. */
  lemma {:induction false} RunNoZero(load: Load, calls: seq<Call>)
    requires load != NotLoaded && forall i :: 0 <= i < |calls| ==> !(calls[i].Resize? && calls[i].size == 0)
    ensures var a := Run(Start(load), calls); Inv(a) && NoZero(a.blocks) && Distinct(a.blocks)
  {
    if calls == [] {
      AddNoZero(Blank(), Block(PSP, Reach(PSP, load) - PSP, PSP));
    } else {
      RunNoZero(load, calls[..|calls| - 1]);
      NoZeroKept(Run(Start(load), calls[..|calls| - 1]), calls[|calls| - 1]);
    }
    RunKeeps(load, calls);
    NoZeroDistinct(Run(Start(load), calls).blocks);
  }

  lemma NoZeroDistinct(t: seq<Block>)
    requires NoZero(t) && Apart(t)
    ensures Distinct(t)
  {
    forall i, j | Live(t, i) && Live(t, j) && i != j ensures t[i].seg != t[j].seg { assert Disjoint(t[i], t[j]); }
  }

  // ---- a run with a zero-length block ----

  /** One block from the arena's start to top and at most one starting at top; the rest is free. */
  ghost predicate Stacked(t: seq<Block>, top: int) {
    && Live(t, 0) && t[0].seg == PSP && End(t[0]) == top
    && (forall k :: 1 < k < |t| ==> t[k].owner == 0)
  }

  lemma TopHole(t: seq<Block>, top: int)
    requires Stacked(t, top) && PSP < top < MEMORY_END && (Live(t, 1) ==> t[1].size == 0)
    ensures Hole(t, top, MEMORY_END - top)
    ensures forall b: int, n: nat :: Hole(t, b, n) ==> b == top
  {
    assert forall p :: PSP <= p < top ==> Holds(t[0], p);
    assert forall p :: top <= p < MEMORY_END ==> Free(t, p);
    forall b: int, n: nat | Hole(t, b, n) ensures b == top {
      assert Free(t, b) && !Free(t, b - 1);
    }
  }

  /** Memory after the first program takes one paragraph and shrinks it to none. */
  function Shrunk(load: Load): Arena
    requires load != NotLoaded
  {
    Run(Start(load), [Allocate(1), Resize(Reach(PSP, load), 0)])
  }

  lemma StartStacked(load: Load)
    requires load != NotLoaded
    ensures Stacked(Start(load).blocks, Reach(PSP, load)) && !Live(Start(load).blocks, 1)
  {
    var b := Block(PSP, Reach(PSP, load) - PSP, PSP);
    assert Spare(Blank(), 0) == 0;
    assert Start(load).blocks == Blank()[0 := b];
  }

  lemma FirstAllocation(load: Load)
    requires load != NotLoaded
    ensures var a, top := Start(load), Reach(PSP, load);
      DoAllocate(a, 1) == (Recount(a, a.blocks[1 := Block(top, 1, PSP)]), Granted(top))
  {
    var a, top := Start(load), Reach(PSP, load);
    RunKeeps(load, []);
    assert Run(a, []) == a;
    StartStacked(load);
    TopHole(a.blocks, top);
    forall p ensures !Marked(a.blocks, p) { }
    assert Clear(a.blocks, top, 1);
    FirstFitIsExact(a, 1, top, MEMORY_END - top);
    assert Spare(a.blocks, 0) == Spare(a.blocks, 1) == 1;
  }

  /** A zero-length block at the cursor is all that stops the search there. */
  lemma ShrunkState(load: Load)
    requires load != NotLoaded
    ensures var a, top := Shrunk(load), Reach(PSP, load);
      Inv(a) && Stacked(a.blocks, top) && Live(a.blocks, 1) && a.blocks[1] == Block(top, 0, PSP) && a.cursor == top && a.parents == []
  {
    var top := Reach(PSP, load);
    var a := Start(load);
    var calls := [Allocate(1), Resize(top, 0)];
    RunKeeps(load, calls);
    assert calls[..1] == [Allocate(1)] && calls[..1][..0] == [];
    var a1 := DoAllocate(a, 1).0;
    assert Run(a, []) == a && Run(a, [Allocate(1)]) == a1;
    assert Shrunk(load) == DoResize(a1, top, 0).0;
    FirstAllocation(load);
    StartStacked(load);
    ShrinkSecond(a1, top);
  }

  /** The second block's resize to nothing. */
  lemma ShrinkSecond(a: Arena, top: Word)
    requires Stacked(a.blocks, top) && PSP < top && a.blocks[1] == Block(top, 1, PSP)
    ensures var r := DoResize(a, top, 0).0;
      r == a.(blocks := a.blocks[1 := Block(top, 0, PSP)], cursor := top) && Stacked(r.blocks, top)
  {
    var t := a.blocks[1 := Block(top, 0, PSP)];
    assert Find(a.blocks, top, 0) == Find(a.blocks, top, 1) == 1;
    TopIsAbove(t, PSP);
    assert Live(t, 0);
    TopIsLeast(t, PSP, top);
  }

  /** Then nothing can be allocated any more, though everything above is free. */
  lemma ZeroLengthHides(load: Load, want: Word)
    requires load != NotLoaded
    ensures var a, top := Shrunk(load), Reach(PSP, load);
      && Hole(a.blocks, top, MEMORY_END - top)
      && !Full(a.blocks)
      && DoAllocate(a, want).1 == TooBig(0)
  {
    var a, top := Shrunk(load), Reach(PSP, load);
    ShrunkState(load);
    TopHole(a.blocks, top);
    assert Marked(a.blocks, top);
    assert a.blocks[2].owner == 0;
    forall base: Word ensures DoAllocate(a, want).1 != Granted(base) {
      GrantsLowest(a, want, base);
    }
    RefusalReports(a, want);
  }

  /** And a child started now puts its environment where that block already starts. */
  lemma ZeroLengthSharesStart(load: Load, environment: Paragraphs)
    requires load != NotLoaded && Reach(PSP, load) + environment <= 0x8000
    ensures !Distinct(Run(Shrunk(load), [Exec(environment, Com)]).blocks)
  {
    var a, top := Shrunk(load), Reach(PSP, load);
    ShrunkState(load);
    var calls := [Exec(environment, Com)];
    assert calls[..0] == [] && Run(a, []) == a;
    assert Run(a, calls) == DoExec(a, environment, Com).0;
    var child := top + environment;
    var own := Block(child, Reach(child, Com) - child, child);
    StackedPair(a.blocks, top, own);
    ExecDistinct(a, environment, Com);
  }

  lemma StackedPair(t: Table, top: int, own: Block)
    requires Stacked(t, top) && PSP < top && Live(t, 1) && t[1].seg == top && t[1].size == 0
    ensures Distinct(t) && Marked(t, top) && !Full(t) && !Full(Add(t, own))
  {
    assert t[2].owner == 0 && t[3].owner == 0;
    assert Spare(t, 0) == Spare(t, 1) == Spare(t, 2) == 2;
    assert !Live(Add(t, own), 3);
  }

  // ---- a run in which a program loses a block to its child ----

  /** The entries of a table as far as they have been used; the others are free. */
  ghost predicate Rows(t: seq<Block>, rows: seq<Block>) {
    |rows| <= |t| && t[..|rows|] == rows && forall k :: |rows| <= k < |t| ==> t[k].owner == 0
  }

  lemma TopAt(t: seq<Block>, k: int)
    requires Live(t, k) && End(t[k]) >= PSP && forall i :: Live(t, i) ==> End(t[i]) <= End(t[k])
    ensures Top(t, PSP) == End(t[k])
  {
    TopIsAbove(t, PSP);
    TopIsLeast(t, PSP, End(t[k]));
  }

  /** A program started with two paragraphs of environment. */
  lemma ChildStarts(a: Arena, first: Block, top: Word)
    requires Rows(a.blocks, [first]) && first.owner != 0 && a.cursor == top && a.parents == [] && 0x1100 <= top + 2 <= 0x8000
    ensures var r, child := DoExec(a, 2, Com).0, top + 2;
      && Rows(r.blocks, [first, Block(child, 0x1000, child), Block(top, 2, child)])
      && r.psp == child && r.parents == [a.psp]
  {
    var t, child := a.blocks, top + 2;
    assert t[0] == first && !Live(t, 1);
    assert Spare(t, 0) == Spare(t, 1) == 1;
    var u := Add(t, Block(child, 0x1000, child));
    assert u[0] == first && u[1].owner == child && u[2] == t[2];
    assert Spare(u, 0) == Spare(u, 1) == Spare(u, 2) == 2;
  }

  /** The program releases its own block. */
  lemma ChildReleases(a: Arena, first: Block, own: Block, env: Block)
    requires Rows(a.blocks, [first, own, env]) && first.owner != 0 && own.owner != 0 && env.owner != 0
    requires PSP <= first.seg < own.seg && env.seg < own.seg && End(first) <= End(env) < 0x1_0000 && env.seg >= PSP
    ensures DoRelease(a, own.seg).0 == a.(blocks := a.blocks[1 := own.(owner := 0)], cursor := End(env))
    ensures Rows(DoRelease(a, own.seg).0.blocks, [first, own.(owner := 0), env])
  {
    var t := a.blocks;
    assert t[0] == first && t[1] == own && t[2] == env;
    assert Find(t, own.seg, 0) == Find(t, own.seg, 1) == 1;
    TopAt(Freed(t, 1), 2);
  }

  /** And gives back one paragraph of its environment. */
  lemma ChildShrinks(a: Arena, first: Block, own: Block, env: Block)
    requires Rows(a.blocks, [first, own, env]) && first.owner != 0 && own.owner == 0 && env.owner != 0
    requires PSP <= first.seg < env.seg && End(first) == env.seg < MEMORY_END
    ensures var r := DoResize(a, env.seg, 1).0;
      && Rows(r.blocks, [first, own, env.(size := 1)])
      && r.cursor == env.seg + 1 && r.psp == a.psp && r.parents == a.parents
  {
    var t := a.blocks;
    assert t[0] == first && t[1] == own && t[2] == env;
    assert Find(t, env.seg, 0) == Find(t, env.seg, 1) == Find(t, env.seg, 2) == 2;
    if Stop(t, env.seg, 2) != MEMORY_END { var k := StopIsReached(t, env.seg, 2); }
    assert !Covered(t, env.seg, 2);
    TopAt(t[2 := env.(size := 1)], 2);
  }

  /** The state in which a second child would be loaded at the address of the first. */
  lemma AddressIsFree(load: Load)
    requires load != NotLoaded && Reach(PSP, load) + 2 <= 0x8000
    ensures var top := Reach(PSP, load);
      var a := Run(Start(load), [Exec(2, Com), Release(top + 2), Resize(top, 1)]);
      && Inv(a) && a.psp == top + 2 && a.cursor == top + 1 && a.parents == [PSP]
      && Live(a.blocks, 2) && a.blocks[2] == Block(top, 1, top + 2) && !Live(a.blocks, 3)
  {
    var top := Reach(PSP, load);
    var calls := [Exec(2, Com), Release(top + 2), Resize(top, 1)];
    ChildState(load);
    ThreeCalls(Start(load), calls[0], calls[1], calls[2]);
    RunKeeps(load, calls);
  }

  lemma ChildState(load: Load)
    requires load != NotLoaded && Reach(PSP, load) + 2 <= 0x8000
    ensures var top := Reach(PSP, load);
      var a := DoResize(DoRelease(DoExec(Start(load), 2, Com).0, top + 2).0, top, 1).0;
      && a.psp == top + 2 && a.cursor == top + 1 && a.parents == [PSP]
      && Live(a.blocks, 2) && a.blocks[2] == Block(top, 1, top + 2) && !Live(a.blocks, 3)
  {
    var top := Reach(PSP, load);
    var a := Start(load);
    var first, own, env := Block(PSP, top - PSP, PSP), Block(top + 2, 0x1000, top + 2), Block(top, 2, top + 2);
    StartRows(load);
    ChildStarts(a, first, top);
    var b := DoExec(a, 2, Com).0;
    ChildReleases(b, first, own, env);
    var c := DoRelease(b, top + 2).0;
    ChildShrinks(c, first, own.(owner := 0), env);
    var d := DoResize(c, top, 1).0;
    assert d.blocks[2] == d.blocks[..3][2];
  }

  lemma StartRows(load: Load)
    requires load != NotLoaded
    ensures Rows(Start(load).blocks, [Block(PSP, Reach(PSP, load) - PSP, PSP)])
  {
    assert Spare(Blank(), 0) == 0;
  }

  lemma ThreeCalls(a: Arena, x: Call, y: Call, z: Call)
    ensures Run(a, [x, y, z]) == Step(Step(Step(a, x).0, y).0, z).0
  {
    assert [x, y, z][..2] == [x, y] && [x, y][..1] == [x] && [x][..0] == [];
    assert Run(a, []) == a;
    assert Run(a, [x]) == Step(a, x).0;
    assert Run(a, [x, y]) == Step(Step(a, x).0, y).0;
  }

  /**
   * A program that gave up its own block and shrank its environment starts a
   * child, which lands on its own PSP address: when the child ends, the
   * program is left without its environment.
   */
  lemma ChildTakesBlocks(load: Load)
    requires load != NotLoaded && Reach(PSP, load) + 2 <= 0x8000
    ensures var top := Reach(PSP, load);
      var a := Run(Start(load), [Exec(2, Com), Release(top + 2), Resize(top, 1)]);
      var (child, answer) := DoExec(a, 1, Com);
      var r := DoTerminate(child).0;
      && answer == Done && child.psp == a.psp == r.psp
      && Live(a.blocks, 2) && a.blocks[2].owner == a.psp && !Live(r.blocks, 2)
  {
    var top := Reach(PSP, load);
    AddressIsFree(load);
    var a := Run(Start(load), [Exec(2, Com), Release(top + 2), Resize(top, 1)]);
    TerminateUndoesExec(a, 1, Com);
    assert !Live(Without(a, a.psp).blocks, 2);
  }
}
