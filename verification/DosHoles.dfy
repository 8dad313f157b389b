/**
 * What the paragraph allocator answers, told by the free memory itself
 * rather than by the table scans: which hole is granted, what a refusal
 * reports, and what a zero-length block does to both.
 */
module DosHoles {
  import opened Bytes
  import opened DosArena

  ghost predicate Free(t: seq<Block>, p: int) {
    PSP <= p < MEMORY_END && forall k :: 0 <= k < |t| ==> !Holds(t[k], p)
  }

  /** A maximal run of free paragraphs. */
  ghost predicate Hole(t: seq<Block>, base: int, len: nat) {
    && len > 0
    && (forall p :: base <= p < base + len ==> Free(t, p))
    && !Free(t, base - 1)
    && !Free(t, base + len)
  }

  /** A live block without a paragraph of its own starts at p. */
  ghost predicate Marked(t: seq<Block>, p: int) {
    exists k :: Live(t, k) && t[k].seg == p && t[k].size == 0
  }

  /** How much of the run shows before the first mark in it. */
  ghost function Visible(t: seq<Block>, base: int, len: nat): (n: nat)
    ensures n <= len
    ensures forall p :: base <= p < base + n ==> !Marked(t, p)
    ensures n < len ==> Marked(t, base + n)
    decreases len
  {
    if len == 0 || Marked(t, base) then 0 else 1 + Visible(t, base + 1, len - 1)
  }

  // ---- holes and the allocator's rooms ----

  lemma StopOfHole(t: seq<Block>, base: int, len: nat)
    requires Hole(t, base, len)
    ensures Stop(t, base, -1) == base + Visible(t, base, len)
  {
    var n := Visible(t, base, len);
    var stop := Stop(t, base, -1);
    assert Free(t, base + len - 1);
    if stop != MEMORY_END {
      var k := StopIsReached(t, base, -1);
      if Free(t, stop) { assert Marked(t, stop); }
    }
    if n < len {
      var k :| Live(t, k) && t[k].seg == base + n && t[k].size == 0;
      StopIsBelow(t, base, -1, k);
    } else if base + len < MEMORY_END {
      var k :| 0 <= k < |t| && Holds(t[k], base + len);
      assert !Holds(t[k], base + len - 1);
      StopIsBelow(t, base, -1, k);
    }
  }

  /** The allocator's room at a hole is the hole up to its first mark. */
  lemma RoomOfHole(t: seq<Block>, base: Word, len: nat)
    requires Hole(t, base, len)
    ensures Room(t, base, -1) == Visible(t, base, len)
  {
    StopOfHole(t, base, len);
    assert Free(t, base);
  }

  /** Every hole begins at one of the addresses the search tries. */
  lemma HoleIsTried(t: seq<Block>, base: Word, len: nat) returns (i: nat)
    requires Hole(t, base, len)
    ensures i <= |t| && Candidate(t, i) == Some(base)
  {
    assert Free(t, base);
    i := |t|;
    if base != PSP {
      i :| 0 <= i < |t| && Holds(t[i], base - 1);
      assert !Holds(t[i], base);
    }
  }

  ghost function Extent(t: seq<Block>, base: int): (len: nat)
    ensures forall p :: base <= p < base + len ==> Free(t, p)
    ensures !Free(t, base + len)
    decreases if base < MEMORY_END then MEMORY_END - base else 0
  {
    if Free(t, base) then 1 + Extent(t, base + 1) else 0
  }

  /** Every address tried that has room is the start of a hole. */
  lemma TriedIsHole(t: seq<Block>, i: nat, base: Word) returns (len: nat)
    requires Placed(t, MEMORY_END)
    requires Candidate(t, i) == Some(base) && Room(t, base, -1) > 0
    ensures Hole(t, base, len)
  {
    CandidateInArena(t, i);
    assert Free(t, base);
    len := Extent(t, base);
    if i < |t| {
      assert Live(t, i) && End(t[i]) == base;
      if t[i].size == 0 { StopIsBelow(t, base, -1, i); }
      assert Holds(t[i], base - 1);
    }
  }

  // ---- first fit ----

  /** The hole can serve a request for want paragraphs, as far as it shows. */
  ghost predicate Serves(t: seq<Block>, base: int, len: nat, want: Word) {
    Hole(t, base, len) && Visible(t, base, len) >= want && Visible(t, base, len) > 0
  }

  lemma HoleInWord(t: seq<Block>, base: int, len: nat)
    requires Hole(t, base, len)
    ensures PSP <= base && base + len <= MEMORY_END
  {
    assert Free(t, base) && Free(t, base + len - 1);
  }

  lemma ServingIsConsidered(t: seq<Block>, base: int, len: nat, want: Word)
    requires Placed(t, MEMORY_END) && Serves(t, base, len, want)
    ensures 0 < Survey(t, want, |t| + 1).chosen <= base
  {
    HoleInWord(t, base, len);
    var i := HoleIsTried(t, base, len);
    RoomOfHole(t, base, len);
    ChosenIsLowest(t, want, |t| + 1, i, base);
  }

  lemma ChosenServes(t: seq<Block>, want: Word) returns (len: nat)
    requires Placed(t, MEMORY_END) && Survey(t, want, |t| + 1).chosen != 0
    ensures Serves(t, Survey(t, want, |t| + 1).chosen, len, want)
  {
    var chosen := Survey(t, want, |t| + 1).chosen;
    var i := ChosenIsOffered(t, want, |t| + 1);
    len := TriedIsHole(t, i, chosen);
    RoomOfHole(t, chosen, len);
  }

  ghost predicate LowestServing(t: seq<Block>, want: Word, base: int) {
    && (exists len: nat :: Serves(t, base, len, want))
    && (forall b: int, n: nat :: Serves(t, b, n, want) ==> base <= b)
  }

  lemma ChosenIsLowestServing(t: seq<Block>, want: Word, base: Word)
    requires Placed(t, MEMORY_END)
    ensures LowestServing(t, want, base) <==> base != 0 && Survey(t, want, |t| + 1).chosen == base
  {
    var chosen := Survey(t, want, |t| + 1).chosen;
    forall b: int, n: nat | Serves(t, b, n, want) ensures 0 < chosen <= b { ServingIsConsidered(t, b, n, want); }
    if chosen != 0 { var len := ChosenServes(t, want); }
  }

  /**
   * A request is granted exactly when a table entry is free and some hole
   * serves it, and then it gets the start of the lowest such hole.
   */
  lemma GrantsLowest(a: Arena, want: Word, base: Word)
    requires Inv(a)
    ensures DoAllocate(a, want).1 == Granted(base) <==> !Full(a.blocks) && LowestServing(a.blocks, want, base)
  {
    ChosenIsLowestServing(a.blocks, want, base);
  }

  /** A refusal reports the most that any hole shows, and zero when there is no hole to see. */
  lemma RefusalReports(a: Arena, want: Word)
    requires Inv(a) && DoAllocate(a, want).1.TooBig?
    ensures var largest := DoAllocate(a, want).1.largest;
      && DoAllocate(a, want).0 == a
      && (forall b: int, n: nat :: Hole(a.blocks, b, n) ==> Visible(a.blocks, b, n) <= largest)
      && (largest > 0 ==> exists b: int, n: nat :: Hole(a.blocks, b, n) && Visible(a.blocks, b, n) == largest)
  {
    var t := a.blocks;
    var largest := Survey(t, want, |t| + 1).largest;
    forall b: int, n: nat | Hole(t, b, n) ensures Visible(t, b, n) <= largest {
      HoleInWord(t, b, n);
      var i := HoleIsTried(t, b, n);
      RoomOfHole(t, b, n);
      LargestBounds(t, want, |t| + 1, i);
    }
    if largest > 0 {
      var i := LargestIsOffered(t, want, |t| + 1);
      var base := Candidate(t, i).value;
      var n := TriedIsHole(t, i, base);
      RoomOfHole(t, base, n);
    }
  }

  // ---- with and without zero-length blocks ----

  ghost predicate NoZero(t: seq<Block>) { forall k :: Live(t, k) ==> t[k].size > 0 }

  ghost predicate Clear(t: seq<Block>, base: int, len: nat) { forall p :: base <= p < base + len ==> !Marked(t, p) }

  lemma ClearShows(t: seq<Block>, base: int, len: nat, n: nat)
    requires n <= len
    ensures Clear(t, base, n) <==> Visible(t, base, len) >= n
  {
  }

  ghost predicate LargestHole(t: seq<Block>, len: nat) {
    && (forall b: int, n: nat :: Hole(t, b, n) ==> n <= len)
    && (len > 0 ==> exists b :: Hole(t, b, len))
  }

  /**
   * A refusal reports the size of the largest hole exactly when some largest
   * hole has no zero-length block in it.
   */
  lemma ReportIsExact(a: Arena, want: Word, len: nat)
    requires Inv(a) && DoAllocate(a, want).1.TooBig? && LargestHole(a.blocks, len)
    ensures DoAllocate(a, want).1.largest == len <==>
      (len == 0 || exists b :: Hole(a.blocks, b, len) && Clear(a.blocks, b, len))
  {
    RefusalReports(a, want);
    var t, largest := a.blocks, DoAllocate(a, want).1.largest;
    if largest == len && len > 0 {
      var b: int, n: nat :| Hole(t, b, n) && Visible(t, b, n) == largest;
      ClearShows(t, b, len, len);
    }
    if b :| Hole(t, b, len) && Clear(t, b, len) { ClearShows(t, b, len, len); }
  }

  /**
   * The lowest hole big enough is the one granted exactly when no zero-length
   * block lies where the new block would go.
   */
  lemma FirstFitIsExact(a: Arena, want: Word, base: Word, len: nat)
    requires Inv(a) && !Full(a.blocks)
    requires Hole(a.blocks, base, len) && len >= want
    requires forall b: int, n: nat :: Hole(a.blocks, b, n) && n >= want ==> base <= b
    ensures DoAllocate(a, want).1 == Granted(base) <==> Clear(a.blocks, base, if want == 0 then 1 else want)
  {
    GrantsLowest(a, want, base);
    var t := a.blocks;
    var need := if want == 0 then 1 else want;
    ClearShows(t, base, len, need);
    if Serves(t, base, len, want) {
      forall b: int, n: nat | Serves(t, b, n, want) ensures base <= b { }
    }
    forall n: nat | Serves(t, base, n, want) ensures n == len { HoleIsUnique(t, base, len, n); }
  }

  lemma HoleIsUnique(t: seq<Block>, base: int, len: nat, n: nat)
    requires Hole(t, base, len) && Hole(t, base, n)
    ensures n == len
  {
  }

  /** Without zero-length blocks the allocator is exactly first fit over the free memory. */
  lemma FirstFit(a: Arena, want: Word)
    requires Inv(a) && NoZero(a.blocks) && !Full(a.blocks)
    ensures match DoAllocate(a, want).1
      case Granted(base) =>
        && (exists len: nat :: Hole(a.blocks, base, len) && len >= want)
        && (forall b: int, n: nat :: Hole(a.blocks, b, n) && n >= want ==> base <= b)
      case TooBig(largest) => LargestHole(a.blocks, largest) && (largest < want || largest == 0)
      case _ => false
  {
    var t := a.blocks;
    forall b: int, n: nat | Hole(t, b, n) ensures Visible(t, b, n) == n { assert Clear(t, b, n); ClearShows(t, b, n, n); }
    match DoAllocate(a, want).1
    case Granted(base) =>
      GrantsLowest(a, want, base);
      forall b: int, n: nat | Hole(t, b, n) && n >= want ensures base <= b { assert Serves(t, b, n, want); }
      var len: nat :| Serves(t, base, len, want);
    case TooBig(largest) =>
      RefusalReports(a, want);
      if largest > 0 {
        var b: int, n: nat :| Hole(t, b, n) && Visible(t, b, n) == largest;
        if largest >= want { ServingIsConsidered(t, b, n, want); }
      }
  }

  /** Only a resize to nothing makes a zero-length block. */
  lemma NoZeroKept(a: Arena, c: Call)
    requires Inv(a) && NoZero(a.blocks) && (c.Resize? ==> c.size > 0)
    ensures NoZero(Step(a, c).0.blocks)
  {
    var t := a.blocks;
    match c
    case Allocate(want) =>
      var chosen := Survey(t, want, |t| + 1).chosen;
      AddNoZero(t, Block(chosen, if want == 0 then 1 else want, a.psp));
    case Release(seg) =>
      var i := Find(t, seg, 0);
      if i < |t| { FreedNoZero(t, i); }
    case Resize(seg, size) =>
      var i := Find(t, seg, 0);
      if i < |t| { PutNoZero(t, i, t[i].(size := size)); }
    case Exec(environment, load) =>
      if Admissible(a, environment) && load != NotLoaded {
        var child := a.cursor + environment;
        var b := Block(child, Reach(child, load) - child, child);
        AddNoZero(t, b);
        AddNoZero(Add(t, b), Block(a.cursor, environment, child));
      }
    case Terminate => DroppedNoZero(t, a.psp);
  }

  lemma PutNoZero(t: seq<Block>, i: nat, b: Block)
    requires NoZero(t) && i < |t| && b.size > 0
    ensures NoZero(t[i := b])
  {
    var r := t[i := b];
    forall k | Live(r, k) ensures r[k].size > 0 { assert k != i ==> Live(t, k); }
  }

  lemma AddNoZero(t: seq<Block>, b: Block)
    requires NoZero(t) && b.size > 0
    ensures NoZero(Add(t, b))
  {
    if Spare(t, 0) < |t| { PutNoZero(t, Spare(t, 0), b); }
  }

  lemma FreedNoZero(t: seq<Block>, i: nat)
    requires NoZero(t) && i < |t|
    ensures NoZero(Freed(t, i))
  {
    forall k | Live(Freed(t, i), k) ensures Freed(t, i)[k].size > 0 { assert k != i && Live(t, k); }
  }

  lemma DroppedNoZero(t: seq<Block>, owner: Word)
    requires NoZero(t)
    ensures NoZero(Dropped(t, owner))
  {
    forall k | Live(Dropped(t, owner), k) ensures Dropped(t, owner)[k].size > 0 { assert Live(t, k); }
  }
}
