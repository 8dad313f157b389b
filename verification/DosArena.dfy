/**
 * The paragraph allocator behind the DOS memory services: a fixed table of
 * live blocks, searched afresh by every call, with programs started in the
 * space above the highest block.
 */
module DosArena {
  import opened Bytes

  const ENTRIES := 128
  const MEMORY_END := 0xA000
  const PSP := 0x1000
  const NESTING := 4

  type Word = w: int | 0 <= w < 0x1_0000

  /** A table entry; one without an owner is free. */
  datatype Block = Block(seg: Word, size: Word, owner: Word)

  type Table = t: seq<Block> | |t| == ENTRIES witness Blank()

  function Blank(): seq<Block> { seq(ENTRIES, i => Block(0, 0, 0)) }

  predicate Live(t: seq<Block>, i: int) { 0 <= i < |t| && t[i].owner != 0 }

  function End(b: Block): nat { b.seg + b.size }

  /** The paragraph p belongs to block b. */
  predicate Holds(b: Block, p: int) { b.owner != 0 && b.seg <= p < End(b) }

  // ---- the table scans ----

  /** The first live entry from i on that starts at seg, or the table's length. */
  function Find(t: seq<Block>, seg: Word, i: nat): (r: nat)
    requires i <= |t|
    ensures i <= r <= |t|
    ensures r < |t| ==> Live(t, r) && t[r].seg == seg
    ensures forall k :: i <= k < r && Live(t, k) ==> t[k].seg != seg
    decreases |t| - i
  {
    if i == |t| || (t[i].owner != 0 && t[i].seg == seg) then i else Find(t, seg, i + 1)
  }

  /** The first free entry from i on, or the table's length. */
  function Spare(t: seq<Block>, i: nat): (r: nat)
    requires i <= |t|
    ensures i <= r <= |t|
    ensures r < |t| ==> !Live(t, r)
    ensures forall k :: i <= k < r ==> Live(t, k)
    decreases |t| - i
  {
    if i == |t| || t[i].owner == 0 then i else Spare(t, i + 1)
  }

  predicate Full(t: seq<Block>) { forall k :: 0 <= k < |t| ==> Live(t, k) }

  function Add(t: seq<Block>, b: Block): (r: seq<Block>)
    ensures |r| == |t|
  {
    var i := Spare(t, 0);
    if i < |t| then t[i := b] else t
  }

  /** The end of the highest live block among t, at least low. */
  function Top(t: seq<Block>, low: nat): nat {
    if t == [] then low
    else
      var b, r := t[|t| - 1], Top(t[..|t| - 1], low);
      if b.owner != 0 && End(b) > r then End(b) else r
  }

  lemma {:induction false} TopIsAbove(t: seq<Block>, low: nat)
    ensures Top(t, low) >= low
    ensures forall k :: Live(t, k) ==> End(t[k]) <= Top(t, low)
  {
    if t != [] {
      var init := t[..|t| - 1];
      TopIsAbove(init, low);
      forall k | Live(t, k) ensures End(t[k]) <= Top(t, low) {
        if k < |t| - 1 { assert Live(init, k) && init[k] == t[k]; }
      }
    }
  }

  lemma {:induction false} TopIsLeast(t: seq<Block>, low: nat, bound: nat)
    requires low <= bound
    requires forall k :: Live(t, k) ==> End(t[k]) <= bound
    ensures Top(t, low) <= bound
  {
    if t != [] {
      var init := t[..|t| - 1];
      forall k | Live(init, k) ensures End(init[k]) <= bound { assert Live(t, k); }
      TopIsLeast(init, low, bound);
      if t[|t| - 1].owner != 0 { assert Live(t, |t| - 1); }
    }
  }

  /** Some live block other than the ignored one covers base. */
  predicate Covered(t: seq<Block>, base: int, ignore: int) {
    exists k :: 0 <= k < |t| && k != ignore && Holds(t[k], base)
  }

  /** Where the space from base on stops: a live block's start or the memory's end. */
  function Stop(t: seq<Block>, base: int, ignore: int): (r: nat)
    ensures r <= MEMORY_END
  {
    if t == [] then MEMORY_END
    else
      var b, r := t[|t| - 1], Stop(t[..|t| - 1], base, ignore);
      if b.owner != 0 && |t| - 1 != ignore && base <= b.seg < r then b.seg else r
  }

  lemma {:induction false} StopIsBelow(t: seq<Block>, base: int, ignore: int, k: int)
    requires Live(t, k) && k != ignore && t[k].seg >= base
    ensures Stop(t, base, ignore) <= t[k].seg
  {
    var init := t[..|t| - 1];
    if k < |t| - 1 {
      assert Live(init, k) && init[k] == t[k];
      StopIsBelow(init, base, ignore, k);
    }
  }

  /** Unless it is the memory's end, the stop is where some other block starts. */
  lemma {:induction false} StopIsReached(t: seq<Block>, base: int, ignore: int) returns (k: int)
    requires Stop(t, base, ignore) != MEMORY_END
    ensures Live(t, k) && k != ignore && t[k].seg == Stop(t, base, ignore) && t[k].seg >= base
  {
    var init := t[..|t| - 1];
    k := |t| - 1;
    if Stop(t, base, ignore) == Stop(init, base, ignore) {
      k := StopIsReached(init, base, ignore);
      assert Live(init, k) && init[k] == t[k];
    }
  }

  function Room(t: seq<Block>, base: Word, ignore: int): (r: Word) {
    if Covered(t, base, ignore) || Stop(t, base, ignore) <= base then 0
    else Stop(t, base, ignore) - base
  }

  // ---- the services ----

  /** The address that candidate i offers: a live block's end, or the arena's start. */
  function Candidate(t: seq<Block>, i: nat): Option<Word> {
    if i >= |t| then Some(PSP)
    else if t[i].owner != 0 then Some(End(t[i]) % 0x1_0000)
    else None
  }

  /** What the search of AH=48h has seen: zero for nothing. */
  datatype Search = Search(largest: Word, chosen: Word)

  function Consider(t: seq<Block>, want: Word, c: Option<Word>, s: Search): Search {
    match c
    case None => s
    case Some(base) =>
      var room := Room(t, base, -1);
      Search(
        if room > s.largest then room else s.largest,
        if room >= want && room != 0 && (s.chosen == 0 || base < s.chosen) then base else s.chosen)
  }

  /** The search after the first n candidates. */
  function Survey(t: seq<Block>, want: Word, n: nat): Search {
    if n == 0 then Search(0, 0)
    else Consider(t, want, Candidate(t, n - 1), Survey(t, want, n - 1))
  }

  datatype Arena = Arena(blocks: Table, cursor: Word, psp: Word, parents: seq<Word>)

  /** The length of an environment, never empty. */
  type Paragraphs = n: int | 1 <= n < 0x1000 witness 1

  /** How loading a program goes: an .EXE claims so many paragraphs beyond its PSP. */
  datatype Load = NotLoaded | Exe(claim: nat) | Com

  datatype Call =
    | Allocate(want: Word)
    | Release(seg: Word)
    | Resize(seg: Word, size: Word)
    | Exec(environment: Paragraphs, load: Load)
    | Terminate

  datatype Answer =
    | Granted(seg: Word)
    | Done
    | Failed(error: nat)
    | TooBig(largest: Word)

  function Recount(a: Arena, t: Table): Arena {
    a.(blocks := t, cursor := Top(t, PSP) % 0x1_0000)
  }

  function DoAllocate(a: Arena, want: Word): (Arena, Answer) {
    var s := Survey(a.blocks, want, |a.blocks| + 1);
    if s.chosen == 0 || Full(a.blocks) then (a, TooBig(s.largest))
    else (Recount(a, Add(a.blocks, Block(s.chosen, if want == 0 then 1 else want, a.psp))), Granted(s.chosen))
  }

  function Freed(t: seq<Block>, i: nat): (r: seq<Block>)
    requires i < |t|
    ensures |r| == |t|
  {
    t[i := t[i].(owner := 0)]
  }

  function DoRelease(a: Arena, seg: Word): (Arena, Answer) {
    var i := Find(a.blocks, seg, 0);
    if i == |a.blocks| then (a, Failed(9)) else (Recount(a, Freed(a.blocks, i)), Done)
  }

  function DoResize(a: Arena, seg: Word, size: Word): (Arena, Answer) {
    var i := Find(a.blocks, seg, 0);
    if i == |a.blocks| then (a, Failed(9))
    else
      var room := Room(a.blocks, seg, i);
      if size > room then (a, TooBig(room))
      else (Recount(a, a.blocks[i := a.blocks[i].(size := size)]), Done)
  }

  function Clamp(x: nat): nat { if x < 0x2000 then 0x2000 else if x > 0x9000 then 0x9000 else x }

  /** Where a program's own block ends. */
  function Reach(psp: nat, load: Load): (r: nat)
    ensures load != NotLoaded && psp <= 0x8000 ==> psp < r <= 0x9000
  {
    match load
    case Exe(claim) => Clamp(psp + 0x10 + claim)
    case Com => psp + 0x1000
    case NotLoaded => psp
  }

  predicate Admissible(a: Arena, environment: Paragraphs) {
    |a.parents| < NESTING && 0x1100 <= a.cursor + environment <= 0x8000
  }

  /** The child's own block up to top, then its environment between the cursor and the child. */
  function Started(a: Arena, environment: Paragraphs, top: Word): Arena
    requires a.cursor + environment <= top
  {
    var child := a.cursor + environment;
    Arena(Add(Add(a.blocks, Block(child, top - child, child)), Block(a.cursor, environment, child)), top, child, a.parents + [a.psp])
  }

  function DoExec(a: Arena, environment: Paragraphs, load: Load): (Arena, Answer) {
    if !Admissible(a, environment) || load == NotLoaded then (a, Failed(2))
    else
      var child := a.cursor + environment;
      var top := Reach(child, load);
      if Full(a.blocks) then (a.(cursor := top), Failed(2)) else (Started(a, environment, top), Done)
  }

  function Dropped(t: seq<Block>, owner: Word): (r: seq<Block>)
    ensures |r| == |t|
    ensures forall k :: 0 <= k < |t| ==> r[k] == if t[k].owner == owner then t[k].(owner := 0) else t[k]
  {
    seq(|t|, k requires 0 <= k < |t| => if t[k].owner == owner then t[k].(owner := 0) else t[k])
  }

  /** The end of the first program halts the machine; a child's resumes its parent. */
  function DoTerminate(a: Arena): (Arena, Answer) {
    if a.parents == [] then (a, Done)
    else
      var last := |a.parents| - 1;
      (Recount(a, Dropped(a.blocks, a.psp)).(psp := a.parents[last], parents := a.parents[..last]), Done)
  }

  function Step(a: Arena, c: Call): (Arena, Answer) {
    match c
    case Allocate(want) => DoAllocate(a, want)
    case Release(seg) => DoRelease(a, seg)
    case Resize(seg, size) => DoResize(a, seg, size)
    case Exec(environment, load) => DoExec(a, environment, load)
    case Terminate => DoTerminate(a)
  }

  /** The arena once the first program is in memory. */
  function Start(load: Load): Arena
    requires load != NotLoaded
  {
    Arena(Add(Blank(), Block(PSP, Reach(PSP, load) - PSP, PSP)), Reach(PSP, load), PSP, [])
  }

  function Run(a: Arena, calls: seq<Call>): Arena {
    if calls == [] then a else Step(Run(a, calls[..|calls| - 1]), calls[|calls| - 1]).0
  }

  // ---- the invariant ----

  ghost predicate Placed(t: seq<Block>, cursor: int) {
    forall i :: Live(t, i) ==> PSP <= t[i].seg && End(t[i]) <= cursor
  }

  predicate Disjoint(a: Block, b: Block) {
    (a.seg < b.seg ==> End(a) <= b.seg) && (b.seg < a.seg ==> End(b) <= a.seg) && (a.seg == b.seg ==> a.size == 0 || b.size == 0)
  }

  ghost predicate Apart(t: seq<Block>) {
    forall i, j :: Live(t, i) && Live(t, j) && i != j ==> Disjoint(t[i], t[j])
  }

  ghost predicate Inv(a: Arena) {
    && Apart(a.blocks)
    && Placed(a.blocks, a.cursor)
    && PSP <= a.cursor <= MEMORY_END
    && PSP <= a.psp
    && |a.parents| <= NESTING
    && (forall i :: 0 <= i < |a.parents| ==> PSP <= a.parents[i])
  }

  /** What the invariant is for: no paragraph belongs to two live blocks. */
  lemma NoParagraphIsShared(a: Arena, i: int, j: int, p: int)
    requires Inv(a) && Live(a.blocks, i) && Live(a.blocks, j)
    requires Holds(a.blocks[i], p) && Holds(a.blocks[j], p)
    ensures i == j
  {
  }

  lemma AddLive(t: seq<Block>, b: Block, k: int)
    requires b.owner != 0
    ensures Live(Add(t, b), k) && k != Spare(t, 0) ==> Live(t, k) && Add(t, b)[k] == t[k]
    ensures Live(Add(t, b), Spare(t, 0)) ==> Add(t, b)[Spare(t, 0)] == b
    ensures Live(t, k) ==> k != Spare(t, 0) && Live(Add(t, b), k)
  {
  }

  lemma PutKeeps(t: seq<Block>, i: nat, b: Block, cursor: int)
    requires Apart(t) && i < |t| && b.seg >= PSP && End(b) <= cursor
    requires forall k :: Live(t, k) && k != i ==> Disjoint(t[k], b) && PSP <= t[k].seg && End(t[k]) <= cursor
    ensures Apart(t[i := b]) && Placed(t[i := b], cursor)
  {
    var r := t[i := b];
    forall k | Live(r, k) && k != i ensures Live(t, k) && r[k] == t[k] { }
  }

  lemma AddKeeps(t: seq<Block>, b: Block, cursor: int)
    requires Apart(t) && Placed(t, cursor) && b.owner != 0 && b.seg >= PSP && End(b) <= cursor
    requires forall k :: Live(t, k) ==> Disjoint(t[k], b)
    ensures Apart(Add(t, b)) && Placed(Add(t, b), cursor)
  {
    var i := Spare(t, 0);
    if i < |t| { PutKeeps(t, i, b, cursor); }
  }

  lemma TopKeeps(t: seq<Block>, cursor: int)
    requires Apart(t) && Placed(t, cursor) && PSP <= cursor <= MEMORY_END
    ensures Placed(t, Top(t, PSP)) && PSP <= Top(t, PSP) <= cursor
  {
    TopIsAbove(t, PSP);
    TopIsLeast(t, PSP, cursor);
  }

  /** A base with room lies clear of every other block for that long. */
  lemma RoomIsClear(t: seq<Block>, base: Word, ignore: int, k: int)
    requires Live(t, k) && k != ignore && Room(t, base, ignore) > 0
    ensures End(t[k]) <= base || base + Room(t, base, ignore) <= t[k].seg
  {
    if t[k].seg >= base { StopIsBelow(t, base, ignore, k); } else { assert !Holds(t[k], base); }
  }

  lemma RoomEnds(t: seq<Block>, base: Word, ignore: int)
    ensures Room(t, base, ignore) > 0 ==> base + Room(t, base, ignore) <= MEMORY_END
  {
  }

  /** Candidate i has this much room. */
  function Offer(t: seq<Block>, i: nat): (r: Word) {
    match Candidate(t, i)
    case None => 0
    case Some(base) => Room(t, base, -1)
  }

  predicate Fits(t: seq<Block>, base: Word, want: Word) {
    Room(t, base, -1) >= want && Room(t, base, -1) > 0
  }

  lemma {:induction false} LargestBounds(t: seq<Block>, want: Word, n: nat, i: nat)
    requires i < n
    ensures Offer(t, i) <= Survey(t, want, n).largest
  {
    if i < n - 1 { LargestBounds(t, want, n - 1, i); }
  }

  lemma {:induction false} LargestIsOffered(t: seq<Block>, want: Word, n: nat) returns (i: nat)
    requires Survey(t, want, n).largest > 0
    ensures i < n && Offer(t, i) == Survey(t, want, n).largest
  {
    i := n - 1;
    if Survey(t, want, n).largest == Survey(t, want, n - 1).largest { i := LargestIsOffered(t, want, n - 1); }
  }

  lemma {:induction false} ChosenIsOffered(t: seq<Block>, want: Word, n: nat) returns (i: nat)
    requires Survey(t, want, n).chosen != 0
    ensures i < n && Candidate(t, i) == Some(Survey(t, want, n).chosen)
    ensures Fits(t, Survey(t, want, n).chosen, want)
  {
    i := n - 1;
    if Survey(t, want, n).chosen == Survey(t, want, n - 1).chosen { i := ChosenIsOffered(t, want, n - 1); }
  }

  lemma CandidateInArena(t: seq<Block>, i: nat)
    requires Placed(t, MEMORY_END)
    ensures Candidate(t, i).Some? ==> PSP <= Candidate(t, i).value <= MEMORY_END
  {
    if Candidate(t, i).Some? && i < |t| { assert Live(t, i); }
  }

  lemma {:induction false} ChosenIsLowest(t: seq<Block>, want: Word, n: nat, i: nat, base: Word)
    requires Placed(t, MEMORY_END)
    requires i < n && Candidate(t, i) == Some(base) && Fits(t, base, want)
    ensures 0 < Survey(t, want, n).chosen <= base
  {
    CandidateInArena(t, i);
    CandidateInArena(t, n - 1);
    if i < n - 1 { ChosenIsLowest(t, want, n - 1, i, base); }
  }

  /** A block put where the search found room keeps clear of all the others. */
  lemma FittingIsApart(t: seq<Block>, base: Word, want: Word, owner: Word, k: int)
    requires Fits(t, base, want) && Live(t, k)
    ensures Disjoint(t[k], Block(base, if want == 0 then 1 else want, owner))
  {
    RoomIsClear(t, base, -1, k);
  }

  lemma AllocateKeeps(a: Arena, want: Word)
    requires Inv(a)
    ensures Inv(DoAllocate(a, want).0)
  {
    var t := a.blocks;
    var base := Survey(t, want, |t| + 1).chosen;
    if base != 0 && !Full(t) {
      var i := ChosenIsOffered(t, want, |t| + 1);
      CandidateInArena(t, i);
      var b := Block(base, if want == 0 then 1 else want, a.psp);
      forall k | Live(t, k) ensures Disjoint(t[k], b) { FittingIsApart(t, base, want, a.psp, k); }
      AddKeeps(t, b, MEMORY_END);
      TopKeeps(Add(t, b), MEMORY_END);
    }
  }

  lemma ReleaseKeeps(a: Arena, seg: Word)
    requires Inv(a)
    ensures Inv(DoRelease(a, seg).0)
  {
    var i := Find(a.blocks, seg, 0);
    if i < |a.blocks| {
      var t := Freed(a.blocks, i);
      assert forall k :: Live(t, k) ==> Live(a.blocks, k) && t[k] == a.blocks[k];
      TopKeeps(t, a.cursor);
    }
  }

  lemma ResizedIsApart(t: seq<Block>, i: nat, size: Word, k: int)
    requires Apart(t) && Live(t, i) && Live(t, k) && k != i && size <= Room(t, t[i].seg, i)
    ensures Disjoint(t[k], t[i].(size := size))
  {
    assert Disjoint(t[k], t[i]);
    if size > 0 { RoomIsClear(t, t[i].seg, i, k); }
  }

  lemma ResizeKeeps(a: Arena, seg: Word, size: Word)
    requires Inv(a)
    ensures Inv(DoResize(a, seg, size).0)
  {
    var t := a.blocks;
    var i := Find(t, seg, 0);
    if i < |t| && size <= Room(t, seg, i) {
      var b := t[i].(size := size);
      forall k | Live(t, k) && k != i ensures Disjoint(t[k], b) { ResizedIsApart(t, i, size, k); }
      assert Live(t, i);
      PutKeeps(t, i, b, MEMORY_END);
      TopKeeps(t[i := b], MEMORY_END);
    }
  }

  /** Beyond the cursor a block keeps clear of all the others. */
  lemma BeyondIsApart(t: seq<Block>, cursor: int, b: Block)
    requires Placed(t, cursor) && cursor <= b.seg
    ensures forall k :: Live(t, k) ==> Disjoint(t[k], b)
  {
  }

  lemma EnvironmentIsApart(t: seq<Block>, cursor: int, b: Block, e: Block)
    requires Placed(t, cursor) && cursor == e.seg && End(e) <= b.seg && b.owner != 0
    ensures forall k :: Live(Add(t, b), k) ==> Disjoint(Add(t, b)[k], e)
  {
    BeyondIsApart(t, cursor, e);
    forall k | Live(Add(t, b), k) ensures Disjoint(Add(t, b)[k], e) { AddLive(t, b, k); }
  }

  lemma PairKeeps(t: seq<Block>, cursor: nat, b: Block, e: Block)
    requires Apart(t) && Placed(t, cursor) && PSP <= cursor == e.seg && End(e) == b.seg && b.owner != 0 && e.owner != 0
    ensures Apart(Add(Add(t, b), e)) && Placed(Add(Add(t, b), e), End(b))
  {
    BeyondIsApart(t, cursor, b);
    assert Placed(t, End(b));
    AddKeeps(t, b, End(b));
    EnvironmentIsApart(t, cursor, b, e);
    AddKeeps(Add(t, b), e, End(b));
  }

  lemma StartedKeeps(a: Arena, environment: Paragraphs, top: Word)
    requires Inv(a) && a.cursor + environment < top <= MEMORY_END && |a.parents| < NESTING
    ensures Inv(Started(a, environment, top))
  {
    var child := a.cursor + environment;
    PairKeeps(a.blocks, a.cursor, Block(child, top - child, child), Block(a.cursor, environment, child));
  }

  lemma ExecKeeps(a: Arena, environment: Paragraphs, load: Load)
    requires Inv(a)
    ensures Inv(DoExec(a, environment, load).0)
  {
    if Admissible(a, environment) && load != NotLoaded {
      var top := Reach(a.cursor + environment, load);
      if !Full(a.blocks) { StartedKeeps(a, environment, top); }
    }
  }

  lemma TerminateKeeps(a: Arena)
    requires Inv(a)
    ensures Inv(DoTerminate(a).0)
  {
    if a.parents != [] {
      var t := Dropped(a.blocks, a.psp);
      assert forall k :: Live(t, k) ==> Live(a.blocks, k) && t[k] == a.blocks[k];
      TopKeeps(t, a.cursor);
    }
  }

  lemma StepKeeps(a: Arena, c: Call)
    requires Inv(a)
    ensures Inv(Step(a, c).0)
  {
    match c
    case Allocate(want) => AllocateKeeps(a, want);
    case Release(seg) => ReleaseKeeps(a, seg);
    case Resize(seg, size) => ResizeKeeps(a, seg, size);
    case Exec(environment, load) => ExecKeeps(a, environment, load);
    case Terminate => TerminateKeeps(a);
  }

  lemma {:induction false} RunKeeps(load: Load, calls: seq<Call>)
    requires load != NotLoaded
    ensures Inv(Run(Start(load), calls))
  {
    if calls == [] {
      AddKeeps(Blank(), Block(PSP, Reach(PSP, load) - PSP, PSP), Reach(PSP, load));
    } else {
      RunKeeps(load, calls[..|calls| - 1]);
      StepKeeps(Run(Start(load), calls[..|calls| - 1]), calls[|calls| - 1]);
    }
  }
}
