/**
 * What the memory services answer and leave, told by the blocks and the free
 * memory themselves: what is granted is the program's and nothing else
 * changes, exactly which sizes a resize grants and what a refusal reports,
 * and that no paragraph a program was given is given again while its block lives.
 */
module DosGrants {
  import opened Bytes
  import opened DosArena
  import opened DosHoles

  /** Block i could hold [seg, seg + size): with it out of the table, all of that is free and nothing starts there. */
  ghost predicate CanHold(t: seq<Block>, i: nat, size: nat)
    requires i < |t|
  {
    var u := Freed(t, i);
    forall p :: t[i].seg <= p < t[i].seg + size ==> Free(u, p) && !Marked(u, p)
  }

  lemma FreedHolds(t: seq<Block>, i: nat, p: int)
    requires i < |t|
    ensures Free(Freed(t, i), p) <==> PSP <= p < MEMORY_END && forall k :: 0 <= k < |t| && k != i ==> !Holds(t[k], p)
    ensures Marked(Freed(t, i), p) <==> exists k :: Live(t, k) && k != i && t[k].seg == p && t[k].size == 0
  {
    var u := Freed(t, i);
    assert forall k :: 0 <= k < |t| && k != i ==> u[k] == t[k];
    assert forall k :: Live(u, k) ==> k != i && Live(t, k) && u[k] == t[k];
    assert forall k :: Live(t, k) && k != i ==> Live(u, k) && u[k] == t[k];
  }

  /** Inside the room nothing else lies or starts. */
  lemma RoomCanHold(t: seq<Block>, i: nat, size: Word)
    requires Placed(t, MEMORY_END) && Live(t, i) && size <= Room(t, t[i].seg, i)
    ensures CanHold(t, i, size)
  {
    var seg := t[i].seg;
    RoomEnds(t, seg, i);
    forall p | seg <= p < seg + size ensures Free(Freed(t, i), p) && !Marked(Freed(t, i), p) {
      FreedHolds(t, i, p);
      forall k | 0 <= k < |t| && k != i && t[k].owner != 0 ensures !Holds(t[k], p) && t[k].seg != p {
        if t[k].seg >= seg { StopIsBelow(t, seg, i, k); } else { assert !Holds(t[k], seg); }
      }
    }
  }

  /** And the room ends only where something else lies or starts, or memory ends. */
  lemma CanHoldFits(t: seq<Block>, i: nat, size: Word)
    requires Placed(t, MEMORY_END) && Live(t, i) && CanHold(t, i, size)
    ensures size <= Room(t, t[i].seg, i)
  {
    var seg := t[i].seg;
    if size > 0 {
      FreedHolds(t, i, seg);
      FreedHolds(t, i, seg + size - 1);
      assert Free(Freed(t, i), seg) && Free(Freed(t, i), seg + size - 1);
      var stop := Stop(t, seg, i);
      if stop < seg + size {
        var k := StopIsReached(t, seg, i);
        FreedHolds(t, i, stop);
        assert false;
      }
    }
  }

  /** With the block out of the table its own paragraphs are free too, and nothing else changes. */
  lemma OwnOrFree(t: seq<Block>, i: nat, p: int)
    requires Apart(t) && Live(t, i)
    ensures Free(Freed(t, i), p) <==> PSP <= p < MEMORY_END && (Holds(t[i], p) || Free(t, p))
  {
    FreedHolds(t, i, p);
    if Holds(t[i], p) {
      forall k | 0 <= k < |t| && k != i ensures !Holds(t[k], p) {
        if Live(t, k) { assert Disjoint(t[k], t[i]) && Disjoint(t[i], t[k]); }
      }
    }
  }

  /** The block that the services mean by an address: the first live one that starts there. */
  ghost predicate Meant(t: seq<Block>, seg: Word, i: nat) {
    Live(t, i) && t[i].seg == seg && forall k :: 0 <= k < i && Live(t, k) ==> t[k].seg != seg
  }

  lemma MeantIsFound(t: seq<Block>, seg: Word, i: nat)
    requires Meant(t, seg, i)
    ensures Find(t, seg, 0) == i
  {
    assert Live(t, i) && t[i].seg == seg;
  }

  /** A size is granted exactly when the block can hold it; then the block holds exactly that and nothing else changes. */
  lemma ResizeGrants(a: Arena, seg: Word, size: Word, i: nat)
    requires Inv(a) && Meant(a.blocks, seg, i)
    ensures var (r, answer) := DoResize(a, seg, size);
      && (answer == Done <==> CanHold(a.blocks, i, size))
      && (answer == Done ==> r.blocks == a.blocks[i := Block(seg, size, a.blocks[i].owner)] && r.psp == a.psp && r.parents == a.parents)
      && (answer != Done ==> r == a)
  {
    var t := a.blocks;
    MeantIsFound(t, seg, i);
    if size <= Room(t, seg, i) { RoomCanHold(t, i, size); }
    if CanHold(t, i, size) { CanHoldFits(t, i, size); }
  }

  /** A refusal reports the largest size that would have been granted. */
  lemma RefusalIsLargest(a: Arena, seg: Word, size: Word, i: nat)
    requires Inv(a) && Meant(a.blocks, seg, i) && DoResize(a, seg, size).1 != Done
    ensures DoResize(a, seg, size).1.TooBig?
    ensures forall m: Word :: DoResize(a, seg, m).1 == Done <==> m <= DoResize(a, seg, size).1.largest
  {
    MeantIsFound(a.blocks, seg, i);
  }

  /** Without a block there, nothing changes and error 9 is answered; with one, never. */
  lemma NoBlockNoResize(a: Arena, seg: Word, size: Word)
    ensures DoResize(a, seg, size) == (a, Failed(9)) <==> forall k :: Live(a.blocks, k) ==> a.blocks[k].seg != seg
  {
    var i := Find(a.blocks, seg, 0);
    if i < |a.blocks| { assert Live(a.blocks, i) && a.blocks[i].seg == seg; }
  }

  /** What is granted lies clear of every live block. */
  lemma GrantIsClear(a: Arena, want: Word, i: int)
    requires Inv(a) && Live(a.blocks, i) && DoAllocate(a, want).1.Granted?
    ensures var g, b := DoAllocate(a, want).1.seg, a.blocks[i];
      End(b) <= g || g + (if want == 0 then 1 else want) <= b.seg
  {
    var t := a.blocks;
    var j := ChosenIsOffered(t, want, |t| + 1);
    RoomIsClear(t, DoAllocate(a, want).1.seg, -1, i);
  }

  lemma RunSnoc(a: Arena, calls: seq<Call>, c: Call)
    ensures Run(a, calls + [c]) == Step(Run(a, calls), c).0
  {
    assert (calls + [c])[..|calls|] == calls;
  }

  /**
   * Over every run: a size that was granted is the block's, and while the block
   * lives no later grant touches what its program was told it has.
   */
  lemma ResizedIsNotGranted(load: Load, calls: seq<Call>, seg: Word, size: Word, i: nat, more: seq<Call>, want: Word)
    requires load != NotLoaded
    requires var a := Run(Start(load), calls); Meant(a.blocks, seg, i) && DoResize(a, seg, size).1 == Done
    ensures var resized := Run(Start(load), calls + [Resize(seg, size)]).blocks[i];
      && resized == Block(seg, size, Run(Start(load), calls).blocks[i].owner)
      && var b := Run(Start(load), calls + [Resize(seg, size)] + more);
         var g := DoAllocate(b, want).1;
         b.blocks[i] == resized && g.Granted? ==> seg + size <= g.seg || g.seg + (if want == 0 then 1 else want) <= seg
  {
    var a := Run(Start(load), calls);
    RunKeeps(load, calls);
    RunSnoc(Start(load), calls, Resize(seg, size));
    ResizeGrants(a, seg, size, i);
    var b := Run(Start(load), calls + [Resize(seg, size)] + more);
    RunKeeps(load, calls + [Resize(seg, size)] + more);
    if b.blocks[i] == Block(seg, size, a.blocks[i].owner) && DoAllocate(b, want).1.Granted? {
      GrantIsClear(b, want, i);
    }
  }

  // ---- the other services ----

  /** What AH=48h grants was free and is now one block of the running program, in an entry that was free. */
  lemma GrantIsOwned(a: Arena, want: Word) returns (i: nat)
    requires Inv(a) && DoAllocate(a, want).1.Granted?
    ensures var (r, answer) := DoAllocate(a, want);
      var size := if want == 0 then 1 else want;
      && i < |a.blocks| && !Live(a.blocks, i)
      && r.blocks == a.blocks[i := Block(answer.seg, size, a.psp)] && r.psp == a.psp && r.parents == a.parents
      && forall p :: answer.seg <= p < answer.seg + size ==> Free(a.blocks, p)
  {
    var t := a.blocks;
    i := Spare(t, 0);
    var g := DoAllocate(a, want).1.seg;
    var len := ChosenServes(t, want);
  }

  /** AH=49h frees the block meant and no other. */
  lemma ReleaseFreesOne(a: Arena, seg: Word, i: nat)
    requires Meant(a.blocks, seg, i)
    ensures var (r, answer) := DoRelease(a, seg);
      answer == Done && r.blocks == a.blocks[i := a.blocks[i].(owner := 0)] && r.psp == a.psp && r.parents == a.parents
  {
    MeantIsFound(a.blocks, seg, i);
  }

  /** A program that starts owns the paragraphs from its PSP to where its load ends, and its environment before them. */
  lemma StartedProgramOwns(a: Arena, environment: Paragraphs, load: Load) returns (i: nat)
    requires Inv(a) && DoExec(a, environment, load).1 == Done
    ensures var r := DoExec(a, environment, load).0;
      var child := a.cursor + environment;
      && r.psp == child && r.parents == a.parents + [a.psp]
      && i < |a.blocks| && !Live(a.blocks, i)
      && r.blocks[i] == Block(child, Reach(child, load) - child, child)
      && (forall k :: Live(a.blocks, k) ==> r.blocks[k] == a.blocks[k])
      && (forall k :: Live(r.blocks, k) && !Live(a.blocks, k) && k != i ==> r.blocks[k] == Block(a.cursor, environment, child))
      && ((exists k :: 0 <= k < |a.blocks| && k != i && !Live(a.blocks, k))
          ==> exists k :: Live(r.blocks, k) && !Live(a.blocks, k) && k != i)
  {
    var t, child := a.blocks, a.cursor + environment;
    i := Spare(t, 0);
    var own := Block(child, Reach(child, load) - child, child);
    var u := Add(t, own);
    assert u == t[i := own];
    if k :| 0 <= k < |t| && k != i && !Live(t, k) {
      assert !Live(u, k);
      var j := Spare(u, 0);
      assert j < |u| && !Live(u, j);
      assert Live(Add(u, Block(a.cursor, environment, child)), j);
    }
  }
}
