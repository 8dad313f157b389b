/**
 * Open files shared by nested programs: each process has its own handle table,
 * and an open file lives as long as some table names it.
 */
module DosHandles {
  import opened Bytes

  const HANDLES := 20
  const DEVICES := 5
  const NO_FILE := 0xFF
  const NESTING := 4

  /** An open file: its reference count, its name, and the state of its buffer. */
  datatype Object = Object(refs: byte, name: string, held: bool, modified: bool, buffered: bool)

  datatype Files = Files(objects: seq<Object>, table: seq<byte>, parents: seq<seq<byte>>)

  function Reset(): Files {
    Files(
      seq(HANDLES, i => Object(if i < DEVICES then 1 else 0, "", false, false, false)),
      seq(HANDLES, _ => NO_FILE),
      [])
  }

  // ---- who names what ----

  /** How often a table names object o. */
  function Count(table: seq<byte>, o: byte): nat {
    if table == [] then 0
    else Count(table[..|table| - 1], o) + if table[|table| - 1] == o then 1 else 0
  }

  /** How often the suspended programs name it. */
  function Total(parents: seq<seq<byte>>, o: byte): nat {
    if parents == [] then 0 else Total(parents[..|parents| - 1], o) + Count(parents[|parents| - 1], o)
  }

  predicate WellFormed(table: seq<byte>) {
    |table| == HANDLES && forall i :: 0 <= i < HANDLES ==> table[i] == NO_FILE || (DEVICES <= i && DEVICES <= table[i] < HANDLES)
  }

  /** The buffer of an object: none without a reference, and unsaved bytes only in a buffer. */
  predicate Tidy(f: Object) {
    (f.refs == 0 ==> !f.held) && (f.buffered ==> f.held) && (f.modified ==> f.buffered)
  }

  predicate Shape(d: Files) {
    && |d.objects| == HANDLES
    && WellFormed(d.table)
    && |d.parents| <= NESTING
    && (forall k :: 0 <= k < |d.parents| ==> WellFormed(d.parents[k]))
  }

  /** The references to object o are the table entries naming it. */
  predicate Counted(d: Files, o: byte)
    requires o < |d.objects|
  {
    d.objects[o].refs == Count(d.table, o) + Total(d.parents, o)
  }

  ghost predicate Inv(d: Files) {
    && Shape(d)
    && (forall o: byte :: DEVICES <= o < HANDLES ==> Tidy(d.objects[o]) && Counted(d, o))
    && (forall o :: 0 <= o < DEVICES ==> d.objects[o].refs == 1)
  }

  // ---- the services ----

  /** The first handle from i on that names nothing, or the table's length. */
  function FreeHandle(table: seq<byte>, i: nat): (r: nat)
    requires i <= |table|
    ensures i <= r <= |table|
    ensures r < |table| ==> table[r] == NO_FILE
    ensures forall k :: i <= k < r ==> table[k] != NO_FILE
    decreases |table| - i
  {
    if i == |table| || table[i] == NO_FILE then i else FreeHandle(table, i + 1)
  }

  /** The first object from i on that nothing refers to, or their number. */
  function FreeObject(objects: seq<Object>, i: nat): (r: nat)
    requires i <= |objects|
    ensures i <= r <= |objects|
    ensures r < |objects| ==> objects[r].refs == 0
    ensures forall k :: i <= k < r ==> objects[k].refs != 0
    decreases |objects| - i
  {
    if i == |objects| || objects[i].refs == 0 then i else FreeObject(objects, i + 1)
  }

  predicate IsOpen(d: Files, h: int)
    requires Shape(d)
  {
    DEVICES <= h < HANDLES && d.table[h] != NO_FILE
  }

  datatype Call =
    | Create(name: string, writable: bool, memory: bool)
    | Open(name: string, found: bool)
    | Close(h: nat)
    | Write(h: nat, memory: bool, fits: bool)
    | Exec(loaded: bool)
    | Terminate

  datatype Answer = Opened(h: nat) | Done | Failed(error: nat)

  /** An object and a handle for a file about to be opened, if both are left. */
  function Slot(d: Files): Option<(nat, byte)>
    requires Shape(d)
  {
    var h, o := FreeHandle(d.table, DEVICES), FreeObject(d.objects, DEVICES);
    if h == HANDLES || o == HANDLES then None else Some((h, o))
  }

  function Name(d: Files, h: nat, o: byte, f: Object): Files
    requires h < |d.table| && o < |d.objects|
  {
    d.(objects := d.objects[o := f], table := d.table[h := o])
  }

  function DoCreate(d: Files, name: string, writable: bool, memory: bool): (Files, Answer)
    requires Shape(d)
  {
    match Slot(d)
    case None => (d, Failed(4))
    case Some((h, o)) =>
      var f := d.objects[o].(name := name);
      if !writable then (d.(objects := d.objects[o := f]), Failed(5))
      else if !f.held && !memory then (d.(objects := d.objects[o := f]), Failed(4))
      else (Name(d, h, o, Object(1, name, true, true, true)), Opened(h))
  }

  function DoOpen(d: Files, name: string, found: bool): (Files, Answer)
    requires Shape(d)
  {
    match Slot(d)
    case None => (d, Failed(4))
    case Some((h, o)) =>
      var f := d.objects[o].(name := name);
      if !found then (d.(objects := d.objects[o := f]), Failed(2))
      else (Name(d, h, o, f.(refs := 1, modified := false, buffered := false)), Opened(h))
  }

  function Flushed(f: Object): Object { if f.modified && f.held then f.(modified := false) else f }

  /** An object one reference short: saved, and without its buffer when that was the last one. */
  function Unreferenced(f: Object): Object {
    var g := Flushed(f).(refs := (f.refs - 1) % 256);
    if g.refs == 0 then g.(held := false, buffered := false) else g
  }

  function CloseHandle(d: Files, h: nat): Files
    requires Shape(d)
  {
    if !IsOpen(d, h) then d
    else
      var o := d.table[h];
      d.(objects := d.objects[o := Unreferenced(d.objects[o])], table := d.table[h := NO_FILE])
  }

  function DoWrite(d: Files, h: nat, memory: bool, fits: bool): (Files, Answer)
    requires Shape(d)
  {
    if h <= 2 then (d, Done)
    else if !IsOpen(d, h) then (d, Failed(6))
    else
      var o := d.table[h];
      var f := d.objects[o];
      var held := f.held || memory;
      if f.buffered then (d.(objects := d.objects[o := f.(modified := true)]), Done)
      else if !held || !fits then (d.(objects := d.objects[o := f.(held := held)]), Failed(5))
      else (d.(objects := d.objects[o := f.(held := true, buffered := true, modified := true)]), Done)
  }

  /** One more reference for each of the first n entries of the table. */
  function Acquired(objects: seq<Object>, table: seq<byte>, n: nat): (r: seq<Object>)
    requires n <= |table|
    ensures |r| == |objects|
  {
    if n == 0 then objects
    else
      var r, o := Acquired(objects, table, n - 1), table[n - 1];
      if n - 1 < DEVICES || o == NO_FILE || o >= |r| then r else r[o := r[o].(refs := (r[o].refs + 1) % 256)]
  }

  function DoExec(d: Files, loaded: bool): (Files, Answer)
    requires Shape(d)
  {
    if |d.parents| >= NESTING || !loaded then (d, Failed(2))
    else (d.(objects := Acquired(d.objects, d.table, HANDLES), parents := d.parents + [d.table]), Done)
  }

  /** Closes the handles below n. */
  function CloseBelow(d: Files, n: nat): (r: Files)
    requires Shape(d)
    ensures Shape(r) && r.parents == d.parents
  {
    if n <= DEVICES then d else CloseHandle(CloseBelow(d, n - 1), n - 1)
  }

  /** A child's end closes its table and brings back its parent's; the first program's end halts. */
  function DoTerminate(d: Files): (Files, Answer)
    requires Shape(d)
  {
    if d.parents == [] then (d, Done)
    else
      var last := |d.parents| - 1;
      (Files(CloseBelow(d, HANDLES).objects, d.parents[last], d.parents[..last]), Done)
  }

  function Step(d: Files, c: Call): (r: (Files, Answer))
    requires Shape(d)
    ensures Shape(r.0)
  {
    match c
    case Create(name, writable, memory) => DoCreate(d, name, writable, memory)
    case Open(name, found) => DoOpen(d, name, found)
    case Close(h) => if IsOpen(d, h) then (CloseHandle(d, h), Done) else (d, Failed(6))
    case Write(h, memory, fits) => DoWrite(d, h, memory, fits)
    case Exec(loaded) => DoExec(d, loaded)
    case Terminate => DoTerminate(d)
  }

  function Run(d: Files, calls: seq<Call>): (r: Files)
    requires Shape(d)
    ensures Shape(r)
  {
    if calls == [] then d else Step(Run(d, calls[..|calls| - 1]), calls[|calls| - 1]).0
  }

  // ---- counting ----

  lemma {:induction false} CountPut(table: seq<byte>, i: nat, v: byte, o: byte)
    requires i < |table|
    ensures Count(table[i := v], o) == Count(table, o) - (if table[i] == o then 1 else 0) + (if v == o then 1 else 0)
  {
    var last := |table| - 1;
    if i < last {
      CountPut(table[..last], i, v, o);
      assert table[i := v][..last] == table[..last][i := v];
    } else {
      assert table[i := v][..last] == table[..last];
    }
  }

  lemma {:induction false} CountBound(table: seq<byte>, o: byte)
    ensures Count(table, o) <= |table|
  {
    if table != [] { CountBound(table[..|table| - 1], o); }
  }

  lemma {:induction false} CountNone(table: seq<byte>, o: byte)
    ensures Count(table, o) == 0 <==> forall i :: 0 <= i < |table| ==> table[i] != o
  {
    if table != [] {
      var init := table[..|table| - 1];
      CountNone(init, o);
      assert forall i :: 0 <= i < |init| ==> init[i] == table[i];
    }
  }

  lemma {:induction false} TotalBound(parents: seq<seq<byte>>, o: byte)
    requires forall k :: 0 <= k < |parents| ==> |parents[k]| == HANDLES
    ensures Total(parents, o) <= HANDLES * |parents|
  {
    if parents != [] {
      TotalBound(parents[..|parents| - 1], o);
      CountBound(parents[|parents| - 1], o);
    }
  }

  lemma {:induction false} TotalNone(parents: seq<seq<byte>>, o: byte, k: nat)
    requires k < |parents|
    ensures Count(parents[k], o) <= Total(parents, o)
  {
    if k < |parents| - 1 { TotalNone(parents[..|parents| - 1], o, k); }
  }

  /** No reference count ever reaches the width of its field. */
  lemma NoOverflow(d: Files, o: byte)
    requires Shape(d)
    ensures Count(d.table, o) + Total(d.parents, o) <= HANDLES * (|d.parents| + 1) <= 100
  {
    CountBound(d.table, o);
    TotalBound(d.parents, o);
  }

  // ---- the invariant over every call ----

  lemma UnreferencedTidy(f: Object)
    requires Tidy(f) && f.refs > 0
    ensures Tidy(Unreferenced(f)) && Unreferenced(f).refs == f.refs - 1
  {
  }

  lemma CloseKeeps(d: Files, h: nat)
    requires Inv(d)
    ensures Inv(CloseHandle(d, h))
  {
    if IsOpen(d, h) {
      var e, o := CloseHandle(d, h), d.table[h];
      CountNone(d.table, o);
      UnreferencedTidy(d.objects[o]);
      forall p: byte | DEVICES <= p < HANDLES ensures Tidy(e.objects[p]) && Counted(e, p) {
        assert Tidy(d.objects[p]) && Counted(d, p);
        CountPut(d.table, h, NO_FILE, p);
      }
    }
  }

  lemma {:induction false} CloseBelowKeeps(d: Files, n: nat)
    requires Inv(d)
    ensures Inv(CloseBelow(d, n))
  {
    if n > DEVICES {
      CloseBelowKeeps(d, n - 1);
      CloseKeeps(CloseBelow(d, n - 1), n - 1);
    }
  }

  lemma {:induction false} CloseBelowClears(d: Files, n: nat)
    requires Shape(d) && n <= HANDLES
    ensures forall i :: 0 <= i < n ==> CloseBelow(d, n).table[i] == NO_FILE
  {
    if n > DEVICES { CloseBelowClears(d, n - 1); }
  }

  lemma TerminateKeeps(d: Files)
    requires Inv(d)
    ensures Inv(DoTerminate(d).0)
  {
    if d.parents != [] {
      var e, r := CloseBelow(d, HANDLES), DoTerminate(d).0;
      CloseBelowKeeps(d, HANDLES);
      CloseBelowClears(d, HANDLES);
      forall o: byte | DEVICES <= o < HANDLES ensures Tidy(r.objects[o]) && Counted(r, o) {
        assert Tidy(e.objects[o]) && Counted(e, o);
        CountNone(e.table, o);
      }
    }
  }

  lemma {:induction false} AcquiredAdds(objects: seq<Object>, table: seq<byte>, n: nat, o: byte)
    requires n <= |table| && WellFormed(table) && DEVICES <= o < |objects| == HANDLES
    requires objects[o].refs + |table| < 256
    ensures Count(table[..n], o) <= n
    ensures Acquired(objects, table, n)[o] == objects[o].(refs := objects[o].refs + Count(table[..n], o))
  {
    if n > 0 {
      AcquiredAdds(objects, table, n - 1, o);
      assert table[..n][..n - 1] == table[..n - 1];
      CountBound(table[..n], o);
    }
  }

  lemma {:induction false} AcquiredSkips(objects: seq<Object>, table: seq<byte>, n: nat, o: nat)
    requires n <= |table| && WellFormed(table) && o < DEVICES < |objects| == HANDLES
    ensures Acquired(objects, table, n)[o] == objects[o]
  {
    if n > 0 { AcquiredSkips(objects, table, n - 1, o); }
  }

  lemma ExecKeeps(d: Files, loaded: bool)
    requires Inv(d)
    ensures Inv(DoExec(d, loaded).0)
  {
    if |d.parents| < NESTING && loaded {
      var e := DoExec(d, loaded).0;
      assert d.table[..HANDLES] == d.table;
      assert e.parents[..|d.parents|] == d.parents;
      forall o: byte | DEVICES <= o < HANDLES ensures Tidy(e.objects[o]) && Counted(e, o) {
        assert Tidy(d.objects[o]) && Counted(d, o);
        NoOverflow(d, o);
        AcquiredAdds(d.objects, d.table, HANDLES, o);
      }
      forall o | 0 <= o < DEVICES ensures e.objects[o].refs == 1 { AcquiredSkips(d.objects, d.table, HANDLES, o); }
    }
  }

  /** What an object free for use must not be: named by any process, running or suspended. */
  lemma SlotIsUnnamed(d: Files)
    requires Inv(d) && Slot(d).Some?
    ensures var (h, o) := Slot(d).value;
      && DEVICES <= h < HANDLES && d.table[h] == NO_FILE
      && DEVICES <= o < HANDLES && !d.objects[o].held
      && (forall i :: 0 <= i < HANDLES ==> d.table[i] != o)
      && (forall k, i :: 0 <= k < |d.parents| && 0 <= i < HANDLES ==> d.parents[k][i] != o)
  {
    var (h, o) := Slot(d).value;
    assert Tidy(d.objects[o]) && Counted(d, o);
    CountNone(d.table, o);
    forall k, i | 0 <= k < |d.parents| && 0 <= i < HANDLES ensures d.parents[k][i] != o {
      TotalNone(d.parents, o, k);
      CountNone(d.parents[k], o);
    }
  }

  lemma PutObjectKeeps(d: Files, o: byte, f: Object)
    requires Inv(d) && DEVICES <= o < HANDLES && f.refs == d.objects[o].refs && Tidy(f)
    ensures Inv(d.(objects := d.objects[o := f]))
  {
    var e := d.(objects := d.objects[o := f]);
    forall p: byte | DEVICES <= p < HANDLES ensures Tidy(e.objects[p]) && Counted(e, p) {
      assert Tidy(d.objects[p]) && Counted(d, p);
    }
  }

  lemma NameKeeps(d: Files, f: Object)
    requires Inv(d) && Slot(d).Some? && f.refs == 1 && Tidy(f)
    ensures Inv(Name(d, Slot(d).value.0, Slot(d).value.1, f))
  {
    var (h, o) := Slot(d).value;
    var e := Name(d, h, o, f);
    forall p: byte | DEVICES <= p < HANDLES ensures Tidy(e.objects[p]) && Counted(e, p) {
      assert Tidy(d.objects[p]) && Counted(d, p);
      CountPut(d.table, h, o, p);
    }
  }

  lemma OpeningKeeps(d: Files, c: Call)
    requires Inv(d) && (c.Create? || c.Open?)
    ensures Inv(Step(d, c).0)
  {
    if Slot(d).Some? {
      var (h, o) := Slot(d).value;
      SlotIsUnnamed(d);
      assert Tidy(d.objects[o]);
      var f := d.objects[o].(name := c.name);
      PutObjectKeeps(d, o, f);
      NameKeeps(d, Object(1, c.name, true, true, true));
      NameKeeps(d, f.(refs := 1, modified := false, buffered := false));
    }
  }

  lemma WriteKeeps(d: Files, h: nat, memory: bool, fits: bool)
    requires Inv(d)
    ensures Inv(DoWrite(d, h, memory, fits).0)
  {
    if IsOpen(d, h) && h > 2 {
      var o := d.table[h];
      assert Tidy(d.objects[o]) && Counted(d, o);
      CountNone(d.table, o);
      PutObjectKeeps(d, o, DoWrite(d, h, memory, fits).0.objects[o]);
    }
  }

  lemma StepKeeps(d: Files, c: Call)
    requires Inv(d)
    ensures Inv(Step(d, c).0)
  {
    match c
    case Create(name, writable, memory) => OpeningKeeps(d, c);
    case Open(name, found) => OpeningKeeps(d, c);
    case Close(h) => CloseKeeps(d, h);
    case Write(h, memory, fits) => WriteKeeps(d, h, memory, fits);
    case Exec(loaded) => ExecKeeps(d, loaded);
    case Terminate => TerminateKeeps(d);
  }

  lemma ResetCounted()
    ensures Inv(Reset())
  {
    var d := Reset();
    forall o: byte | DEVICES <= o < HANDLES ensures Tidy(d.objects[o]) && Counted(d, o) { CountNone(d.table, o); }
  }

  lemma {:induction false} RunKeeps(calls: seq<Call>)
    ensures Inv(Run(Reset(), calls))
  {
    ResetCounted();
    if calls != [] {
      RunKeeps(calls[..|calls| - 1]);
      StepKeeps(Run(Reset(), calls[..|calls| - 1]), calls[|calls| - 1]);
    }
  }

  // ---- what a child can do to its parents' files ----

  /** Still the same open file: its name, and its buffer if it had one. */
  predicate StillOpen(f: Object, g: Object) { g.name == f.name && (f.held ==> g.held) }

  lemma CloseKeepsOpen(d: Files, h: nat, o: byte)
    requires Inv(d) && DEVICES <= o < HANDLES
    ensures var f, g := d.objects[o], CloseHandle(d, h).objects[o];
      g.refs <= f.refs && (g.refs > 0 ==> StillOpen(f, g))
  {
    if IsOpen(d, h) {
      CountNone(d.table, d.table[h]);
      assert Tidy(d.objects[d.table[h]]) && Counted(d, d.table[h]);
    }
  }

  lemma {:induction false} CloseBelowKeepsOpen(d: Files, n: nat, o: byte)
    requires Inv(d) && DEVICES <= o < HANDLES
    ensures var f, g := d.objects[o], CloseBelow(d, n).objects[o];
      g.refs <= f.refs && (g.refs > 0 ==> StillOpen(f, g))
  {
    if n > DEVICES {
      CloseBelowKeeps(d, n - 1);
      CloseBelowKeepsOpen(d, n - 1, o);
      CloseKeepsOpen(CloseBelow(d, n - 1), n - 1, o);
    }
  }

  /**
   * A buffer is freed, or an object handed to another file, only when the last
   * reference goes: while some process names the object it stays as it was.
   */
  lemma StepKeepsOpen(d: Files, c: Call, o: byte)
    requires Inv(d) && DEVICES <= o < HANDLES
    requires d.objects[o].refs > 0 && Step(d, c).0.objects[o].refs > 0
    ensures StillOpen(d.objects[o], Step(d, c).0.objects[o])
  {
    match c
    case Create(name, writable, memory) => { }
    case Open(name, found) => { }
    case Close(h) => CloseKeepsOpen(d, h, o);
    case Write(h, memory, fits) => { }
    case Exec(loaded) =>
      if |d.parents| < NESTING && loaded {
        assert Counted(d, o);
        NoOverflow(d, o);
        AcquiredAdds(d.objects, d.table, HANDLES, o);
      }
    case Terminate => CloseBelowKeepsOpen(d, HANDLES, o);
  }

  /** The suspended programs' tables do not change while they stay suspended. */
  lemma StepKeepsParents(d: Files, c: Call, depth: nat)
    requires Shape(d) && depth <= |d.parents| && depth <= |Step(d, c).0.parents|
    ensures Step(d, c).0.parents[..depth] == d.parents[..depth]
  {
  }

  ghost predicate StaysAbove(d: Files, calls: seq<Call>, depth: nat)
    requires Shape(d)
  {
    forall k :: 0 <= k <= |calls| ==> depth <= |Run(d, calls[..k]).parents|
  }

  lemma StaysAboveInit(d: Files, calls: seq<Call>, depth: nat)
    requires Shape(d) && StaysAbove(d, calls, depth) && calls != []
    ensures StaysAbove(d, calls[..|calls| - 1], depth) && depth <= |Run(d, calls).parents|
  {
    var init := calls[..|calls| - 1];
    forall k | 0 <= k <= |init| ensures depth <= |Run(d, init[..k]).parents| { assert init[..k] == calls[..k]; }
    assert calls[..|calls|] == calls;
  }

  lemma {:induction false} RunKeepsParents(d: Files, calls: seq<Call>, depth: nat)
    requires Inv(d) && StaysAbove(d, calls, depth)
    ensures var r := Run(d, calls);
      Inv(r) && depth <= |d.parents| && depth <= |r.parents| && r.parents[..depth] == d.parents[..depth]
  {
    if calls == [] {
      assert calls[..0] == [] && depth <= |Run(d, calls[..0]).parents|;
    } else {
      var init := calls[..|calls| - 1];
      StaysAboveInit(d, calls, depth);
      RunKeepsParents(d, init, depth);
      StepKeeps(Run(d, init), calls[|calls| - 1]);
      StepKeepsParents(Run(d, init), calls[|calls| - 1], depth);
    }
  }

  lemma {:induction false} TotalPrefix(parents: seq<seq<byte>>, n: nat, o: byte)
    requires n <= |parents|
    ensures Total(parents[..n], o) <= Total(parents, o)
  {
    if n < |parents| {
      TotalPrefix(parents[..|parents| - 1], n, o);
      assert parents[..|parents| - 1][..n] == parents[..n];
    } else {
      assert parents[..n] == parents;
    }
  }

  lemma {:induction false} RunKeepsOpen(d: Files, calls: seq<Call>, depth: nat, o: byte)
    requires Inv(d) && StaysAbove(d, calls, depth) && depth <= |d.parents| && DEVICES <= o < HANDLES
    requires Total(d.parents[..depth], o) > 0
    ensures var r := Run(d, calls);
      Inv(r) && r.objects[o].refs > 0 && StillOpen(d.objects[o], r.objects[o])
  {
    RunKeepsParents(d, calls, depth);
    var r := Run(d, calls);
    TotalPrefix(r.parents, depth, o);
    assert Counted(r, o);
    if calls != [] {
      var init := calls[..|calls| - 1];
      StaysAboveInit(d, calls, depth);
      RunKeepsOpen(d, init, depth, o);
      StepKeepsOpen(Run(d, init), calls[|calls| - 1], o);
    }
  }

  /**
   * Whatever a child and its own children do before it ends, its parent comes
   * back to the same handle table, the same reference counts, and the same
   * open files behind them; nothing the child opened is left.
   */
  lemma ParentGetsItsFilesBack(d: Files, calls: seq<Call>)
    requires Inv(d) && |d.parents| < NESTING
    requires var child := DoExec(d, true).0;
      StaysAbove(child, calls, |d.parents| + 1) && |Run(child, calls).parents| == |d.parents| + 1
    ensures var r := DoTerminate(Run(DoExec(d, true).0, calls)).0;
      && Inv(r) && r.table == d.table && r.parents == d.parents
      && (forall o: byte :: DEVICES <= o < HANDLES ==> r.objects[o].refs == d.objects[o].refs)
      && (forall o: byte :: DEVICES <= o < HANDLES && d.objects[o].refs > 0 ==> StillOpen(d.objects[o], r.objects[o]))
      && (forall o: byte :: DEVICES <= o < HANDLES && d.objects[o].refs == 0 ==> !r.objects[o].held)
  {
    var child, depth := DoExec(d, true).0, |d.parents| + 1;
    ExecKeeps(d, true);
    RunKeepsParents(child, calls, depth);
    var last := Run(child, calls);
    assert last.parents == last.parents[..depth] == child.parents[..depth] == d.parents + [d.table];
    TerminateKeeps(last);
    var r := DoTerminate(last).0;
    forall o: byte | DEVICES <= o < HANDLES
      ensures r.objects[o].refs == d.objects[o].refs && Tidy(r.objects[o])
      ensures d.objects[o].refs > 0 ==> StillOpen(d.objects[o], r.objects[o])
    {
      assert Counted(r, o) && Counted(d, o) && Tidy(r.objects[o]);
      if d.objects[o].refs > 0 { NestedKeepsOpen(d, child, calls, o); }
    }
  }

  lemma ExecHandsOver(d: Files, o: byte)
    requires Inv(d) && |d.parents| < NESTING && DEVICES <= o < HANDLES
    ensures var child := DoExec(d, true).0;
      Inv(child) && Total(child.parents, o) == d.objects[o].refs && StillOpen(d.objects[o], child.objects[o])
  {
    ExecKeeps(d, true);
    assert Counted(d, o);
    NoOverflow(d, o);
    AcquiredAdds(d.objects, d.table, HANDLES, o);
    assert (d.parents + [d.table])[..|d.parents|] == d.parents;
  }

  lemma NestedKeepsOpen(d: Files, child: Files, calls: seq<Call>, o: byte)
    requires Inv(d) && |d.parents| < NESTING && DEVICES <= o < HANDLES && d.objects[o].refs > 0
    requires child == DoExec(d, true).0 && StaysAbove(child, calls, |child.parents|)
    requires DoTerminate(Run(child, calls)).0.objects[o].refs > 0
    ensures StillOpen(d.objects[o], DoTerminate(Run(child, calls)).0.objects[o])
  {
    ExecHandsOver(d, o);
    assert child.parents[..|child.parents|] == child.parents;
    RunKeepsOpen(child, calls, |child.parents|, o);
    TerminateKeepsOpen(d.objects[o], Run(child, calls), o);
  }

  lemma TerminateKeepsOpen(was: Object, d: Files, o: byte)
    requires Inv(d) && DEVICES <= o < HANDLES && StillOpen(was, d.objects[o])
    requires d.objects[o].refs > 0 && DoTerminate(d).0.objects[o].refs > 0
    ensures StillOpen(was, DoTerminate(d).0.objects[o])
  {
    assert Step(d, Terminate) == DoTerminate(d);
    StepKeepsOpen(d, Terminate, o);
  }
}
