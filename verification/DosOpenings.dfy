/** What opening and closing a file by its handle gives and takes back (c/them/int21.c). */
module DosOpenings {
  import opened Bytes
  import opened DosHandles

  ghost predicate HandleLeft(d: Files)
    requires Shape(d)
  {
    exists h :: DEVICES <= h < HANDLES && d.table[h] == NO_FILE
  }

  ghost predicate ObjectLeft(d: Files)
    requires Shape(d)
  {
    exists o :: DEVICES <= o < HANDLES && d.objects[o].refs == 0
  }

  /** The file can be had: found, or to be written with memory for its buffer. */
  predicate Available(c: Call) { (c.Open? && c.found) || (c.Create? && c.writable && c.memory) }

  /** The same files are open under the same handles, however an unused object is named. */
  ghost predicate SameFiles(d: Files, e: Files)
    requires Shape(d) && Shape(e)
  {
    && e.table == d.table && e.parents == d.parents
    && forall o :: 0 <= o < HANDLES ==> e.objects[o].refs == d.objects[o].refs && (d.objects[o].refs > 0 ==> e.objects[o] == d.objects[o])
  }

  /** Handle h, the lowest that named nothing, names a file of its own with this name; all else is as it was. */
  ghost predicate Gave(d: Files, e: Files, h: nat, c: Call)
    requires Shape(d) && Shape(e)
  {
    && !IsOpen(d, h) && IsOpen(e, h) && (forall k :: DEVICES <= k < h ==> IsOpen(d, k))
    && var o := e.table[h];
    && (c.Create? || c.Open?) && e.objects[o].name == c.name && e.objects[o].refs == 1 && d.objects[o].refs == 0
    && (e.objects[o].modified <==> c.Create?) && (e.objects[o].buffered <==> c.Create?)
    && e.parents == d.parents
    && (forall k :: 0 <= k < HANDLES && k != h ==> e.table[k] == d.table[k] && e.table[k] != o)
    && (forall p :: 0 <= p < HANDLES && p != o ==> e.objects[p] == d.objects[p])
  }

  lemma SlotIff(d: Files)
    requires Shape(d)
    ensures Slot(d).Some? <==> HandleLeft(d) && ObjectLeft(d)
  {
    var h, o := FreeHandle(d.table, DEVICES), FreeObject(d.objects, DEVICES);
  }

  /** A file is opened exactly when a handle and an object are left and it can be had; what is given then, and
      which error is reported otherwise, with nothing changed. */
  lemma OpenGives(d: Files, c: Call)
    requires Inv(d) && (c.Open? || c.Create?)
    ensures var (e, a) := Step(d, c);
      if HandleLeft(d) && ObjectLeft(d) && Available(c) then a.Opened? && Gave(d, e, a.h, c)
      else
        && SameFiles(d, e)
        && a == Failed(if !HandleLeft(d) || !ObjectLeft(d) then 4 else if c.Open? then 2 else if !c.writable then 5 else 4)
  {
    SlotIff(d);
    if Slot(d).Some? { SlotIsUnnamed(d); }
  }

  /** Closing what was just opened leaves the same files open under the same handles; it cannot be closed twice. */
  lemma CloseUndoesOpen(d: Files, c: Call)
    requires Inv(d) && (c.Open? || c.Create?) && Step(d, c).1.Opened?
    ensures var (e, a) := Step(d, c);
      var (f, done) := Step(e, Close(a.h));
      done == Done && SameFiles(d, f) && Step(f, Close(a.h)).1 == Failed(6)
  {
    OpenGives(d, c);
    var (e, a) := Step(d, c);
    var f := Step(e, Close(a.h)).0;
    assert f.table == d.table;
  }

  /** Closing one of several handles of a file leaves it open for the others, saved and with its buffer. */
  lemma SharedStaysOpen(d: Files, h: nat)
    requires Inv(d) && IsOpen(d, h) && d.objects[d.table[h]].refs > 1
    ensures var e, o := Step(d, Close(h)).0, d.table[h];
      && !IsOpen(e, h) && e.objects[o] == d.objects[o].(refs := d.objects[o].refs - 1, modified := false)
      && forall p :: 0 <= p < HANDLES && p != o ==> e.objects[p] == d.objects[p]
  {
    assert Tidy(d.objects[d.table[h]]);
  }
}
