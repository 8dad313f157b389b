/** The file services as the emulator runs them, over its object and handle tables. */
module DosHandlesState {
  import opened Bytes
  import opened DosHandles

  class FileTables {
    const objects: array<Object>
    const table: array<byte>
    var parents: seq<seq<byte>>

    ghost predicate Valid()
      reads this, objects, table
    {
      objects.Length == HANDLES && table.Length == HANDLES && Shape(Abstract())
    }

    function Abstract(): Files
      reads this, objects, table
    {
      Files(objects[..], table[..], parents)
    }

    constructor ()
      ensures Valid() && fresh(objects) && fresh(table)
      ensures Abstract() == Reset()
    {
      objects := new Object[HANDLES](i => Object(if i < DEVICES then 1 else 0, "", false, false, false));
      table := new byte[HANDLES](_ => NO_FILE);
      parents := [];
      new;
      assert objects[..] == Reset().objects;
      assert table[..] == Reset().table;
    }

    method AllocateHandle() returns (h: nat)
      requires Valid()
      ensures h == FreeHandle(table[..], DEVICES)
    {
      h := DEVICES;
      while h < HANDLES && table[h] != NO_FILE
        invariant h <= HANDLES && FreeHandle(table[..], DEVICES) == FreeHandle(table[..], h)
      {
        h := h + 1;
      }
    }

    method AllocateObject() returns (o: nat)
      requires Valid()
      ensures o == FreeObject(objects[..], DEVICES)
    {
      o := DEVICES;
      while o < HANDLES && objects[o].refs != 0
        invariant o <= HANDLES && FreeObject(objects[..], DEVICES) == FreeObject(objects[..], o)
      {
        o := o + 1;
      }
    }

    method CreateFile(name: string, writable: bool, memory: bool) returns (answer: Answer)
      requires Valid()
      modifies objects, table
      ensures Valid() && (Abstract(), answer) == DoCreate(old(Abstract()), name, writable, memory)
    {
      var h := AllocateHandle();
      var o := AllocateObject();
      if h == HANDLES || o == HANDLES { return Failed(4); }
      ghost var was, names := objects[..], table[..];
      objects[o] := objects[o].(name := name);
      assert objects[..] == was[o := was[o].(name := name)];
      if !writable { return Failed(5); }
      if !objects[o].held {
        if !memory { return Failed(4); }
        objects[o] := objects[o].(held := true);
      }
      objects[o] := objects[o].(refs := 1, modified := true, buffered := true);
      table[h] := o;
      assert objects[..] == was[o := objects[o]] && table[..] == names[h := table[h]];
      answer := Opened(h);
    }

    method OpenFile(name: string, found: bool) returns (answer: Answer)
      requires Valid()
      modifies objects, table
      ensures Valid() && (Abstract(), answer) == DoOpen(old(Abstract()), name, found)
    {
      var h := AllocateHandle();
      var o := AllocateObject();
      if h == HANDLES || o == HANDLES { return Failed(4); }
      ghost var was, names := objects[..], table[..];
      objects[o] := objects[o].(name := name);
      assert objects[..] == was[o := was[o].(name := name)];
      if !found { return Failed(2); }
      objects[o] := objects[o].(refs := 1, modified := false, buffered := false);
      table[h] := o;
      assert objects[..] == was[o := objects[o]] && table[..] == names[h := table[h]];
      answer := Opened(h);
    }

    method CloseOne(h: nat)
      requires Valid()
      modifies objects, table
      ensures Valid() && Abstract() == CloseHandle(old(Abstract()), h)
    {
      if h < DEVICES || h >= HANDLES || table[h] == NO_FILE { return; }
      var o := table[h];
      if objects[o].modified && objects[o].held { objects[o] := objects[o].(modified := false); }
      table[h] := NO_FILE;
      objects[o] := objects[o].(refs := (objects[o].refs - 1) % 256);
      if objects[o].refs != 0 { return; }
      objects[o] := objects[o].(held := false, buffered := false);
    }

    method WriteFile(h: nat, memory: bool, fits: bool) returns (answer: Answer)
      requires Valid()
      modifies objects
      ensures Valid() && (Abstract(), answer) == DoWrite(old(Abstract()), h, memory, fits)
    {
      if h <= 2 { return Done; }
      if h < DEVICES || h >= HANDLES || table[h] == NO_FILE { return Failed(6); }
      var o := table[h];
      ghost var was := objects[..];
      if !objects[o].buffered {
        if !objects[o].held { objects[o] := objects[o].(held := memory); }
        assert objects[..] == was[o := was[o].(held := was[o].held || memory)];
        if !objects[o].held || !fits { return Failed(5); }
        objects[o] := objects[o].(buffered := true);
      }
      objects[o] := objects[o].(modified := true);
      assert objects[..] == was[o := objects[o]];
      answer := Done;
    }

    /** A child that was loaded shares every file its parent has open. */
    method ExecProgram(loaded: bool) returns (answer: Answer)
      requires Valid()
      modifies this, objects
      ensures Valid() && (Abstract(), answer) == DoExec(old(Abstract()), loaded)
    {
      if |parents| >= NESTING || !loaded { return Failed(2); }
      Share();
      parents := parents + [table[..]];
      answer := Done;
    }

    method Share()
      requires Valid()
      modifies objects
      ensures objects[..] == Acquired(old(objects[..]), table[..], HANDLES)
    {
      ghost var before, t := objects[..], table[..];
      for i := 0 to HANDLES
        invariant objects[..] == Acquired(before, t, i) && table[..] == t
      {
        if i >= DEVICES && table[i] != NO_FILE {
          var o := table[i];
          objects[o] := objects[o].(refs := (objects[o].refs + 1) % 256);
        }
      }
    }

    method CloseAll()
      requires Valid()
      modifies objects, table
      ensures Valid() && Abstract() == CloseBelow(old(Abstract()), HANDLES)
    {
      ghost var before := Abstract();
      for h := DEVICES to HANDLES
        invariant Valid() && Abstract() == CloseBelow(before, h)
      {
        CloseOne(h);
      }
    }

    method EndProgram() returns (answer: Answer)
      requires Valid()
      modifies this, objects, table
      ensures Valid() && (Abstract(), answer) == DoTerminate(old(Abstract()))
    {
      answer := Done;
      if parents == [] { return; }
      ghost var before := Abstract();
      CloseAll();
      var files := parents[|parents| - 1];
      for i := 0 to HANDLES
        invariant table[..i] == files[..i]
        modifies table
      {
        table[i] := files[i];
      }
      assert table[..] == table[..HANDLES] && files == files[..HANDLES];
      parents := parents[..|parents| - 1];
      assert objects[..] == CloseBelow(before, HANDLES).objects;
      assert Abstract() == DoTerminate(before).0;
    }
  }
}
