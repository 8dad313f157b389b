/** The session table the server mutates in place, proved against the step function. */
module RntpSessionTable {
  import opened Bytes
  import opened RntpProtocol
  import opened RntpServer
  import opened RntpSessions

  const DIRTY_BYTES := 16384

  // ---------- The dirty bitmap ----------

  function Bit(i: nat): bv8
    requires i < 8
  {
    1 << i
  }

  predicate IsDirty(bitmap: seq<bv8>, lba: nat)
    requires lba < |bitmap| * 8
  {
    bitmap[lba / 8] & Bit(lba % 8) != 0
  }

  function DirtySet(bitmap: seq<bv8>): set<nat> {
    set lba: nat | lba < |bitmap| * 8 && IsDirty(bitmap, lba)
  }

  lemma BitCases(i: nat)
    requires i < 8
    ensures Bit(i) == [1, 2, 4, 8, 16, 32, 64, 128][i]
  {
  }

  lemma SetBit(b: bv8, i: nat, j: nat)
    requires i < 8 && j < 8
    ensures (b | Bit(i)) & Bit(j) != 0 <==> i == j || b & Bit(j) != 0
  {
    BitCases(i);
    BitCases(j);
    SetBitValues(b, Bit(i), Bit(j));
  }

  lemma SetBitValues(b: bv8, x: bv8, y: bv8)
    requires x in {1, 2, 4, 8, 16, 32, 64, 128} && y in {1, 2, 4, 8, 16, 32, 64, 128}
    ensures (b | x) & y != 0 <==> x == y || b & y != 0
  {
  }

  /** Setting one bit adds one sector to the set. */
  lemma MarkDirty(bitmap: seq<bv8>, lba: nat)
    requires lba < |bitmap| * 8
    ensures DirtySet(bitmap[lba / 8 := bitmap[lba / 8] | Bit(lba % 8)]) == DirtySet(bitmap) + {lba}
  {
    var after := bitmap[lba / 8 := bitmap[lba / 8] | Bit(lba % 8)];
    forall x: nat | x < |bitmap| * 8 ensures IsDirty(after, x) <==> x == lba || IsDirty(bitmap, x) {
      if x / 8 == lba / 8 {
        SetBit(bitmap[lba / 8], lba % 8, x % 8);
      }
    }
  }

  lemma ClearedBitmap(before: seq<bv8>, after: seq<bv8>, n: nat)
    requires n <= |before| == |after|
    requires forall lba <- DirtySet(before) :: lba < n * 8
    requires forall i :: 0 <= i < |after| ==> after[i] == if i < n then 0 else before[i]
    ensures DirtySet(after) == {}
  {
    forall lba: nat | lba < |after| * 8 ensures !IsDirty(after, lba) {
      if lba / 8 >= n {
        assert lba !in DirtySet(before);
        assert !IsDirty(before, lba);
      }
    }
  }

  function Below(lbas: set<nat>, bound: nat): set<nat> { set x <- lbas | x < bound }

  lemma OverlayStep(image: Image, undo: Image, dirty: set<nat>, lba: nat)
    requires |undo| == |image| && lba < |image|
    ensures Overlay(image, undo, Below(dirty, lba + 1)) ==
      if lba in dirty then Overlay(image, undo, Below(dirty, lba))[lba := undo[lba]]
      else Overlay(image, undo, Below(dirty, lba))
  {
  }

  /** t is s with the first i of these sectors remembered. */
  ghost predicate Remembered(s: State, t: State, lbas: seq<nat>, i: nat) {
    && s.Shape() && i <= |lbas| && AllBelow(lbas[..i], |s.image|)
    && t == RememberAll(s, lbas[..i])
  }

  lemma NoneRemembered(s: State, lbas: seq<nat>)
    requires s.Shape()
    ensures Remembered(s, s, lbas, 0)
  {
  }

  lemma RememberedOneMore(s: State, t: State, lbas: seq<nat>, i: nat)
    requires Remembered(s, t, lbas, i) && i < |lbas| && lbas[i] < |s.image|
    ensures lbas[i] < |t.image| && Remembered(s, Remember(t, lbas[i]), lbas, i + 1)
  {
    assert lbas[..i + 1] == lbas[..i] + [lbas[i]];
    RememberSnoc(s, lbas[..i], lbas[i]);
  }

  lemma RememberSnoc(s: State, lbas: seq<nat>, last: nat)
    requires s.Shape() && AllBelow(lbas, |s.image|) && last < |s.image|
    ensures AllBelow(lbas + [last], |s.image|) && RememberAll(s, lbas + [last]) == Remember(RememberAll(s, lbas), last)
  {
    var all := lbas + [last];
    assert all[..|lbas|] == lbas && all[|lbas|] == last;
  }

  lemma BelowAll(dirty: set<nat>, n: nat)
    requires forall lba <- dirty :: lba < n
    ensures Below(dirty, n) == dirty
  {
  }

  lemma WholeSectors(sectors: nat)
    ensures sectors * 512 % 512 == 0 && sectors * 512 / 512 == sectors
  {
  }

  lemma BlockAt(bytes: seq<byte>, lba: nat)
    requires |bytes| % 512 == 0 && lba < |bytes| / 512
    ensures lba * 512 + 512 <= |bytes| && Blocks(bytes)[lba] == bytes[lba * 512..lba * 512 + 512]
  {
  }

  // ---------- The table ----------

  class Table {
    var image: array<byte>
    var undo: array<byte>
    var sectors: nat
    var generation: nat
    var revision: nat
    var committedFree: nat
    var legacy: int
    var locked: int
    const peers: array<nat>
    const dirty: array<bv8>
    var modified: bool

    ghost predicate Apart(image: array<byte>, undo: array<byte>) {
      var a: object, b: object, c: object, d: object := image, undo, peers, dirty;
      a != b && a != c && a != d && b != c && b != d && c != d
    }

    /** Distinct buffers of the right sizes, and no dirty bit past the last sector. */
    ghost predicate Valid()
      reads this, dirty
    {
      && Apart(image, undo)
      && 0 < sectors <= MAX_SECTORS
      && image.Length == undo.Length == sectors * 512
      && peers.Length == PEERS && dirty.Length == DIRTY_BYTES
      && forall lba <- DirtySet(dirty[..]) :: lba < sectors
    }

    ghost function Abstract(): (s: State)
      requires Valid()
      reads this, image, undo, peers, dirty
      ensures s.Shape()
    {
      State(Blocks(image[..]), Blocks(undo[..]), DirtySet(dirty[..]), modified, locked, legacy, peers[..],
            generation, revision, committedFree)
    }

    constructor ()
      ensures peers.Length == PEERS && dirty.Length == DIRTY_BYTES && fresh(peers) && fresh(dirty)
    {
      image, undo := new byte[0], new byte[0];
      sectors, generation, revision, committedFree := 0, 0, 0, 0;
      legacy, locked, modified := -1, -1, false;
      peers, dirty := new nat[PEERS], new bv8[DIRTY_BYTES];
    }

    method Initialise(image: array<byte>, undo: array<byte>, sectors: nat, generation: nat) returns (ok: bool)
      requires peers.Length == PEERS && dirty.Length == DIRTY_BYTES
      requires Apart(image, undo) && image.Length == undo.Length == sectors * 512
      modifies this, peers, dirty
      ensures ok <==> Init(Blocks(image[..]), Blocks(undo[..]), generation).Some?
      ensures ok ==> Valid() && this.image == image && this.undo == undo
                     && Some(Abstract()) == Init(Blocks(image[..]), Blocks(undo[..]), generation)
    {
      if generation == 0 || sectors == 0 || sectors > DIRTY_BYTES * 8 {
        return false;
      }
      this.image, this.undo, this.sectors, this.generation := image, undo, sectors, generation;
      revision, legacy, locked, modified := 1, -1, -1, false;
      ClearPeers();
      ClearBits(DIRTY_BYTES);
      var free := ScanFreeSpace(image, sectors);
      if free.None? {
        return false;
      }
      committedFree := free.value;
      return true;
    }

    method ClearPeers()
      requires peers.Length == PEERS
      modifies peers
      ensures peers[..] == seq(PEERS, _ => 0)
    {
      for i := 0 to PEERS
        invariant forall j :: 0 <= j < i ==> peers[j] == 0
      {
        peers[i] := 0;
      }
    }

    /** Clears n bytes of the bitmap, which is all of it when no sector beyond them is dirty. */
    method ClearBits(n: nat)
      requires n <= dirty.Length && forall lba <- DirtySet(dirty[..]) :: lba < n * 8
      modifies dirty
      ensures DirtySet(dirty[..]) == {}
    {
      ghost var before := dirty[..];
      for i := 0 to n
        invariant forall j :: 0 <= j < i ==> dirty[j] == 0
        invariant forall j :: i <= j < dirty.Length ==> dirty[j] == before[j]
      {
        dirty[i] := 0;
      }
      ClearedBitmap(before, dirty[..], n);
    }

    /** Copies every dirty sector back from the undo buffer. */
    method RestoreDirty()
      requires Valid()
      modifies image
      ensures Blocks(image[..]) == Overlay(old(Blocks(image[..])), Blocks(undo[..]), DirtySet(dirty[..]))
    {
      ghost var before, saved, marked := Blocks(image[..]), Blocks(undo[..]), DirtySet(dirty[..]);
      for lba := 0 to sectors
        invariant undo[..] == old(undo[..]) && dirty[..] == old(dirty[..])
        invariant Blocks(image[..]) == Overlay(before, saved, Below(marked, lba))
      {
        OverlayStep(before, saved, marked, lba);
        var changed := TestBit(lba);
        if changed {
          RestoreSector(lba);
        }
      }
      BelowAll(marked, sectors);
    }

    method RestoreSector(lba: nat)
      requires Valid() && lba < sectors
      modifies image
      ensures undo[..] == old(undo[..]) && dirty[..] == old(dirty[..])
      ensures Blocks(image[..]) == old(Blocks(image[..]))[lba := Blocks(undo[..])[lba]]
    {
      WholeSectors(sectors);
      BlockAt(undo[..], lba);
      StoreSector(image, lba, undo, lba * 512);
    }

    method Finish(commit: bool)
      requires Valid()
      modifies this, image, dirty
      ensures Valid() && image == old(image) && undo == old(undo) && sectors == old(sectors)
      ensures Abstract() == RntpSessions.Finish(old(Abstract()), commit)
    {
      if modified {
        if !commit {
          RestoreDirty();
        } else {
          revision := if revision + 1 == TWO_64 then 1 else revision + 1;
          var free := ScanFreeSpace(image, sectors);
          committedFree := if free.Some? then free.value else committedFree;
        }
      }
      ClearBits((sectors + 7) / 8);
      modified, locked := false, -1;
    }

    method ReleasePeer(peer: nat)
      requires Valid()
      modifies this, image, dirty, peers
      ensures Valid() && image == old(image) && undo == old(undo) && sectors == old(sectors)
      ensures Abstract() == Drop(old(Abstract()), peer)
    {
      if peer >= PEERS {
        return;
      }
      if locked == peer {
        Finish(false);
      }
      if legacy == peer {
        legacy := -1;
      }
      peers[peer] := 0;
    }

    method MarkBit(lba: nat)
      requires lba < dirty.Length * 8
      modifies dirty
      ensures DirtySet(dirty[..]) == old(DirtySet(dirty[..])) + {lba}
    {
      ghost var bitmap := dirty[..];
      MarkDirty(bitmap, lba);
      dirty[lba / 8] := dirty[lba / 8] | Bit(lba % 8);
      assert dirty[..] == bitmap[lba / 8 := bitmap[lba / 8] | Bit(lba % 8)];
    }

    method TestBit(lba: nat) returns (marked: bool)
      requires lba < dirty.Length * 8
      ensures marked <==> lba in DirtySet(dirty[..])
    {
      marked := dirty[lba / 8] & Bit(lba % 8) != 0;
      assert marked <==> IsDirty(dirty[..], lba);
    }

    /** Keeps a sector's first version of the transaction. */
    method RememberSector(lba: nat)
      requires Valid() && lba < sectors
      modifies this`modified, undo, dirty
      ensures Valid()
      ensures Abstract() == Remember(old(Abstract()), lba)
    {
      var known := TestBit(lba);
      if !known {
        assert image[lba * 512..lba * 512 + 512] == Blocks(image[..])[lba];
        StoreSector(undo, lba, image, lba * 512);
        MarkBit(lba);
      }
      modified := true;
    }

    // ---------- Serving a request ----------

    /** The caller's buffers are not the table's own. */
    ghost predicate Buffers(request: array<byte>, reply: array<byte>)
      reads this
    {
      && reply.Length == FRAME
      && Apart(request, reply)
      && image != request && undo != request && image != reply && undo != reply
    }

    method SayHello(peer: nat, h: Header, reply: array<byte>) returns (status: nat, lba: nat, length: nat)
      requires Valid() && Apart(image, reply) && undo != reply && reply.Length == FRAME && peer < PEERS
      requires h.op == HELLO || h.op == HELLO_SHARED
      modifies this`legacy, peers, reply
      ensures Valid() && HEADER + length <= reply.Length
      ensures Hello(old(Abstract()), peer, h) == (Abstract(), Answer(status, lba, reply[HEADER..HEADER + length]))
    {
      status, lba, length := OK, h.lba, 0;
      assert reply[HEADER..HEADER + 0] == [];
      if h.length != 0 || h.lba != 0 || h.generation != 0 || peers[peer] != 0 {
        status := INVALID;
        return;
      }
      var shared := h.op == HELLO_SHARED;
      var busy := legacy >= 0;
      if !shared {
        for i := 0 to PEERS
          invariant busy <==> legacy >= 0 || exists j :: 0 <= j < i && peers[j] != 0
        {
          busy := busy || peers[i] != 0;
        }
      }
      if busy {
        status := BUSY;
        return;
      }
      peers[peer] := if shared then 2 else 1;
      if !shared {
        legacy := peer;
      }
      lba, length := sectors, 512;
      Copy(reply, HEADER, image, 0, 512);
      assert reply[HEADER..HEADER + 512] == Blocks(image[..])[0];
    }

    method LockUnlock(peer: nat, h: Header, reply: array<byte>) returns (status: nat, lba: nat, length: nat)
      requires Valid() && Apart(image, reply) && undo != reply && reply.Length == FRAME && peer < PEERS
      requires h.op == LOCK || h.op == UNLOCK || h.op == ABORT
      modifies this, image, dirty, reply
      ensures Valid() && image == old(image) && undo == old(undo) && sectors == old(sectors)
      ensures HEADER + length <= reply.Length
      ensures LockOp(old(Abstract()), peer, h) == (Abstract(), Answer(status, lba, reply[HEADER..HEADER + length]))
    {
      status, lba, length := OK, h.lba, 0;
      assert reply[HEADER..HEADER + 0] == [];
      if peers[peer] != 2 || h.length != 0 || h.lba != 0 {
        status := INVALID;
        return;
      }
      if h.op == LOCK {
        if locked >= 0 {
          status := BUSY;
          return;
        }
        locked := peer;
      } else if locked != peer {
        status := INVALID;
        return;
      } else {
        Finish(h.op == UNLOCK);
      }
      length := 8;
      WriteNumber(reply, HEADER, revision, 8);
      assert reply[HEADER..HEADER + 8] == PutNumber(revision, 8);
    }

    /** The sector named by record i of a shared write. */
    method TargetAt(h: Header, request: array<byte>, i: nat) returns (lba: nat)
      requires Complete(request[..]) && Decode(request[..]) == Some(h)
      requires WriteShape(h, request[..]) && i < |Targets(h, request[..])|
      ensures lba == Targets(h, request[..])[i]
    {
      if h.op == WRITE {
        lba := h.lba;
      } else {
        lba := ReadNumber(request, RecordAt(i), 8);
        assert request[RecordAt(i)..RecordAt(i) + 8] == request[..][RecordAt(i)..RecordAt(i) + 8];
      }
    }

    /** Checks the entire frame before any undo record is added. */
    method CheckTargets(h: Header, request: array<byte>) returns (ok: bool, count: nat)
      requires Valid() && Complete(request[..]) && Decode(request[..]) == Some(h) && IsWrite(h.op)
      ensures ok <==> WriteShape(h, request[..]) && Writable(Targets(h, request[..]), sectors)
      ensures ok ==> count == |Targets(h, request[..])|
    {
      count := 1;
      if h.op == WRITE_BATCH {
        count := ReadCount(request, h);
      }
      if if h.op == WRITE then h.length != SECTOR
         else h.lba != 0 || count == 0 || count > MAX_WRITES || HEADER + h.length != RecordAt(count) {
        return false, count;
      }
      var i := 0;
      ok := true;
      while ok && i < count
        invariant i <= count
        invariant ok ==> forall j :: 0 <= j < i ==> 0 < Targets(h, request[..])[j] < sectors
        invariant !ok ==> !Writable(Targets(h, request[..]), sectors)
      {
        var lba := TargetAt(h, request, i);
        ok := 0 < lba < sectors;
        i := i + 1;
      }
    }

    method RememberTargets(h: Header, request: array<byte>, count: nat)
      requires Valid() && Apart(image, request) && undo != request
      requires Complete(request[..]) && Decode(request[..]) == Some(h)
      requires WriteShape(h, request[..]) && Writable(Targets(h, request[..]), sectors)
      requires count == |Targets(h, request[..])|
      modifies this`modified, undo, dirty
      ensures Valid() && image[..] == old(image[..])
      ensures Abstract() == RememberAll(old(Abstract()), Targets(h, request[..]))
    {
      ghost var s, lbas := Abstract(), Targets(h, request[..]);
      NoneRemembered(s, lbas);
      for i := 0 to count
        invariant Valid() && image[..] == old(image[..]) && request[..] == old(request[..])
        invariant Remembered(s, Abstract(), lbas, i)
      {
        RememberTarget(h, request, i, s, lbas);
      }
      assert lbas[..count] == lbas;
    }

    /** One turn of the loop: the sector that record i names. */
    method RememberTarget(h: Header, request: array<byte>, i: nat, ghost s: State, ghost lbas: seq<nat>)
      requires Valid() && Apart(image, request) && undo != request
      requires Complete(request[..]) && Decode(request[..]) == Some(h) && WriteShape(h, request[..])
      requires lbas == Targets(h, request[..]) && i < |lbas| && lbas[i] < sectors
      requires Remembered(s, Abstract(), lbas, i)
      modifies this`modified, undo, dirty
      ensures Valid() && image[..] == old(image[..]) && request[..] == old(request[..])
      ensures Remembered(s, Abstract(), lbas, i + 1)
    {
      var lba := TargetAt(h, request, i);
      RememberedOneMore(s, Abstract(), lbas, i);
      RememberSector(lba);
    }

    /** A write by the lock owner: checked whole, remembered, then applied. */
    method WriteShared(h: Header, request: array<byte>, reply: array<byte>) returns (n: nat)
      requires Valid() && Buffers(request, reply)
      requires Complete(request[..]) && Decode(request[..]) == Some(h) && IsWrite(h.op)
      modifies this`modified, image, undo, dirty, reply
      ensures Valid() && n <= reply.Length
      ensures var (t, answer) := SharedWrite(old(Abstract()), h, old(request[..]));
        Abstract() == t && reply[..n] == Reply(h, generation, answer)
    {
      var ok, count := CheckTargets(h, request);
      if !ok {
        n := SendReply(reply, h, INVALID, h.lba, generation, 0);
        assert reply[HEADER..HEADER + 0] == [];
        return;
      }
      RememberTargets(h, request, count);
      n := HandleRequest(image, sectors, generation, true, request, reply);
    }

    /** The live image becomes the committed one without a transaction. */
    method PublishDirect()
      requires Valid()
      modifies this`revision, this`committedFree
      ensures Valid()
      ensures Abstract() == old(Abstract()).(revision := BumpLegacy(old(revision)),
                                             committedFree := FreeSpaceOr(Blocks(image[..]), old(committedFree)))
    {
      revision := if revision + 1 == TWO_64 then 0 else revision + 1;
      var free := ScanFreeSpace(image, sectors);
      committedFree := if free.Some? then free.value else committedFree;
    }

    /** Everything the protocol layer serves by itself; an exclusive peer's write takes effect at once. */
    method ServeDirect(h: Header, request: array<byte>, reply: array<byte>) returns (n: nat)
      requires Valid() && Buffers(request, reply)
      requires Complete(request[..]) && Decode(request[..]) == Some(h) && generation < TWO_64
      modifies this`revision, this`committedFree, image, reply
      ensures Valid() && n <= reply.Length
      ensures var (t, answer) := DirectBlock(old(Abstract()), h, old(request[..]));
        Abstract() == t && reply[..n] == Reply(h, generation, answer)
    {
      ghost var before, frame := Blocks(image[..]), request[..];
      n := HandleRequest(image, sectors, generation, true, request, reply);
      if IsWrite(h.op) {
        WriteStatus(before, generation, h, frame, reply[..n], reply[n..]);
        assert reply[..n] + reply[n..] == reply[..];
        var result := GetHeader(reply);
        if result.Some? && result.value.status == 0 {
          PublishDirect();
        }
      }
    }

    method PutFigure(reply: array<byte>, n: nat)
      requires reply.Length >= HEADER + 8
      modifies reply
      ensures reply[HEADER..HEADER + 8] == PutNumber(n, 8)
    {
      WriteNumber(reply, HEADER, n, 8);
    }

    method DispatchRequest(peer: nat, h: Header, request: array<byte>, reply: array<byte>) returns (n: nat)
      requires Valid() && Buffers(request, reply) && generation < TWO_64 && peer < PEERS
      requires Complete(request[..]) && Decode(request[..]) == Some(h)
      modifies this, image, undo, dirty, reply
      ensures Valid() && image == old(image) && undo == old(undo) && n <= reply.Length && generation == old(generation)
      ensures var (t, answer) := Dispatch(old(Abstract()), peer, h, old(request[..]));
        Abstract() == t && reply[..n] == Reply(h, generation, answer)
    {
      if h.op == CAPS && h.length == 0 && h.lba == 0 {
        n := SendFigure(h, reply, CAP_ALL);
      } else if h.op == LOCK || h.op == UNLOCK || h.op == ABORT {
        n := AnswerLock(peer, h, reply);
      } else if h.op == STAT && h.length == 0 && h.lba == 0 {
        n := SendFigure(h, reply, committedFree);
      } else if IsBlock(h.op) && peers[peer] == 2 && locked != peer {
        n := SendRefusal(h, reply, BUSY);
      } else if IsWrite(h.op) && peers[peer] == 2 {
        n := WriteShared(h, request, reply);
      } else {
        n := ServeDirect(h, request, reply);
      }
    }

    method SendFigure(h: Header, reply: array<byte>, figure: nat) returns (n: nat)
      requires reply.Length == FRAME && h.op < 256 && h.lba == 0
      modifies reply
      ensures n <= reply.Length && reply[..n] == Reply(h, generation, Answer(OK, 0, PutNumber(figure, 8)))
    {
      PutFigure(reply, figure);
      n := SendReply(reply, h, OK, 0, generation, 8);
    }

    method SendRefusal(h: Header, reply: array<byte>, status: nat) returns (n: nat)
      requires reply.Length == FRAME && h.op < 256
      modifies reply
      ensures n <= reply.Length && reply[..n] == Reply(h, generation, Refusal(h, status))
    {
      assert reply[HEADER..HEADER + 0] == [];
      n := SendReply(reply, h, status, h.lba, generation, 0);
    }

    method AnswerLock(peer: nat, h: Header, reply: array<byte>) returns (n: nat)
      requires Valid() && Apart(image, reply) && undo != reply && reply.Length == FRAME && peer < PEERS
      requires h.op == LOCK || h.op == UNLOCK || h.op == ABORT
      modifies this, image, dirty, reply
      ensures Valid() && image == old(image) && undo == old(undo) && n <= reply.Length && generation == old(generation)
      ensures var (t, answer) := LockOp(old(Abstract()), peer, h);
        Abstract() == t && reply[..n] == Reply(h, generation, answer)
    {
      var status, lba, length := LockUnlock(peer, h, reply);
      n := SendReply(reply, h, status, lba, generation, length);
    }

    /** One request frame in, one reply frame out; 0 when the header is not RNTP at all. */
    method HandlePeer(peer: nat, request: array<byte>, reply: array<byte>) returns (n: nat)
      requires Valid() && Buffers(request, reply) && Complete(request[..]) && generation < TWO_64
      modifies this, image, undo, dirty, peers, reply
      ensures Valid() && image == old(image) && undo == old(undo) && n <= reply.Length
      ensures (Abstract(), reply[..n]) == Serve(old(Abstract()), peer, old(request[..]))
    {
      var header := GetHeader(request);
      if peer >= PEERS || header.None? {
        return 0;
      }
      var h := header.value;
      var status, lba, length := OK, h.lba, 0;
      assert reply[HEADER..HEADER + 0] == [];
      if h.id == 0 || h.status != 0 || h.op >= RESPONSE {
        status := INVALID;
      } else if h.op == HELLO || h.op == HELLO_SHARED {
        status, lba, length := SayHello(peer, h, reply);
      } else if peers[peer] == 0 {
        status := BUSY;
      } else if h.generation != generation {
        status := STALE;
      } else {
        n := DispatchRequest(peer, h, request, reply);
        return;
      }
      n := SendReply(reply, h, status, lba, generation, length);
    }
  }

  /** Reading the status back from the reply, as the server does, tells whether the write was applied. */
  lemma WriteStatus(image: Image, generation: nat, h: Header, frame: Frame, reply: seq<byte>, rest: seq<byte>)
    requires Decode(frame) == Some(h) && |image| > 0 && IsWrite(h.op) && generation < TWO_64
    requires Handle(image, generation, true, frame).1 == reply
    ensures |reply| == HEADER && Decode(reply + rest).Some?
    ensures Decode(reply + rest).value.status == Perform(image, generation, true, h, frame).1.status
  {
    var a := Perform(image, generation, true, h, frame).1;
    assert a.payload == [] && a.status <= STALE && a.lba < TWO_64;
    var header := Header(Response(h.op), a.status, 0, h.id, a.lba, generation);
    DecodeEncode(header, rest);
    assert reply + rest == Encode(header) + rest;
  }
}
