/** The block server working in place on the exported byte image (c/rntp/protocol.c). */
module RntpServer {
  import opened Bytes
  import opened RntpProtocol

  /** The sectors of a byte image. */
  function Blocks(bytes: seq<byte>): (r: Image)
    requires |bytes| % 512 == 0
    ensures |r| == |bytes| / 512
  {
    seq(|bytes| / 512, i requires 0 <= i < |bytes| / 512 => bytes[i * 512..i * 512 + 512])
  }

  lemma BlockWritten(bytes: seq<byte>, lba: nat, data: Sector)
    requires |bytes| % 512 == 0 && lba * 512 < |bytes|
    ensures lba * 512 + 512 <= |bytes|
    ensures var after := bytes[..lba * 512] + data + bytes[lba * 512 + 512..];
      |after| == |bytes| && Blocks(after) == Blocks(bytes)[lba := data]
  {
    var after := bytes[..lba * 512] + data + bytes[lba * 512 + 512..];
    forall i | 0 <= i < |bytes| / 512 ensures Blocks(after)[i] == Blocks(bytes)[lba := data][i] {
      if i != lba {
        assert after[i * 512..i * 512 + 512] == bytes[i * 512..i * 512 + 512];
      }
    }
  }

  lemma {:induction false} BlocksRead(bytes: seq<byte>, lba: nat, count: nat)
    requires |bytes| % 512 == 0 && lba + count <= |bytes| / 512
    ensures bytes[lba * 512..(lba + count) * 512] == Sectors(Blocks(bytes), lba, count)
  {
    if count > 0 {
      BlocksRead(bytes, lba, count - 1);
      var k := lba + count - 1;
      assert bytes[lba * 512..(lba + count) * 512] == bytes[lba * 512..k * 512] + bytes[k * 512..k * 512 + 512];
    }
  }

  method PutHeader(out: array<byte>, h: Header)
    requires out.Length >= HEADER && h.op < 256
    modifies out
    ensures out[..] == Encode(h) + old(out[HEADER..])
  {
    out[0] := 0x52; out[1] := 0x4e; out[2] := 0x54; out[3] := 0x50;
    out[4] := 1; out[5] := h.op;
    ghost var rest := old(out[..]);
    ghost var head := MAGIC + [h.op];
    assert out[..] == head + rest[6..];
    head := PutField(out, 6, h.status, 2, head, rest);
    head := PutField(out, 8, h.length, 4, head, rest);
    head := PutField(out, 12, 0, 4, head, rest);
    head := PutField(out, 16, h.id, 8, head, rest);
    head := PutField(out, 24, h.lba, 8, head, rest);
    head := PutField(out, 32, h.generation, 8, head, rest);
  }

  /** One more field behind those already there, the rest as it was. */
  method PutField(out: array<byte>, at: nat, number: nat, bytes: nat, ghost head: seq<byte>, ghost rest: seq<byte>)
      returns (ghost longer: seq<byte>)
    requires at + bytes <= out.Length == |rest| && |head| == at && out[..] == head + rest[at..]
    modifies out
    ensures longer == head + PutNumber(number, bytes) && out[..] == longer + rest[at + bytes..]
  {
    assert out[..at] == out[..][..at] == head;
    assert out[at + bytes..] == out[..][at + bytes..] == rest[at + bytes..];
    WriteNumber(out, at, number, bytes);
    longer := head + PutNumber(number, bytes);
  }

  method GetHeader(source: array<byte>) returns (r: Option<Header>)
    requires source.Length >= HEADER
    ensures r == Decode(source[..])
  {
    var zero := ReadNumber(source, 12, 4);
    assert source[..5] == source[..][..5];
    if source[0] != 0x52 || source[1] != 0x4e || source[2] != 0x54 || source[3] != 0x50
       || source[4] != 1 || zero != 0 {
      return None;
    }
    var status := ReadNumber(source, 6, 2);
    var length := ReadNumber(source, 8, 4);
    var id := ReadNumber(source, 16, 8);
    var lba := ReadNumber(source, 24, 8);
    var generation := ReadNumber(source, 32, 8);
    if length > BATCH_BYTES {
      return None;
    }
    return Some(Header(source[5], status, length, id, lba, generation));
  }

  // ---------- Free space ----------

  /** The free clusters below a bound, as the counting loop has seen them. */
  ghost function FreeBelow(image: Image, g: Geometry, bound: nat): set<nat>
    requires Countable(image, g) && bound <= g.clusters + 2
  {
    set c: nat | 2 <= c < bound && IsFree(image, g, c)
  }

  lemma BytesOfBlocks(bytes: seq<byte>, i: nat)
    requires |bytes| % 512 == 0 && i < |bytes|
    ensures ByteAt(Blocks(bytes), i) == bytes[i]
  {
  }

  method ReadFields(image: array<byte>) returns (r: Option<BootFields>)
    requires image.Length >= 512
    ensures r == ReadBoot(image[..512])
  {
    ghost var boot := image[..512];
    var size := ReadLittle(image, 11, 2);
    assert image[11..13] == boot[11..13];
    if image[510] != 0x55 || image[511] != 0xaa || size != 512 {
      return None;
    }
    var total := ReadLittle(image, 19, 2);
    assert image[19..21] == boot[19..21];
    if total == 0 {
      total := ReadLittle(image, 32, 4);
      assert image[32..36] == boot[32..36];
    }
    var reserved := ReadLittle(image, 14, 2);
    assert image[14..16] == boot[14..16];
    var root := ReadLittle(image, 17, 2);
    assert image[17..19] == boot[17..19];
    var fatSectors := ReadLittle(image, 22, 2);
    assert image[22..24] == boot[22..24];
    return Some(BootFields(total, image[13], reserved, image[16], root, fatSectors));
  }

  lemma FreeBelowStep(image: Image, g: Geometry, cluster: nat)
    requires Countable(image, g) && 2 <= cluster < g.clusters + 2
    ensures |FreeBelow(image, g, cluster + 1)| == |FreeBelow(image, g, cluster)| + if IsFree(image, g, cluster) then 1 else 0
  {
    assert FreeBelow(image, g, cluster + 1)
        == FreeBelow(image, g, cluster) + (if IsFree(image, g, cluster) then {cluster} else {});
  }

  lemma EntryInside(g: Geometry, cluster: nat, n: nat)
    requires n % 512 == 0 && g.reserved + g.fatSectors <= n / 512
    requires EntryOffset(g, cluster) + 1 < g.fatSectors * 512
    ensures g.reserved * 512 + EntryOffset(g, cluster) + 1 < n
  {
  }

  method ReadEntry(image: array<byte>, g: Geometry, cluster: nat) returns (value: nat)
    requires image.Length % 512 == 0 && g.reserved + g.fatSectors <= image.Length / 512
    requires EntryOffset(g, cluster) + 1 < g.fatSectors * 512
    ensures value == FatEntry(Blocks(image[..]), g, cluster)
  {
    var offset := if g.Bits() == 12 then cluster * 3 / 2 else cluster * 2;
    var at := g.reserved * 512 + offset;
    EntryInside(g, cluster, image.Length);
    value := image[at] + (image[at + 1] as int) * 256;
    BytesOfBlocks(image[..], at);
    BytesOfBlocks(image[..], at + 1);
    if g.Bits() == 12 {
      value := if cluster % 2 == 1 then value / 16 else value % 4096;
    }
  }

  method CountFree(image: array<byte>, g: Geometry) returns (count: nat)
    requires image.Length % 512 == 0 && Countable(Blocks(image[..]), g)
    ensures count == |FreeClusters(Blocks(image[..]), g)|
  {
    ghost var blocks := Blocks(image[..]);
    count := 0;
    assert FreeBelow(blocks, g, 2) == {};
    for cluster := 2 to g.clusters + 2
      invariant count == |FreeBelow(blocks, g, cluster)|
    {
      EntryInFat(g, cluster);
      FreeBelowStep(blocks, g, cluster);
      var value := ReadEntry(image, g, cluster);
      count := count + if value == 0 then 1 else 0;
    }
    assert FreeBelow(blocks, g, g.clusters + 2) == FreeClusters(blocks, g);
  }

  method ScanFreeSpace(image: array<byte>, capacity: nat) returns (r: Option<nat>)
    requires image.Length == capacity * 512
    ensures r == FreeSpace(Blocks(image[..]))
  {
    if capacity < 1 {
      return None;
    }
    assert Blocks(image[..])[0] == image[..512];
    var fields := ReadFields(image);
    if fields.None? {
      return None;
    }
    var layout := Layout(fields.value, capacity);
    if layout.None? {
      return None;
    }
    var count := CountFree(image, layout.value);
    return Some(FreeBytes(count, layout.value));
  }

  // ---------- Requests ----------

  /** Every record of a batch names a sector of the image. */
  method CheckRecords(request: array<byte>, count: nat, sectors: nat) returns (ok: bool)
    requires request.Length >= RecordAt(count)
    ensures ok == RecordsBelow(request[..], count, sectors)
  {
    ok := true;
    var i := 0;
    while ok && i < count
      invariant i <= count
      invariant ok ==> forall j :: 0 <= j < i ==> RecordLba(request[..], j) < sectors
      invariant !ok ==> !RecordsBelow(request[..], count, sectors)
    {
      var lba := ReadNumber(request, RecordAt(i), 8);
      assert request[RecordAt(i)..RecordAt(i) + 8] == request[..][RecordAt(i)..RecordAt(i) + 8];
      assert lba == RecordLba(request[..], i);
      ok := lba < sectors;
      i := i + 1;
    }
  }

  /** Stores sector `at` bytes into another buffer over sector lba. */
  method StoreSector(image: array<byte>, lba: nat, source: array<byte>, at: nat)
    requires image != source && image.Length % 512 == 0 && lba < image.Length / 512 && at + 512 <= source.Length
    modifies image
    ensures Blocks(image[..]) == old(Blocks(image[..]))[lba := source[at..at + 512]]
  {
    BlockWritten(image[..], lba, source[at..at + 512]);
    Copy(image, lba * 512, source, at, 512);
  }

  method StoreRecords(image: array<byte>, request: array<byte>, count: nat)
    requires image != request && image.Length % 512 == 0
    requires request.Length >= RecordAt(count) && RecordsBelow(request[..], count, image.Length / 512)
    modifies image
    ensures Blocks(image[..]) == ApplyRecords(old(Blocks(image[..])), request[..], count)
  {
    for i := 0 to count
      invariant request[..] == old(request[..])
      invariant Blocks(image[..]) == ApplyRecords(old(Blocks(image[..])), request[..], i)
    {
      var lba := ReadNumber(request, RecordAt(i), 8);
      assert request[RecordAt(i)..RecordAt(i) + 8] == request[..][RecordAt(i)..RecordAt(i) + 8];
      assert lba == RecordLba(request[..], i);
      assert request[RecordAt(i) + 8..RecordAt(i) + 8 + 512] == RecordData(request[..], i);
      StoreSector(image, lba, request, RecordAt(i) + 8);
    }
  }

  /** The count a batch request carries in front of its records. */
  method ReadCount(request: array<byte>, h: Header) returns (count: nat)
    requires Complete(request[..]) && Decode(request[..]) == Some(h)
    ensures count == BatchCount(h, request[..])
  {
    count := 0;
    if h.length >= 4 {
      count := ReadNumber(request, HEADER, 4);
      assert request[HEADER..HEADER + 4] == request[..][HEADER..HEADER + 4];
    }
  }

  /** The image and the answer a method left behind are those of the specification. */
  ghost predicate Answered(spec: (Image, Answer), image: seq<byte>, status: nat, lba: nat, payload: seq<byte>) {
    |image| % 512 == 0 && Blocks(image) == spec.0 && spec.1 == Answer(status, lba, payload)
  }

  method ReadSectors(image: array<byte>, lba: nat, count: nat, reply: array<byte>)
    requires image != reply && image.Length % 512 == 0 && lba + count <= image.Length / 512
    requires HEADER + count * 512 <= reply.Length
    modifies reply
    ensures reply[HEADER..HEADER + count * 512] == Sectors(Blocks(image[..]), lba, count)
  {
    BlocksRead(image[..], lba, count);
    Copy(reply, HEADER, image, lba * 512, count * 512);
    assert reply[HEADER..HEADER + count * 512] == image[lba * 512..(lba + count) * 512];
    assert image[lba * 512..(lba + count) * 512] == image[..][lba * 512..(lba + count) * 512];
  }

  method TransferInPlace(image: array<byte>, sectors: nat, h: Header, request: array<byte>, reply: array<byte>)
    returns (status: nat, length: nat)
    requires image != request && image != reply && request != reply
    requires image.Length == sectors * 512 && sectors > 0 && reply.Length == FRAME
    requires Complete(request[..]) && Decode(request[..]) == Some(h)
    modifies image, reply
    ensures HEADER + length <= reply.Length
    ensures Answered(Transfer(old(Blocks(image[..])), h, old(request[..])),
                     image[..], status, h.lba, reply[HEADER..HEADER + length])
  {
    status, length := OK, 0;
    assert reply[HEADER..HEADER + 0] == [];
    ghost var blocks := Blocks(image[..]);
    if h.op == READ_BATCH {
      var count := 0;
      if h.length == 4 {
        count := ReadCount(request, h);
      }
      if count == 0 || count > MAX_WRITES || h.lba >= sectors || count > sectors - h.lba {
        status := INVALID;
      } else {
        length := count * 512;
        ReadSectors(image, h.lba, count, reply);
      }
    } else if h.op == WRITE_BATCH {
      var count := ReadCount(request, h);
      if h.lba != 0 || count == 0 || count > MAX_WRITES || HEADER + h.length != RecordAt(count) {
        status := INVALID;
      } else {
        var ok := CheckRecords(request, count, sectors);
        if ok {
          StoreRecords(image, request, count);
        } else {
          status := INVALID;
        }
      }
    } else if h.lba >= sectors {
      status := INVALID;
    } else if h.op == READ && h.length == 0 {
      length := 512;
      Copy(reply, HEADER, image, h.lba * 512, 512);
      assert reply[HEADER..HEADER + 512] == blocks[h.lba];
    } else if h.op == WRITE && h.length == SECTOR {
      assert request[HEADER..HEADER + 512] == request[..][HEADER..HEADER + SECTOR];
      StoreSector(image, h.lba, request, HEADER);
    } else {
      status := INVALID;
    }
  }

  /** Carries out a decoded request in place; the payload, if any, is left behind the reply's header. */
  method PerformInPlace(image: array<byte>, sectors: nat, generation: nat, permitted: bool,
                        h: Header, request: array<byte>, reply: array<byte>)
    returns (status: nat, length: nat, lba: nat)
    requires image != request && image != reply && request != reply
    requires image.Length == sectors * 512 && sectors > 0 && reply.Length == FRAME
    requires Complete(request[..]) && Decode(request[..]) == Some(h)
    modifies image, reply
    ensures HEADER + length <= reply.Length
    ensures Answered(Perform(old(Blocks(image[..])), generation, permitted, h, old(request[..])),
                     image[..], status, lba, reply[HEADER..HEADER + length])
  {
    status, length, lba := OK, 0, h.lba;
    assert reply[HEADER..HEADER + 0] == [];
    if h.status != 0 || h.op >= RESPONSE || h.id == 0 {
      status := INVALID;
    } else if h.op == HELLO {
      if h.length != 0 || h.lba != 0 || h.generation != 0 {
        status := INVALID;
      } else if !permitted {
        status := BUSY;
      } else {
        lba, length := sectors, 512;
        Copy(reply, HEADER, image, 0, 512);
        assert reply[HEADER..HEADER + 512] == Blocks(image[..])[0];
      }
    } else if !permitted {
      status := BUSY;
    } else if h.generation != generation {
      status := STALE;
    } else if h.op == PING {
      if h.length != 0 || h.lba != 0 {
        status := INVALID;
      }
    } else if h.op == STAT {
      var free := ScanFreeSpace(image, sectors);
      if h.length != 0 || h.lba != 0 || free.None? {
        status := INVALID;
      } else {
        length := 8;
        WriteNumber(reply, HEADER, free.value, 8);
        assert reply[HEADER..HEADER + 8] == PutNumber(free.value, STAT_BYTES);
      }
    } else if h.op == CAPS {
      if h.length != 0 || h.lba != 0 {
        status := INVALID;
      } else {
        length := 8;
        WriteNumber(reply, HEADER, CAP_BATCH, 8);
        assert reply[HEADER..HEADER + 8] == PutNumber(CAP_BATCH, 8);
      }
    } else {
      status, length := TransferInPlace(image, sectors, h, request, reply);
    }
  }

  /** Serves one complete request in place; returns the length of the reply, 0 for none. */
  method HandleRequest(image: array<byte>, sectors: nat, generation: nat, permitted: bool,
                       request: array<byte>, reply: array<byte>) returns (n: nat)
    requires image != request && image != reply && request != reply
    requires image.Length == sectors * 512 && sectors > 0 && reply.Length == FRAME
    requires Complete(request[..])
    modifies image, reply
    ensures n <= reply.Length
    ensures (Blocks(image[..]), reply[..n]) == Handle(old(Blocks(image[..])), generation, permitted, old(request[..]))
  {
    var header := GetHeader(request);
    if header.None? {
      return 0;
    }
    var h := header.value;
    var status, length, lba := PerformInPlace(image, sectors, generation, permitted, h, request, reply);
    n := SendReply(reply, h, status, lba, generation, length);
  }

  /** Puts the header in front of the payload already in the buffer. */
  method SendReply(reply: array<byte>, h: Header, status: nat, lba: nat, generation: nat, length: nat) returns (n: nat)
    requires HEADER + length <= reply.Length && h.op < 256
    modifies reply
    ensures n == HEADER + length
    ensures reply[..n] == Reply(h, generation, Answer(status, lba, old(reply[HEADER..HEADER + length])))
  {
    ghost var rest := reply[HEADER..];
    var head := Header(Response(h.op), status, length, h.id, lba, generation);
    PutHeader(reply, head);
    n := HEADER + length;
    HeadAndPayload(Encode(head), rest, length);
    assert reply[..n] == reply[..][..n];
  }

  lemma HeadAndPayload(head: seq<byte>, rest: seq<byte>, length: nat)
    requires length <= |rest|
    ensures (head + rest)[..|head| + length] == head + rest[..length]
  {
  }
}
