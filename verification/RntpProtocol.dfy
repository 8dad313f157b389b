/** The RNTP wire codec and the block operations on one exported image (c/rntp/protocol.c). */
module RntpProtocol {
  import opened Bytes

  const HEADER := 40
  const SECTOR := 512
  const MAX_WRITES := 32
  const WRITE_RECORD := 8 + SECTOR
  const BATCH_BYTES := 4 + MAX_WRITES * WRITE_RECORD
  const FRAME := HEADER + BATCH_BYTES

  const HELLO := 1
  const READ := 2
  const WRITE := 3
  const PING := 4
  const STAT := 5
  const CAPS := 6
  const WRITE_BATCH := 7
  const HELLO_SHARED := 8
  const LOCK := 9
  const UNLOCK := 10
  const READ_BATCH := 11
  const ABORT := 12
  const RESPONSE := 128

  const CAP_BATCH := 1
  const CAP_ALL := 7
  const STAT_BYTES := 8

  const OK := 0
  const BUSY := 1
  const INVALID := 2
  const STALE := 3

  type Sector = s: seq<byte> | |s| == SECTOR witness seq(SECTOR, _ => 0)

  /** An exported disk, one element per sector. */
  type Image = seq<Sector>

  // ---------- Header codec ----------

  datatype Header = Header(op: nat, status: nat, length: nat, id: nat, lba: nat, generation: nat) {
    /** Every field fits the width it has on the wire. */
    predicate Fits() {
      op < 256 && status < TWO_16 && length < TWO_32 && id < TWO_64 && lba < TWO_64 && generation < TWO_64
    }
  }

  const MAGIC: seq<byte> := [0x52, 0x4e, 0x54, 0x50, 1]

  function Encode(h: Header): (out: seq<byte>)
    requires h.op < 256
    ensures |out| == HEADER
  {
    MAGIC + [h.op] + PutNumber(h.status, 2) + PutNumber(h.length, 4) + PutNumber(0, 4)
    + PutNumber(h.id, 8) + PutNumber(h.lba, 8) + PutNumber(h.generation, 8)
  }

  function Decode(frame: seq<byte>): (r: Option<Header>)
    requires |frame| >= HEADER
    ensures r.Some? ==> r.value.Fits() && r.value.length <= BATCH_BYTES
  {
    Widths();
    if frame[..5] != MAGIC || GetNumber(frame[12..16]) != 0 then None
    else
      var h := Header(frame[5], GetNumber(frame[6..8]), GetNumber(frame[8..12]),
                      GetNumber(frame[16..24]), GetNumber(frame[24..32]), GetNumber(frame[32..40]));
      if h.length <= BATCH_BYTES then Some(h) else None
  }

  /** Where each field of an encoded header lies. */
  lemma EncodeFields(h: Header, rest: seq<byte>)
    requires h.op < 256
    ensures var f := Encode(h) + rest;
      && f[..5] == MAGIC && f[5] == h.op && f[6..8] == PutNumber(h.status, 2)
      && f[8..12] == PutNumber(h.length, 4) && f[12..16] == PutNumber(0, 4)
      && f[16..24] == PutNumber(h.id, 8) && f[24..32] == PutNumber(h.lba, 8)
      && f[32..40] == PutNumber(h.generation, 8) && f[40..] == rest
  {
    var front := MAGIC + [h.op] + PutNumber(h.status, 2) + PutNumber(h.length, 4) + PutNumber(0, 4);
    var back := PutNumber(h.id, 8) + PutNumber(h.lba, 8) + PutNumber(h.generation, 8);
    FrontFields(MAGIC, [h.op], PutNumber(h.status, 2), PutNumber(h.length, 4), PutNumber(0, 4), back + rest);
    BackFields(front, PutNumber(h.id, 8), PutNumber(h.lba, 8), PutNumber(h.generation, 8), rest);
    assert Encode(h) + rest == front + (back + rest);
  }

  lemma FrontFields(a: seq<byte>, b: seq<byte>, c: seq<byte>, d: seq<byte>, e: seq<byte>, rest: seq<byte>)
    requires |a| == 5 && |b| == 1 && |c| == 2 && |d| == 4 && |e| == 4
    ensures var f := a + b + c + d + e + rest;
      f[..5] == a && f[5] == b[0] && f[6..8] == c && f[8..12] == d && f[12..16] == e
  {
  }

  lemma BackFields(front: seq<byte>, a: seq<byte>, b: seq<byte>, c: seq<byte>, rest: seq<byte>)
    requires |front| == 16 && |a| == 8 && |b| == 8 && |c| == 8
    ensures var f := front + (a + b + c + rest);
      f[16..24] == a && f[24..32] == b && f[32..40] == c && f[40..] == rest
  {
  }

  /** A header survives the wire, whatever payload follows it. */
  lemma DecodeEncode(h: Header, rest: seq<byte>)
    requires h.Fits()
    ensures Decode(Encode(h) + rest) == if h.length <= BATCH_BYTES then Some(h) else None
  {
    EncodeFields(h, rest);
    Widths();
    GetPut(h.status, 2);
    GetPut(h.length, 4);
    GetPut(0, 4);
    GetPut(h.id, 8);
    GetPut(h.lba, 8);
    GetPut(h.generation, 8);
  }

  /** Accepted bytes are exactly the encoding of what they decode to. */
  lemma EncodeDecode(frame: seq<byte>)
    requires |frame| >= HEADER
    requires Decode(frame).Some?
    ensures Encode(Decode(frame).value) == frame[..HEADER]
  {
    PutGet(frame[6..8]);
    PutGet(frame[8..12]);
    PutGet(frame[12..16]);
    PutGet(frame[16..24]);
    PutGet(frame[24..32]);
    PutGet(frame[32..40]);
    calc {
      frame[..HEADER];
      frame[..5] + [frame[5]] + frame[6..8] + frame[8..12] + frame[12..16]
      + frame[16..24] + frame[24..32] + frame[32..40];
      Encode(Decode(frame).value);
    }
  }

  /** A buffer that holds the whole message its header announces. */
  predicate Complete(frame: seq<byte>) {
    && |frame| >= HEADER
    && (Decode(frame).Some? ==> |frame| >= HEADER + Decode(frame).value.length)
  }

  // ---------- Free space ----------

  datatype Geometry = Geometry(total: nat, spc: nat, reserved: nat, fatSectors: nat, start: nat, clusters: nat) {
    function Bits(): nat { if clusters < 4085 then 12 else 16 }
  }

  /** The fields of a boot sector that the counting code reads. */
  datatype BootFields = BootFields(total: nat, spc: nat, reserved: nat, fats: nat, root: nat, fatSectors: nat)

  function ReadBoot(boot: Sector): Option<BootFields> {
    if boot[510] != 0x55 || boot[511] != 0xaa || LeNumber(boot[11..13]) != 512 then None
    else
      var short := LeNumber(boot[19..21]);
      Some(BootFields(if short == 0 then LeNumber(boot[32..36]) else short, boot[13], LeNumber(boot[14..16]),
                      boot[16], LeNumber(boot[17..19]), LeNumber(boot[22..24])))
  }

  /** The layout of the volume, when the fields make sense within the capacity. */
  function Layout(f: BootFields, capacity: nat): (r: Option<Geometry>)
    ensures r.Some? ==>
      var g := r.value;
      && 0 < g.reserved && 0 < g.spc && g.reserved + g.fatSectors <= g.start < g.total <= capacity
      && 0 < g.clusters < 65525 && (g.clusters + 2) * g.Bits() <= g.fatSectors * 4096
      && g.clusters * g.spc <= g.total - g.start
  {
    // spc is a power of two no greater than 64.
    if f.spc !in {1, 2, 4, 8, 16, 32, 64} || f.reserved == 0 || f.fats == 0 || f.fats > 2 || f.root == 0
       || f.fatSectors == 0 || f.total > capacity then None
    else
      var start := f.reserved + f.fats * f.fatSectors + (f.root * 32 + 511) / 512;
      if start >= f.total then None
      else
        var g := Geometry(f.total, f.spc, f.reserved, f.fatSectors, start, (f.total - start) / f.spc);
        if g.clusters == 0 || g.clusters >= 65525 || (g.clusters + 2) * g.Bits() > f.fatSectors * 512 * 8 then None
        else
          Quotient(f.total - start, f.spc);
          MulLe(1, f.fats, f.fatSectors);
          Some(g)
  }

  /** The volume described by a boot sector, when the counting code accepts it. */
  function ParseBoot(boot: Sector, capacity: nat): Option<Geometry> {
    match ReadBoot(boot)
    case None => None
    case Some(f) => Layout(f, capacity)
  }

  lemma Quotient(a: nat, b: nat)
    requires b > 0
    ensures a / b * b <= a
  {
  }

  function ByteAt(image: Image, i: nat): byte
    requires i / SECTOR < |image|
  {
    image[i / SECTOR][i % SECTOR]
  }

  /** Where in the FAT the pair of bytes holding a cluster's entry starts. */
  function EntryOffset(g: Geometry, cluster: nat): nat {
    if g.Bits() == 12 then cluster * 3 / 2 else cluster * 2
  }

  /** Both bytes of the entry lie in the first FAT. */
  lemma EntryInFat(g: Geometry, cluster: nat)
    requires cluster < g.clusters + 2
    requires (g.clusters + 2) * g.Bits() <= g.fatSectors * 4096
    ensures EntryOffset(g, cluster) + 1 < g.fatSectors * SECTOR
  {
  }

  /** The 12- or 16-bit FAT entry of a cluster. */
  function FatEntry(image: Image, g: Geometry, cluster: nat): nat
    requires g.reserved + g.fatSectors <= |image|
    requires EntryOffset(g, cluster) + 1 < g.fatSectors * SECTOR
  {
    var at := g.reserved * SECTOR + EntryOffset(g, cluster);
    var pair := ByteAt(image, at) + ByteAt(image, at + 1) * 256;
    if g.Bits() == 16 then pair
    else if cluster % 2 == 1 then pair / 16
    else pair % 4096
  }

  predicate Countable(image: Image, g: Geometry) {
    g.reserved + g.fatSectors <= |image| && (g.clusters + 2) * g.Bits() <= g.fatSectors * 4096
  }

  predicate IsFree(image: Image, g: Geometry, cluster: nat)
    requires Countable(image, g) && cluster < g.clusters + 2
  {
    EntryInFat(g, cluster);
    FatEntry(image, g, cluster) == 0
  }

  /** The free data clusters of the volume. */
  function FreeClusters(image: Image, g: Geometry): set<nat>
    requires Countable(image, g)
  {
    set c: nat | 2 <= c < g.clusters + 2 && IsFree(image, g, c)
  }

  /** Free bytes of the volume on the image, or nothing when the boot sector does not parse. */
  function FreeSpace(image: Image): Option<nat> {
    if |image| == 0 then None
    else
      match ParseBoot(image[0], |image|)
      case None => None
      case Some(g) => Some(FreeBytes(|FreeClusters(image, g)|, g))
  }

  function FreeBytes(clusters: nat, g: Geometry): nat { clusters * g.spc * SECTOR }

  lemma {:induction false} RangeSize(lo: nat, hi: nat, s: set<nat>)
    requires forall x <- s :: lo <= x < hi
    ensures |s| <= if lo <= hi then hi - lo else 0
    decreases hi - lo
  {
    if lo < hi {
      assert s - {lo} == if lo in s then s - {lo} else s;
      RangeSize(lo + 1, hi, s - {lo});
    } else {
      assert s == {};
    }
  }

  /** Free space never exceeds the volume's data area. */
  lemma FreeSpaceBound(image: Image)
    requires FreeSpace(image).Some?
    ensures ParseBoot(image[0], |image|).Some?
    ensures var g := ParseBoot(image[0], |image|).value;
      FreeSpace(image).value <= (g.total - g.start) * SECTOR
    ensures FreeSpace(image).value < TWO_64
  {
    var g := ParseBoot(image[0], |image|).value;
    var n := |FreeClusters(image, g)|;
    RangeSize(2, g.clusters + 2, FreeClusters(image, g));
    MulLe(n, g.clusters, g.spc);
    BootSpc(image[0], |image|);
    MulLe(g.clusters, 65525, g.spc);
  }

  lemma BootSpc(boot: Sector, capacity: nat)
    requires ParseBoot(boot, capacity).Some?
    ensures ParseBoot(boot, capacity).value.spc <= 64
  {
  }

  /** Only the boot sector and the first FAT matter. */
  lemma FreeSpaceFrame(a: Image, b: Image)
    requires |a| == |b| > 0 && a[0] == b[0]
    requires ParseBoot(a[0], |a|).Some? ==>
      var g := ParseBoot(a[0], |a|).value;
      forall i :: g.reserved <= i < g.reserved + g.fatSectors ==> a[i] == b[i]
    ensures FreeSpace(a) == FreeSpace(b)
  {
    if ParseBoot(a[0], |a|).Some? {
      var g := ParseBoot(a[0], |a|).value;
      forall c: nat | 2 <= c < g.clusters + 2
        ensures IsFree(a, g, c) == IsFree(b, g, c)
      {
        EntryInFat(g, c);
        var at := g.reserved * SECTOR + EntryOffset(g, c);
        assert g.reserved <= at / SECTOR < g.reserved + g.fatSectors;
        assert g.reserved <= (at + 1) / SECTOR < g.reserved + g.fatSectors;
      }
      assert FreeClusters(a, g) == FreeClusters(b, g);
    }
  }

  // ---------- Block operations ----------

  function Response(op: nat): (r: nat)
    requires op < 256
    ensures RESPONSE <= r < 256
  {
    if op < RESPONSE then op + RESPONSE else op
  }

  /** The part of a reply that is not echoed from the request. */
  datatype Answer = Answer(status: nat, lba: nat, payload: seq<byte>)

  function Refusal(h: Header, status: nat): Answer { Answer(status, h.lba, []) }

  /** The bytes of a reply: the request's operation and id come back in its header. */
  function Reply(h: Header, generation: nat, a: Answer): (r: seq<byte>)
    requires h.op < 256
    ensures |r| == HEADER + |a.payload|
  {
    Encode(Header(Response(h.op), a.status, |a.payload|, h.id, a.lba, generation)) + a.payload
  }

  function Sectors(image: Image, lba: nat, count: nat): (r: seq<byte>)
    requires lba + count <= |image|
    ensures |r| == count * SECTOR
  {
    if count == 0 then [] else Sectors(image, lba, count - 1) + image[lba + count - 1]
  }

  function BatchCount(h: Header, frame: seq<byte>): nat
    requires |frame| >= HEADER + h.length
  {
    if h.length >= 4 then GetNumber(frame[HEADER..HEADER + 4]) else 0
  }

  /** Where record i of a write batch starts: after the header and the count, 520 bytes each. */
  function RecordAt(i: nat): nat { 44 + 520 * i }

  predicate BatchShape(h: Header, frame: seq<byte>)
    requires |frame| >= HEADER + h.length
  {
    var count := BatchCount(h, frame);
    h.lba == 0 && 0 < count <= MAX_WRITES && HEADER + h.length == RecordAt(count)
  }

  /** Record i of a write batch: the sector it names and the bytes it stores there. */
  function RecordLba(frame: seq<byte>, i: nat): nat
    requires |frame| >= RecordAt(i + 1)
  {
    var at := RecordAt(i);
    GetNumber(frame[at..at + 8])
  }

  function RecordData(frame: seq<byte>, i: nat): Sector
    requires |frame| >= RecordAt(i + 1)
  {
    var at := RecordAt(i);
    frame[at + 8..at + WRITE_RECORD]
  }

  predicate RecordsBelow(frame: seq<byte>, count: nat, sectors: nat)
    requires |frame| >= RecordAt(count)
  {
    forall i :: 0 <= i < count ==> RecordLba(frame, i) < sectors
  }

  /** The image after the first count records are stored in order. */
  function ApplyRecords(image: Image, frame: seq<byte>, count: nat): (r: Image)
    requires |frame| >= RecordAt(count)
    requires RecordsBelow(frame, count, |image|)
    ensures |r| == |image|
  {
    if count == 0 then image
    else ApplyRecords(image, frame, count - 1)[RecordLba(frame, count - 1) := RecordData(frame, count - 1)]
  }

  /** What a batch leaves in a sector: the last record naming it (last >= 0), or the old contents. */
  lemma {:induction false} ApplyRecordsAt(image: Image, frame: seq<byte>, count: nat, lba: nat, last: int)
    requires |frame| >= RecordAt(count)
    requires RecordsBelow(frame, count, |image|) && lba < |image|
    requires -1 <= last < count && (last >= 0 ==> RecordLba(frame, last) == lba)
    requires forall j :: last < j < count ==> RecordLba(frame, j) != lba
    ensures ApplyRecords(image, frame, count)[lba] == if last < 0 then image[lba] else RecordData(frame, last)
  {
    if last < count - 1 {
      ApplyRecordsAt(image, frame, count - 1, lba, last);
    }
  }

  /** The operations that move sectors. */
  function Transfer(image: Image, h: Header, frame: seq<byte>): (r: (Image, Answer))
    requires |frame| >= HEADER + h.length && |image| > 0
    ensures |r.0| == |image|
  {
    if h.op == READ_BATCH then
      var count := if h.length == 4 then BatchCount(h, frame) else 0;
      if count == 0 || count > MAX_WRITES || h.lba >= |image| || count > |image| - h.lba
      then (image, Refusal(h, INVALID))
      else (image, Answer(OK, h.lba, Sectors(image, h.lba, count)))
    else if h.op == WRITE_BATCH then
      if BatchShape(h, frame) && RecordsBelow(frame, BatchCount(h, frame), |image|)
      then (ApplyRecords(image, frame, BatchCount(h, frame)), Answer(OK, 0, []))
      else (image, Refusal(h, INVALID))
    else if h.lba >= |image| then (image, Refusal(h, INVALID))
    else if h.op == READ && h.length == 0 then (image, Answer(OK, h.lba, image[h.lba]))
    else if h.op == WRITE && h.length == SECTOR then
      (image[h.lba := frame[HEADER..HEADER + SECTOR]], Answer(OK, h.lba, []))
    else (image, Refusal(h, INVALID))
  }

  /** The operation a decoded request asks for. */
  function Perform(image: Image, generation: nat, permitted: bool, h: Header, frame: seq<byte>): (r: (Image, Answer))
    requires |frame| >= HEADER + h.length && |image| > 0
    ensures |r.0| == |image|
  {
    if h.status != 0 || h.op >= RESPONSE || h.id == 0 then (image, Refusal(h, INVALID))
    else if h.op == HELLO then
      if h.length != 0 || h.lba != 0 || h.generation != 0 then (image, Refusal(h, INVALID))
      else if !permitted then (image, Refusal(h, BUSY))
      else (image, Answer(OK, |image|, image[0]))
    else if !permitted then (image, Refusal(h, BUSY))
    else if h.generation != generation then (image, Refusal(h, STALE))
    else if h.op == PING then
      (image, Refusal(h, if h.length != 0 || h.lba != 0 then INVALID else OK))
    else if h.op == STAT then
      if h.length != 0 || h.lba != 0 || FreeSpace(image).None? then (image, Refusal(h, INVALID))
      else (image, Answer(OK, 0, PutNumber(FreeSpace(image).value, STAT_BYTES)))
    else if h.op == CAPS then
      if h.length != 0 || h.lba != 0 then (image, Refusal(h, INVALID))
      else (image, Answer(OK, 0, PutNumber(CAP_BATCH, 8)))
    else Transfer(image, h, frame)
  }

  /** One complete request in, one complete reply and the new image out; no reply to a bad header. */
  function Handle(image: Image, generation: nat, permitted: bool, frame: seq<byte>): (r: (Image, seq<byte>))
    requires Complete(frame) && |image| > 0
    ensures |r.0| == |image|
  {
    match Decode(frame)
    case None => (image, [])
    case Some(h) =>
      var (after, a) := Perform(image, generation, permitted, h, frame);
      (after, Reply(h, generation, a))
  }
}
