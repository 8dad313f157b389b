/** Volumes written from their fields and table entries, and what the server reads of them (c/rntp/protocol.c). */
module RntpVolume {
  import opened Bytes
  import opened RntpProtocol

  // ---------- Boot sector ----------

  function Little(v: nat, n: nat): (s: seq<byte>)
    ensures |s| == n
  {
    if n == 0 then [] else [v % 256] + Little(v / 256, n - 1)
  }

  lemma LittleTwo(v: nat)
    requires v < TWO_16
    ensures LeNumber(Little(v, 2)) == v
  {
    assert Little(v, 2) == [v % 256, v / 256] && Little(v, 2)[1..] == [v / 256] && [v / 256][1..] == [];
    assert LeNumber([v / 256]) == v / 256;
  }

  lemma LittleFour(v: nat)
    requires v < TWO_32
    ensures LeNumber(Little(v, 4)) == v
  {
    var low, high := v % TWO_16, v / TWO_16;
    var s := Little(v, 4);
    assert s[1..] == Little(v / 256, 3) && s[1..][1..] == Little(v / 256 / 256, 2);
    assert v / 256 / 256 == high;
    LittleTwo(high);
    assert LeNumber(s) == LeNumber(s[1..]) * 256 + v % 256;
    assert LeNumber(s[1..]) == LeNumber(s[1..][1..]) * 256 + v / 256 % 256;
  }

  predicate FitsBoot(f: BootFields) {
    && f.total < TWO_32 && f.spc < 256 && f.reserved < TWO_16 && f.fats < 256 && f.root < TWO_16 && f.fatSectors < TWO_16
  }

  /** A boot sector in the format of a FAT volume; small totals may stand in either of the two places. */
  function BootSector(f: BootFields, rest: Sector, wide: bool): (s: seq<byte>)
    requires FitsBoot(f)
  {
    rest[..11] + Little(512, 2) + [f.spc] + Little(f.reserved, 2) + [f.fats] + Little(f.root, 2)
    + Little(if wide then 0 else f.total, 2) + rest[21..22] + Little(f.fatSectors, 2) + rest[24..32]
    + Little(if wide then f.total else 0, 4) + rest[36..510] + [0x55, 0xaa]
  }

  /** Where the fields lie. */
  lemma BootParts(f: BootFields, rest: Sector, wide: bool)
    requires FitsBoot(f)
    ensures var s := BootSector(f, rest, wide);
      && |s| == SECTOR && s[11..13] == Little(512, 2) && s[13] == f.spc && s[14..16] == Little(f.reserved, 2)
      && s[16] == f.fats && s[17..19] == Little(f.root, 2) && s[19..21] == Little(if wide then 0 else f.total, 2)
      && s[22..24] == Little(f.fatSectors, 2) && s[32..36] == Little(if wide then f.total else 0, 4)
      && s[510] == 0x55 && s[511] == 0xaa
  {
  }

  /** A written boot sector is read back field by field. */
  lemma BootIsRead(f: BootFields, rest: Sector, wide: bool)
    requires FitsBoot(f) && (!wide ==> f.total < TWO_16)
    ensures |BootSector(f, rest, wide)| == SECTOR && ReadBoot(BootSector(f, rest, wide)) == Some(f)
  {
    BootParts(f, rest, wide);
    LittleTwo(512);
    LittleTwo(f.reserved);
    LittleTwo(f.root);
    LittleTwo(f.fatSectors);
    if wide {
      LittleTwo(0);
      LittleFour(f.total);
    } else {
      LittleTwo(f.total);
      LittleFour(0);
    }
  }

  // ---------- The table ----------

  /** Two 12-bit entries to three bytes: the even one's eight low bits, its four high bits under the odd one's
      four low bits, the odd one's eight high bits. */
  function Pack12(entries: seq<nat>): (s: seq<byte>)
    requires forall c :: 0 <= c < |entries| ==> entries[c] < 4096
    decreases |entries|
  {
    if entries == [] then []
    else if |entries| == 1 then [entries[0] % 256, entries[0] / 256]
    else
      var (a, b) := (entries[0], entries[1]);
      [a % 256, a / 256 + b % 16 * 16, b / 16] + Pack12(entries[2..])
  }

  function Pack16(entries: seq<nat>): (s: seq<byte>)
    requires forall c :: 0 <= c < |entries| ==> entries[c] < TWO_16
    ensures |s| == 2 * |entries|
  {
    if entries == [] then [] else Little(entries[0], 2) + Pack16(entries[1..])
  }

  function PairAt(s: seq<byte>, at: nat): nat
    requires at + 1 < |s|
  {
    var low: nat, high: nat := s[at], s[at + 1];
    low + high * 256
  }

  predicate PackedAt12(s: seq<byte>, c: nat, entry: nat) {
    var at := c * 3 / 2;
    at + 1 < |s| && entry == if c % 2 == 1 then PairAt(s, at) / 16 else PairAt(s, at) % 4096
  }

  lemma ThreeFurther(s: seq<byte>, three: seq<byte>, c: nat, entry: nat)
    requires |three| == 3 && c >= 2 && PackedAt12(s, c - 2, entry)
    ensures PackedAt12(three + s, c, entry)
  {
    assert c * 3 / 2 == (c - 2) * 3 / 2 + 3;
  }

  lemma {:induction false} Pack12At(entries: seq<nat>, c: nat)
    requires (forall c :: 0 <= c < |entries| ==> entries[c] < 4096) && c < |entries|
    ensures PackedAt12(Pack12(entries), c, entries[c])
    decreases c
  {
    if c < 2 {
      TwoInThree(entries[0], if |entries| > 1 then entries[1] else 0);
    } else {
      Pack12At(entries[2..], c - 2);
      var (a, b) := (entries[0], entries[1]);
      ThreeFurther(Pack12(entries[2..]), [a % 256, a / 256 + b % 16 * 16, b / 16], c, entries[c]);
    }
  }

  lemma TwoInThree(a: nat, b: nat)
    requires a < 4096 && b < 4096
    ensures (a % 256 + (a / 256 + b % 16 * 16) * 256) % 4096 == a
    ensures (a / 256 + b % 16 * 16 + b / 16 * 256) / 16 == b
  {
  }

  lemma {:induction false} Pack16At(entries: seq<nat>, c: nat)
    requires (forall c :: 0 <= c < |entries| ==> entries[c] < TWO_16) && c < |entries|
    ensures PairAt(Pack16(entries), 2 * c) == entries[c]
    decreases c
  {
    if c == 0 {
      assert Little(entries[0], 2) == [entries[0] % 256, entries[0] / 256];
    } else {
      Pack16At(entries[1..], c - 1);
    }
  }

  predicate FitsTable(g: Geometry, entries: seq<nat>) {
    |entries| == g.clusters + 2 && forall c :: 0 <= c < |entries| ==> entries[c] < if g.Bits() == 12 then 4096 else TWO_16
  }

  function Packed(g: Geometry, entries: seq<nat>): seq<byte>
    requires FitsTable(g, entries)
  {
    if g.Bits() == 12 then Pack12(entries) else Pack16(entries)
  }

  /** The first table of the volume starts with these bytes. */
  ghost predicate TableHolds(image: Image, g: Geometry, bytes: seq<byte>)
    requires g.reserved + g.fatSectors <= |image|
  {
    |bytes| <= g.fatSectors * SECTOR &&
    forall k: nat :: k < |bytes| ==> Held(image, g, k, bytes[k])
  }

  ghost predicate Held(image: Image, g: Geometry, k: nat, b: byte) {
    (g.reserved * SECTOR + k) / SECTOR < |image| && ByteAt(image, g.reserved * SECTOR + k) == b
  }

  /** Every entry of a written table is read back, whichever width the volume has. */
  lemma EntryIsRead(image: Image, g: Geometry, entries: seq<nat>, c: nat)
    requires Countable(image, g) && FitsTable(g, entries) && TableHolds(image, g, Packed(g, entries)) && c < |entries|
    ensures EntryOffset(g, c) + 1 < g.fatSectors * SECTOR && FatEntry(image, g, c) == entries[c]
  {
    var at, s := EntryOffset(g, c), Packed(g, entries);
    EntryInFat(g, c);
    if g.Bits() == 12 { Pack12At(entries, c); } else { Pack16At(entries, c); }
    assert Held(image, g, at, s[at]) && Held(image, g, at + 1, s[at + 1]);
  }

  /** The clusters of the data area whose entry is zero. */
  function Unused(entries: seq<nat>): set<nat> {
    set c: nat | 2 <= c < |entries| && entries[c] == 0
  }

  /** The free space of a written volume: the sectors of its unused clusters. */
  lemma VolumeFreeSpace(image: Image, f: BootFields, rest: Sector, wide: bool, entries: seq<nat>)
    requires image != [] && FitsBoot(f) && (!wide ==> f.total < TWO_16) && image[0] == BootSector(f, rest, wide)
    requires Layout(f, |image|).Some?
    requires var g := Layout(f, |image|).value; FitsTable(g, entries) && TableHolds(image, g, Packed(g, entries))
    ensures FreeSpace(image) == Some(|Unused(entries)| * f.spc * SECTOR)
  {
    var g := Layout(f, |image|).value;
    BootIsRead(f, rest, wide);
    forall c: nat | 2 <= c < g.clusters + 2 ensures IsFree(image, g, c) <==> c in Unused(entries) {
      EntryIsRead(image, g, entries, c);
    }
    assert FreeClusters(image, g) == Unused(entries);
  }
}
