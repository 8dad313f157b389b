/** The client's read-ahead buffer (c/rntp/read_ahead.c). */
module RntpReadAhead {
  import opened Bytes
  import opened RntpProtocol
  import opened RntpServer

  /** A run of sectors fetched together, starting at lba. */
  datatype Cache = Cache(lba: nat, run: seq<Sector>) {
    function Get(at: nat): Option<Sector> {
      if at < lba || at - lba >= |run| then None else Some(run[at - lba])
    }

    function Clear(): Cache { this.(run := []) }
  }

  const NO_CACHE := Cache(0, [])

  /** How many sectors to fetch when lba is missed. */
  function Count(lba: nat, sectors: nat, dataStart: nat): (count: nat)
    ensures count <= MAX_WRITES && (count > 0 ==> lba + count <= sectors)
    ensures count == 0 <==> lba >= sectors
    ensures count > 0 ==> lba >= dataStart || lba + count <= dataStart
    ensures count > 0 ==> count == MAX_WRITES || lba + count == sectors || lba + count == dataStart
  {
    if lba >= sectors then 0
    else
      var all := if sectors - lba > MAX_WRITES then MAX_WRITES else sectors - lba;
      if lba < dataStart && all > dataStart - lba then dataStart - lba else all
  }

  /** The buffer after a fetch, or nothing when the reply does not have the shape that was asked for. */
  function Stored(lba: nat, sectors: nat, count: nat, data: seq<byte>): Option<Cache> {
    if count == 0 || count > MAX_WRITES || lba >= sectors || count > sectors - lba || |data| != count * 512 then None
    else Some(Cache(lba, Blocks(data)))
  }

  class ReadAhead {
    var lba: nat
    var count: nat
    const data: array<byte>

    ghost predicate Valid()
      reads this
    {
      data.Length == MAX_WRITES * 512 && count <= MAX_WRITES
    }

    ghost function Abstract(): Cache
      requires Valid()
      reads this, data
    {
      Cache(lba, Blocks(data[..count * 512]))
    }

    constructor ()
      ensures Valid() && Abstract() == NO_CACHE && fresh(data)
    {
      lba, count := 0, 0;
      data := new byte[MAX_WRITES * 512];
    }

    method Clear()
      requires Valid()
      modifies this`count
      ensures Valid() && Abstract() == old(Abstract()).Clear()
    {
      count := 0;
    }

    method Get(at: nat, out: array<byte>) returns (hit: bool)
      requires Valid() && out != data && out.Length == 512
      modifies out
      ensures Abstract() == old(Abstract())
      ensures old(Abstract()).Get(at) == if hit then Some(out[..]) else None
    {
      if at < lba || at - lba >= count {
        return false;
      }
      var k := (at - lba) * 512;
      Copy(out, 0, data, k, 512);
      assert out[..] == data[k..k + 512] == data[..count * 512][k..k + 512];
      return true;
    }

    method Store(at: nat, sectors: nat, n: nat, source: array<byte>, from: nat, length: nat) returns (ok: bool)
      requires Valid() && source != data && from + length <= source.Length
      modifies this, data
      ensures Valid()
      ensures Stored(at, sectors, n, source[from..from + length]) == if ok then Some(Abstract()) else None
      ensures !ok ==> Abstract().run == []
    {
      Clear();
      if n == 0 || n > MAX_WRITES || at >= sectors || n > sectors - at || length != n * 512 {
        return false;
      }
      Copy(data, 0, source, from, length);
      lba, count := at, n;
      assert data[..n * 512] == source[from..from + length];
      return true;
    }
  }
}
