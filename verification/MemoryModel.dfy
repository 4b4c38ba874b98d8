/** Another process's memory: contiguous regions from address 0 up, and what their bytes read as.
    Reads of readable regions succeed in full. */
module MemoryModel {
  import opened Optional
  import opened Units

  datatype Region = Region(end: nat, readable: bool)

  datatype Memory = Memory(regions: seq<Region>, at: nat -> byte)

  const CHUNK: nat := 0x10_0000

  ghost predicate Ascending(rs: seq<Region>, start: nat) {
    rs != [] ==> start < rs[0].end && Ascending(rs[1..], rs[0].end)
  }

  ghost predicate IsMemory(m: Memory) { Ascending(m.regions, 0) }

  function RegionIn(rs: seq<Region>, address: nat): Option<Region> {
    if rs == [] then None else if address < rs[0].end then Some(rs[0]) else RegionIn(rs[1..], address)
  }

  /** VirtualQueryEx: the region an address is in; none past the last. */
  function Query(m: Memory, address: nat): Option<Region> { RegionIn(m.regions, address) }

  predicate IsReadable(m: Memory, address: nat) {
    Query(m, address).Some? && Query(m, address).value.readable
  }

  ghost predicate AllReadable(m: Memory, lo: nat, hi: nat) { forall a :: lo <= a < hi ==> IsReadable(m, a) }

  function Bytes(m: Memory, address: nat, count: nat): (s: seq<byte>)
    ensures |s| == count
  {
    seq<byte>(count, i requires 0 <= i < count => m.at(address + i))
  }

  /** An address's region ends after it, holds every address up to there, and the next one starts there. */
  lemma {:induction false} SameRegion(rs: seq<Region>, start: nat, a: nat, b: nat)
    requires Ascending(rs, start) && a <= b
    ensures RegionIn(rs, a).Some? ==> a < RegionIn(rs, a).value.end
    ensures RegionIn(rs, a).Some? && b < RegionIn(rs, a).value.end ==> RegionIn(rs, b) == RegionIn(rs, a)
    ensures RegionIn(rs, a).None? ==> RegionIn(rs, b).None?
  {
    if rs != [] && a >= rs[0].end { SameRegion(rs[1..], rs[0].end, a, b); }
  }

  lemma InRegion(m: Memory, a: nat, b: nat)
    requires IsMemory(m) && a <= b && Query(m, a).Some? && b < Query(m, a).value.end
    ensures a < Query(m, a).value.end && IsReadable(m, b) == Query(m, a).value.readable
  {
    SameRegion(m.regions, 0, a, b);
  }

  /** ReadProcessMemory into the front of a buffer. */
  method Read(m: Memory, address: nat, buffer: array<byte>, count: nat)
    requires count <= buffer.Length
    modifies buffer
    ensures buffer[..count] == Bytes(m, address, count)
  {
    for i := 0 to count
      invariant buffer[..i] == Bytes(m, address, count)[..i]
    {
      buffer[i] := m.at(address + i);
    }
  }
}
