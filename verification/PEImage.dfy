/** PEFile's lookups in an image's bytes: an RVA's offset in the file, numbers and strings at an offset. */
module PEImage {
  import opened Optional
  import opened Units

  const MAX_STRING := 512

  datatype Section = Section(virtualAddress: nat, virtualSize: nat, rawOffset: nat, rawSize: nat)

  datatype Directory = Directory(rva: nat, size: nat)

  datatype Image = Image(data: seq<byte>, sizeOfHeaders: nat, sections: seq<Section>, directories: seq<Directory>)

  /** Where a section's bytes start in the file: the loader rounds down to 512. */
  function RawStart(s: Section): nat { s.rawOffset - s.rawOffset % 512 }

  /** How much of a section is in the file. */
  function RawLength(s: Section): nat { if s.virtualSize != 0 then Min(s.virtualSize, s.rawSize) else s.rawSize }

  predicate Holds(s: Section, rva: nat) { s.virtualAddress <= rva < s.virtualAddress + RawLength(s) }

  /** By the first section that holds the RVA. */
  function SectionOffset(sections: seq<Section>, size: nat, rva: nat): (r: Option<nat>)
    ensures r.Some? ==> r.value < size
    ensures r.Some? ==> exists s ::
              s in sections && Holds(s, rva) && r.value == Low32(RawStart(s) + rva - s.virtualAddress)
              && RawStart(s) + rva - s.virtualAddress < size
  {
    if sections == [] then None
    else
      var s := sections[0];
      if !Holds(s, rva) then SectionOffset(sections[1..], size, rva)
      else
        var offset := RawStart(s) + rva - s.virtualAddress;
        if offset < size then Some(Low32(offset)) else None
  }

  function RvaToOffset(image: Image, rva: nat): (r: Option<nat>)
    ensures r.Some? ==> r.value < |image.data|
  {
    if rva < image.sizeOfHeaders && rva < |image.data| then Some(rva)
    else SectionOffset(image.sections, |image.data|, rva)
  }

  /** An RVA past the headers that only one section holds is that far into the section's bytes, which start in the file
      at the last multiple of 512 that is not past the section's offset. */
  lemma SectionMapped(image: Image, s: Section, k: nat, start: nat)
    requires s in image.sections && Holds(s, s.virtualAddress + k) && image.sizeOfHeaders <= s.virtualAddress + k
    requires forall t :: t in image.sections && Holds(t, s.virtualAddress + k) ==> t == s
    requires start % 512 == 0 && start <= s.rawOffset < start + 512 && |image.data| <= 0x1_0000_0000
    ensures RvaToOffset(image, s.virtualAddress + k) == if start + k < |image.data| then Some(start + k) else None
  {
    OnlySection(image.sections, |image.data|, s, s.virtualAddress + k);
    assert RawStart(s) == start;
  }

  lemma {:induction false} OnlySection(sections: seq<Section>, size: nat, s: Section, rva: nat)
    requires s in sections && Holds(s, rva) && forall t :: t in sections && Holds(t, rva) ==> t == s
    ensures SectionOffset(sections, size, rva)
         == (var offset := RawStart(s) + rva - s.virtualAddress; if offset < size then Some(Low32(offset)) else None)
  {
    if sections[0] != s { OnlySection(sections[1..], size, s, rva); }
  }

  /** No two sections share bytes of the file, and none has bytes of the headers. */
  ghost predicate DisjointInFile(image: Image) {
    && (forall s :: s in image.sections ==> RawLength(s) == 0 || Min(image.sizeOfHeaders, |image.data|) <= RawStart(s))
    && forall s, t :: s in image.sections && t in image.sections && s != t ==>
         RawStart(s) + RawLength(s) <= RawStart(t) || RawStart(t) + RawLength(t) <= RawStart(s)
  }

  /** Different RVAs are different bytes of the file. */
  lemma OneRvaPerOffset(image: Image, a: nat, b: nat)
    requires DisjointInFile(image) && |image.data| <= 0x1_0000_0000 && a != b
    requires RvaToOffset(image, a).Some? && RvaToOffset(image, b).Some?
    ensures RvaToOffset(image, a) != RvaToOffset(image, b)
  {
    var x, y := Mapped(image, a), Mapped(image, b);
    if x.Some? && y.Some? && x != y {
      var s, t := x.value, y.value;
      assert RawStart(s) + RawLength(s) <= RawStart(t) || RawStart(t) + RawLength(t) <= RawStart(s);
    }
  }

  /** The section an RVA was mapped by, if not the headers. */
  ghost function Mapped(image: Image, rva: nat): (r: Option<Section>)
    requires RvaToOffset(image, rva).Some? && |image.data| <= 0x1_0000_0000
    ensures r.None? ==> rva < Min(image.sizeOfHeaders, |image.data|) && RvaToOffset(image, rva).value == rva
    ensures r.Some? ==> r.value in image.sections && Holds(r.value, rva)
                        && RvaToOffset(image, rva).value == RawStart(r.value) + rva - r.value.virtualAddress
  {
    if rva < image.sizeOfHeaders && rva < |image.data| then None
    else
      var s :| s in image.sections && Holds(s, rva)
               && SectionOffset(image.sections, |image.data|, rva).value == Low32(RawStart(s) + rva - s.virtualAddress)
               && RawStart(s) + rva - s.virtualAddress < |image.data|;
      Some(s)
  }

  // Numbers, little-endian, and strings

  predicate Has(data: seq<byte>, offset: nat, size: nat) { offset + size <= |data| }

  function At(data: seq<byte>, offset: nat, size: nat): Option<nat> {
    if Has(data, offset, size) then Some(Number(data[offset..], size)) else None
  }

  /** The first NUL of the available bytes, or how many they are. */
  function Length(data: seq<byte>, offset: nat, available: nat): (n: nat)
    requires offset + available <= |data|
    ensures n <= available && (forall i :: offset <= i < offset + n ==> data[i] != 0)
    ensures n < available ==> data[offset + n] == 0
    decreases available
  {
    if available == 0 || data[offset] == 0 then 0 else 1 + Length(data, offset + 1, available - 1)
  }

  function StringAt(data: seq<byte>, offset: nat, maxLength: nat): seq<byte> {
    if offset >= |data| then []
    else
      var available := Min(|data| - offset, maxLength);
      var length := Length(data, offset, available);
      if length == available && available < maxLength then [] else data[offset..offset + length]
  }

  /** A NUL among the first bytes ends the string; else it is as many of them as it may be, if there are that many. */
  lemma StringAtExactly(data: seq<byte>, offset: nat, maxLength: nat, n: nat)
    requires offset <= |data| && n <= maxLength && n <= |data| - offset
    requires forall i :: offset <= i < offset + n ==> data[i] != 0
    ensures n < |data| - offset && n < maxLength && data[offset + n] == 0 ==>
        StringAt(data, offset, maxLength) == data[offset..offset + n]
    ensures n == maxLength ==> StringAt(data, offset, maxLength) == data[offset..offset + n]
    ensures n == |data| - offset && n < maxLength ==> StringAt(data, offset, maxLength) == []
  {}

  function StringAtRva(image: Image, rva: nat): seq<byte> {
    var offset := RvaToOffset(image, rva);
    if offset.Some? then StringAt(image.data, offset.value, MAX_STRING) else []
  }
}
