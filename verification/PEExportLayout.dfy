/** Exports as they are laid out in a file, for reading them to be proved an inverse of. */
module PEExportLayout {
  import opened Optional
  import opened PEImage
  import opened PEExports
  import opened Units

  /** The export directory as it is laid out (section 6.3.1 of the PE Format): characteristics, time and version, then
      the numbers. */
  function DirectoryBytes(header: seq<byte>, e: ExportDirectory): seq<byte> {
    header + Fours([e.name, e.base, e.numberOfFunctions, e.numberOfNames, e.addressOfFunctions, e.addressOfNames,
                    e.addressOfNameOrdinals])
  }

  function Fours(ns: seq<nat>): seq<byte> { if ns == [] then [] else Little(ns[0], 4) + Fours(ns[1..]) }

  predicate IsDirectory(e: ExportDirectory) {
    && e.name < 0x1_0000_0000 && e.base < 0x1_0000_0000 && e.numberOfFunctions < 0x1_0000_0000
    && e.numberOfNames < 0x1_0000_0000 && e.addressOfFunctions < 0x1_0000_0000 && e.addressOfNames < 0x1_0000_0000
    && e.addressOfNameOrdinals < 0x1_0000_0000
  }

  /** Every directory is read back from where it is written. */
  lemma ReadsDirectory(before: seq<byte>, header: seq<byte>, e: ExportDirectory, after: seq<byte>)
    requires |header| == 12 && IsDirectory(e)
    ensures ReadDirectory(before + DirectoryBytes(header, e) + after, |before|) == Some(e)
  {
    var ns := [e.name, e.base, e.numberOfFunctions, e.numberOfNames, e.addressOfFunctions, e.addressOfNames,
               e.addressOfNameOrdinals];
    var d := before + DirectoryBytes(header, e) + after;
    assert d == (before + header) + (Fours(ns) + after);
    hide Number, Fours, DirectoryBytes;
    FourAt(d, before + header, ns, 0, after);
    FourAt(d, before + header, ns, 1, after);
    FourAt(d, before + header, ns, 2, after);
    FourAt(d, before + header, ns, 3, after);
    FourAt(d, before + header, ns, 4, after);
    FourAt(d, before + header, ns, 5, after);
    FourAt(d, before + header, ns, 6, after);
  }

  lemma FourAt(d: seq<byte>, before: seq<byte>, ns: seq<nat>, i: nat, after: seq<byte>)
    requires i < |ns| && (forall j :: 0 <= j < |ns| ==> ns[j] < 0x1_0000_0000) && d == before + (Fours(ns) + after)
    ensures |d| == |before| + 4 * |ns| + |after| && Number(d[|before| + 4 * i..], 4) == ns[i]
  {
    hide Number, Fours;
    NumberAt(ns, i, after);
    assert d[|before| + 4 * i..] == (Fours(ns) + after)[4 * i..];
  }

  lemma {:induction false} FoursLength(ns: seq<nat>)
    ensures |Fours(ns)| == 4 * |ns|
  {
    if ns != [] { FoursLength(ns[1..]); }
  }

  lemma {:induction false} NumberAt(ns: seq<nat>, i: nat, after: seq<byte>)
    requires i < |ns| && forall j :: 0 <= j < |ns| ==> ns[j] < 0x1_0000_0000
    ensures |Fours(ns)| == 4 * |ns| && Number((Fours(ns) + after)[4 * i..], 4) == ns[i]
  {
    hide Number, Little;
    FoursLength(ns);
    assert Fours(ns) + after == Little(ns[0], 4) + (Fours(ns[1..]) + after);
    if i == 0 {
      FourBytes(ns[0], Fours(ns[1..]) + after);
    } else {
      NumberAt(ns[1..], i - 1, after);
      assert (Fours(ns) + after)[4 * i..] == (Fours(ns[1..]) + after)[4 * (i - 1)..];
    }
  }

  // ----- the tables

  function Twos(ns: seq<nat>): seq<byte> { if ns == [] then [] else Little(ns[0], 2) + Twos(ns[1..]) }

  lemma {:induction false} TwoAt(ns: seq<nat>, i: nat, after: seq<byte>)
    requires i < |ns| && forall j :: 0 <= j < |ns| ==> ns[j] < 0x1_0000
    ensures |Twos(ns)| == 2 * |ns| && Number((Twos(ns) + after)[2 * i..], 2) == ns[i]
  {
    hide Number, Little;
    TwosLength(ns);
    assert Twos(ns) + after == Little(ns[0], 2) + (Twos(ns[1..]) + after);
    if i == 0 {
      TwoBytes(ns[0], Twos(ns[1..]) + after);
    } else {
      TwoAt(ns[1..], i - 1, after);
      assert (Twos(ns) + after)[2 * i..] == (Twos(ns[1..]) + after)[2 * (i - 1)..];
    }
  }

  lemma {:induction false} TwosLength(ns: seq<nat>)
    ensures |Twos(ns)| == 2 * |ns|
  {
    if ns != [] { TwosLength(ns[1..]); }
  }

  /** The bytes stand at the offset. */
  predicate Stands(data: seq<byte>, offset: nat, bytes: seq<byte>) {
    offset <= |data| && bytes <= data[offset..]
  }

  lemma FourStands(data: seq<byte>, offset: nat, ns: seq<nat>, i: nat)
    requires i < |ns| && (forall j :: 0 <= j < |ns| ==> ns[j] < 0x1_0000_0000) && Stands(data, offset, Fours(ns))
    ensures At(data, offset + i * 4, 4) == Some(ns[i])
  {
    hide Number, Fours;
    var after := data[offset..][|Fours(ns)|..];
    assert data == data[..offset] + (Fours(ns) + after);
    FourAt(data, data[..offset], ns, i, after);
  }

  lemma TwoStands(data: seq<byte>, offset: nat, ns: seq<nat>, i: nat)
    requires i < |ns| && (forall j :: 0 <= j < |ns| ==> ns[j] < 0x1_0000) && Stands(data, offset, Twos(ns))
    ensures At(data, offset + i * 2, 2) == Some(ns[i])
  {
    hide Number, Twos;
    var after := data[offset..][|Twos(ns)|..];
    TwoAt(ns, i, after);
    assert data[offset..] == Twos(ns) + after;
    assert data[offset + i * 2..] == (Twos(ns) + after)[2 * i..];
  }

  // ----- the exports

  /** What an image exports: RVAs by function, and of the names their RVAs and the functions they are for. */
  datatype Tables = Tables(rvas: seq<nat>, nameRvas: seq<nat>, indices: seq<nat>)

  ghost predicate AreTables(t: Tables, e: ExportDirectory) {
    && |t.rvas| == e.numberOfFunctions <= MAX_EXPORTS && |t.nameRvas| == |t.indices| == e.numberOfNames <= MAX_EXPORTS
    && (forall i :: 0 <= i < |t.rvas| ==> t.rvas[i] < 0x1_0000_0000)
    && (forall j :: 0 <= j < |t.nameRvas| ==> t.nameRvas[j] < 0x1_0000_0000)
    && forall j :: 0 <= j < |t.indices| ==> t.indices[j] < 0x1_0000
  }

  /** The directory is at its RVA, and its tables at theirs. */
  ghost predicate IsLaidOut(image: Image, header: seq<byte>, e: ExportDirectory, t: Tables) {
    && |header| == 12 && IsDirectory(e) && AreTables(t, e)
    && image.directories != [] && image.directories[0].rva != 0
    && StandsAt(image, image.directories[0].rva, DirectoryBytes(header, e))
    && StandsAt(image, e.addressOfFunctions, Fours(t.rvas))
    && StandsAt(image, e.addressOfNames, Fours(t.nameRvas))
    && StandsAt(image, e.addressOfNameOrdinals, Twos(t.indices))
  }

  ghost predicate StandsAt(image: Image, rva: nat, bytes: seq<byte>) {
    RvaToOffset(image, rva).Some? && Stands(image.data, RvaToOffset(image, rva).value, bytes)
  }

  /** The i-th function as it should be listed. */
  ghost predicate IsExport(f: Function, image: Image, d: Directory, e: ExportDirectory, t: Tables, i: nat) {
    && i < |t.rvas| && |t.nameRvas| == |t.indices|
    && f.ordinal == Low32(e.base + i) && f.rva == t.rvas[i]
    && f.forwarder == (if d.rva <= f.rva && f.rva - d.rva < d.size then StringAtRva(image, f.rva) else [])
    && (i !in t.indices ==> f.name == [])
    && forall j :: 0 <= j < |t.indices| && t.indices[j] == i && i !in t.indices[j + 1..] ==>
         f.name == StringAtRva(image, t.nameRvas[j])
  }

  /** The functions that are not gaps, in order. */
  ghost predicate AreExports(fs: seq<Function>, image: Image, d: Directory, e: ExportDirectory, t: Tables) {
    exists slots: seq<nat> :: AreSlots(slots, t.rvas) && AreOfSlots(fs, image, d, e, t, slots)
  }

  ghost predicate AreSlots(slots: seq<nat>, rvas: seq<nat>) {
    && (forall i :: i in slots <==> 0 <= i < |rvas| && rvas[i] != 0)
    && forall j, k :: 0 <= j < k < |slots| ==> slots[j] < slots[k]
  }

  ghost predicate AreOfSlots(fs: seq<Function>, image: Image, d: Directory, e: ExportDirectory, t: Tables,
                             slots: seq<nat>) {
    |fs| == |slots| && forall k :: 0 <= k < |slots| ==> IsExport(fs[k], image, d, e, t, slots[k])
  }

  /** From an image that exports are laid out in, all are read: the functions that are not gaps, in order, each at its
      ordinal, with its RVA, its name and, if its RVA is in the directory, its forwarder. */
  lemma ReadsExports(image: Image, header: seq<byte>, e: ExportDirectory, t: Tables)
    requires IsLaidOut(image, header, e, t)
    ensures var r := ExportsOf(image);
      && r.Some? && r.value.base == e.base && r.value.name == StringAtRva(image, e.name)
      && AreExports(r.value.functions, image, image.directories[0], e, t)
  {
    hide ReadDirectory, DirectoryBytes, FunctionsOf, Slots, SlotRva, RvaToOffset, StringAtRva, Fours, Twos, IsExport;
    DirectoryStands(image, header, e);
    var d, table := image.directories[0], RvaToOffset(image, e.addressOfFunctions).value;
    var slots := Slots(image.data, table, |t.rvas|);
    SlotsExactly(image.data, table, |t.rvas|);
    forall i | 0 <= i < |t.rvas| ensures SlotRva(image.data, table, i) == t.rvas[i] {
      SlotIs(image.data, table, t.rvas, i);
    }
    var fs := FunctionsOf(image, d, e, table, slots);
    FunctionCount(image, d, e, table, slots);
    forall k | 0 <= k < |slots| ensures IsExport(fs[k], image, d, e, t, slots[k]) {
      assert slots[k] in slots;
      ExportIs(image, header, e, t, slots, k);
    }
    assert AreSlots(slots, t.rvas) && AreOfSlots(fs, image, d, e, t, slots);
  }

  lemma DirectoryStands(image: Image, header: seq<byte>, e: ExportDirectory)
    requires image.directories != [] && image.directories[0].rva != 0 && |header| == 12 && IsDirectory(e)
    requires StandsAt(image, image.directories[0].rva, DirectoryBytes(header, e))
    ensures DirectoryOf(image) == Some(e)
  {
    hide ReadDirectory, DirectoryBytes, RvaToOffset;
    var offset, bytes := RvaToOffset(image, image.directories[0].rva).value, DirectoryBytes(header, e);
    var after := image.data[offset..][|bytes|..];
    ReadsDirectory(image.data[..offset], header, e, after);
    assert image.data == image.data[..offset] + bytes + after;
  }

  lemma SlotIs(data: seq<byte>, table: nat, rvas: seq<nat>, i: nat)
    requires i < |rvas| && (forall j :: 0 <= j < |rvas| ==> rvas[j] < 0x1_0000_0000) && Stands(data, table, Fours(rvas))
    ensures SlotRva(data, table, i) == rvas[i]
  {
    hide At, Fours;
    FourStands(data, table, rvas, i);
  }

  lemma FunctionCount(image: Image, d: Directory, e: ExportDirectory, table: nat, slots: seq<nat>)
    ensures |FunctionsOf(image, d, e, table, slots)| == |slots|
  {}

  lemma ExportIs(image: Image, header: seq<byte>, e: ExportDirectory, t: Tables, slots: seq<nat>, k: nat)
    requires IsLaidOut(image, header, e, t) && k < |slots| && slots[k] < |t.rvas|
    requires var table := RvaToOffset(image, e.addressOfFunctions).value;
      SlotRva(image.data, table, slots[k]) == t.rvas[slots[k]]
    ensures var d, table := image.directories[0], RvaToOffset(image, e.addressOfFunctions).value;
      k < |FunctionsOf(image, d, e, table, slots)|
      && IsExport(FunctionsOf(image, d, e, table, slots)[k], image, d, e, t, slots[k])
  {
    hide SlotRva, RvaToOffset, StringAtRva, Fours, Twos, NameOf, DirectoryBytes;
    var i, tables := slots[k], TablesOf(image, e);
    assert tables == NameTables(RvaToOffset(image, e.addressOfNames).value,
                                RvaToOffset(image, e.addressOfNameOrdinals).value, |t.indices|);
    NameIs(image, tables, t, i);
  }

  /** The names as they are laid out. */
  lemma NameIs(image: Image, tables: NameTables, t: Tables, i: nat)
    requires |t.nameRvas| == |t.indices| == tables.count
    requires Stands(image.data, tables.names, Fours(t.nameRvas)) && Stands(image.data, tables.ordinals, Twos(t.indices))
    requires forall j :: 0 <= j < |t.nameRvas| ==> t.nameRvas[j] < 0x1_0000_0000
    requires forall j :: 0 <= j < |t.indices| ==> t.indices[j] < 0x1_0000
    ensures i !in t.indices ==> NameOf(image, tables, tables.count, i) == []
    ensures forall j :: 0 <= j < |t.indices| && t.indices[j] == i && i !in t.indices[j + 1..] ==>
        NameOf(image, tables, tables.count, i) == StringAtRva(image, t.nameRvas[j])
  {
    hide StringAtRva, Fours, Twos, At, NameOf;
    forall j | 0 <= j < |t.indices|
      ensures At(image.data, tables.names + j * 4, 4) == Some(t.nameRvas[j])
      ensures Names(image.data, tables, j, i) <==> t.indices[j] == i
    {
      FourStands(image.data, tables.names, t.nameRvas, j);
      TwoStands(image.data, tables.ordinals, t.indices, j);
    }
    if i !in t.indices { Nameless(image, tables, tables.count, i); }
    forall j | 0 <= j < |t.indices| && t.indices[j] == i && i !in t.indices[j + 1..]
      ensures NameOf(image, tables, tables.count, i) == StringAtRva(image, t.nameRvas[j])
    {
      forall k | j < k < tables.count ensures !Names(image.data, tables, k, i) {
        assert t.indices[j + 1..][k - j - 1] == t.indices[k];
      }
      NamedByTheLast(image, tables, tables.count, i, j);
    }
  }
}
