/** PEFile::GetExports: an image's exported functions, from the tables of its export directory. */
module PEExports {
  import opened Optional
  import opened PEImage
  import opened Units

  const MAX_EXPORTS: nat := 0x10_0000

  datatype ExportDirectory = ExportDirectory(name: nat, base: nat, numberOfFunctions: nat, numberOfNames: nat,
                                             addressOfFunctions: nat, addressOfNames: nat, addressOfNameOrdinals: nat)

  datatype Function = Function(name: seq<byte>, ordinal: nat, rva: nat, forwarder: seq<byte>)

  datatype Exports = Exports(name: seq<byte>, base: nat, functions: seq<Function>)

  function ReadDirectory(data: seq<byte>, offset: nat): Option<ExportDirectory> {
    if !Has(data, offset, 40) then None
    else
      Some(ExportDirectory(Number(data[offset + 12..], 4), Number(data[offset + 16..], 4),
                           Number(data[offset + 20..], 4), Number(data[offset + 24..], 4),
                           Number(data[offset + 28..], 4), Number(data[offset + 32..], 4),
                           Number(data[offset + 36..], 4)))
  }

  // What is exported

  /** What a slot of the function table holds, or 0, as in a gap, if it is not in the file. */
  ghost function SlotRva(data: seq<byte>, table: nat, i: nat): nat {
    var rva := At(data, table + i * 4, 4);
    if rva.Some? then rva.value else 0
  }

  /** The slots that are not gaps, in order. */
  ghost function Slots(data: seq<byte>, table: nat, count: nat): seq<nat> {
    if count == 0 then []
    else Slots(data, table, count - 1) + if SlotRva(data, table, count - 1) != 0 then [count - 1] else []
  }

  /** Where the name tables are, and how many names they have. */
  datatype NameTables = NameTables(names: nat, ordinals: nat, count: nat)

  /** A name entry that is in the file and names a function. */
  ghost predicate Names(data: seq<byte>, t: NameTables, j: nat, i: nat) {
    At(data, t.names + j * 4, 4).Some? && At(data, t.ordinals + j * 2, 2) == Some(i)
  }

  /** A function's name: by the last of the first name entries that name it. */
  ghost function NameOf(image: Image, t: NameTables, count: nat, i: nat): seq<byte> {
    if count == 0 then []
    else if Names(image.data, t, count - 1, i) then
      StringAtRva(image, At(image.data, t.names + (count - 1) * 4, 4).value)
    else NameOf(image, t, count - 1, i)
  }

  ghost function TablesOf(image: Image, e: ExportDirectory): NameTables {
    var names, ordinals := RvaToOffset(image, e.addressOfNames), RvaToOffset(image, e.addressOfNameOrdinals);
    if names.Some? && ordinals.Some? then NameTables(names.value, ordinals.value, Min(e.numberOfNames, MAX_EXPORTS))
    else NameTables(0, 0, 0)
  }

  ghost predicate Inside(d: Directory, rva: nat) { d.rva <= rva < d.rva + d.size }

  /** The function of a slot. */
  ghost function FunctionAt(image: Image, d: Directory, e: ExportDirectory, t: NameTables, rva: nat, i: nat): Function {
    Function(NameOf(image, t, t.count, i), Low32(e.base + i), rva,
             if Inside(d, rva) then StringAtRva(image, rva) else [])
  }

  ghost function FunctionsOf(image: Image, d: Directory, e: ExportDirectory, table: nat,
                             slots: seq<nat>): seq<Function> {
    seq(|slots|, k requires 0 <= k < |slots| =>
      FunctionAt(image, d, e, TablesOf(image, e), SlotRva(image.data, table, slots[k]), slots[k]))
  }

  // The lemmas

  /** The slots listed are exactly those in the file that are not gaps, each once and in order. */
  lemma {:induction false} SlotsExactly(data: seq<byte>, table: nat, count: nat)
    ensures forall i :: i in Slots(data, table, count) <==>
      0 <= i < count && SlotRva(data, table, i) != 0
    ensures forall j, k :: 0 <= j < k < |Slots(data, table, count)| ==>
        Slots(data, table, count)[j] < Slots(data, table, count)[k]
  {
    hide SlotRva;
    if count > 0 {
      SlotsExactly(data, table, count - 1);
      var before := Slots(data, table, count - 1);
      assert forall j :: 0 <= j < |before| ==> before[j] in before;
    }
  }

  /** No two slots have the same ordinal. */
  lemma OrdinalsDiffer(base: nat, i: nat, j: nat)
    requires i < j < MAX_EXPORTS
    ensures Low32(base + i) != Low32(base + j)
  {}

  /** A function's name is that of the last entry naming it, whatever entries come before; without one it has none. */
  lemma {:induction false} NamedByTheLast(image: Image, t: NameTables, count: nat, i: nat, j: nat)
    requires j < count && Names(image.data, t, j, i) && forall k :: j < k < count ==> !Names(image.data, t, k, i)
    ensures NameOf(image, t, count, i) == StringAtRva(image, At(image.data, t.names + j * 4, 4).value)
  {
    hide StringAtRva, At;
    if j < count - 1 { NamedByTheLast(image, t, count - 1, i, j); }
  }

  lemma {:induction false} Nameless(image: Image, t: NameTables, count: nat, i: nat)
    requires forall k :: 0 <= k < count ==> !Names(image.data, t, k, i)
    ensures NameOf(image, t, count, i) == []
  {
    if count > 0 { Nameless(image, t, count - 1, i); }
  }

  /** What lies past the end of the file stays past it: a table's readable part is its start. */
  lemma {:induction false} PastTheEnd(image: Image, t: NameTables, from: nat, count: nat, i: nat)
    requires from <= count
        && (At(image.data, t.names + from * 4, 4).None? || At(image.data, t.ordinals + from * 2, 2).None?)
    ensures NameOf(image, t, count, i) == NameOf(image, t, from, i)
  {
    if from < count { PastTheEnd(image, t, from, count - 1, i); }
  }

  lemma {:induction false} SlotsPastTheEnd(data: seq<byte>, table: nat, from: nat, count: nat)
    requires from <= count && At(data, table + from * 4, 4).None?
    ensures Slots(data, table, count) == Slots(data, table, from)
  {
    hide SlotRva, At;
    if from < count {
      SlotPastTheEnd(data, table, from, count - 1);
      SlotsPastTheEnd(data, table, from, count - 1);
    }
  }

  lemma SlotPastTheEnd(data: seq<byte>, table: nat, from: nat, i: nat)
    requires from <= i && At(data, table + from * 4, 4).None?
    ensures SlotRva(data, table, i) == 0
  {}

  // The methods

  /** The names by function index, as the first of the name entries give them. */
  ghost predicate AreNames(names: seq<seq<byte>>, image: Image, t: NameTables, entries: nat) {
    forall i :: 0 <= i < |names| ==> names[i] == NameOf(image, t, entries, i)
  }

  lemma OneMoreName(names: seq<seq<byte>>, image: Image, t: NameTables, j: nat, index: nat)
    requires AreNames(names, image, t, j)
    requires At(image.data, t.names + j * 4, 4).Some? && At(image.data, t.ordinals + j * 2, 2) == Some(index)
    ensures AreNames(if index < |names|
                     then names[index := StringAtRva(image, At(image.data, t.names + j * 4, 4).value)]
                     else names,
                     image, t, j + 1)
  {
    hide At, StringAtRva;
  }

  lemma NoMoreNames(names: seq<seq<byte>>, image: Image, t: NameTables, j: nat)
    requires AreNames(names, image, t, j) && j <= t.count
    requires At(image.data, t.names + j * 4, 4).None? || At(image.data, t.ordinals + j * 2, 2).None?
    ensures AreNames(names, image, t, t.count)
  {
    forall i | 0 <= i < |names|
      ensures names[i] == NameOf(image, t, t.count, i)
    {
      PastTheEnd(image, t, j, t.count, i);
    }
  }

  method ReadNames(image: Image, t: NameTables, count: nat) returns (names: array<seq<byte>>)
    ensures fresh(names) && names.Length == count && AreNames(names[..], image, t, t.count)
  {
    names := new seq<byte>[count](_ => []);
    assert AreNames(names[..], image, t, 0);
    hide AreNames, At, StringAtRva;
    for j := 0 to t.count
      invariant AreNames(names[..], image, t, j)
    {
      var nameRva, index := At(image.data, t.names + j * 4, 4), At(image.data, t.ordinals + j * 2, 2);
      if nameRva.None? || index.None? {
        NoMoreNames(names[..], image, t, j);
        return;
      }
      OneMoreName(names[..], image, t, j, index.value);
      if index.value < count { names[index.value] := StringAtRva(image, nameRva.value); }
    }
  }

  lemma FunctionsMore(image: Image, d: Directory, e: ExportDirectory, table: nat, i: nat)
    ensures var fs := FunctionsOf(image, d, e, table, Slots(image.data, table, i));
      var rva := SlotRva(image.data, table, i);
      FunctionsOf(image, d, e, table, Slots(image.data, table, i + 1))
        == if rva == 0 then fs else fs + [FunctionAt(image, d, e, TablesOf(image, e), rva, i)]
  {
    hide FunctionAt, TablesOf, SlotRva;
  }

  lemma NoFunctions(image: Image, d: Directory, e: ExportDirectory, table: nat)
    ensures FunctionsOf(image, d, e, table, Slots(image.data, table, 0)) == []
  {}

  /** The functions of the slots in the file, without the gaps. */
  method ReadFunctions(image: Image, d: Directory, e: ExportDirectory, table: nat, names: array<seq<byte>>)
    returns (functions: seq<Function>)
    requires AreNames(names[..], image, TablesOf(image, e), TablesOf(image, e).count)
    ensures functions == FunctionsOf(image, d, e, table, Slots(image.data, table, names.Length))
  {
    hide FunctionsOf, TablesOf, StringAtRva, Low32, At;
    functions := [];
    NoFunctions(image, d, e, table);
    for i := 0 to names.Length
      invariant functions == FunctionsOf(image, d, e, table, Slots(image.data, table, i))
    {
      FunctionsMore(image, d, e, table, i);
      var rva := At(image.data, table + i * 4, 4);
      if rva.None? {
        assert SlotRva(image.data, table, i) == 0;
        SlotsPastTheEnd(image.data, table, i, names.Length);
        return;
      }
      if rva.value == 0 { continue; }
      var forwarder := if d.rva <= rva.value && rva.value - d.rva < d.size then StringAtRva(image, rva.value) else [];
      functions := functions + [Function(names[i], Low32(e.base + i), rva.value, forwarder)];
    }
  }

  method GetExports(image: Image) returns (exports: Option<Exports>)
    ensures exports == ExportsOf(image)
  {
    hide FunctionsOf, Slots, NameOf, RvaToOffset, StringAt, Number;
    if |image.directories| == 0 || image.directories[0].rva == 0 { return None; }
    var d := image.directories[0];
    var offset := RvaToOffset(image, d.rva);
    var e := if offset.Some? then ReadDirectory(image.data, offset.value) else None;
    if e.None? { return None; }
    var r := Exports(StringAtRva(image, e.value.name), e.value.base, []);
    var table := RvaToOffset(image, e.value.addressOfFunctions);
    if table.None? { return Some(r); }
    var names := RvaToOffset(image, e.value.addressOfNames);
    var ordinals := RvaToOffset(image, e.value.addressOfNameOrdinals);
    var t := if names.Some? && ordinals.Some?
             then NameTables(names.value, ordinals.value, Min(e.value.numberOfNames, MAX_EXPORTS))
             else NameTables(0, 0, 0);
    var byIndex := ReadNames(image, t, Min(e.value.numberOfFunctions, MAX_EXPORTS));
    var functions := ReadFunctions(image, d, e.value, table.value, byIndex);
    exports := Some(r.(functions := functions));
  }

  /** The export directory an image has: the first of its directories, where it is in the file. */
  ghost function DirectoryOf(image: Image): Option<ExportDirectory> {
    if |image.directories| == 0 || image.directories[0].rva == 0
      || RvaToOffset(image, image.directories[0].rva).None? then None
    else ReadDirectory(image.data, RvaToOffset(image, image.directories[0].rva).value)
  }

  ghost function ExportsOf(image: Image): Option<Exports> {
    var e := DirectoryOf(image);
    if e.None? then None
    else
      var table := RvaToOffset(image, e.value.addressOfFunctions);
      Some(Exports(StringAtRva(image, e.value.name), e.value.base,
        if table.None? then []
        else
          var count := Min(e.value.numberOfFunctions, MAX_EXPORTS);
          FunctionsOf(image, image.directories[0], e.value, table.value, Slots(image.data, table.value, count))))
  }

  ghost predicate Lists(fs: seq<Function>, ordinal: nat) { exists k :: 0 <= k < |fs| && fs[k].ordinal == ordinal }

  /** The ordinals of slots in order are different, and only a slot's own. */
  lemma OrdinalsListed(fs: seq<Function>, slots: seq<nat>, base: nat, i: nat)
    requires |fs| == |slots| && i < MAX_EXPORTS
    requires forall k :: 0 <= k < |slots| ==> slots[k] < MAX_EXPORTS && fs[k].ordinal == Low32(base + slots[k])
    requires forall j, k :: 0 <= j < k < |slots| ==> slots[j] < slots[k]
    ensures i in slots <==> Lists(fs, Low32(base + i))
    ensures forall j, k :: 0 <= j < k < |fs| ==> fs[j].ordinal != fs[k].ordinal
  {
    hide Low32;
    forall j, k | 0 <= j < k < |fs| ensures fs[j].ordinal != fs[k].ordinal { OrdinalsDiffer(base, slots[j], slots[k]); }
    forall k | 0 <= k < |fs| && fs[k].ordinal == Low32(base + i) ensures slots[k] == i {
      if slots[k] < i { OrdinalsDiffer(base, slots[k], i); }
      if slots[k] > i { OrdinalsDiffer(base, i, slots[k]); }
    }
    if i in slots {
      var k :| 0 <= k < |slots| && slots[k] == i;
      assert fs[k].ordinal == Low32(base + i);
    }
  }

  lemma FunctionsAt(image: Image, d: Directory, e: ExportDirectory, table: nat, slots: seq<nat>)
    ensures var fs := FunctionsOf(image, d, e, table, slots);
      |fs| == |slots| && forall k :: 0 <= k < |fs| ==> fs[k].ordinal == Low32(e.base + slots[k])
  {
    hide Low32, NameOf, TablesOf, StringAtRva, SlotRva;
  }

  /** A function listed is forwarded exactly if its RVA is in the export directory, and has the string there; the RVA is
      what its slot holds. */
  lemma ForwardedExactly(image: Image, d: Directory, e: ExportDirectory, table: nat, slots: seq<nat>, k: nat)
    requires k < |slots|
    ensures var fs := FunctionsOf(image, d, e, table, slots);
      && |fs| == |slots| && fs[k].rva == SlotRva(image.data, table, slots[k])
      && (d.rva <= fs[k].rva && fs[k].rva - d.rva < d.size ==> fs[k].forwarder == StringAtRva(image, fs[k].rva))
      && (fs[k].rva < d.rva || fs[k].rva - d.rva >= d.size ==> fs[k].forwarder == [])
  {
    hide NameOf, TablesOf, StringAtRva, SlotRva;
  }

  /** Every slot that is not a gap is exported once, at the ordinal counted from the base, and nothing else is. */
  lemma EachSlotOnce(image: Image, d: Directory, e: ExportDirectory, table: nat, count: nat, i: nat)
    requires i < count <= MAX_EXPORTS
    ensures var fs := FunctionsOf(image, d, e, table, Slots(image.data, table, count));
      && (Lists(fs, Low32(e.base + i)) <==> SlotRva(image.data, table, i) != 0)
      && forall j, k :: 0 <= j < k < |fs| ==> fs[j].ordinal != fs[k].ordinal
  {
    hide SlotRva, FunctionsOf, Low32, Lists;
    var slots := Slots(image.data, table, count);
    SlotsExactly(image.data, table, count);
    assert forall k :: 0 <= k < |slots| ==> slots[k] in slots;
    FunctionsAt(image, d, e, table, slots);
    OrdinalsListed(FunctionsOf(image, d, e, table, slots), slots, e.base, i);
  }
}
