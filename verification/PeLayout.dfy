// Import tables as a linker lays them out (Microsoft PE Format, "The .idata Section"), and the theorem
// that the walk reads back exactly what was laid out.
module PeLayout {
  import opened Bytes
  import opened Wrappers
  import opened PeImage
  import opened PeImports

  type DWord = v: nat | v < 0x1_0000_0000

  datatype Entry =
    | ByOrdinal(ordinal: nat)
    | ByName(rva: DWord, hint: nat, name: seq<Byte>)

  datatype DllImport = DllImport(
    lookupTable: DWord, timestamp: DWord, forwarder: DWord, nameRva: DWord, addressTable: DWord,
    name: seq<Byte>, entries: seq<Entry>)

  // No two sections share an address.
  ghost predicate Disjoint(sections: seq<Section>) {
    && (forall s :: s in sections ==> s.rawsize <= s.vsize)
    && forall i, j :: 0 <= i < j < |sections| ==>
         sections[i].vaddr + sections[i].vsize <= sections[j].vaddr
         || sections[j].vaddr + sections[j].vsize <= sections[i].vaddr
  }

  // `bytes` are mapped at `rva`, inside the file-backed part of one section.
  ghost predicate Mapped(pe: Pe, rva: nat, bytes: seq<Byte>) {
    exists s :: s in pe.sections && MappedIn(pe, s, rva, bytes)
  }

  predicate MappedIn(pe: Pe, s: Section, rva: nat, bytes: seq<Byte>) {
    && s.vaddr <= rva && rva + |bytes| <= s.vaddr + s.rawsize
    && Holds(pe.data, s.rawptr + (rva - s.vaddr), bytes)
  }

  // An ordinal is marked by the topmost bit of its thunk.
  function EntryValue(pe: Pe, e: Entry): nat {
    match e
    case ByOrdinal(ordinal) => (if pe.plus then 0x8000_0000_0000_0000 else 0x8000_0000) + ordinal
    case ByName(rva, _, _) => rva
  }

  // Import Lookup Table: one thunk an entry, closed by a zero thunk; 64 bits each in PE32+, 32 bits in PE32.
  function ThunkBytes(pe: Pe, entries: seq<Entry>): (bytes: seq<Byte>)
    ensures bytes != []
  {
    if entries == [] then Encode(0, if pe.plus then 8 else 4)
    else Encode(EntryValue(pe, entries[0]), if pe.plus then 8 else 4) + ThunkBytes(pe, entries[1..])
  }

  // Import Directory Table: one descriptor a DLL, closed by an all-zero descriptor.
  function DescriptorBytes(i: DllImport): seq<Byte> {
    Encode(i.lookupTable, 4) + (Encode(i.timestamp, 4) + (Encode(i.forwarder, 4)
      + (Encode(i.nameRva, 4) + Encode(i.addressTable, 4))))
  }

  function TableBytes(imports: seq<DllImport>): seq<Byte> {
    if imports == [] then Encode(0, 20) else DescriptorBytes(imports[0]) + TableBytes(imports[1..])
  }

  ghost predicate EntryLaidOut(pe: Pe, e: Entry) {
    match e
    case ByOrdinal(ordinal) => ordinal < 0x1_0000
    case ByName(rva, hint, name) =>
      0 < rva < 0x8000_0000 && hint < 0x1_0000 && 0 !in name && Mapped(pe, rva, Encode(hint, 2) + (name + [0]))
  }

  ghost predicate DllLaidOut(pe: Pe, i: DllImport) {
    && i.nameRva != 0 && i.name != [] && 0 !in i.name
    && Mapped(pe, i.nameRva, i.name + [0])
    && Mapped(pe, if i.lookupTable != 0 then i.lookupTable else i.addressTable, ThunkBytes(pe, i.entries))
    && forall e :: e in i.entries ==> EntryLaidOut(pe, e)
  }

  ghost predicate LaidOut(pe: Pe, imports: seq<DllImport>) {
    && Disjoint(pe.sections)
    && 1 < |pe.dirs| && pe.dirs[1].rva != 0 && Mapped(pe, pe.dirs[1].rva, TableBytes(imports))
    && forall i :: i in imports ==> DllLaidOut(pe, i)
  }

  // What the import table says, ordinals left out.
  function EntryNames(entries: seq<Entry>): seq<string> {
    if entries == [] then []
    else (if entries[0].ByName? then [Ascii(entries[0].name)] else []) + EntryNames(entries[1..])
  }

  function Listing(imports: seq<DllImport>): seq<Import> {
    seq(|imports|, k requires 0 <= k < |imports| => Import(Ascii(imports[k].name), EntryNames(imports[k].entries)))
  }

  /******* Addresses *******/

  lemma {:induction false} OffOfSection(sections: seq<Section>, s: Section, rva: nat)
    requires Disjoint(sections) && s in sections && s.vaddr <= rva < s.vaddr + s.rawsize
    ensures Off(sections, rva) == Some(s.rawptr + (rva - s.vaddr))
  {
    if s != sections[0] {
      var k :| 0 <= k < |sections| && sections[k] == s;
      assert !(sections[0].vaddr <= rva < sections[0].vaddr + sections[0].vsize);
      assert Disjoint(sections[1..]);
      assert sections[1..][k - 1] == s;
      OffOfSection(sections[1..], s, rva);
    }
  }

  // An address in no section, or in a section past the bytes the file has for it, maps nowhere.
  lemma {:induction false} OffUnmapped(sections: seq<Section>, rva: nat)
    requires forall s :: s in sections ==> !(s.vaddr <= rva < s.vaddr + s.rawsize)
    ensures Off(sections, rva) == None
  {
    if sections != [] {
      assert sections[0] in sections;
      OffUnmapped(sections[1..], rva);
    }
  }

  lemma OffMapped(pe: Pe, rva: nat, bytes: seq<Byte>)
    requires Disjoint(pe.sections) && Mapped(pe, rva, bytes) && bytes != []
    ensures Off(pe.sections, rva).Some? && Holds(pe.data, Off(pe.sections, rva).value, bytes)
  {
    var s :| s in pe.sections && MappedIn(pe, s, rva, bytes);
    OffOfSection(pe.sections, s, rva);
  }

  lemma CStrHolds(data: seq<Byte>, off: nat, name: seq<Byte>)
    requires Holds(data, off, name + [0]) && 0 !in name
    ensures CStr(data, Some(off)) == Ascii(name)
  {
    FindNulHolds(data, off, name);
  }

  /******* Thunks *******/

  lemma HintNameReadBack(pe: Pe, rva: nat, hint: nat, name: seq<Byte>)
    requires Disjoint(pe.sections) && 0 !in name && Mapped(pe, rva, Encode(hint, 2) + (name + [0]))
    ensures Off(pe.sections, rva).Some? && CStr(pe.data, Some(Off(pe.sections, rva).value + 2)) == Ascii(name)
  {
    OffMapped(pe, rva, Encode(hint, 2) + (name + [0]));
    HoldsConcat(pe.data, Off(pe.sections, rva).value, Encode(hint, 2), name + [0]);
    CStrHolds(pe.data, Off(pe.sections, rva).value + 2, name);
  }

  lemma ThunkNameOfEntry(pe: Pe, e: Entry)
    requires Disjoint(pe.sections) && EntryLaidOut(pe, e)
    ensures ThunkName(pe, EntryValue(pe, e)) == if e.ByName? then [Ascii(e.name)] else []
    ensures 0 < EntryValue(pe, e) < Pow256(ThunkWidth(pe))
  {
    hide Off, CStr, Encode, Mapped;
    Widths();
    if e.ByName? { HintNameReadBack(pe, e.rva, e.hint, e.name); }
  }

  lemma {:induction false} ThunksReadBack(pe: Pe, off: nat, entries: seq<Entry>)
    requires Disjoint(pe.sections) && forall e :: e in entries ==> EntryLaidOut(pe, e)
    requires Holds(pe.data, off, ThunkBytes(pe, entries))
    ensures ThunkNamesAt(pe, off) == EntryNames(entries)
    decreases entries
  {
    var width := ThunkWidth(pe);
    if entries == [] {
      Widths();
      FieldHolds(pe.data, off, 0, width);
    } else {
      var e := entries[0];
      ThunkNameOfEntry(pe, e);
      HoldsConcat(pe.data, off, Encode(EntryValue(pe, e), width), ThunkBytes(pe, entries[1..]));
      FieldHolds(pe.data, off, EntryValue(pe, e), width);
      ThunksReadBack(pe, off + width, entries[1..]);
    }
  }

  /******* Descriptors *******/

  lemma DescriptorFields(data: seq<Byte>, rec: nat, i: DllImport)
    requires Holds(data, rec, DescriptorBytes(i))
    ensures |DescriptorBytes(i)| == 20
    ensures Field(data, rec, 4) == i.lookupTable && Field(data, rec + 12, 4) == i.nameRva
    ensures Field(data, rec + 16, 4) == i.addressTable
  {
    Widths();
    var last := Encode(i.nameRva, 4) + Encode(i.addressTable, 4);
    var tail := Encode(i.forwarder, 4) + last;
    HoldsConcat(data, rec, Encode(i.lookupTable, 4), Encode(i.timestamp, 4) + tail);
    HoldsConcat(data, rec + 4, Encode(i.timestamp, 4), tail);
    HoldsConcat(data, rec + 8, Encode(i.forwarder, 4), last);
    HoldsConcat(data, rec + 12, Encode(i.nameRva, 4), Encode(i.addressTable, 4));
    FieldHolds(data, rec, i.lookupTable, 4);
    FieldHolds(data, rec + 12, i.nameRva, 4);
    FieldHolds(data, rec + 16, i.addressTable, 4);
  }

  lemma {:induction false} ZerosAreZero(n: nat)
    ensures AllZero(Encode(0, n))
    ensures forall bytes: seq<Byte> :: |bytes| == n && AllZero(bytes) ==> Little(bytes) == 0
  {
    if n > 0 {
      ZerosAreZero(n - 1);
      forall bytes: seq<Byte> | |bytes| == n && AllZero(bytes) ensures Little(bytes) == 0 {
        assert |bytes[1..]| == n - 1 && AllZero(bytes[1..]);
      }
    }
  }

  lemma NameRvaIsSeen(data: seq<Byte>, rec: nat, i: DllImport)
    requires Holds(data, rec, DescriptorBytes(i)) && i.nameRva != 0
    ensures rec + 20 <= |data| && !AllZero(data[rec..rec + 20])
  {
    DescriptorFields(data, rec, i);
    ZerosAreZero(4);
    var field := data[rec + 12..rec + 16];
    assert |field| == 4;
    assert forall k :: 0 <= k < 4 ==> field[k] == data[rec..rec + 20][k + 12];
    assert Little(field) != 0;
  }

  lemma DescriptorReadBack(pe: Pe, rec: nat, i: DllImport)
    requires Disjoint(pe.sections) && DllLaidOut(pe, i) && Holds(pe.data, rec, DescriptorBytes(i))
    ensures |DescriptorBytes(i)| == 20 && rec + 20 <= |pe.data| && !AllZero(pe.data[rec..rec + 20])
    ensures DescriptorImport(pe, IMPORT, rec) == [Import(Ascii(i.name), EntryNames(i.entries))]
  {
    hide Off, CStr, ThunkBytes, Mapped, Encode, DescriptorBytes;
    DescriptorFields(pe.data, rec, i);
    NameRvaIsSeen(pe.data, rec, i);
    OffMapped(pe, i.nameRva, i.name + [0]);
    CStrHolds(pe.data, Off(pe.sections, i.nameRva).value, i.name);
    var table := if i.lookupTable != 0 then i.lookupTable else i.addressTable;
    OffMapped(pe, table, ThunkBytes(pe, i.entries));
    ThunksReadBack(pe, Off(pe.sections, table).value, i.entries);
  }

  lemma {:induction false} DescriptorsReadBack(pe: Pe, rec: nat, imports: seq<DllImport>)
    requires Disjoint(pe.sections) && forall i :: i in imports ==> DllLaidOut(pe, i)
    requires Holds(pe.data, rec, TableBytes(imports))
    ensures DescriptorsAt(pe, IMPORT, rec) == Listing(imports)
    decreases imports
  {
    hide DllLaidOut, DescriptorImport, DescriptorBytes, EntryNames;
    if imports == [] {
      ZerosAreZero(20);
    } else {
      var i := imports[0];
      assert DllLaidOut(pe, i);
      HoldsConcat(pe.data, rec, DescriptorBytes(i), TableBytes(imports[1..]));
      DescriptorReadBack(pe, rec, i);
      DescriptorsReadBack(pe, rec + 20, imports[1..]);
      assert Listing(imports) == [Listing(imports)[0]] + Listing(imports[1..]);
    }
  }

  // The walk over a laid-out import directory finds exactly its DLLs and named imports, in order.
  lemma ImportsReadBack(pe: Pe, imports: seq<DllImport>)
    requires LaidOut(pe, imports)
    ensures Descriptors(pe, IMPORT) == Listing(imports)
  {
    OffMapped(pe, pe.dirs[IMPORT].rva, TableBytes(imports));
    DescriptorsReadBack(pe, Off(pe.sections, pe.dirs[IMPORT].rva).value, imports);
  }

  /******* Whole images *******/

  datatype RawSection = RawSection(virtualSize: DWord, vaddr: DWord, rawsize: DWord, rawptr: DWord)

  function Extent(h: RawSection): Section {
    Section(h.vaddr, if h.virtualSize < h.rawsize then h.rawsize else h.virtualSize, h.rawptr, h.rawsize)
  }

  function Extents(headers: seq<RawSection>): seq<Section> {
    seq(|headers|, i requires 0 <= i < |headers| => Extent(headers[i]))
  }

  ghost predicate SectionLaidOut(data: seq<Byte>, at: nat, h: RawSection) {
    && at + 40 <= |data|
    && Holds(data, at + 8, Encode(h.virtualSize, 4)) && Holds(data, at + 12, Encode(h.vaddr, 4))
    && Holds(data, at + 16, Encode(h.rawsize, 4)) && Holds(data, at + 20, Encode(h.rawptr, 4))
  }

  ghost predicate DirectoryLaidOut(data: seq<Byte>, at: nat, d: Directory) {
    && d.rva < 0x1_0000_0000 && d.size < 0x1_0000_0000
    && Holds(data, at, Encode(d.rva, 4)) && Holds(data, at + 4, Encode(d.size, 4))
  }

  // The MS-DOS header's offset field, the signature, the fields of the COFF and optional headers that say where
  // the data directories and the section table are.
  ghost predicate HeaderLaidOut(data: seq<Byte>, lfanew: nat, plus: bool, optSize: nat, ndirs: nat, nsections: nat) {
    && |data| >= 0x40 && lfanew + 24 <= |data| && lfanew < 0x1_0000_0000 && optSize < 0x1_0000 && nsections < 0x1_0000
    && ndirs < 0x1_0000_0000
    && Holds(data, 0, [0x4D, 0x5A]) && Holds(data, 0x3C, Encode(lfanew, 4))
    && Holds(data, lfanew, [0x50, 0x45, 0, 0])
    && Holds(data, lfanew + 6, Encode(nsections, 2)) && Holds(data, lfanew + 20, Encode(optSize, 2))
    && Holds(data, lfanew + 24, Encode(if plus then 0x20B else 0x10B, 2))
    && Holds(data, lfanew + 24 + (if plus then 108 else 92), Encode(ndirs, 4))
  }

  // A header may declare any number of directories; `dirs` are those among the sixteen the format defines.
  ghost predicate ImageLaidOut(data: seq<Byte>, lfanew: nat, plus: bool, optSize: nat, ndirs: nat, dirs: seq<Directory>,
                               headers: seq<RawSection>)
  {
    var at := lfanew + 24 + (if plus then 112 else 96);
    && HeaderLaidOut(data, lfanew, plus, optSize, ndirs, |headers|) && |dirs| == (if ndirs < 16 then ndirs else 16)
    && (forall i :: 0 <= i < |dirs| ==> DirectoryLaidOut(data, at + 8 * i, dirs[i]))
    && forall i :: 0 <= i < |headers| ==> SectionLaidOut(data, lfanew + 24 + optSize + 40 * i, headers[i])
  }

  lemma HeaderReadBack(data: seq<Byte>, lfanew: nat, plus: bool, optSize: nat, ndirs: nat, nsections: nat)
    requires HeaderLaidOut(data, lfanew, plus, optSize, ndirs, nsections)
    ensures IsPe(data) && OptionalHeader(data) == lfanew + 24 && SectionTable(data) == lfanew + 24 + optSize
    ensures SectionCount(data) == nsections && OptionalHeader(data) + 2 <= |data| && IsPlus(data) == plus
    ensures DirectoryCountAt(data) == lfanew + 24 + (if plus then 108 else 92)
    ensures DirectoryCountAt(data) + 4 <= |data| && DirectoryCount(data) == if ndirs < 16 then ndirs else 16
  {
    hide Little, Encode;
    Widths();
    FieldHolds(data, 0x3C, lfanew, 4);
    FieldHolds(data, lfanew + 6, nsections, 2);
    FieldHolds(data, lfanew + 20, optSize, 2);
    FieldHolds(data, lfanew + 24, if plus then 0x20B else 0x10B, 2);
    FieldHolds(data, lfanew + 24 + (if plus then 108 else 92), ndirs, 4);
  }

  lemma SectionReadBack(data: seq<Byte>, at: nat, h: RawSection)
    requires SectionLaidOut(data, at, h)
    ensures at + 40 <= |data| && SectionHeader(data, at) == Extent(h)
  {
    hide Little, Encode;
    Widths();
    FieldHolds(data, at + 8, h.virtualSize, 4);
    FieldHolds(data, at + 12, h.vaddr, 4);
    FieldHolds(data, at + 16, h.rawsize, 4);
    FieldHolds(data, at + 20, h.rawptr, 4);
  }

  lemma DirectoryReadBack(data: seq<Byte>, at: nat, d: Directory)
    requires DirectoryLaidOut(data, at, d)
    ensures at + 8 <= |data| && DirectoryAt(data, at) == d
  {
    hide Little;
    Widths();
    FieldHolds(data, at, d.rva, 4);
    FieldHolds(data, at + 4, d.size, 4);
  }

  // Loading a laid-out image gives back its directories and sections.
  method LoadLayout(data: seq<Byte>, ghost lfanew: nat, ghost plus: bool, ghost optSize: nat, ghost ndirs: nat,
                    ghost dirs: seq<Directory>, ghost headers: seq<RawSection>) returns (r: Loaded)
    requires ImageLaidOut(data, lfanew, plus, optSize, ndirs, dirs, headers)
    ensures r == Loaded(Pe(data, plus, dirs, Extents(headers)))
  {
    hide DirectoryLaidOut, SectionLaidOut, Field, DirectoryAt, SectionHeader, IsPlus, HeaderLaidOut, Extent,
      DirectoryCount, DirectoryCountAt, SectionTable, SectionCount, OptionalHeader, IsPe;
    HeaderReadBack(data, lfanew, plus, optSize, ndirs, |headers|);
    var at := lfanew + 24 + (if plus then 112 else 96);
    forall i | 0 <= i < |dirs| ensures at + 8 * i + 8 <= |data| && DirectoryAt(data, at + 8 * i) == dirs[i] {
      DirectoryReadBack(data, at + 8 * i, dirs[i]);
    }
    forall i | 0 <= i < |headers|
      ensures SectionTable(data) + 40 * i + 40 <= |data|
      ensures SectionHeader(data, SectionTable(data) + 40 * i) == Extent(headers[i]) {
      SectionReadBack(data, SectionTable(data) + 40 * i, headers[i]);
    }
    r := LoadPe(data);
    if |dirs| > 0 { assert at + 8 * (|dirs| - 1) + 8 <= |data|; }
    assert HeaderFits(data);
    assert r.pe.dirs == dirs;
    assert |r.pe.sections| == |headers|;
    assert r.pe.sections == Extents(headers);
  }

  // The imports of a laid-out image: one entry a DLL, holding its named imports from all its descriptors.
  method ImportsOfImage(data: seq<Byte>, ghost lfanew: nat, ghost plus: bool, ghost optSize: nat,
                        ghost ndirs: nat, ghost dirs: seq<Directory>, ghost headers: seq<RawSection>,
                        ghost imports: seq<DllImport>)
    returns (out: seq<Import>)
    requires ImageLaidOut(data, lfanew, plus, optSize, ndirs, dirs, headers)
    requires LaidOut(Pe(data, plus, dirs, Extents(headers)), imports)
    ensures GroupedByDll(Listing(imports), out)
  {
    var r := LoadLayout(data, lfanew, plus, optSize, ndirs, dirs, headers);
    ImportsReadBack(r.pe, imports);
    ghost var steps;
    out, steps := Imports(r.pe, IMPORT);
  }
}
