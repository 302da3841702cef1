// The PE reader of tools/inspect_game.py: headers and the mapping of virtual addresses.
module PeImage {
  import opened Bytes
  import opened Wrappers

  // As Pe.__init__ keeps it: `vsize` is the larger of the virtual and the raw size.
  datatype Section = Section(vaddr: nat, vsize: nat, rawptr: nat, rawsize: nat)

  datatype Directory = Directory(rva: nat, size: nat)

  datatype Pe = Pe(data: seq<Byte>, plus: bool, dirs: seq<Directory>, sections: seq<Section>)

  datatype Loaded = NotPe | Truncated | Loaded(pe: Pe)

  const MZ: seq<Byte> := [0x4D, 0x5A]
  const PE_SIGNATURE: seq<Byte> := [0x50, 0x45, 0, 0]

  predicate IsPe(data: seq<Byte>) {
    && |data| >= 0x40 && data[..2] == MZ
    && Field(data, 0x3C, 4) + 24 <= |data|
    && data[Field(data, 0x3C, 4)..Field(data, 0x3C, 4) + 4] == PE_SIGNATURE
  }

  function OptionalHeader(data: seq<Byte>): nat
    requires IsPe(data)
  {
    Field(data, 0x3C, 4) + 24
  }

  predicate IsPlus(data: seq<Byte>)
    requires IsPe(data) && OptionalHeader(data) + 2 <= |data|
  {
    Field(data, OptionalHeader(data), 2) == 0x20B
  }

  function DirectoryCountAt(data: seq<Byte>): nat
    requires IsPe(data) && OptionalHeader(data) + 2 <= |data|
  {
    OptionalHeader(data) + (if IsPlus(data) then 108 else 92)
  }

  function DirectoryCount(data: seq<Byte>): nat
    requires IsPe(data) && OptionalHeader(data) + 2 <= |data| && DirectoryCountAt(data) + 4 <= |data|
  {
    var n := Field(data, DirectoryCountAt(data), 4);
    if n < 16 then n else 16
  }

  // The optional header is complete up to its last data directory; otherwise unpack_from raises.
  predicate HeaderFits(data: seq<Byte>)
    requires IsPe(data)
  {
    && OptionalHeader(data) + 2 <= |data|
    && DirectoryCountAt(data) + 4 <= |data|
    && DirectoryCountAt(data) + 4 + 8 * DirectoryCount(data) <= |data|
  }

  function SectionTable(data: seq<Byte>): nat
    requires IsPe(data)
  {
    OptionalHeader(data) + Field(data, Field(data, 0x3C, 4) + 20, 2)
  }

  function SectionCount(data: seq<Byte>): nat
    requires IsPe(data)
  {
    Field(data, Field(data, 0x3C, 4) + 6, 2)
  }

  function SectionHeader(data: seq<Byte>, base: nat): Section
    requires base + 40 <= |data|
  {
    var vsize, rawsize := Field(data, base + 8, 4), Field(data, base + 16, 4);
    Section(Field(data, base + 12, 4), if vsize < rawsize then rawsize else vsize, Field(data, base + 20, 4), rawsize)
  }

  function DirectoryAt(data: seq<Byte>, at: nat): Directory
    requires at + 8 <= |data|
  {
    Directory(Field(data, at, 4), Field(data, at + 4, 4))
  }

  method LoadPe(data: seq<Byte>) returns (r: Loaded)
    ensures r.NotPe? <==> !IsPe(data)
    ensures r.Truncated? <==> IsPe(data) && !HeaderFits(data)
    ensures r.Loaded? ==>
              && r.pe.data == data && r.pe.plus == IsPlus(data)
              && |r.pe.dirs| == DirectoryCount(data)
              && forall i :: 0 <= i < |r.pe.dirs| ==>
                   r.pe.dirs[i] == DirectoryAt(data, DirectoryCountAt(data) + 4 + 8 * i)
    // As many section headers as are declared and lie in the file.
    ensures r.Loaded? ==>
              && |r.pe.sections| <= SectionCount(data)
              && (|r.pe.sections| < SectionCount(data) ==> SectionTable(data) + 40 * |r.pe.sections| + 40 > |data|)
              && forall i :: 0 <= i < |r.pe.sections| ==>
                   && SectionTable(data) + 40 * i + 40 <= |data|
                   && r.pe.sections[i] == SectionHeader(data, SectionTable(data) + 40 * i)
  {
    hide Little;
    if |data| < 0x40 || data[..2] != MZ { return NotPe; }
    var lfanew := Field(data, 0x3C, 4);
    if lfanew + 24 > |data| || data[lfanew..lfanew + 4] != PE_SIGNATURE { return NotPe; }
    var nsections, optSize := Field(data, lfanew + 6, 2), Field(data, lfanew + 20, 2);
    var opt := lfanew + 24;
    if opt + 2 > |data| { return Truncated; }
    var plus := Field(data, opt, 2) == 0x20B;
    var dd := opt + (if plus then 112 else 96);
    if dd > |data| { return Truncated; }
    var ndirs := Field(data, dd - 4, 4);
    var dirs := ReadDirectories(data, dd, if ndirs < 16 then ndirs else 16);
    if dirs.None? { return Truncated; }
    var sections := ReadSections(data, opt + optSize, nsections);
    r := Loaded(Pe(data, plus, dirs.value, sections));
  }

  method ReadDirectories(data: seq<Byte>, at: nat, count: nat) returns (r: Option<seq<Directory>>)
    requires at <= |data|
    ensures r.None? <==> at + 8 * count > |data|
    ensures r.Some? ==> |r.value| == count && forall i :: 0 <= i < count ==> r.value[i] == DirectoryAt(data, at + 8 * i)
  {
    var dirs: seq<Directory> := [];
    for i := 0 to count
      invariant |dirs| == i && at + 8 * i <= |data|
      invariant forall k :: 0 <= k < i ==> dirs[k] == DirectoryAt(data, at + 8 * k)
    {
      if at + i * 8 + 8 > |data| { return None; }
      dirs := dirs + [DirectoryAt(data, at + 8 * i)];
    }
    r := Some(dirs);
  }

  // The section headers that are declared and lie in the file.
  method ReadSections(data: seq<Byte>, table: nat, count: nat) returns (sections: seq<Section>)
    ensures |sections| <= count && (|sections| < count ==> table + 40 * |sections| + 40 > |data|)
    ensures forall i :: 0 <= i < |sections| ==>
              table + 40 * i + 40 <= |data| && sections[i] == SectionHeader(data, table + 40 * i)
  {
    sections := [];
    for i := 0 to count
      invariant |sections| == i
      invariant forall k :: 0 <= k < i ==>
                  table + 40 * k + 40 <= |data| && sections[k] == SectionHeader(data, table + 40 * k)
    {
      if table + i * 40 + 40 > |data| { break; }
      sections := sections + [SectionHeader(data, table + 40 * i)];
    }
  }

  // Pe.off: file offset of a virtual address; the first section that contains it decides.
  function Off(sections: seq<Section>, rva: nat): Option<nat> {
    if sections == [] then None
    else
      var s := sections[0];
      if s.vaddr <= rva < s.vaddr + s.vsize then
        (if rva - s.vaddr < s.rawsize then Some(s.rawptr + (rva - s.vaddr)) else None)
      else Off(sections[1..], rva)
  }

  // Pe.cstr
  function CStr(data: seq<Byte>, off: Option<nat>): string {
    if off.None? || off.value >= |data| then ""
    else
      var end := FindNul(data, off.value);
      Ascii(data[off.value..if end != -1 then end else |data|])
  }

  // A string without a NUL runs to the end of the file; an unmapped one is empty.
  lemma CStrToTheEnd(data: seq<Byte>, off: nat)
    requires off < |data| && 0 !in data[off..]
    ensures CStr(data, Some(off)) == Ascii(data[off..]) && CStr(data, None) == ""
  {
  }
}
