// Elf of tools/inspect_game.py: the undefined dynamic symbols of an ELF64 image.
module ElfSymbols {
  import opened Bytes
  import opened Sequences

  const MAGIC: seq<Byte> := [0x7F, 0x45, 0x4C, 0x46]
  const SHT_DYNSYM := 11

  datatype Section = Section(kind: nat, off: nat, size: nat, link: nat, entsize: nat)

  // `Narrow` is a 32-bit image: recognized, its symbols not walked.
  datatype Result = NotElf | Narrow | Parsed(undefined: seq<string>)

  predicate IsElf(data: seq<Byte>) {
    |data| >= 64 && data[..4] == MAGIC
  }

  function SectionAt(data: seq<Byte>, b: nat): Section
    requires b + 64 <= |data|
  {
    Section(Field(data, b + 4, 4), Field(data, b + 24, 8), Field(data, b + 32, 8), Field(data, b + 40, 4),
            Field(data, b + 56, 8))
  }

  // At most `count` headers, `stride` apart; the first that does not fit in the file ends the table.
  function SectionsFrom(data: seq<Byte>, b: nat, stride: nat, count: nat): (sections: seq<Section>)
    ensures |sections| <= count
    decreases count
  {
    if count == 0 || b + 64 > |data| then []
    else [SectionAt(data, b)] + SectionsFrom(data, b + stride, stride, count - 1)
  }

  // What one symbol contributes.  A name without a NUL loses the last byte of the file.
  function SymbolName(data: seq<Byte>, e: nat, strings: nat): (names: seq<string>)
    requires e + 24 <= |data|
    ensures |names| <= 1
  {
    var at := strings + Field(data, e, 4);
    if Field(data, e + 6, 2) != 0 || Field(data, e, 4) == 0 then []
    else [Ascii(Slice(data, at, FindNul(data, at)))]
  }

  function SymbolsFrom(data: seq<Byte>, e: nat, entsize: nat, count: nat, strings: nat): seq<string>
    decreases count
  {
    if count == 0 || e + 24 > |data| then []
    else SymbolName(data, e, strings) + SymbolsFrom(data, e + entsize, entsize, count - 1, strings)
  }

  function TableNames(data: seq<Byte>, sections: seq<Section>, s: Section): seq<string> {
    if s.kind != SHT_DYNSYM || s.entsize == 0 || s.link >= |sections| then []
    else SymbolsFrom(data, s.off, s.entsize, s.size / s.entsize, sections[s.link].off)
  }

  function TablesNames(data: seq<Byte>, sections: seq<Section>, rest: seq<Section>): seq<string> {
    if rest == [] then [] else TableNames(data, sections, rest[0]) + TablesNames(data, sections, rest[1..])
  }

  function Sections(data: seq<Byte>): seq<Section>
    requires IsElf(data)
  {
    SectionsFrom(data, Field(data, 0x28, 8), Field(data, 0x3A, 2), Field(data, 0x3C, 2))
  }

  function Undefined(data: seq<Byte>): Result {
    if !IsElf(data) then NotElf
    else if data[4] != 2 then Narrow
    else Parsed(TablesNames(data, Sections(data), Sections(data)))
  }

  // Elf.__init__
  method LoadElf(data: seq<Byte>) returns (r: Result)
    ensures r == Undefined(data)
  {
    if |data| < 64 || data[..4] != MAGIC { return NotElf; }
    if data[4] != 2 { return Narrow; }
    var sections := ReadSections(data, Field(data, 0x28, 8), Field(data, 0x3A, 2), Field(data, 0x3C, 2));
    var undefined: seq<string> := [];
    for i := 0 to |sections|
      invariant undefined + TablesNames(data, sections, sections[i..]) == TablesNames(data, sections, sections)
    {
      var s := sections[i];
      var names := ReadTable(data, sections, s);
      Associative(undefined, names, TablesNames(data, sections, sections[i + 1..]));
      assert sections[i..][1..] == sections[i + 1..];
      undefined := undefined + names;
    }
    assert undefined + [] == undefined;
    r := Parsed(undefined);
  }

  method ReadSections(data: seq<Byte>, off: nat, stride: nat, count: nat) returns (sections: seq<Section>)
    ensures sections == SectionsFrom(data, off, stride, count)
  {
    sections := [];
    var i: nat, b: nat := 0, off;
    while i < count && b + 64 <= |data|
      invariant i <= count
      invariant sections + SectionsFrom(data, b, stride, count - i) == SectionsFrom(data, off, stride, count)
    {
      Associative(sections, [SectionAt(data, b)], SectionsFrom(data, b + stride, stride, count - i - 1));
      sections, i, b := sections + [SectionAt(data, b)], i + 1, b + stride;
    }
    assert sections + [] == sections;
  }

  method ReadTable(data: seq<Byte>, sections: seq<Section>, s: Section) returns (names: seq<string>)
    ensures names == TableNames(data, sections, s)
  {
    if s.kind != SHT_DYNSYM || s.entsize == 0 || s.link >= |sections| { return []; }
    names := ReadSymbols(data, s.off, s.entsize, s.size / s.entsize, sections[s.link].off);
  }

  method ReadSymbols(data: seq<Byte>, off: nat, entsize: nat, count: nat, strings: nat) returns (names: seq<string>)
    ensures names == SymbolsFrom(data, off, entsize, count, strings)
  {
    hide SymbolName;
    names := [];
    var k: nat, e: nat := 0, off;
    while k < count && e + 24 <= |data|
      invariant k <= count
      invariant names + SymbolsFrom(data, e, entsize, count - k, strings)
                == SymbolsFrom(data, off, entsize, count, strings)
    {
      var name := SymbolName(data, e, strings);
      Associative(names, name, SymbolsFrom(data, e + entsize, entsize, count - k - 1, strings));
      names, k, e := names + name, k + 1, e + entsize;
    }
    assert names + [] == names;
  }

  /******* ELF64 images as the System V gABI, chapter 4, lays them out *******/

  datatype Symbol = Symbol(nameOffset: nat, section: nat, name: seq<Byte>)

  // Field widths of Elf64_Sym and Elf64_Shdr.
  ghost predicate SymbolLaidOut(data: seq<Byte>, e: nat, strings: nat, y: Symbol) {
    && e + 24 <= |data| && y.nameOffset < 0x1_0000_0000 && y.section < 0x1_0000
    && Holds(data, e, Encode(y.nameOffset, 4)) && Holds(data, e + 6, Encode(y.section, 2))
    && 0 !in y.name && Holds(data, strings + y.nameOffset, y.name + [0])
  }

  ghost predicate TableLaidOut(data: seq<Byte>, e: nat, strings: nat, symbols: seq<Symbol>)
    decreases symbols
  {
    symbols != [] ==> SymbolLaidOut(data, e, strings, symbols[0]) && TableLaidOut(data, e + 24, strings, symbols[1..])
  }

  ghost predicate SectionLaidOut(data: seq<Byte>, b: nat, s: Section) {
    && b + 64 <= |data|
    && s.kind < 0x1_0000_0000 && s.link < 0x1_0000_0000
    && s.off < Pow256(8) && s.size < Pow256(8) && s.entsize < Pow256(8)
    && Holds(data, b + 4, Encode(s.kind, 4)) && Holds(data, b + 24, Encode(s.off, 8))
    && Holds(data, b + 32, Encode(s.size, 8)) && Holds(data, b + 40, Encode(s.link, 4))
    && Holds(data, b + 56, Encode(s.entsize, 8))
  }

  ghost predicate SectionsLaidOut(data: seq<Byte>, b: nat, stride: nat, sections: seq<Section>)
    decreases sections
  {
    sections != [] ==> SectionLaidOut(data, b, sections[0]) && SectionsLaidOut(data, b + stride, stride, sections[1..])
  }

  // tables[i] are the symbols of section i; only dynamic symbol tables, of type 11, have any.
  ghost predicate TablesLaidOut(data: seq<Byte>, sections: seq<Section>, rest: seq<Section>, tables: seq<seq<Symbol>>) {
    && |rest| == |tables|
    && (rest != [] ==>
          && (if rest[0].kind != 11 then tables[0] == [] else
                && rest[0].entsize == 24 && rest[0].size == 24 * |tables[0]| && rest[0].link < |sections|
                && TableLaidOut(data, rest[0].off, sections[rest[0].link].off, tables[0]))
          && TablesLaidOut(data, sections, rest[1..], tables[1..]))
  }

  const SHN_LORESERVE := 0xFF00

  // e_shnum.  From SHN_LORESERVE sections on it is 0 and the first section header's size is the number.
  function DeclaredCount(sections: seq<Section>): nat {
    if |sections| < SHN_LORESERVE then |sections| else 0
  }

  ghost predicate LaidOut(data: seq<Byte>, table: nat, stride: nat, sections: seq<Section>, tables: seq<seq<Symbol>>) {
    && |data| >= 64 && data[..4] == [0x7F, 0x45, 0x4C, 0x46] && data[4] == 2
    && table < Pow256(8) && stride < 0x1_0000
    && Holds(data, 0x28, Encode(table, 8)) && Holds(data, 0x3A, Encode(stride, 2))
    && Holds(data, 0x3C, Encode(DeclaredCount(sections), 2))
    && (|sections| >= SHN_LORESERVE ==> sections[0].size == |sections|)
    && SectionsLaidOut(data, table, stride, sections)
    && TablesLaidOut(data, sections, sections, tables)
  }

  // The named symbols without a defining section, table by table.
  function WantedName(y: Symbol): seq<string> {
    if y.section == 0 && y.nameOffset != 0 then [Ascii(y.name)] else []
  }

  function Wanted(symbols: seq<Symbol>): seq<string> {
    if symbols == [] then [] else WantedName(symbols[0]) + Wanted(symbols[1..])
  }

  function AllWanted(tables: seq<seq<Symbol>>): seq<string> {
    if tables == [] then [] else Wanted(tables[0]) + AllWanted(tables[1..])
  }

  lemma SectionReadBack(data: seq<Byte>, b: nat, s: Section)
    requires SectionLaidOut(data, b, s)
    ensures b + 64 <= |data| && SectionAt(data, b) == s
  {
    hide Little, Encode;
    Widths();
    FieldHolds(data, b + 4, s.kind, 4);
    FieldHolds(data, b + 24, s.off, 8);
    FieldHolds(data, b + 32, s.size, 8);
    FieldHolds(data, b + 40, s.link, 4);
    FieldHolds(data, b + 56, s.entsize, 8);
  }

  lemma {:induction false} SectionsReadBack(data: seq<Byte>, b: nat, stride: nat, sections: seq<Section>)
    requires SectionsLaidOut(data, b, stride, sections)
    ensures SectionsFrom(data, b, stride, |sections|) == sections
    decreases sections
  {
    hide SectionLaidOut;
    if sections != [] {
      SectionReadBack(data, b, sections[0]);
      SectionsReadBack(data, b + stride, stride, sections[1..]);
    }
  }

  lemma SymbolReadBack(data: seq<Byte>, e: nat, strings: nat, y: Symbol)
    requires SymbolLaidOut(data, e, strings, y)
    ensures SymbolName(data, e, strings) == WantedName(y)
  {
    hide Little, Encode;
    Widths();
    FieldHolds(data, e, y.nameOffset, 4);
    FieldHolds(data, e + 6, y.section, 2);
    FindNulHolds(data, strings + y.nameOffset, y.name);
  }

  lemma SymbolStep(data: seq<Byte>, e: nat, strings: nat, y: Symbol, count: nat)
    requires SymbolLaidOut(data, e, strings, y) && count > 0
    ensures SymbolsFrom(data, e, 24, count, strings)
              == WantedName(y) + SymbolsFrom(data, e + 24, 24, count - 1, strings)
  {
    SymbolReadBack(data, e, strings, y);
  }

  lemma {:induction false} TableReadBack(data: seq<Byte>, e: nat, strings: nat, symbols: seq<Symbol>)
    requires TableLaidOut(data, e, strings, symbols)
    ensures SymbolsFrom(data, e, 24, |symbols|, strings) == Wanted(symbols)
    decreases symbols
  {
    if symbols != [] {
      SymbolStep(data, e, strings, symbols[0], |symbols|);
      TableReadBack(data, e + 24, strings, symbols[1..]);
    }
  }

  lemma {:induction false} TablesReadBack(data: seq<Byte>, sections: seq<Section>, rest: seq<Section>,
                                          tables: seq<seq<Symbol>>)
    requires TablesLaidOut(data, sections, rest, tables)
    ensures TablesNames(data, sections, rest) == AllWanted(tables)
    decreases rest
  {
    if rest != [] {
      var s := rest[0];
      if s.kind == SHT_DYNSYM {
        assert s.size / s.entsize == |tables[0]|;
        TableReadBack(data, s.off, sections[s.link].off, tables[0]);
      }
      TablesReadBack(data, sections, rest[1..], tables[1..]);
    }
  }

  lemma HeaderReadBack(data: seq<Byte>, table: nat, stride: nat, count: nat)
    requires IsElf(data) && table < Pow256(8) && stride < 0x1_0000 && count < 0x1_0000
    requires Holds(data, 0x28, Encode(table, 8)) && Holds(data, 0x3A, Encode(stride, 2))
    requires Holds(data, 0x3C, Encode(count, 2))
    ensures Sections(data) == SectionsFrom(data, table, stride, count)
  {
    hide Little, Encode;
    Widths();
    FieldHolds(data, 0x28, table, 8);
    FieldHolds(data, 0x3A, stride, 2);
    FieldHolds(data, 0x3C, count, 2);
  }

  // A name without a NUL is read to the last byte but one.
  lemma UnterminatedName(data: seq<Byte>, e: nat, strings: nat)
    requires e + 24 <= |data| && Field(data, e + 6, 2) == 0 && Field(data, e, 4) != 0
    requires strings + Field(data, e, 4) < |data| && 0 !in data[strings + Field(data, e, 4)..]
    ensures SymbolName(data, e, strings) == [Ascii(data[strings + Field(data, e, 4)..|data| - 1])]
  {
    hide Little;
    var at := strings + Field(data, e, 4);
    SliceToMinusOne(data, at);
  }

  // Without a section count in e_shnum no section is read, whatever the section table holds.
  lemma NoCountNoNames(data: seq<Byte>)
    requires IsElf(data) && data[4] == 2 && Field(data, 0x3C, 2) == 0
    ensures Undefined(data) == Parsed([])
  {
  }

  // The undefined names are those of every dynamic symbol table, in section then entry order, exactly when the
  // number of sections stands in e_shnum or there is no such name.
  lemma UndefinedReadBack(data: seq<Byte>, table: nat, stride: nat, sections: seq<Section>, tables: seq<seq<Symbol>>)
    requires LaidOut(data, table, stride, sections, tables)
    ensures Undefined(data) == Parsed(AllWanted(tables)) <==> |sections| < SHN_LORESERVE || AllWanted(tables) == []
    ensures |sections| >= SHN_LORESERVE ==> Undefined(data) == Parsed([])
  {
    HeaderReadBack(data, table, stride, DeclaredCount(sections));
    if |sections| < SHN_LORESERVE {
      SectionsReadBack(data, table, stride, sections);
      TablesReadBack(data, sections, sections, tables);
    }
  }
}
