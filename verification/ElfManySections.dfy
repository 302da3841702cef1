// ELF64 images with so many sections that e_shnum is 0, and a symbol the reader does not find in them.
module ElfManySections {
  import opened Bytes
  import opened ElfSymbols

  /******* Writing section headers *******/

  function HeaderBytes(s: Section): (bytes: seq<Byte>)
    ensures |bytes| == 64
  {
    Encode(0, 4) + (Encode(s.kind, 4) + (Encode(0, 16) + (Encode(s.off, 8) + (Encode(s.size, 8)
      + (Encode(s.link, 4) + (Encode(0, 12) + Encode(s.entsize, 8)))))))
  }

  function TableBytes(sections: seq<Section>): seq<Byte> {
    if sections == [] then [] else HeaderBytes(sections[0]) + TableBytes(sections[1..])
  }

  predicate FitsWidths(s: Section) {
    && s.kind < 0x1_0000_0000 && s.link < 0x1_0000_0000
    && s.off < Pow256(8) && s.size < Pow256(8) && s.entsize < Pow256(8)
  }

  lemma HeaderLaidOut(data: seq<Byte>, b: nat, s: Section)
    requires FitsWidths(s) && Holds(data, b, HeaderBytes(s))
    ensures SectionLaidOut(data, b, s)
  {
    hide Encode, Holds, Pow256;
    var tail7 := Encode(0, 12) + Encode(s.entsize, 8);
    var tail6 := Encode(s.link, 4) + tail7;
    var tail5 := Encode(s.size, 8) + tail6;
    var tail4 := Encode(s.off, 8) + tail5;
    var tail3 := Encode(0, 16) + tail4;
    HoldsConcat(data, b, Encode(0, 4), Encode(s.kind, 4) + tail3);
    HoldsConcat(data, b + 4, Encode(s.kind, 4), tail3);
    HoldsConcat(data, b + 8, Encode(0, 16), tail4);
    HoldsConcat(data, b + 24, Encode(s.off, 8), tail5);
    HoldsConcat(data, b + 32, Encode(s.size, 8), tail6);
    HoldsConcat(data, b + 40, Encode(s.link, 4), tail7);
    HoldsConcat(data, b + 44, Encode(0, 12), Encode(s.entsize, 8));
    HoldsFits(data, b + 56, Encode(s.entsize, 8));
  }

  lemma {:induction false} HeadersLaidOut(data: seq<Byte>, b: nat, sections: seq<Section>)
    requires (forall s :: s in sections ==> FitsWidths(s)) && Holds(data, b, TableBytes(sections))
    ensures SectionsLaidOut(data, b, 64, sections)
    decreases sections
  {
    hide HeaderBytes, SectionLaidOut, FitsWidths, Holds;
    if sections != [] {
      HoldsConcat(data, b, HeaderBytes(sections[0]), TableBytes(sections[1..]));
      HeaderLaidOut(data, b, sections[0]);
      HeadersLaidOut(data, b + 64, sections[1..]);
    }
  }

  /******* One undefined symbol *******/

  const NULL_SECTION := Section(0, 0, 0, 0, 0)
  const SYMBOL := Symbol(1, 0, [97])

  // The first section counts them all; then a dynamic symbol table (type 11) of one entry, its string table
  // (type 3), and empty sections.
  function ManySections(count: nat): (sections: seq<Section>)
    requires count >= 3
    ensures |sections| == count
  {
    [NULL_SECTION.(size := count), Section(11, 64, 24, 2, 24), Section(3, 88, 3, 0, 0)]
    + seq(count - 3, i => NULL_SECTION)
  }

  function ManyTables(count: nat): (tables: seq<seq<Symbol>>)
    requires count >= 3
    ensures |tables| == count
  {
    [[], [SYMBOL], []] + seq(count - 3, i => [])
  }

  // The file header's fields, the symbol, its strings "\0a\0" and the section headers, at offset 91.
  function FileHeader(): (bytes: seq<Byte>)
    ensures |bytes| == 64
  {
    [0x7F, 0x45, 0x4C, 0x46, 2] + Encode(0, 35) + Encode(91, 8) + Encode(0, 10) + Encode(64, 2) + Encode(0, 2)
    + Encode(0, 2)
  }

  function SymbolBytes(): (bytes: seq<Byte>)
    ensures |bytes| == 24
  {
    Encode(SYMBOL.nameOffset, 4) + Encode(0, 2) + Encode(SYMBOL.section, 2) + Encode(0, 16)
  }

  function ManySectionsImage(count: nat): seq<Byte>
    requires count >= 3
  {
    FileHeader() + SymbolBytes() + [0, 97, 0] + TableBytes(ManySections(count))
  }

  lemma ImageHolds(count: nat)
    requires count >= 3
    ensures var data := ManySectionsImage(count);
            && |data| >= 91 && data[..64] == FileHeader()
            && Holds(data, 0, FileHeader()) && Holds(data, 64, SymbolBytes()) && Holds(data, 89, [97, 0])
            && Holds(data, 91, TableBytes(ManySections(count)))
  {
    hide FileHeader, SymbolBytes, ManySections, TableBytes;
  }

  lemma FileHeaderFields(data: seq<Byte>)
    requires Holds(data, 0, FileHeader())
    ensures |data| >= 64 && data[..4] == [0x7F, 0x45, 0x4C, 0x46] && data[4] == 2
    ensures Holds(data, 0x28, Encode(91, 8)) && Holds(data, 0x3A, Encode(64, 2)) && Holds(data, 0x3C, Encode(0, 2))
  {
    hide Encode;
    var header := FileHeader();
    assert header[..4] == [0x7F, 0x45, 0x4C, 0x46] && header[4] == 2;
    assert header[0x28..0x30] == Encode(91, 8) && header[0x3A..0x3C] == Encode(64, 2);
    assert header[0x3C..0x3E] == Encode(0, 2);
    HoldsPart(data, 0, header, 0, 5);
    HoldsPart(data, 0, header, 0x28, 0x30);
    HoldsPart(data, 0, header, 0x3A, 0x3C);
    HoldsPart(data, 0, header, 0x3C, 0x3E);
  }

  lemma SymbolFields(data: seq<Byte>)
    requires Holds(data, 64, SymbolBytes()) && Holds(data, 89, [97, 0])
    ensures ElfSymbols.TableLaidOut(data, 64, 88, [SYMBOL])
  {
    hide Encode;
    var bytes := SymbolBytes();
    assert bytes[0..4] == Encode(1, 4) && bytes[6..8] == Encode(0, 2);
    HoldsPart(data, 64, bytes, 0, 4);
    HoldsPart(data, 64, bytes, 6, 8);
    assert [97] + [0] == [97, 0];
    assert [SYMBOL][1..] == [];
  }

  lemma HoldsPart(data: seq<Byte>, off: nat, bytes: seq<Byte>, from: nat, to: nat)
    requires Holds(data, off, bytes) && from <= to <= |bytes|
    ensures Holds(data, off + from, bytes[from..to])
  {
    assert bytes == bytes[..from] + (bytes[from..to] + bytes[to..]);
    HoldsConcat(data, off, bytes[..from], bytes[from..to] + bytes[to..]);
    HoldsConcat(data, off + from, bytes[from..to], bytes[to..]);
  }

  lemma {:induction false} EmptyTables(data: seq<Byte>, sections: seq<Section>, rest: seq<Section>,
                                       tables: seq<seq<Symbol>>)
    requires |rest| == |tables|
    requires forall i :: 0 <= i < |rest| ==> rest[i].kind != 11 && tables[i] == []
    ensures TablesLaidOut(data, sections, rest, tables) && AllWanted(tables) == []
    decreases rest
  {
    if rest != [] { EmptyTables(data, sections, rest[1..], tables[1..]); }
  }

  // One step of the layout of all tables.
  lemma TableBefore(data: seq<Byte>, sections: seq<Section>, rest: seq<Section>, tables: seq<seq<Symbol>>)
    requires rest != [] && |rest| == |tables| && TablesLaidOut(data, sections, rest[1..], tables[1..])
    requires if rest[0].kind != 11 then tables[0] == [] else
               && rest[0].entsize == 24 && rest[0].size == 24 * |tables[0]| && rest[0].link < |sections|
               && ElfSymbols.TableLaidOut(data, rest[0].off, sections[rest[0].link].off, tables[0])
    ensures TablesLaidOut(data, sections, rest, tables)
    ensures AllWanted(tables) == Wanted(tables[0]) + AllWanted(tables[1..])
  {
  }

  lemma ManyTablesLaidOut(data: seq<Byte>, count: nat)
    requires count >= 3 && ElfSymbols.TableLaidOut(data, 64, 88, [SYMBOL])
    ensures TablesLaidOut(data, ManySections(count), ManySections(count), ManyTables(count))
    ensures AllWanted(ManyTables(count)) == Wanted([SYMBOL])
  {
    hide TablesLaidOut, AllWanted, ElfSymbols.TableLaidOut, Wanted;
    var sections, tables := ManySections(count), ManyTables(count);
    EmptyTables(data, sections, sections[2..], tables[2..]);
    assert sections[1..][1..] == sections[2..] && tables[1..][1..] == tables[2..];
    TableBefore(data, sections, sections[1..], tables[1..]);
    TableBefore(data, sections, sections, tables);
    NoneWanted();
  }

  lemma NoneWanted()
    ensures Wanted([]) == []
  {
  }

  lemma SymbolIsWanted()
    ensures Wanted([SYMBOL]) == ["a"]
  {
    assert [SYMBOL][1..] == [];
    assert Ascii([97]) == "a";
  }

  // Every number of sections that e_shnum does not hold has a well-formed image whose symbol is lost.
  lemma ManySectionsLoseASymbol(count: nat)
    requires SHN_LORESERVE <= count < Pow256(8)
    ensures LaidOut(ManySectionsImage(count), 91, 64, ManySections(count), ManyTables(count))
    ensures AllWanted(ManyTables(count)) == ["a"] && Undefined(ManySectionsImage(count)) == Parsed([])
  {
    hide ManySectionsImage, FileHeader, SymbolBytes, Holds, Encode, TableBytes, SectionsLaidOut, TablesLaidOut,
      ElfSymbols.TableLaidOut, AllWanted, Wanted, Undefined;
    var data := ManySectionsImage(count);
    ImageHolds(count);
    FileHeaderFields(data);
    SymbolFields(data);
    ManyTablesLaidOut(data, count);
    SymbolIsWanted();
    Widths();
    assert forall s :: s in ManySections(count) ==> FitsWidths(s);
    HeadersLaidOut(data, 91, ManySections(count));
    UndefinedReadBack(data, 91, 64, ManySections(count), ManyTables(count));
  }
}
