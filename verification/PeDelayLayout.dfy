// Delay-load tables as a linker lays them out (Microsoft PE Format, "Delay-Load Import Tables"), and what the walk
// reads from them: the module handle's address where the DLL name's should be.
module PeDelayLayout {
  import opened Bytes
  import opened Wrappers
  import opened PeImage
  import opened PeImports
  import opened PeLayout

  datatype DelayImport = DelayImport(
    attributes: DWord, nameRva: DWord, moduleHandle: DWord, addressTable: DWord, nameTable: DWord, bound: DWord,
    unload: DWord, timestamp: DWord, name: seq<Byte>, entries: seq<Entry>)

  // Delay-Load Directory Table: one descriptor a DLL, closed by an all-zero descriptor.
  ghost predicate DescriptorLaidOut(data: seq<Byte>, rec: nat, d: DelayImport) {
    && rec + 32 <= |data|
    && Holds(data, rec, Encode(d.attributes, 4)) && Holds(data, rec + 4, Encode(d.nameRva, 4))
    && Holds(data, rec + 8, Encode(d.moduleHandle, 4)) && Holds(data, rec + 12, Encode(d.addressTable, 4))
    && Holds(data, rec + 16, Encode(d.nameTable, 4)) && Holds(data, rec + 20, Encode(d.bound, 4))
    && Holds(data, rec + 24, Encode(d.unload, 4)) && Holds(data, rec + 28, Encode(d.timestamp, 4))
  }

  ghost predicate DelayLaidOut(pe: Pe, d: DelayImport) {
    && d.nameRva != 0 && d.name != [] && 0 !in d.name && Mapped(pe, d.nameRva, d.name + [0])
    && Mapped(pe, d.nameTable, ThunkBytes(pe, d.entries))
    && forall e :: e in d.entries ==> EntryLaidOut(pe, e)
  }

  ghost predicate TableLaidOut(pe: Pe, rec: nat, delays: seq<DelayImport>)
    decreases delays
  {
    if delays == [] then Holds(pe.data, rec, Encode(0, 32))
    else
      && DescriptorLaidOut(pe.data, rec, delays[0]) && DelayLaidOut(pe, delays[0])
      && TableLaidOut(pe, rec + 32, delays[1..])
  }

  // What the tables say.
  function DelayListing(delays: seq<DelayImport>): seq<Import> {
    if delays == [] then []
    else [Import(Ascii(delays[0].name), EntryNames(delays[0].entries))] + DelayListing(delays[1..])
  }

  // The text at the place of the module handle, which the walk takes for the DLL name.
  function HandleText(pe: Pe, d: DelayImport): string {
    CStr(pe.data, Off(pe.sections, d.moduleHandle))
  }

  // What the walk finds.
  function DelayFound(pe: Pe, delays: seq<DelayImport>): seq<Import> {
    if delays == [] then []
    else
      (if HandleText(pe, delays[0]) == "" then []
       else [Import(HandleText(pe, delays[0]), EntryNames(delays[0].entries))])
      + DelayFound(pe, delays[1..])
  }

  lemma DelayFields(data: seq<Byte>, rec: nat, d: DelayImport)
    requires DescriptorLaidOut(data, rec, d)
    ensures Field(data, rec + 4, 4) == d.nameRva && Field(data, rec + 8, 4) == d.moduleHandle
    ensures Field(data, rec + 16, 4) == d.nameTable
  {
    hide Little, Encode;
    Widths();
    FieldHolds(data, rec + 4, d.nameRva, 4);
    FieldHolds(data, rec + 8, d.moduleHandle, 4);
    FieldHolds(data, rec + 16, d.nameTable, 4);
  }

  lemma DelayIsSeen(data: seq<Byte>, rec: nat, d: DelayImport)
    requires DescriptorLaidOut(data, rec, d) && d.nameRva != 0
    ensures !AllZero(data[rec..rec + 32])
  {
    hide Little, Encode;
    DelayFields(data, rec, d);
    ZerosAreZero(4);
    var field := data[rec + 4..rec + 8];
    assert |field| == 4;
    assert forall k :: 0 <= k < 4 ==> field[k] == data[rec..rec + 32][k + 4];
    assert Little(field) != 0;
  }

  lemma DelayReadBack(pe: Pe, rec: nat, d: DelayImport)
    requires Disjoint(pe.sections) && DescriptorLaidOut(pe.data, rec, d) && DelayLaidOut(pe, d)
    ensures rec + 32 <= |pe.data|
    ensures DescriptorImport(pe, DELAY_IMPORT, rec)
              == if HandleText(pe, d) == "" then [] else [Import(HandleText(pe, d), EntryNames(d.entries))]
  {
    hide Off, CStr, ThunkBytes, Mapped, DescriptorLaidOut, EntryLaidOut;
    assert rec + 32 <= |pe.data| by { DelayFits(pe.data, rec, d); }
    DelayFields(pe.data, rec, d);
    OffMapped(pe, d.nameTable, ThunkBytes(pe, d.entries));
    ThunksReadBack(pe, Off(pe.sections, d.nameTable).value, d.entries);
  }

  lemma DelayFits(data: seq<Byte>, rec: nat, d: DelayImport)
    requires DescriptorLaidOut(data, rec, d)
    ensures rec + 32 <= |data|
  {
  }

  lemma {:induction false} DelaysReadBack(pe: Pe, rec: nat, delays: seq<DelayImport>)
    requires Disjoint(pe.sections) && TableLaidOut(pe, rec, delays)
    ensures DescriptorsAt(pe, DELAY_IMPORT, rec) == DelayFound(pe, delays)
    decreases delays
  {
    hide DelayLaidOut, DescriptorLaidOut, DescriptorImport, HandleText, EntryNames;
    if delays == [] {
      ZerosAreZero(32);
    } else {
      DelayReadBack(pe, rec, delays[0]);
      DelayIsSeen(pe.data, rec, delays[0]) by { DelayIsNamed(pe, delays[0]); }
      DelaysReadBack(pe, rec + 32, delays[1..]);
    }
  }

  lemma DelayIsNamed(pe: Pe, d: DelayImport)
    requires DelayLaidOut(pe, d)
    ensures d.nameRva != 0
  {
  }

  // A laid-out delay-load directory is read back exactly when each DLL's name also stands where its module handle
  // is kept; where the handles still are zero, nothing is found at all.
  lemma DelayImportsReadBack(pe: Pe, base: nat, delays: seq<DelayImport>)
    requires Disjoint(pe.sections) && 13 < |pe.dirs| && pe.dirs[13].rva != 0
    requires Off(pe.sections, pe.dirs[13].rva) == Some(base) && TableLaidOut(pe, base, delays)
    ensures Descriptors(pe, 13) == DelayListing(delays) <==>
              forall d :: d in delays ==> HandleText(pe, d) == Ascii(d.name)
    ensures (forall d :: d in delays ==> HandleText(pe, d) == "") ==> Descriptors(pe, 13) == []
  {
    hide Off, Disjoint, TableLaidOut, HandleText, DelayListing, DelayFound;
    DelaysReadBack(pe, base, delays);
    FoundIsListed(pe, base, delays);
    if forall d :: d in delays ==> HandleText(pe, d) == "" { NothingFound(pe, delays); }
  }

  lemma {:induction false} FoundIsListed(pe: Pe, rec: nat, delays: seq<DelayImport>)
    requires TableLaidOut(pe, rec, delays)
    ensures |DelayFound(pe, delays)| <= |delays| == |DelayListing(delays)|
    ensures DelayFound(pe, delays) == DelayListing(delays) <==>
              forall d :: d in delays ==> HandleText(pe, d) == Ascii(d.name)
    decreases delays
  {
    hide HandleText, EntryNames, DescriptorLaidOut;
    if delays != [] {
      FoundIsListed(pe, rec + 32, delays[1..]);
      assert delays == [delays[0]] + delays[1..];
      assert Ascii(delays[0].name) != "";
      var found, listed := DelayFound(pe, delays), DelayListing(delays);
      if found == listed {
        assert found[1..] == DelayFound(pe, delays[1..]) && listed[1..] == DelayListing(delays[1..]);
        assert found[0] == listed[0];
      }
    }
  }

  lemma {:induction false} NothingFound(pe: Pe, delays: seq<DelayImport>)
    requires forall d :: d in delays ==> HandleText(pe, d) == ""
    ensures DelayFound(pe, delays) == []
  {
    if delays != [] { NothingFound(pe, delays[1..]); }
  }

  /******* A laid-out table that is not found *******/

  function DescriptorBytes(d: DelayImport): seq<Byte> {
    Encode(d.attributes, 4) + (Encode(d.nameRva, 4) + (Encode(d.moduleHandle, 4) + (Encode(d.addressTable, 4)
      + (Encode(d.nameTable, 4) + (Encode(d.bound, 4) + (Encode(d.unload, 4) + Encode(d.timestamp, 4)))))))
  }

  lemma DescriptorBytesLaidOut(data: seq<Byte>, rec: nat, d: DelayImport)
    requires Holds(data, rec, DescriptorBytes(d))
    ensures |DescriptorBytes(d)| == 32 && DescriptorLaidOut(data, rec, d)
  {
    hide Encode, Holds;
    var tail7 := Encode(d.unload, 4) + Encode(d.timestamp, 4);
    var tail6 := Encode(d.bound, 4) + tail7;
    var tail5 := Encode(d.nameTable, 4) + tail6;
    var tail4 := Encode(d.addressTable, 4) + tail5;
    var tail3 := Encode(d.moduleHandle, 4) + tail4;
    var tail2 := Encode(d.nameRva, 4) + tail3;
    HoldsConcat(data, rec, Encode(d.attributes, 4), tail2);
    HoldsConcat(data, rec + 4, Encode(d.nameRva, 4), tail3);
    HoldsConcat(data, rec + 8, Encode(d.moduleHandle, 4), tail4);
    HoldsConcat(data, rec + 12, Encode(d.addressTable, 4), tail5);
    HoldsConcat(data, rec + 16, Encode(d.nameTable, 4), tail6);
    HoldsConcat(data, rec + 20, Encode(d.bound, 4), tail7);
    HoldsConcat(data, rec + 24, Encode(d.unload, 4), Encode(d.timestamp, 4));
    HoldsFits(data, rec + 28, Encode(d.timestamp, 4));
  }

  // One DLL named "a", delay-loaded without imports: a zero byte, to which the module handle points, the
  // descriptor, the closing zeros, which serve as its empty name table, and its name.
  const ONE_DELAY := DelayImport(0, 65, 0, 0, 33, 0, 0, 0, [97], [])

  function OneDelayBytes(): seq<Byte> {
    [0] + DescriptorBytes(ONE_DELAY) + Encode(0, 32) + [97, 0]
  }

  function OneDelayImage(plus: bool): Pe {
    Pe(OneDelayBytes(), plus, seq(16, i => if i == 13 then Directory(1, 64) else Directory(0, 0)),
       [Section(0, 67, 0, 67)])
  }

  lemma OneDelayHolds()
    ensures |OneDelayBytes()| == 67 && OneDelayBytes()[0] == 0
    ensures Holds(OneDelayBytes(), 1, DescriptorBytes(ONE_DELAY)) && Holds(OneDelayBytes(), 33, Encode(0, 32))
    ensures Holds(OneDelayBytes(), 65, [97, 0])
  {
    hide Encode, Holds;
    var bytes, zeros := DescriptorBytes(ONE_DELAY), Encode(0, 32);
    HoldsMiddle([0], bytes, zeros + [97, 0]);
    HoldsMiddle([0] + bytes, zeros, [97, 0]);
    HoldsMiddle([0] + bytes + zeros, [97, 0], []);
    assert [0] + bytes + (zeros + [97, 0]) == OneDelayBytes();
    assert [0] + bytes + zeros + [97, 0] + [] == OneDelayBytes();
  }

  lemma {:induction false} ZerosSplit(n: nat, m: nat)
    ensures Encode(0, n + m) == Encode(0, n) + Encode(0, m)
  {
    if n > 0 { ZerosSplit(n - 1, m); }
  }

  lemma OneDelayIsLaidOut(plus: bool)
    ensures var pe := OneDelayImage(plus);
            && pe.dirs[13].rva != 0 && Off(pe.sections, pe.dirs[13].rva) == Some(1)
            && Disjoint(pe.sections)
            && TableLaidOut(pe, 1, [ONE_DELAY])
  {
    hide Encode, Holds, DescriptorBytes, OneDelayBytes, DescriptorLaidOut;
    var pe := OneDelayImage(plus);
    OneDelayHolds();
    DescriptorBytesLaidOut(pe.data, 1, ONE_DELAY);
    var width := ThunkWidth(pe);
    ZerosSplit(width, 32 - width);
    HoldsConcat(pe.data, 33, Encode(0, width), Encode(0, 32 - width));
    var s := pe.sections[0];
    assert MappedIn(pe, s, 65, [97] + [0]) by { assert [97] + [0] == [97, 0]; }
    assert MappedIn(pe, s, 33, Encode(0, width));
    assert TableLaidOut(pe, 33, []);
    assert [ONE_DELAY][1..] == [];
  }

  // The walk finds nothing in it.
  lemma DelayNameIsMissed(plus: bool)
    ensures var pe := OneDelayImage(plus);
            && pe.dirs[13].rva != 0 && Off(pe.sections, pe.dirs[13].rva) == Some(1)
            && Disjoint(pe.sections)
            && TableLaidOut(pe, 1, [ONE_DELAY])
            && Descriptors(pe, 13) == [] && DelayListing([ONE_DELAY]) == [Import("a", [])]
  {
    hide OneDelayBytes, TableLaidOut, Encode, Disjoint;
    var pe := OneDelayImage(plus);
    OneDelayIsLaidOut(plus);
    OneDelayHolds();
    assert FindNul(pe.data, 0) == 0;
    assert HandleText(pe, ONE_DELAY) == "";
    DelayImportsReadBack(pe, 1, [ONE_DELAY]);
    assert Ascii([97]) == "a";
    assert [ONE_DELAY][1..] == [];
  }
}
