// The import walk of the PE reader in tools/inspect_game.py.
module PeImports {
  import opened Bytes
  import opened Sequences
  import opened Wrappers
  import opened PeImage

  function ThunkWidth(pe: Pe): nat { if pe.plus then 8 else 4 }

  function OrdinalFlag(pe: Pe): nat { if pe.plus then 0x8000_0000_0000_0000 else 0x8000_0000 }

  // What one non-zero thunk contributes.  A width-bounded value has the flag bit set iff it reaches the
  // flag, and masking with 0x7FFFFFFF keeps the low 31 bits.
  function ThunkName(pe: Pe, raw: nat): (names: seq<string>)
    ensures |names| <= 1
  {
    if raw >= OrdinalFlag(pe) then []
    else
      match Off(pe.sections, raw % 0x8000_0000)
      case None => []
      case Some(at) => [CStr(pe.data, Some(at + 2))]
  }

  // Of a thunk that is no ordinal only the low 31 bits count.
  lemma HighBitsAreIgnored(pe: Pe, low: nat, high: nat)
    requires low < 0x8000_0000
    requires low + high * 0x8000_0000 < if pe.plus then 0x8000_0000_0000_0000 else 0x8000_0000
    ensures ThunkName(pe, low + high * 0x8000_0000) == ThunkName(pe, low)
  {
    hide Off, CStr;
    assert (low + high * 0x8000_0000) % 0x8000_0000 == low;
  }

  // The names in the thunk table at file offset `off`, up to a zero thunk or the end of the file.
  function ThunkNamesAt(pe: Pe, off: nat): seq<string>
    decreases |pe.data| - off
  {
    if off + ThunkWidth(pe) > |pe.data| then []
    else
      var raw := Field(pe.data, off, ThunkWidth(pe));
      if raw == 0 then [] else ThunkName(pe, raw) + ThunkNamesAt(pe, off + ThunkWidth(pe))
  }

  function ThunkTable(pe: Pe, rva: nat): seq<string> {
    match Off(pe.sections, rva)
    case None => []
    case Some(off) => ThunkNamesAt(pe, off)
  }

  // How many thunks the walk from file offset `off` passes, ordinals and unmapped names included.
  function ThunksWalked(pe: Pe, off: nat): nat
    decreases |pe.data| - off
  {
    if off + ThunkWidth(pe) > |pe.data| || Field(pe.data, off, ThunkWidth(pe)) == 0 then 0
    else 1 + ThunksWalked(pe, off + ThunkWidth(pe))
  }

  // Pe._thunk_names; `steps` counts the rounds of its loop.
  method ThunkNames(pe: Pe, rva: nat) returns (names: seq<string>, ghost steps: nat)
    ensures names == ThunkTable(pe, rva)
    ensures (if pe.plus then 8 else 4) * steps <= |pe.data|
  {
    hide ThunkName, Off;
    names, steps := [], 0;
    var start := Off(pe.sections, rva);
    if start.None? { return; }
    var off, width := start.value, ThunkWidth(pe);
    while true
      invariant start.value <= off
      invariant names + ThunkNamesAt(pe, off) == ThunkNamesAt(pe, start.value)
      invariant steps + ThunksWalked(pe, off) == ThunksWalked(pe, start.value)
      decreases |pe.data| - off
    {
      if off + width > |pe.data| { break; }
      var raw := Field(pe.data, off, width);
      if raw == 0 { break; }
      var name := ThunkName(pe, raw);
      Associative(names, name, ThunkNamesAt(pe, off + width));
      names, off, steps := names + name, off + width, steps + 1;
    }
    assert names + [] == names;
    if start.value <= |pe.data| { ThunkNamesFit(pe, start.value); }
  }

  // The walk passes no more thunks than fit in the file, and each yields at most one name.
  lemma {:induction false} ThunkNamesFit(pe: Pe, off: nat)
    requires off <= |pe.data|
    ensures (if pe.plus then 8 else 4) * ThunksWalked(pe, off) <= |pe.data| - off
    ensures |ThunkNamesAt(pe, off)| <= ThunksWalked(pe, off)
    decreases |pe.data| - off
  {
    if off + ThunkWidth(pe) <= |pe.data| { ThunkNamesFit(pe, off + ThunkWidth(pe)); }
  }

  // One descriptor's contribution: a DLL and the names imported from it.
  datatype Import = Import(dll: string, names: seq<string>)

  const IMPORT := 1
  const DELAY_IMPORT := 13

  function Stride(directory: nat): nat { if directory == DELAY_IMPORT then 32 else 20 }

  predicate AllZero(bytes: seq<Byte>) {
    forall k :: 0 <= k < |bytes| ==> bytes[k] == 0
  }

  function DllRva(pe: Pe, directory: nat, rec: nat): nat
    requires rec + Stride(directory) <= |pe.data|
  {
    if directory == DELAY_IMPORT then Field(pe.data, rec + 8, 4) else Field(pe.data, rec + 12, 4)
  }

  function ThunkRva(pe: Pe, directory: nat, rec: nat): nat
    requires rec + Stride(directory) <= |pe.data|
  {
    if directory == DELAY_IMPORT then Field(pe.data, rec + 16, 4)
    else if Field(pe.data, rec, 4) != 0 then Field(pe.data, rec, 4)
    else Field(pe.data, rec + 16, 4)
  }

  // What one descriptor contributes; one without a DLL name is passed over.
  function DescriptorImport(pe: Pe, directory: nat, rec: nat): seq<Import>
    requires rec + Stride(directory) <= |pe.data|
  {
    var dll := CStr(pe.data, Off(pe.sections, DllRva(pe, directory, rec)));
    if dll == "" then [] else [Import(dll, ThunkTable(pe, ThunkRva(pe, directory, rec)))]
  }

  // The descriptors from file offset `rec` on, up to an all-zero record or the end of the file.
  function DescriptorsAt(pe: Pe, directory: nat, rec: nat): seq<Import>
    decreases |pe.data| - rec
  {
    if rec + Stride(directory) > |pe.data| || AllZero(pe.data[rec..rec + Stride(directory)]) then []
    else
      DescriptorImport(pe, directory, rec) + DescriptorsAt(pe, directory, rec + Stride(directory))
  }

  // How many descriptors the walk from file offset `rec` passes, those without a DLL name included.
  function DescriptorsWalked(pe: Pe, directory: nat, rec: nat): nat
    decreases |pe.data| - rec
  {
    if rec + Stride(directory) > |pe.data| || AllZero(pe.data[rec..rec + Stride(directory)]) then 0
    else 1 + DescriptorsWalked(pe, directory, rec + Stride(directory))
  }

  function Descriptors(pe: Pe, directory: nat): seq<Import> {
    if directory >= |pe.dirs| || pe.dirs[directory].rva == 0 then []
    else
      match Off(pe.sections, pe.dirs[directory].rva)
      case None => []
      case Some(base) => DescriptorsAt(pe, directory, base)
  }

  /******* An insertion-ordered dictionary of lists *******/

  function NamesFrom(imports: seq<Import>, dll: string): seq<string> {
    if imports == [] then []
    else (if imports[0].dll == dll then imports[0].names else []) + NamesFrom(imports[1..], dll)
  }

  // The distinct DLLs in order of first mention.
  function FirstSeen(imports: seq<Import>): (dlls: seq<string>)
    ensures forall i, j :: 0 <= i < j < |dlls| ==> dlls[i] != dlls[j]
    ensures forall d :: d in dlls <==> exists e :: e in imports && e.dll == d
  {
    if imports == [] then []
    else
      var n := |imports| - 1;
      var dlls := FirstSeen(imports[..n]);
      assert forall e :: e in imports <==> e in imports[..n] || e == imports[n];
      if imports[n].dll in dlls then dlls else dlls + [imports[n].dll]
  }

  // Of two DLLs the one listed first is mentioned before the other is.
  lemma {:induction false} FirstSeenInOrder(imports: seq<Import>, i: nat, j: nat)
    requires i < j < |FirstSeen(imports)|
    ensures exists k :: 0 <= k < |imports| && imports[k].dll == FirstSeen(imports)[i]
                        && forall l :: 0 <= l <= k ==> imports[l].dll != FirstSeen(imports)[j]
  {
    var n := |imports| - 1;
    var dlls, earlier := FirstSeen(imports), FirstSeen(imports[..n]);
    if j < |earlier| {
      FirstSeenInOrder(imports[..n], i, j);
      var k :| 0 <= k < n && imports[..n][k].dll == earlier[i]
               && forall l :: 0 <= l <= k ==> imports[..n][l].dll != earlier[j];
      assert forall l :: 0 <= l <= k ==> imports[l] == imports[..n][l];
    } else {
      assert earlier[i] in earlier;
      var e :| e in imports[..n] && e.dll == earlier[i];
      var k :| 0 <= k < n && imports[..n][k] == e;
      forall l | 0 <= l <= k ensures imports[l].dll != dlls[j] {
        assert imports[l] == imports[..n][l] && imports[..n][l] in imports[..n];
      }
      assert imports[k] == e;
    }
  }

  function Keys(out: seq<Import>): seq<string> {
    seq(|out|, i requires 0 <= i < |out| => out[i].dll)
  }

  // `out` has each DLL of `imports` once, in order of first mention, with all its names in order.
  ghost predicate GroupedByDll(imports: seq<Import>, out: seq<Import>) {
    && Keys(out) == FirstSeen(imports)
    && forall i :: 0 <= i < |out| ==> out[i].names == NamesFrom(imports, out[i].dll)
  }

  lemma {:induction false} NamesFromAppend(imports: seq<Import>, last: Import, dll: string)
    ensures NamesFrom(imports + [last], dll) == NamesFrom(imports, dll) + if last.dll == dll then last.names else []
  {
    if imports == [] {
      assert [last][1..] == [] && [] + [last] == [last];
    } else {
      assert (imports + [last])[1..] == imports[1..] + [last];
      NamesFromAppend(imports[1..], last, dll);
    }
  }

  lemma {:induction false} NamesFromNothing(imports: seq<Import>, dll: string)
    requires forall e :: e in imports ==> e.dll != dll
    ensures NamesFrom(imports, dll) == []
  {
    if imports != [] { NamesFromNothing(imports[1..], dll); }
  }

  // The entry of `dll`, made at its first mention, takes the new names at its end.
  method ExtendDict(out: seq<Import>, dll: string, names: seq<string>, ghost imports: seq<Import>)
    returns (next: seq<Import>)
    requires GroupedByDll(imports, out)
    ensures GroupedByDll(imports + [Import(dll, names)], next)
    ensures |next| <= |out| + 1
  {
    ghost var last := Import(dll, names);
    ghost var all := imports + [last];
    assert all[..|imports|] == imports;
    var i := 0;
    while i < |out| && out[i].dll != dll
      invariant 0 <= i <= |out| && forall k :: 0 <= k < i ==> out[k].dll != dll
    {
      i := i + 1;
    }
    next := if i < |out| then out[i := Import(dll, out[i].names + names)] else out + [Import(dll, names)];
    if i < |out| {
      assert Keys(out)[i] == dll;
      assert Keys(next) == Keys(out);
    } else {
      assert forall k :: 0 <= k < |out| ==> Keys(out)[k] != dll;
      assert dll !in FirstSeen(imports);
      assert Keys(next) == Keys(out) + [dll];
      NamesFromNothing(imports, dll);
    }
    forall k | 0 <= k < |next| ensures next[k].names == NamesFrom(all, next[k].dll) {
      NamesFromAppend(imports, last, next[k].dll);
      if k < |out| && k != i { assert Keys(next)[k] == out[k].dll; }
      if k < |out| && i < |out| && k != i { assert Keys(out)[k] != Keys(out)[i]; }
    }
  }

  // The body of the descriptor loop.
  method AddDescriptor(pe: Pe, directory: nat, rec: nat, out: seq<Import>, ghost walked: seq<Import>)
    returns (next: seq<Import>)
    requires rec + Stride(directory) <= |pe.data| && GroupedByDll(walked, out)
    ensures GroupedByDll(walked + DescriptorImport(pe, directory, rec), next)
  {
    next := out;
    var dll := CStr(pe.data, Off(pe.sections, DllRva(pe, directory, rec)));
    if dll != "" {
      var names, steps := ThunkNames(pe, ThunkRva(pe, directory, rec));
      next := ExtendDict(out, dll, names, walked);
    } else {
      assert walked + [] == walked;
    }
  }

  lemma EmptyDict()
    ensures GroupedByDll([], [])
  {
  }

  // Pe.imports; `steps` counts the rounds of its loop.
  method Imports(pe: Pe, directory: nat) returns (out: seq<Import>, ghost steps: nat)
    ensures GroupedByDll(Descriptors(pe, directory), out)
    ensures (if directory == 13 then 32 else 20) * steps <= |pe.data|
  {
    hide DescriptorImport, Off, Field, GroupedByDll;
    out, steps := [], 0;
    EmptyDict();
    if directory >= |pe.dirs| || pe.dirs[directory].rva == 0 { return; }
    var base := Off(pe.sections, pe.dirs[directory].rva);
    if base.None? { return; }
    var rec, stride := base.value, Stride(directory);
    ghost var walked: seq<Import> := [];
    while true
      invariant base.value <= rec
      invariant walked + DescriptorsAt(pe, directory, rec) == DescriptorsAt(pe, directory, base.value)
      invariant steps + DescriptorsWalked(pe, directory, rec) == DescriptorsWalked(pe, directory, base.value)
      invariant GroupedByDll(walked, out)
      decreases |pe.data| - rec
    {
      if rec + stride > |pe.data| || AllZero(pe.data[rec..rec + stride]) { break; }
      ghost var found := DescriptorImport(pe, directory, rec);
      out := AddDescriptor(pe, directory, rec, out, walked);
      Associative(walked, found, DescriptorsAt(pe, directory, rec + stride));
      walked, rec, steps := walked + found, rec + stride, steps + 1;
    }
    assert walked + [] == walked;
    if base.value <= |pe.data| { DescriptorsFit(pe, directory, base.value); }
  }

  // The walk passes no more descriptors than fit in the file, and each yields at most one import.
  lemma {:induction false} DescriptorsFit(pe: Pe, directory: nat, rec: nat)
    requires rec <= |pe.data|
    ensures (if directory == 13 then 32 else 20) * DescriptorsWalked(pe, directory, rec) <= |pe.data| - rec
    ensures |DescriptorsAt(pe, directory, rec)| <= DescriptorsWalked(pe, directory, rec)
    decreases |pe.data| - rec
  {
    if rec + Stride(directory) <= |pe.data| { DescriptorsFit(pe, directory, rec + Stride(directory)); }
  }
}
