// dotnet_pinvoke of tools/inspect_game.py: from a CLI metadata root to the strings of its #Strings heap.
module CliMetadata {
  import opened Bytes
  import opened Wrappers

  const BSJB: seq<Byte> := [0x42, 0x53, 0x4A, 0x42]
  const STRINGS := "#Strings"

  function Align4(off: nat): (r: nat)
    ensures r % 4 == 0 && off <= r < off + 4
  {
    (off + 3) / 4 * 4
  }

  // bytes.split(b"\0")
  function SplitNul(bytes: seq<Byte>): (pieces: seq<seq<Byte>>)
    ensures pieces != []
    decreases |bytes|
  {
    var at := FindNul(bytes, 0);
    if at == -1 then [bytes] else [bytes[..at]] + SplitNul(bytes[at + 1..])
  }

  function NonEmptyStrings(pieces: seq<seq<Byte>>): seq<string> {
    if pieces == [] then []
    else (if pieces[0] == [] then [] else [Ascii(pieces[0])]) + NonEmptyStrings(pieces[1..])
  }

  // The heap chosen by walking at most `count` stream headers from `off`; the last #Strings stream wins.
  // A name without a NUL ends one byte before the end of the file and sends the walk back to offset 0.
  function HeapFrom(meta: seq<Byte>, off: nat, count: nat, heap: Option<seq<Byte>>): Option<seq<Byte>>
    decreases count
  {
    if count == 0 || off + 8 > |meta| then heap
    else
      HeapFrom(meta, NextHeader(meta, off), count - 1, if IsStrings(meta, off) then Some(StreamAt(meta, off)) else heap)
  }

  function NextHeader(meta: seq<Byte>, off: nat): (next: nat)
    ensures next % 4 == 0
  {
    Align4(FindNul(meta, off + 8) + 1)
  }

  predicate IsStrings(meta: seq<Byte>, off: nat) {
    Ascii(Slice(meta, off + 8, FindNul(meta, off + 8))) == STRINGS
  }

  function StreamAt(meta: seq<Byte>, off: nat): seq<Byte>
    requires off + 8 <= |meta|
  {
    Slice(meta, Field(meta, off, 4), Field(meta, off, 4) + Field(meta, off + 4, 4))
  }

  datatype Result = Names(names: seq<string>) | Truncated

  predicate IsRoot(meta: seq<Byte>) {
    |meta| >= 4 && meta[..4] == BSJB
  }

  // Where the stream headers start, if the fixed part of the root is complete.
  function StreamsStart(meta: seq<Byte>): Option<nat>
    requires IsRoot(meta)
  {
    if |meta| < 16 || 16 + Field(meta, 12, 4) + 4 > |meta| then None else Some(16 + Field(meta, 12, 4) + 4)
  }

  function PInvokeNames(meta: seq<Byte>): Result {
    if !IsRoot(meta) then Names([])
    else
      match StreamsStart(meta)
      case None => Truncated
      case Some(start) =>
        match HeapFrom(meta, start, Field(meta, start - 2, 2), None)
        case None => Names([])
        case Some(heap) => Names(NonEmptyStrings(SplitNul(heap)))
  }

  // dotnet_pinvoke
  method DotnetPInvoke(meta: seq<Byte>) returns (r: Result)
    ensures r == PInvokeNames(meta)
  {
    hide Little, SplitNul, NonEmptyStrings;
    if |meta| < 4 || meta[..4] != BSJB { return Names([]); }
    if |meta| < 16 { return Truncated; }
    var off: nat := 16 + Field(meta, 12, 4) + 4;
    if off > |meta| { return Truncated; }
    var streams := Field(meta, off - 2, 2);
    var heap: Option<seq<Byte>> := None;
    var i := 0;
    ghost var start := off;
    while i < streams && off + 8 <= |meta|
      invariant i <= streams
      invariant HeapFrom(meta, off, streams - i, heap) == HeapFrom(meta, start, streams, None)
      decreases streams - i
    {
      var end := FindNul(meta, off + 8);
      if Ascii(Slice(meta, off + 8, end)) == STRINGS { heap := Some(StreamAt(meta, off)); }
      off, i := Align4(end + 1), i + 1;
    }
    r := if heap.None? then Names([]) else Names(NonEmptyStrings(SplitNul(heap.value)));
  }

  /******* Splitting *******/

  function JoinNul(pieces: seq<seq<Byte>>): seq<Byte>
    requires pieces != []
  {
    if |pieces| == 1 then pieces[0] else pieces[0] + ([0] + JoinNul(pieces[1..]))
  }

  lemma JoinNulCons(piece: seq<Byte>, pieces: seq<seq<Byte>>)
    requires pieces != []
    ensures JoinNul([piece] + pieces) == piece + ([0] + JoinNul(pieces))
  {
  }

  // Splitting loses nothing and cuts at every NUL.
  lemma {:induction false} SplitNulJoins(bytes: seq<Byte>)
    ensures JoinNul(SplitNul(bytes)) == bytes
    ensures forall p :: p in SplitNul(bytes) ==> 0 !in p
    decreases |bytes|
  {
    var at := FindNul(bytes, 0);
    if at != -1 {
      var rest := bytes[at + 1..];
      SplitNulJoins(rest);
      JoinNulCons(bytes[..at], SplitNul(rest));
      assert bytes == bytes[..at] + ([0] + rest);
    }
  }

  /******* Metadata roots as ECMA-335, Partition II, sections 24.2.1 to 24.2.3 lay them out *******/

  datatype Stream = Stream(offset: nat, size: nat, name: seq<Byte>)

  function Zeros(n: nat): (z: seq<Byte>)
    ensures |z| == n && forall b :: b in z ==> b == 0
  {
    seq(n, _ => 0)
  }

  // A name takes at least one NUL and is padded to a multiple of four.
  function StreamBytes(s: Stream): seq<Byte> {
    Encode(s.offset, 4) + (Encode(s.size, 4) + (s.name + [0] + Zeros(3 - |s.name| % 4)))
  }

  function StreamsBytes(streams: seq<Stream>): seq<Byte> {
    if streams == [] then [] else StreamBytes(streams[0]) + StreamsBytes(streams[1..])
  }

  // Signature; length of the version string; the version string; flags; number of streams; stream headers.
  ghost predicate RootLaidOut(meta: seq<Byte>, versionLength: nat, streams: seq<Stream>) {
    && versionLength % 4 == 0 && versionLength < 0x1_0000_0000 && |streams| < 0x1_0000
    && Holds(meta, 0, [0x42, 0x53, 0x4A, 0x42])
    && Holds(meta, 12, Encode(versionLength, 4))
    && Holds(meta, 16 + versionLength + 2, Encode(|streams|, 2))
    && Holds(meta, 16 + versionLength + 4, StreamsBytes(streams))
  }

  // The heap opens with the empty string, ends every string with a NUL and may be padded with NULs.
  function HeapBytes(strings: seq<seq<Byte>>, padding: nat): seq<Byte> {
    [0] + StringsBytes(strings, padding)
  }

  function StringsBytes(strings: seq<seq<Byte>>, padding: nat): seq<Byte> {
    if strings == [] then Zeros(padding) else strings[0] + [0] + StringsBytes(strings[1..], padding)
  }

  predicate ProperStream(s: Stream) {
    s.offset < 0x1_0000_0000 && s.size < 0x1_0000_0000 && 0 !in s.name
  }

  const STRINGS_NAME: seq<Byte> := [0x23, 0x53, 0x74, 0x72, 0x69, 0x6E, 0x67, 0x73]

  ghost predicate LaidOut(meta: seq<Byte>, versionLength: nat, streams: seq<Stream>, k: nat,
                          strings: seq<seq<Byte>>, padding: nat)
  {
    && RootLaidOut(meta, versionLength, streams)
    && (forall s :: s in streams ==> ProperStream(s))
    && k < |streams|
    && (forall i :: 0 <= i < |streams| ==> (streams[i].name == STRINGS_NAME <==> i == k))
    && streams[k].size == |HeapBytes(strings, padding)|
    && Holds(meta, streams[k].offset, HeapBytes(strings, padding))
    && forall s :: s in strings ==> s != [] && 0 !in s
  }

  lemma AsciiIsStrings(name: seq<Byte>)
    ensures Ascii(name) == STRINGS <==> name == STRINGS_NAME
  {
  }

  lemma Padding(off: nat, n: nat)
    requires off % 4 == 0
    ensures Align4(off + n + 1) == off + n + 1 + (3 - n % 4)
  {
  }

  lemma StreamFields(meta: seq<Byte>, off: nat, s: Stream)
    requires ProperStream(s) && Holds(meta, off, StreamBytes(s))
    ensures off + 8 <= |meta| && |StreamBytes(s)| == 9 + |s.name| + (3 - |s.name| % 4)
    ensures Field(meta, off, 4) == s.offset && Field(meta, off + 4, 4) == s.size
    ensures Holds(meta, off + 8, s.name + [0])
  {
    Widths();
    var name := s.name + [0] + Zeros(3 - |s.name| % 4);
    HoldsConcat(meta, off, Encode(s.offset, 4), Encode(s.size, 4) + name);
    HoldsConcat(meta, off + 4, Encode(s.size, 4), name);
    FieldHolds(meta, off, s.offset, 4);
    FieldHolds(meta, off + 4, s.size, 4);
    HoldsConcat(meta, off + 8, s.name + [0], Zeros(3 - |s.name| % 4));
  }

  // One header is read back, and after its padding the walk stands at the next one.
  lemma StreamReadBack(meta: seq<Byte>, off: nat, s: Stream)
    requires off % 4 == 0 && ProperStream(s) && Holds(meta, off, StreamBytes(s))
    ensures off + 8 <= |meta|
    ensures StreamAt(meta, off) == Slice(meta, s.offset, s.offset + s.size)
    ensures IsStrings(meta, off) <==> s.name == STRINGS_NAME
    ensures NextHeader(meta, off) == off + |StreamBytes(s)|
  {
    hide Little, Encode;
    StreamFields(meta, off, s);
    FindNulHolds(meta, off + 8, s.name);
    Padding(off + 8, |s.name|);
    AsciiIsStrings(s.name);
  }

  lemma HeapStep(meta: seq<Byte>, off: nat, count: nat, heap: Option<seq<Byte>>)
    requires count > 0 && off + 8 <= |meta|
    ensures HeapFrom(meta, off, count, heap)
              == HeapFrom(meta, NextHeader(meta, off), count - 1,
                          if IsStrings(meta, off) then Some(StreamAt(meta, off)) else heap)
  {
  }

  function Chosen(meta: seq<Byte>, s: Stream, heap: Option<seq<Byte>>): Option<seq<Byte>> {
    if s.name == STRINGS_NAME then Some(Slice(meta, s.offset, s.offset + s.size)) else heap
  }

  // The walk visits every laid-out header in turn and keeps the last #Strings stream.
  lemma {:induction false} StreamsReadBack(meta: seq<Byte>, off: nat, streams: seq<Stream>, heap: Option<seq<Byte>>)
    requires off % 4 == 0 && (forall s :: s in streams ==> ProperStream(s))
    requires Holds(meta, off, StreamsBytes(streams))
    ensures HeapFrom(meta, off, |streams|, heap) == LastStrings(meta, streams, heap)
    decreases streams
  {
    hide StreamBytes, IsStrings, NextHeader, StreamAt;
    if streams != [] {
      var s := streams[0];
      HoldsConcat(meta, off, StreamBytes(s), StreamsBytes(streams[1..]));
      StreamReadBack(meta, off, s);
      HeapStep(meta, off, |streams|, heap);
      StreamsReadBack(meta, NextHeader(meta, off), streams[1..], Chosen(meta, s, heap));
    }
  }

  function LastStrings(meta: seq<Byte>, streams: seq<Stream>, heap: Option<seq<Byte>>): Option<seq<Byte>> {
    if streams == [] then heap else LastStrings(meta, streams[1..], Chosen(meta, streams[0], heap))
  }

  lemma {:induction false} TheStringsStream(meta: seq<Byte>, streams: seq<Stream>, k: nat, heap: Option<seq<Byte>>)
    requires k < |streams| && forall i :: 0 <= i < |streams| ==> (streams[i].name == STRINGS_NAME <==> i == k)
    ensures LastStrings(meta, streams, heap)
              == Some(Slice(meta, streams[k].offset, streams[k].offset + streams[k].size))
  {
    var next := Chosen(meta, streams[0], heap);
    if k == 0 {
      NoMoreStrings(meta, streams[1..], next);
    } else {
      TheStringsStream(meta, streams[1..], k - 1, next);
    }
  }

  lemma {:induction false} NoMoreStrings(meta: seq<Byte>, streams: seq<Stream>, heap: Option<seq<Byte>>)
    requires forall i :: 0 <= i < |streams| ==> streams[i].name != STRINGS_NAME
    ensures LastStrings(meta, streams, heap) == heap
  {
    if streams != [] { NoMoreStrings(meta, streams[1..], heap); }
  }

  lemma {:induction false} ZerosHoldNoStrings(n: nat)
    ensures NonEmptyStrings(SplitNul(Zeros(n))) == []
  {
    if n > 0 {
      assert FindNul(Zeros(n), 0) == 0;
      assert Zeros(n)[1..] == Zeros(n - 1);
      ZerosHoldNoStrings(n - 1);
    }
  }

  function Decoded(strings: seq<seq<Byte>>): seq<string> {
    seq(|strings|, i requires 0 <= i < |strings| => Ascii(strings[i]))
  }

  lemma {:induction false} StringsReadBack(strings: seq<seq<Byte>>, padding: nat)
    requires forall s :: s in strings ==> s != [] && 0 !in s
    ensures NonEmptyStrings(SplitNul(StringsBytes(strings, padding))) == Decoded(strings)
  {
    if strings == [] {
      ZerosHoldNoStrings(padding);
    } else {
      var s, rest := strings[0], StringsBytes(strings[1..], padding);
      var bytes := StringsBytes(strings, padding);
      assert Holds(bytes, 0, s + [0]);
      FindNulHolds(bytes, 0, s);
      assert bytes[|s| + 1..] == rest && bytes[..|s|] == s;
      forall t | t in strings[1..] ensures t != [] && 0 !in t { assert t in strings; }
      StringsReadBack(strings[1..], padding);
      assert Decoded(strings) == [Ascii(s)] + Decoded(strings[1..]);
    }
  }

  lemma RootReadBack(meta: seq<Byte>, versionLength: nat, count: nat)
    requires versionLength < 0x1_0000_0000 && count < 0x1_0000
    requires Holds(meta, 0, [0x42, 0x53, 0x4A, 0x42]) && Holds(meta, 12, Encode(versionLength, 4))
    requires Holds(meta, 16 + versionLength + 2, Encode(count, 2))
    ensures IsRoot(meta) && StreamsStart(meta) == Some(16 + versionLength + 4)
    ensures Field(meta, 16 + versionLength + 2, 2) == count
  {
    Widths();
    FieldHolds(meta, 12, versionLength, 4);
    FieldHolds(meta, 16 + versionLength + 2, count, 2);
  }

  lemma HeapReadBack(meta: seq<Byte>, off: nat, strings: seq<seq<Byte>>, padding: nat)
    requires Holds(meta, off, HeapBytes(strings, padding)) && forall s :: s in strings ==> s != [] && 0 !in s
    ensures NonEmptyStrings(SplitNul(Slice(meta, off, off + |HeapBytes(strings, padding)|))) == Decoded(strings)
  {
    var heap := HeapBytes(strings, padding);
    assert FindNul(heap, 0) == 0 && heap[1..] == StringsBytes(strings, padding);
    StringsReadBack(strings, padding);
  }

  lemma NamesOfHeap(meta: seq<Byte>, start: nat, heap: seq<Byte>)
    requires IsRoot(meta) && StreamsStart(meta) == Some(start)
    requires HeapFrom(meta, start, Field(meta, start - 2, 2), None) == Some(heap)
    ensures PInvokeNames(meta) == Names(NonEmptyStrings(SplitNul(heap)))
  {
    hide HeapFrom, SplitNul, NonEmptyStrings, Little;
  }

  // Any number of streams in any order: the names read are the strings of the #Strings heap, in order.
  lemma PInvokeReadBack(meta: seq<Byte>, versionLength: nat, streams: seq<Stream>, k: nat,
                        strings: seq<seq<Byte>>, padding: nat)
    requires LaidOut(meta, versionLength, streams, k, strings, padding)
    ensures PInvokeNames(meta) == Names(Decoded(strings))
  {
    hide HeapFrom, LastStrings, StreamsBytes, Encode, PInvokeNames, SplitNul, NonEmptyStrings, HeapBytes;
    var s, start := streams[k], 16 + versionLength + 4;
    RootReadBack(meta, versionLength, |streams|);
    StreamsReadBack(meta, start, streams, None);
    TheStringsStream(meta, streams, k, None);
    NamesOfHeap(meta, start, Slice(meta, s.offset, s.offset + s.size));
    HeapReadBack(meta, s.offset, strings, padding);
  }
}
