// Bytes of a file image, the little-endian integers struct.unpack_from reads from it, and the few
// Python sequence operations the readers use on it.
module Bytes {
  type Byte = b: int | 0 <= b < 256

  function Pow256(n: nat): nat {
    if n == 0 then 1 else 256 * Pow256(n - 1)
  }

  // The value of a little-endian field.
  function Little(bytes: seq<Byte>): nat {
    if bytes == [] then 0 else bytes[0] + 256 * Little(bytes[1..])
  }

  // The first byte counts units.
  lemma LittleIsPositional(bytes: seq<Byte>)
    ensures |bytes| == 2 ==> Little(bytes) == bytes[0] as int + bytes[1] as int * 0x100
    ensures |bytes| == 4 ==>
              Little(bytes) == bytes[0] as int + bytes[1] as int * 0x100 + bytes[2] as int * 0x1_0000
                               + bytes[3] as int * 0x100_0000
  {
    if |bytes| == 2 {
      LittleTwo(bytes);
    } else if |bytes| == 4 {
      LittleTwo(bytes[2..]);
      assert bytes[1..][1..] == bytes[2..];
    }
  }

  lemma LittleTwo(bytes: seq<Byte>)
    requires |bytes| == 2
    ensures Little(bytes) == bytes[0] as int + bytes[1] as int * 0x100
  {
    assert Little(bytes[1..]) == bytes[1] as int + 256 * Little(bytes[1..][1..]) && bytes[1..][1..] == [];
  }

  // A little-endian field of n bytes, as a writer lays it out.
  function Encode(v: nat, n: nat): (bytes: seq<Byte>)
    ensures |bytes| == n
  {
    if n == 0 then [] else [v % 256] + Encode(v / 256, n - 1)
  }

  lemma {:induction false} LittleEncode(v: nat, n: nat)
    requires v < Pow256(n)
    ensures Little(Encode(v, n)) == v
  {
    if n > 0 {
      LittleEncode(v / 256, n - 1);
      assert Encode(v, n)[1..] == Encode(v / 256, n - 1);
    }
  }

  lemma Widths()
    ensures Pow256(2) == 0x1_0000 && Pow256(4) == 0x1_0000_0000 && Pow256(8) == 0x1_0000_0000_0000_0000
  {
  }

  function Field(data: seq<Byte>, off: nat, width: nat): nat
    requires off + width <= |data|
  {
    Little(data[off..off + width])
  }

  // `bytes` stand in `data` at offset `off`.
  predicate Holds(data: seq<Byte>, off: nat, bytes: seq<Byte>) {
    off + |bytes| <= |data| && data[off..off + |bytes|] == bytes
  }

  lemma HoldsConcat(data: seq<Byte>, off: nat, first: seq<Byte>, rest: seq<Byte>)
    requires Holds(data, off, first + rest)
    ensures Holds(data, off, first) && Holds(data, off + |first|, rest)
  {
    assert data[off..off + |first|] == data[off..off + |first + rest|][..|first|];
    assert data[off + |first|..off + |first| + |rest|] == data[off..off + |first + rest|][|first|..];
  }

  lemma HoldsFits(data: seq<Byte>, off: nat, bytes: seq<Byte>)
    requires Holds(data, off, bytes)
    ensures off + |bytes| <= |data|
  {
  }

  lemma HoldsMiddle(before: seq<Byte>, bytes: seq<Byte>, after: seq<Byte>)
    ensures Holds(before + bytes + after, |before|, bytes)
  {
  }

  lemma FieldHolds(data: seq<Byte>, off: nat, v: nat, width: nat)
    requires Holds(data, off, Encode(v, width)) && v < Pow256(width)
    ensures Field(data, off, width) == v
  {
    LittleEncode(v, width);
  }

  // data.find(b"\0", from)
  function FindNul(data: seq<Byte>, from: nat): (at: int)
    ensures at == -1 || from <= at < |data|
    ensures at != -1 ==> data[at] == 0 && forall k :: from <= k < at ==> data[k] != 0
    ensures at == -1 ==> forall k :: from <= k < |data| ==> data[k] != 0
    decreases |data| - from
  {
    if from >= |data| then -1 else if data[from] == 0 then from else FindNul(data, from + 1)
  }

  // Where a NUL-terminated string laid out at `from` ends.
  lemma FindNulHolds(data: seq<Byte>, from: nat, name: seq<Byte>)
    requires Holds(data, from, name + [0]) && 0 !in name
    ensures FindNul(data, from) == from + |name| && data[from..from + |name|] == name
  {
    HoldsConcat(data, from, name, [0]);
    assert data[from + |name|] == data[from + |name|..from + |name| + 1][0] == 0;
    forall k | from <= k < from + |name| ensures data[k] != 0 {
      assert data[from..from + |name|][k - from] in name;
    }
  }

  // data[lo:hi] with Python's clipping; a negative bound counts from the end.
  function Slice(data: seq<Byte>, lo: int, hi: int): seq<Byte> {
    var from, to := Clip(lo, |data|), Clip(hi, |data|);
    if from <= to then data[from..to] else []
  }

  function Clip(i: int, n: nat): (r: nat)
    ensures r <= n
  {
    if i < 0 then (if i + n < 0 then 0 else i + n) else if i > n then n else i
  }

  // A slice up to position -1, where find() has found nothing, loses the last byte.
  lemma SliceToMinusOne(data: seq<Byte>, lo: nat)
    requires lo < |data|
    ensures Slice(data, lo, -1) == data[lo..|data| - 1]
  {
  }

  // bytes.decode("ascii", "replace")
  function Ascii(bytes: seq<Byte>): (s: string)
    ensures |s| == |bytes|
    ensures forall k :: 0 <= k < |s| ==> s[k] == if bytes[k] < 128 then bytes[k] as char else '\U{FFFD}'
  {
    seq(|bytes|, k requires 0 <= k < |bytes| => if bytes[k] < 128 then bytes[k] as char else '\U{FFFD}')
  }
}
