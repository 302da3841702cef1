// param_name and param_type of tools/gen_stubs.py.
module Params {
  import opened Wrappers
  import opened Text

  predicate IdentifierStart(c: char) {
    'A' <= c <= 'Z' || 'a' <= c <= 'z' || c == '_'
  }

  predicate IdentifierChar(c: char) {
    IdentifierStart(c) || '0' <= c <= '9'
  }

  predicate Identifier(s: string) {
    s != "" && IdentifierStart(s[0]) && forall k :: 0 <= k < |s| ==> IdentifierChar(s[k])
  }

  // Letters, digits and the underscore, and a digit not first; their neighbours in the code table are none.
  lemma IdentifierCharacters()
    ensures Identifier("AZaz_09") && !Identifier("0") && !Identifier("9a") && !Identifier("")
    ensures forall c :: c in "@[`{/:*-. " ==> !IdentifierChar(c)
  {
  }

  // Where a trailing "[]" and the blanks before it, or trailing blanks, begin.
  function NameEnd(p: string): (end: nat)
    ensures end <= |p|
  {
    if p != "" && p[|p| - 1] == ']' then
      var open := Trail(p[..|p| - 1], |p| - 1);
      if open > 0 && p[open - 1] == '[' then Trail(p[..open - 1], open - 1) else |p|
    else Trail(p, |p|)
  }

  // Where the run of identifier characters before `end` begins.
  function RunStart(p: string, end: nat): (start: nat)
    requires end <= |p|
    ensures start <= end && forall k :: start <= k < end ==> IdentifierChar(p[k])
    ensures start > 0 ==> !IdentifierChar(p[start - 1])
  {
    if end == 0 || !IdentifierChar(p[end - 1]) then end else RunStart(p, end - 1)
  }

  // The first position in start..end at which an identifier can begin.
  function NameStart(p: string, start: nat, end: nat): (at: nat)
    requires start <= end <= |p|
    ensures start <= at <= end && (at < end ==> IdentifierStart(p[at]))
    ensures forall k :: start <= k < at ==> !IdentifierStart(p[k])
    decreases end - start
  {
    if start == end || IdentifierStart(p[start]) then start else NameStart(p, start + 1, end)
  }

  function NameAt(p: string): (at: nat)
    ensures at <= NameEnd(p)
  {
    NameStart(p, RunStart(p, NameEnd(p)), NameEnd(p))
  }

  // param_name: the leftmost identifier that only blanks and an optional [] follow.
  function ParamName(p: string): (name: Option<string>)
    ensures name.Some? ==> Identifier(name.value)
  {
    if NameAt(p) == NameEnd(p) then None else Some(p[NameAt(p)..NameEnd(p)])
  }

  // param_type: what stands before the name.
  function ParamType(p: string): string {
    if ParamName(p).Some? then Strip(p[..NameAt(p)]) else Strip(p)
  }

  // The name is the one the search finds: no identifier that begins earlier reaches the same end.
  lemma NameIsLeftmost(p: string, i: nat)
    requires i < NameAt(p)
    ensures !Identifier(p[i..NameEnd(p)])
  {
  }

  // What follows the name is not part of an identifier, so the name is also its own last occurrence.
  lemma NameIsLastOccurrence(p: string, j: nat)
    requires ParamName(p).Some? && NameAt(p) < j && j + |ParamName(p).value| <= |p|
    ensures p[j..j + |ParamName(p).value|] != ParamName(p).value
  {
    var name, end := ParamName(p).value, NameEnd(p);
    NameStops(p);
    if j <= end {
      assert p[j..j + |name|][end - j] == p[end];
    } else {
      NothingAfterName(p, j);
      assert p[j..j + |name|][0] == p[j];
    }
  }

  lemma NameStops(p: string)
    ensures NameEnd(p) < |p| ==> !IdentifierChar(p[NameEnd(p)])
  {
  }

  lemma NothingAfterName(p: string, k: nat)
    requires NameEnd(p) <= k < |p|
    ensures !IdentifierChar(p[k])
  {
    if p[|p| - 1] == ']' {
      var open := Trail(p[..|p| - 1], |p| - 1);
      if open <= k < |p| - 1 { assert p[..|p| - 1][open..][k - open] == p[k]; }
      if open > 0 && p[open - 1] == '[' && k < open - 1 {
        assert p[..open - 1][NameEnd(p)..][k - NameEnd(p)] == p[k];
      }
    } else {
      assert p[NameEnd(p)..][k - NameEnd(p)] == p[k];
    }
  }

  // What may follow the name in a declaration: blanks, or blanks and a pair of brackets.
  ghost predicate Tail(tail: string) {
    Blank(tail) || exists before, inside :: Blank(before) && Blank(inside) && tail == before + "[" + inside + "]"
  }

  // A declaration, like `const T* Options`, `T*Options` or `char OutBuffer [ ]`, is named by its last identifier,
  // and its type is what stands before it.
  lemma DeclarationParts(front: string, name: string, tail: string)
    requires Identifier(name) && Tail(tail) && (front != "" ==> !IdentifierChar(front[|front| - 1]))
    ensures ParamName(front + name + tail) == Some(name) && ParamType(front + name + tail) == Strip(front)
  {
    hide NameEnd, Blank, ParamName, ParamType, Strip;
    assert IdentifierChar((front + name)[|front + name| - 1]);
    if Blank(tail) {
      BlankTail(front + name, tail);
    } else {
      var before, inside :| Blank(before) && Blank(inside) && tail == before + "[" + inside + "]";
      assert front + name + tail == front + name + before + "[" + inside + "]";
      BracketTail(front + name, before, inside);
    }
    EndDecides(front, name, tail);
  }

  // Once the end of the name is known, the run of identifier characters before it is the name.
  lemma EndDecides(front: string, name: string, tail: string)
    requires Identifier(name) && (front != "" ==> !IdentifierChar(front[|front| - 1]))
    requires NameEnd(front + name + tail) == |front + name|
    ensures ParamName(front + name + tail) == Some(name) && ParamType(front + name + tail) == Strip(front)
  {
    hide NameEnd, Strip, IdentifierStart, IdentifierChar;
    var p, at, end := front + name + tail, |front|, |front + name|;
    assert p[..at] == front && p[at..end] == name;
    forall k | at <= k < end ensures IdentifierChar(p[k]) { assert p[k] == name[k - at]; }
    RunOfName(p, at, end);
  }

  predicate EndsInIdentifierChar(s: string) {
    s != "" && IdentifierChar(s[|s| - 1])
  }

  lemma IdentifierIsNoSpace(c: char)
    requires IdentifierChar(c)
    ensures !IsSpace(c) && c != ']'
  {
  }

  lemma SpaceIsNoBracket(c: char)
    ensures IsSpace(c) ==> c != ']'
    ensures !IsSpace('[')
  {
  }

  lemma BlankTail(core: string, tail: string)
    requires EndsInIdentifierChar(core) && Blank(tail)
    ensures NameEnd(core + tail) == |core|
  {
    hide IdentifierChar, IsSpace;
    var p := core + tail;
    assert p[|core|..] == tail;
    IdentifierIsNoSpace(core[|core| - 1]);
    if tail != "" { SpaceIsNoBracket(p[|p| - 1]); }
    TrailIs(p, |core|);
  }

  lemma BracketTail(core: string, before: string, inside: string)
    requires EndsInIdentifierChar(core) && Blank(before) && Blank(inside)
    ensures NameEnd(core + before + "[" + inside + "]") == |core|
  {
    hide IdentifierChar, IsSpace, Trail, Blank;
    var p, open := core + before + "[" + inside + "]", |core| + |before| + 1;
    var inner, outer := p[..|p| - 1], p[..open - 1];
    assert inner[open..] == inside;
    SpaceIsNoBracket('[');
    TrailIs(inner, open);
    assert outer == core + before && outer[|core|..] == before;
    IdentifierIsNoSpace(core[|core| - 1]);
    TrailIs(outer, |core|);
    assert p[open - 1] == '[' && p[..|p| - 1] == inner && p[..open - 1] == outer;
  }

  lemma RunOfName(p: string, start: nat, end: nat)
    requires start <= end <= |p| && (start > 0 ==> !IdentifierChar(p[start - 1]))
    requires forall k :: start <= k < end ==> IdentifierChar(p[k])
    ensures RunStart(p, end) == start
  {
  }

  function Without(s: string, part: string): string
    requires part != ""
  {
    if s == "" then ""
    else if part <= s then Without(s[|part|..], part)
    else [s[0]] + Without(s[1..], part)
  }

  // What precedes the last '*'.
  function Pointee(kind: string): string {
    if kind == "" then ""
    else if kind[|kind| - 1] == '*' then Strip(kind[..|kind| - 1])
    else Pointee(kind[..|kind| - 1])
  }

  predicate EndsWith(s: string, tail: string) {
    |tail| <= |s| && s[|s| - |tail|..] == tail
  }

  predicate Contains(s: string, part: string) {
    part <= s || (s != "" && Contains(s[1..], part))
  }

  lemma {:induction false} ContainsIff(s: string, part: string)
    ensures Contains(s, part) <==> exists i :: StandsAt(s, i, part)
  {
    if Contains(s, part) {
      if part <= s {
        assert StandsAt(s, 0, part);
      } else {
        ContainsIff(s[1..], part);
        var i :| StandsAt(s[1..], i, part);
        StandsShifted(s, part, i);
      }
    }
    if exists i :: StandsAt(s, i, part) {
      var i :| StandsAt(s, i, part);
      if i > 0 {
        StandsShifted(s, part, i - 1);
        ContainsIff(s[1..], part);
      }
    }
  }

  lemma StandsShifted(s: string, part: string, i: nat)
    requires s != ""
    ensures StandsAt(s[1..], i, part) <==> StandsAt(s, i + 1, part)
  {
    if i + |part| <= |s| - 1 { assert s[1..][i..i + |part|] == s[i + 1..i + 1 + |part|]; }
  }

  // Removing a part that is not there.
  lemma {:induction false} WithoutAbsent(s: string, part: string)
    requires part != "" && !Contains(s, part)
    ensures Without(s, part) == s
  {
    if s != "" { WithoutAbsent(s[1..], part); }
  }

  lemma {:induction false} WithoutLast(s: string, c: char)
    requires c !in s
    ensures Without(s + [c], [c]) == s && Without(s, [c]) == s
  {
    if s != "" {
      WithoutLast(s[1..], c);
      assert (s + [c])[1..] == s[1..] + [c];
    } else {
      assert s + [c] == [c] && [c][1..] == "";
    }
  }
}
