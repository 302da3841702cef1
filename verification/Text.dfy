// str.strip() and str.join() as tools/gen_stubs.py uses them.
module Text {
  // What str.strip() takes off.
  predicate IsSpace(c: char) {
    var u := c as int;
    || 0x09 <= u <= 0x0D || 0x1C <= u <= 0x20 || u in {0x85, 0xA0, 0x1680, 0x2028, 0x2029, 0x202F, 0x205F, 0x3000}
    || 0x2000 <= u <= 0x200A
  }

  lemma BlankCharacters()
    ensures IsSpace(' ') && IsSpace('\t') && IsSpace('\n') && IsSpace('\r')
    ensures forall c :: '!' <= c <= '~' ==> !IsSpace(c)
    ensures forall c :: IsSpace(c) <==>
              c as int in {
                0x09, 0x0A, 0x0B, 0x0C, 0x0D, 0x1C, 0x1D, 0x1E, 0x1F, 0x20, 0x85, 0xA0, 0x1680, 0x2000, 0x2001, 0x2002,
                0x2003, 0x2004, 0x2005, 0x2006, 0x2007, 0x2008, 0x2009, 0x200A, 0x2028, 0x2029, 0x202F, 0x205F, 0x3000 }
  {
  }

  predicate Blank(s: string) {
    forall k :: 0 <= k < |s| ==> IsSpace(s[k])
  }

  predicate Stripped(s: string) {
    s != "" ==> !IsSpace(s[0]) && !IsSpace(s[|s| - 1])
  }

  // How many characters lstrip() takes off.
  function Lead(s: string, from: nat): (n: nat)
    requires from <= |s| && Blank(s[..from])
    ensures n <= |s| && Blank(s[..n]) && (n < |s| ==> !IsSpace(s[n]))
    decreases |s| - from
  {
    if from == |s| || !IsSpace(s[from]) then from
    else
      assert s[..from + 1] == s[..from] + [s[from]];
      Lead(s, from + 1)
  }

  // How many characters rstrip() leaves.
  function Trail(s: string, to: nat): (n: nat)
    requires to <= |s| && Blank(s[to..])
    ensures n <= |s| && Blank(s[n..]) && (n > 0 ==> !IsSpace(s[n - 1]))
  {
    if to == 0 || !IsSpace(s[to - 1]) then to
    else
      assert s[to - 1..] == [s[to - 1]] + s[to..];
      Trail(s, to - 1)
  }

  // str.strip()
  function Strip(s: string): (r: string)
    ensures Stripped(r)
  {
    var i, j := Lead(s, 0), Trail(s, |s|);
    if i < j then s[i..j] else ""
  }

  // Only blanks go, and only at the ends.
  lemma StripParts(s: string) returns (before: string, after: string)
    ensures s == before + Strip(s) + after && Blank(before) && Blank(after)
  {
    hide IsSpace;
    var i, j := Lead(s, 0), Trail(s, |s|);
    if i < j {
      before, after := s[..i], s[j..];
    } else {
      before, after := s, "";
      assert s + "" + "" == s;
      forall k | 0 <= k < |s| ensures IsSpace(s[k]) {
        if k < i { assert IsSpace(s[..i][k]); }
      }
    }
  }

  lemma LeadIs(s: string, n: nat)
    requires n <= |s| && Blank(s[..n]) && (n < |s| ==> !IsSpace(s[n]))
    ensures Lead(s, 0) == n
  {
    hide IsSpace;
  }

  lemma TrailIs(s: string, n: nat)
    requires n <= |s| && Blank(s[n..]) && (n > 0 ==> !IsSpace(s[n - 1]))
    ensures Trail(s, |s|) == n
  {
    hide IsSpace;
  }

  // Stripping takes off everything blank around a stripped core.
  lemma StripAround(before: string, core: string, after: string)
    requires Blank(before) && Blank(after) && Stripped(core)
    ensures Strip(before + core + after) == core
  {
    hide IsSpace;
    var s := before + core + after;
    if core == "" {
      assert s == before + after;
      LeadIs(s, |s|);
      TrailIs(s, 0);
    } else {
      LeadIs(s, |before|);
      TrailIs(s, |before| + |core|);
    }
  }

  lemma StripKeeps(s: string, c: char)
    requires c in s && !IsSpace(c)
    ensures c in Strip(s)
  {
    hide IsSpace, Strip;
    var before, after := StripParts(s);
  }

  lemma {:induction false} JoinAppend(pieces: seq<string>, last: string, separator: string)
    requires pieces != []
    ensures Join(pieces + [last], separator) == Join(pieces, separator) + separator + last
  {
    assert (pieces + [last])[1..] == pieces[1..] + [last];
    if |pieces| > 1 { JoinAppend(pieces[1..], last, separator); }
  }

  predicate StandsAt(s: string, i: int, part: string) {
    0 <= i && i + |part| <= |s| && s[i..i + |part|] == part
  }

  function Join(pieces: seq<string>, separator: string): string
    requires pieces != []
  {
    if |pieces| == 1 then pieces[0] else pieces[0] + (separator + Join(pieces[1..], separator))
  }
}
