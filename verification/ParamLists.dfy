// split_params of tools/gen_stubs.py and the signature line that prints its result.
module ParamLists {
  import opened Sequences
  import opened Text

  /******* Nesting *******/

  function Delta(c: char): int {
    if c == '(' || c == '<' then 1 else if c == ')' || c == '>' then -1 else 0
  }

  function Depth(s: string): int {
    if s == "" then 0 else Depth(s[..|s| - 1]) + Delta(s[|s| - 1])
  }

  // Depth is the number of brackets opened and not closed.
  lemma {:induction false} DepthCounts(s: string)
    ensures Depth(s) + multiset(s)[')'] + multiset(s)['>'] == multiset(s)['('] + multiset(s)['<']
  {
    if s != "" {
      DepthCounts(s[..|s| - 1]);
      assert s == s[..|s| - 1] + [s[|s| - 1]];
    }
  }

  predicate TopLevelComma(s: string, k: int) {
    0 <= k < |s| && s[k] == ',' && Depth(s[..k]) == 0
  }

  ghost predicate NoTopLevelComma(s: string) {
    forall k :: 0 <= k < |s| ==> !TopLevelComma(s, k)
  }

  // The position of the first top-level comma at or after `from`, or the end.
  function Cut(s: string, from: nat): (c: nat)
    requires from <= |s|
    ensures from <= c <= |s|
    ensures forall k :: from <= k < c ==> !TopLevelComma(s, k)
    ensures c < |s| ==> TopLevelComma(s, c)
    decreases |s| - from
  {
    if from == |s| || TopLevelComma(s, from) then from else Cut(s, from + 1)
  }

  // The text between top-level commas, untrimmed.
  function RawPieces(s: string): (raw: seq<string>)
    ensures raw != []
  {
    var c := Cut(s, 0);
    if c == |s| then [s] else [s[..c]] + RawPieces(s[c + 1..])
  }

  function StripAll(raw: seq<string>): seq<string> {
    if raw == [] then [] else [Strip(raw[0])] + StripAll(raw[1..])
  }

  // What split_params returns: trimmed pieces, a blank last piece dropped.
  function Split(args: string): seq<string> {
    if args == "" || Strip(args) == "void" then [] else DropBlankLast(StripAll(RawPieces(args)))
  }

  function DropBlankLast(pieces: seq<string>): seq<string> {
    if pieces != [] && pieces[|pieces| - 1] == "" then pieces[..|pieces| - 1] else pieces
  }

  // split_params
  method SplitParams(args: string) returns (out: seq<string>)
    ensures out == Split(args)
  {
    hide Reading, Strip, StripAll, RawPieces;
    if args == "" || Strip(args) == "void" { return []; }
    var depth, cur := 0, "";
    out := [];
    ghost var start := 0;
    ReadStart(args);
    for i := 0 to |args|
      invariant Reading(args, start, i, depth, cur, out)
    {
      var c := args[i];
      if c == ',' && depth == 0 {
        ReadComma(args, start, i, cur, out);
        out, cur, start := out + [Strip(cur)], "", i + 1;
      } else {
        ReadChar(args, start, i, depth, cur, out);
        if c == '(' || c == '<' { depth := depth + 1; } else if c == ')' || c == '>' { depth := depth - 1; }
        cur := cur + [c];
      }
    }
    ReadEnd(args, start, depth, cur, out);
    if Strip(cur) != "" { out := out + [Strip(cur)]; }
  }

  // After `i` characters: `cur` is what follows the last cut at `start`, and `out` what came before it.
  ghost predicate Reading(args: string, start: int, i: nat, depth: int, cur: string, out: seq<string>) {
    && 0 <= start <= i <= |args| && cur == args[start..i] && depth == Depth(cur)
    && out + StripAll(RawPieces(args[start..])) == StripAll(RawPieces(args))
    && NoCommaBefore(args[start..], i - start)
  }

  ghost predicate NoCommaBefore(s: string, n: nat) {
    forall k :: 0 <= k < n ==> !TopLevelComma(s, k)
  }

  lemma ReadStart(args: string)
    ensures Reading(args, 0, 0, 0, "", [])
  {
  }

  lemma ReadComma(args: string, start: int, i: nat, cur: string, out: seq<string>)
    requires i < |args| && Reading(args, start, i, 0, cur, out) && args[i] == ','
    ensures Reading(args, i + 1, i + 1, 0, "", out + [Strip(cur)])
  {
    hide Strip, TopLevelComma;
    CommaHere(args, start, i);
    PieceEnds(args, start, i);
    Associative(out, [Strip(cur)], StripAll(RawPieces(args[i + 1..])));
  }

  lemma ReadChar(args: string, start: int, i: nat, depth: int, cur: string, out: seq<string>)
    requires i < |args| && Reading(args, start, i, depth, cur, out) && !(args[i] == ',' && depth == 0)
    ensures Reading(args, start, i + 1, depth + Delta(args[i]), cur + [args[i]], out)
  {
    hide Strip, StripAll, RawPieces, TopLevelComma;
    CommaHere(args, start, i);
  }

  lemma ReadEnd(args: string, start: int, depth: int, cur: string, out: seq<string>)
    requires Reading(args, start, |args|, depth, cur, out) && args != "" && Strip(args) != "void"
    ensures Split(args) == if Strip(cur) == "" then out else out + [Strip(cur)]
  {
    hide Strip, TopLevelComma;
    assert args[start..] == cur;
    LastPiece(cur);
  }

  lemma CommaHere(args: string, start: nat, i: nat)
    requires start <= i < |args|
    ensures TopLevelComma(args[start..], i - start) <==> args[i] == ',' && Depth(args[start..i]) == 0
    ensures args[start..i + 1] == args[start..i] + [args[i]]
    ensures Depth(args[start..i + 1]) == Depth(args[start..i]) + Delta(args[i])
  {
    assert args[start..][..i - start] == args[start..i];
    assert args[start..i + 1][..i - start] == args[start..i];
  }

  lemma PieceEnds(args: string, start: nat, i: nat)
    requires start <= i < |args| && TopLevelComma(args[start..], i - start) && NoCommaBefore(args[start..], i - start)
    ensures StripAll(RawPieces(args[start..])) == [Strip(args[start..i])] + StripAll(RawPieces(args[i + 1..]))
  {
    hide Strip, TopLevelComma;
    var rest := args[start..];
    FirstCut(rest, i - start);
    assert rest[..i - start] == args[start..i] && rest[i - start + 1..] == args[i + 1..];
    assert RawPieces(rest)[1..] == RawPieces(args[i + 1..]);
  }

  lemma LastPiece(rest: string)
    requires NoCommaBefore(rest, |rest|)
    ensures StripAll(RawPieces(rest)) == [Strip(rest)]
  {
  }

  lemma FirstCut(s: string, c: nat)
    requires c <= |s| && (c < |s| ==> TopLevelComma(s, c)) && NoCommaBefore(s, c)
    ensures Cut(s, 0) == c
    ensures RawPieces(s) == if c == |s| then [s] else [s[..c]] + RawPieces(s[c + 1..])
  {
  }

  /******* Splitting is undone by joining *******/

  // Cut at top-level commas only, and at all of them: every piece but the last closes what it opens.
  ghost predicate Proper(raw: seq<string>) {
    && raw != []
    && (forall p :: p in raw ==> NoTopLevelComma(p))
    && forall i :: 0 <= i < |raw| - 1 ==> Depth(raw[i]) == 0
  }

  lemma {:induction false} RawPiecesAreProper(s: string)
    ensures Proper(RawPieces(s)) && Join(RawPieces(s), ",") == s
    decreases |s|
  {
    var c := Cut(s, 0);
    if c < |s| {
      var first, rest := s[..c], s[c + 1..];
      RawPiecesAreProper(rest);
      forall k | 0 <= k < |first| ensures !TopLevelComma(first, k) {
        assert first[..k] == s[..k];
        assert !TopLevelComma(s, k);
      }
      assert ([first] + RawPieces(rest))[1..] == RawPieces(rest);
      assert s == first + ("," + rest);
    }
  }

  lemma PrefixHasNoComma(s: string, n: nat)
    requires n <= |s| && NoTopLevelComma(s[..n])
    ensures NoCommaBefore(s, n)
  {
    hide Depth;
    forall k | 0 <= k < n ensures !TopLevelComma(s, k) {
      assert s[..n][..k] == s[..k];
      assert !TopLevelComma(s[..n], k);
    }
  }

  lemma JoinStep(raw: seq<string>)
    requires |raw| > 1
    ensures var s, first := Join(raw, ","), raw[0];
            |first| < |s| && s[..|first|] == first && s[|first|] == ',' && s[|first| + 1..] == Join(raw[1..], ",")
  {
  }

  lemma ProperTail(raw: seq<string>)
    requires Proper(raw) && |raw| > 1
    ensures Proper(raw[1..])
  {
    hide NoTopLevelComma, Depth;
  }

  lemma {:induction false} JoinedPiecesSplit(raw: seq<string>)
    requires Proper(raw)
    ensures RawPieces(Join(raw, ",")) == raw
    decreases |raw|
  {
    hide NoTopLevelComma, Depth, Cut, Join, RawPieces;
    var s, first := Join(raw, ","), raw[0];
    assert NoTopLevelComma(first) by { assert first in raw; }
    if |raw| == 1 {
      OnePiece(raw);
      assert s[..|s|] == s;
      PrefixHasNoComma(s, |s|);
      FirstCut(s, |s|);
    } else {
      JoinStep(raw);
      PrefixHasNoComma(s, |first|);
      FirstCut(s, |first|);
      ProperTail(raw);
      JoinedPiecesSplit(raw[1..]);
    }
  }

  lemma OnePiece(raw: seq<string>)
    requires |raw| == 1
    ensures Join(raw, ",") == raw[0]
  {
  }

  /******* Trimming does not move commas or nesting *******/

  lemma {:induction false} DepthConcat(a: string, b: string)
    ensures Depth(a + b) == Depth(a) + Depth(b)
  {
    if b == "" {
      assert a + b == a;
    } else {
      assert (a + b)[..|a + b| - 1] == a + b[..|b| - 1];
      DepthConcat(a, b[..|b| - 1]);
    }
  }

  lemma {:induction false} BlankIsFlat(s: string)
    requires Blank(s)
    ensures Depth(s) == 0 && ',' !in s
  {
    if s != "" {
      BlankIsFlat(s[..|s| - 1]);
      assert s == s[..|s| - 1] + [s[|s| - 1]];
    }
  }

  lemma BlankAround(before: string, core: string, after: string)
    requires Blank(before) && Blank(after)
    ensures Depth(before + core + after) == Depth(core)
    ensures NoTopLevelComma(before + core + after) <==> NoTopLevelComma(core)
  {
    var s := before + core + after;
    BlankIsFlat(before);
    BlankIsFlat(after);
    DepthConcat(before + core, after);
    DepthConcat(before, core);
    forall k | 0 <= k < |core| ensures TopLevelComma(s, |before| + k) <==> TopLevelComma(core, k) {
      assert s[..|before| + k] == before + core[..k];
      DepthConcat(before, core[..k]);
    }
    forall k | TopLevelComma(s, k) ensures |before| <= k < |before| + |core| {
    }
    if NoTopLevelComma(s) {
      forall k | 0 <= k < |core| ensures !TopLevelComma(core, k) { assert !TopLevelComma(s, |before| + k); }
    }
    if NoTopLevelComma(core) {
      forall k | |before| <= k < |before| + |core| ensures !TopLevelComma(s, k) {
        assert !TopLevelComma(core, k - |before|);
      }
    }
  }

  lemma StripIsHarmless(p: string)
    ensures Depth(Strip(p)) == Depth(p)
    ensures NoTopLevelComma(Strip(p)) <==> NoTopLevelComma(p)
  {
    var before, after := StripParts(p);
    BlankAround(before, Strip(p), after);
  }

  lemma {:induction false} StripAllAt(raw: seq<string>)
    ensures |StripAll(raw)| == |raw|
    ensures forall i :: 0 <= i < |raw| ==> StripAll(raw)[i] == Strip(raw[i])
  {
    if raw != [] { StripAllAt(raw[1..]); }
  }

  /******* Parameter lists survive printing *******/

  // The text between the parentheses of a generated definition.
  function Print(params: seq<string>): string {
    if params == [] then "void" else Join(params, ", ")
  }

  // The word void for no parameters; otherwise each parameter in turn, a comma and a blank between two.
  lemma PrintSteps(params: seq<string>, last: string)
    ensures Print([]) == "void" && Print([last]) == last
    ensures params != [] ==> Print(params + [last]) == Print(params) + ", " + last
  {
    if params != [] { JoinAppend(params, last, ", "); }
  }

  ghost predicate ProperParams(params: seq<string>) {
    Proper(params) && forall p :: p in params ==> Stripped(p)
  }

  lemma SplitIsProper(args: string)
    requires Split(args) != []
    ensures ProperParams(Split(args))
  {
    var raw := RawPieces(args);
    RawPiecesAreProper(args);
    StripAllAt(raw);
    var params := Split(args);
    forall i | 0 <= i < |params|
      ensures NoTopLevelComma(params[i]) && Stripped(params[i]) && (i < |raw| - 1 ==> Depth(params[i]) == 0) {
      assert params[i] == Strip(raw[i]) && raw[i] in raw;
      StripIsHarmless(raw[i]);
    }
  }

  // Every printed piece after the first gets a blank in front.
  function Printed(params: seq<string>): seq<string>
    requires params != []
  {
    [params[0]] + Spaced(params[1..])
  }

  function Spaced(params: seq<string>): seq<string> {
    seq(|params|, i requires 0 <= i < |params| => " " + params[i])
  }

  lemma {:induction false} PrintedJoin(params: seq<string>)
    requires params != []
    ensures Join(params, ", ") == Join(Printed(params), ",")
  {
    if |params| > 1 {
      PrintedJoin(params[1..]);
      var rest := params[1..];
      assert Printed(params)[1..] == Spaced(rest);
      SpacedJoin(rest);
      assert ", " + Join(rest, ", ") == "," + (" " + Join(rest, ", "));
    }
  }

  lemma SpacedJoin(params: seq<string>)
    requires params != []
    ensures Join(Spaced(params), ",") == " " + Join(Printed(params), ",")
  {
    assert Spaced(params)[1..] == Printed(params)[1..];
  }

  lemma PrintedIsProper(params: seq<string>)
    requires ProperParams(params)
    ensures Proper(Printed(params)) && StripAll(Printed(params)) == params
  {
    var raw := Printed(params);
    forall i | 0 <= i < |raw|
      ensures NoTopLevelComma(raw[i]) && Depth(raw[i]) == Depth(params[i]) && Strip(raw[i]) == params[i] {
      assert params[i] in params;
      var before := if i == 0 then "" else " ";
      assert raw[i] == before + params[i] + "";
      assert Blank(before) && Blank("");
      BlankAround(before, params[i], "");
      StripAround(before, params[i], "");
    }
    forall p | p in raw ensures NoTopLevelComma(p) {
      var i :| 0 <= i < |raw| && raw[i] == p;
    }
    StripAllAt(raw);
  }

  lemma JoinHasComma(params: seq<string>)
    requires |params| > 1
    ensures ',' in Join(params, ", ")
  {
  }

  lemma PrintedIsNotVoid(params: seq<string>)
    requires ProperParams(params)
    ensures Print(params) == "" <==> params == [""]
    ensures Strip(Print(params)) == "void" <==> params == ["void"]
  {
    var s := Print(params);
    if |params| == 1 {
      assert params[0] in params;
      StripAround("", params[0], "");
      assert "" + params[0] + "" == s;
    } else {
      JoinHasComma(params);
      StripKeeps(s, ',');
      assert ',' !in "void";
    }
  }

  lemma SplitPrinted(params: seq<string>)
    requires ProperParams(params)
    ensures Split(Print(params)) ==
              if params == ["void"] then [] else if params[|params| - 1] == "" then params[..|params| - 1] else params
  {
    hide Strip, RawPieces, StripAll, Join;
    PrintedIsNotVoid(params);
    PrintedJoin(params);
    PrintedIsProper(params);
    JoinedPiecesSplit(Printed(params));
  }

  // Splitting, printing and splitting again gives the same list exactly when the last parameter is not
  // blank and the list is not the lone word void.
  lemma RoundTrip(args: string)
    ensures var params := Split(args);
            Split(Print(params)) == params <==>
              params == [] || (params[|params| - 1] != "" && params != ["void"])
  {
    var params := Split(args);
    if params == [] {
      StripAround("", "void", "");
      assert "" + "void" + "" == "void";
    } else {
      SplitIsProper(args);
      SplitPrinted(params);
    }
  }

  // No character is lost but separators and trimmed blanks, and every cut is at nesting depth zero.
  lemma SplitLosesOnlyBlanks(args: string)
    ensures var raw := RawPieces(args);
            && Join(raw, ",") == args && Proper(raw)
            && (args != "" && Strip(args) != "void" ==>
                  Split(args) == StripAll(if Strip(raw[|raw| - 1]) == "" then raw[..|raw| - 1] else raw))
    // The cuts are determined: any other way to cut only and wholly at depth zero is the same.
    ensures forall raw :: Proper(raw) && Join(raw, ",") == args ==> raw == RawPieces(args)
  {
    hide Strip, TopLevelComma, Cut;
    var cut := RawPieces(args);
    RawPiecesAreProper(args);
    StripAllAt(cut);
    StripAllAt(cut[..|cut| - 1]);
    assert StripAll(cut)[..|cut| - 1] == StripAll(cut[..|cut| - 1]);
    forall raw | Proper(raw) && Join(raw, ",") == args ensures raw == RawPieces(args) {
      JoinedPiecesSplit(raw);
    }
  }

  // The two ways to miss the round trip.
  lemma BlankLastPieceIsLost()
    ensures Split("a,,") == ["a", ""] && Split(Print(Split("a,,"))) == ["a"]
  {
    hide Strip, StripAll, RawPieces;
    var raw := ["a", "", ""];
    assert raw[1..] == ["", ""] && raw[1..][1..] == [""];
    SplitPieces("a,,", raw);
    assert raw[..2] == ["a", ""];
    SplitIsProper("a,,");
    SplitPrinted(["a", ""]);
    assert ["a", ""][..1] == ["a"];
  }

  lemma LoneVoidIsLost()
    ensures Split("void,") == ["void"] && Split(Print(Split("void,"))) == []
  {
    hide Strip, StripAll, RawPieces;
    var raw := ["void", ""];
    assert raw[1..] == [""];
    SplitPieces("void,", raw);
    assert raw[..1] == ["void"];
    SplitIsProper("void,");
    SplitPrinted(["void"]);
  }

  // Splitting flat, stripped pieces joined by commas.
  lemma SplitPieces(s: string, raw: seq<string>)
    requires |raw| > 1 && Join(raw, ",") == s && raw[|raw| - 1] == ""
    requires forall p :: p in raw ==> Flat(p) && Stripped(p)
    ensures Split(s) == raw[..|raw| - 1]
  {
    hide RawPieces, StripAll, Strip;
    FlatPieces(raw);
    StrippedAll(raw);
    assert s[|raw[0]|] == ',';
    StripKeeps(s, ',');
    assert ',' !in "void";
  }

  lemma FlatPieces(raw: seq<string>)
    requires raw != [] && forall p :: p in raw ==> Flat(p)
    ensures RawPieces(Join(raw, ",")) == raw
  {
    forall p | p in raw ensures Depth(p) == 0 && NoTopLevelComma(p) {
      FlatDepth(p);
    }
    JoinedPiecesSplit(raw);
  }

  lemma StrippedAll(raw: seq<string>)
    requires forall p :: p in raw ==> Stripped(p)
    ensures StripAll(raw) == raw
  {
    hide Strip;
    StripAllAt(raw);
    forall i | 0 <= i < |raw| ensures Strip(raw[i]) == raw[i] {
      assert raw[i] in raw && "" + raw[i] + "" == raw[i];
      StripAround("", raw[i], "");
    }
  }

  predicate Flat(p: string) {
    ',' !in p && '(' !in p && ')' !in p && '<' !in p && '>' !in p
  }

  lemma {:induction false} FlatDepth(s: string)
    requires Flat(s)
    ensures Depth(s) == 0
  {
    if s != "" { FlatDepth(s[..|s| - 1]); }
  }
}
