// What tools/gen_stubs.py takes a declared parameter for: a delegate, an options structure or an output.
module StubParams {
  import opened Wrappers
  import opened Text
  import opened Params

  // The delegate type a parameter is declared with, if the headers declare it.
  function DelegateType(p: string): string {
    Strip(Without(ParamType(p), "const"))
  }

  // A pointer to some Options structure.
  predicate TakesOptions(p: string) {
    '*' in ParamType(p) && EndsWith(Strip(Without(Without(ParamType(p), "const"), "*")), "Options")
  }

  predicate IsOutput(p: string) {
    && ParamName(p).Some? && "Out" <= ParamName(p).value
    && var kind := ParamType(p);
       '*' in kind && !("const " <= kind) && Without(kind, " ") != "char*" && Without(kind, " ") != "void*"
  }

  // What comes before the name may begin with const or end in a star.
  lemma DeclaredType(kind: string, name: string)
    requires Identifier(name) && Stripped(kind) && kind != ""
    ensures ParamName(kind + " " + name) == Some(name) && ParamType(kind + " " + name) == kind
  {
    hide ParamName, ParamType, Strip, Stripped, Identifier;
    DeclarationParts(kind + " ", name, "");
    assert kind + " " + name + "" == kind + " " + name;
    assert "" + kind + " " == kind + " ";
    StripAround("", kind, " ");
  }

  lemma ConstIsInside(kind: string, before: string, after: string)
    requires before in {"", " "} && after in {"", "*"}
    ensures Contains(before + kind + after, "const") ==> Contains(kind, "const")
  {
    hide Contains;
    var s := before + kind + after;
    ContainsIff(kind, "const");
    ContainsIff(s, "const");
    if Contains(s, "const") {
      var i :| StandsAt(s, i, "const");
      assert s[i] == s[i..i + 5][0] && s[i + 4] == s[i..i + 5][4];
      assert s[i..i + 5] == kind[i - |before|..i - |before| + 5];
      assert StandsAt(kind, i - |before|, "const");
    }
  }

  lemma ConstHasAnS(kind: string)
    ensures Contains(kind, "const") ==> 's' in kind
  {
    hide Contains;
    ContainsIff(kind, "const");
    if Contains(kind, "const") {
      var i :| StandsAt(kind, i, "const");
      assert kind[i + 3] == kind[i..i + 5][3];
    }
  }

  lemma WithoutConst(kind: string, after: string)
    requires !Contains(kind, "const") && after in {"", "*"}
    ensures Without(kind + after, "const") == kind + after
    ensures Without("const " + kind + after, "const") == " " + kind + after
  {
    hide Contains;
    ConstIsInside(kind, "", after);
    ConstIsInside(kind, " ", after);
    assert "" + kind + after == kind + after;
    WithoutAbsent(kind + after, "const");
    WithoutAbsent(" " + kind + after, "const");
    var s := "const " + kind + after;
    assert "const" <= s && s[5..] == " " + kind + after;
  }

  // A delegate is found under its type's name, const or not.
  lemma DelegateTypeOf(kind: string, name: string)
    requires Identifier(name) && Stripped(kind) && kind != "" && !Contains(kind, "const")
    ensures DelegateType(kind + " " + name) == kind && DelegateType("const " + kind + " " + name) == kind
  {
    hide ParamName, ParamType, Strip, Without, Identifier, Contains;
    DeclaredType(kind, name);
    DeclaredType("const " + kind, name);
    WithoutConst(kind, "");
    assert kind + "" == kind && "const " + kind + "" == "const " + kind && " " + kind + "" == " " + kind;
    assert "" + kind + "" == kind;
    StripAround("", kind, "");
    StripAround(" ", kind, "");
  }

  // An options parameter is a pointer to a type whose name ends in Options.
  lemma TakesOptionsIff(kind: string, name: string)
    requires Identifier(name) && Stripped(kind) && kind != "" && !Contains(kind, "const") && '*' !in kind
    ensures TakesOptions("const " + kind + "* " + name) <==> |kind| >= 7 && kind[|kind| - 7..] == "Options"
    ensures TakesOptions(kind + "* " + name) <==> |kind| >= 7 && kind[|kind| - 7..] == "Options"
    ensures !TakesOptions(kind + " " + name)
  {
    hide ParamName, ParamType, Strip, Without, Identifier, Contains, Stripped;
    DeclaredType(kind, name);
    StarredType(kind, name);
    BareStar(kind);
    assert '*' in kind + "*" && '*' in "const " + kind + "*";
  }

  // Without const and the star.
  lemma BareStar(kind: string)
    requires Stripped(kind) && !Contains(kind, "const") && '*' !in kind
    ensures Strip(Without(Without(kind + "*", "const"), "*")) == kind
    ensures Strip(Without(Without("const " + kind + "*", "const"), "*")) == kind
  {
    hide Strip, Without, Contains, Stripped;
    WithoutConst(kind, "*");
    WithoutLast(kind, '*');
    WithoutLast(" " + kind, '*');
    assert " " + kind + "" == " " + kind && "" + kind + "" == kind;
    StripAround("", kind, "");
    StripAround(" ", kind, "");
  }

  // An output is a pointer, not to const, char or void, whose name begins with Out.
  lemma IsOutputIff(kind: string, name: string)
    requires Identifier(name) && Stripped(kind) && kind != "" && '*' !in kind && ' ' !in kind
    ensures IsOutput(kind + "* " + name) <==> "Out" <= name && kind != "char" && kind != "void"
    ensures !IsOutput("const " + kind + "* " + name) && !IsOutput(kind + " " + name)
    ensures Pointee(ParamType(kind + "* " + name)) == kind
  {
    hide ParamName, ParamType, Strip, Without, Identifier, Stripped;
    DeclaredType(kind, name);
    StarredType(kind, name);
    WithoutBlank(kind + "*");
    PointeeOf(kind);
    StarEnds(kind);
  }

  lemma StarEnds(kind: string)
    ensures (kind + "*" == "char*" <==> kind == "char") && (kind + "*" == "void*" <==> kind == "void")
    ensures '*' in kind + "*" && ("const " <= kind + "*" ==> ' ' in kind)
  {
    assert (kind + "*")[..|kind|] == kind && "char*"[..4] == "char" && "void*"[..4] == "void";
    if "const " <= kind + "*" { assert (kind + "*")[5] == (kind + "*")[..6][5]; }
  }

  lemma StarredType(kind: string, name: string)
    requires Identifier(name) && Stripped(kind) && kind != ""
    ensures ParamName(kind + "* " + name) == Some(name) && ParamType(kind + "* " + name) == kind + "*"
    ensures ParamType("const " + kind + "* " + name) == "const " + kind + "*"
  {
    hide ParamName, ParamType, Identifier;
    DeclaredType(kind + "*", name);
    DeclaredType("const " + kind + "*", name);
    assert kind + "*" + " " + name == kind + "* " + name;
    assert "const " + kind + "*" + " " + name == "const " + kind + "* " + name;
  }

  lemma WithoutBlank(s: string)
    requires ' ' !in s
    ensures Without(s, " ") == s
  {
    WithoutLast(s, ' ');
  }

  lemma PointeeOf(kind: string)
    requires Stripped(kind)
    ensures Pointee(kind + "*") == kind
  {
    hide Strip;
    assert (kind + "*")[..|kind|] == kind && "" + kind + "" == kind;
    StripAround("", kind, "");
  }
}
