// The census of tools/inspect_game.py: an inverted index over the scanned modules and per-family totals.
module Census {
  import opened Ordering

  // A scanned module's record.  `readable` is false for one that raised while being scanned; each list
  // comes out of sorted(set(...)).
  datatype Module = Module(path: string, readable: bool, artifact: bool, linked: seq<string>, delayed: seq<string>,
                           pinvoke: seq<string>, strings: seq<string>)

  datatype Kind = Static | Delayed | PInvoke | Strings

  function Symbols(m: Module, kind: Kind): seq<string> {
    match kind
    case Static => m.linked
    case Delayed => m.delayed
    case PInvoke => m.pinvoke
    case Strings => m.strings
  }

  ghost predicate Distinct(s: seq<string>) {
    forall i, j :: 0 <= i < j < |s| ==> s[i] != s[j]
  }

  ghost predicate Scanned(m: Module) {
    forall kind :: Distinct(Symbols(m, kind))
  }

  predicate Mentions(m: Module, kind: Kind, symbol: string) {
    m.readable && !m.artifact && symbol in Symbols(m, kind)
  }

  // The paths of the modules that import `symbol`, in module order, each once.
  function Importers(modules: seq<Module>, kind: Kind, symbol: string): seq<string> {
    if modules == [] then []
    else
      var n := |modules| - 1;
      Importers(modules[..n], kind, symbol) + if Mentions(modules[n], kind, symbol) then [modules[n].path] else []
  }

  lemma {:induction false} ImportersMembers(modules: seq<Module>, kind: Kind, symbol: string)
    ensures Importers(modules, kind, symbol) != [] <==> exists m :: m in modules && Mentions(m, kind, symbol)
    ensures forall p :: p in Importers(modules, kind, symbol) <==>
                          exists m :: m in modules && Mentions(m, kind, symbol) && m.path == p
  {
    hide Mentions;
    if modules != [] {
      var n := |modules| - 1;
      ImportersMembers(modules[..n], kind, symbol);
      assert modules == modules[..n] + [modules[n]];
      if Mentions(modules[n], kind, symbol) { assert modules[n] in modules; }
    }
  }

  // Modules are listed in their order.
  lemma {:induction false} ImportersConcat(modules: seq<Module>, more: seq<Module>, kind: Kind, symbol: string)
    ensures Importers(modules + more, kind, symbol)
              == Importers(modules, kind, symbol) + Importers(more, kind, symbol)
  {
    hide Mentions;
    if more == [] {
      assert modules + more == modules;
    } else {
      var n := |more| - 1;
      assert (modules + more)[..|modules| + n] == modules + more[..n];
      ImportersConcat(modules, more[..n], kind, symbol);
    }
  }

  type Index = map<string, seq<string>>

  ghost predicate Indexes(index: Index, modules: seq<Module>, kind: Kind) {
    && (forall s :: s in index <==> Importers(modules, kind, s) != [])
    && forall s :: s in index ==> index[s] == Importers(modules, kind, s)
  }

  function Entry(index: Index, symbol: string): seq<string> {
    if symbol in index then index[symbol] else []
  }

  // One module's symbols of one kind: the path goes to the end of each symbol's list.
  method AddAll(index: Index, symbols: seq<string>, path: string) returns (next: Index)
    requires Distinct(symbols)
    ensures next.Keys == index.Keys + Elements(symbols)
    ensures forall s :: Entry(next, s) == Entry(index, s) + if s in symbols then [path] else []
  {
    next := index;
    for i := 0 to |symbols|
      invariant next.Keys == index.Keys + Elements(symbols[..i])
      invariant forall s :: Entry(next, s) == Entry(index, s) + if s in symbols[..i] then [path] else []
    {
      AddOne(index, next, symbols, i, path);
      next := next[symbols[i] := Entry(next, symbols[i]) + [path]];
    }
    assert symbols[..|symbols|] == symbols;
  }

  lemma AddOne(index: Index, next: Index, symbols: seq<string>, i: nat, path: string)
    requires Distinct(symbols) && i < |symbols|
    requires next.Keys == index.Keys + Elements(symbols[..i])
    requires forall s :: Entry(next, s) == Entry(index, s) + if s in symbols[..i] then [path] else []
    ensures var after := next[symbols[i] := Entry(next, symbols[i]) + [path]];
            && after.Keys == index.Keys + Elements(symbols[..i + 1])
            && forall s :: Entry(after, s) == Entry(index, s) + if s in symbols[..i + 1] then [path] else []
  {
  }

  method AddModule(index: Index, m: Module, kind: Kind, ghost before: seq<Module>) returns (next: Index)
    requires Indexes(index, before, kind) && Scanned(m) && m.readable && !m.artifact
    ensures Indexes(next, before + [m], kind)
  {
    next := AddAll(index, Symbols(m, kind), m.path);
    assert (before + [m])[..|before|] == before;
    forall s ensures Entry(next, s) == Importers(before + [m], kind, s) {
      assert Entry(index, s) == Importers(before, kind, s);
    }
    forall s ensures s in next <==> Importers(before + [m], kind, s) != [] {
      assert Entry(next, s) == Importers(before + [m], kind, s);
    }
  }

  lemma SkipModule(index: Index, m: Module, kind: Kind, before: seq<Module>)
    requires Indexes(index, before, kind) && (m.artifact || !m.readable)
    ensures Indexes(index, before + [m], kind)
  {
  }

  // The fold over all modules.
  method FoldModules(modules: seq<Module>) returns (linked: Index, delayed: Index, pinvoke: Index, dynamic: Index)
    requires forall m :: m in modules ==> Scanned(m)
    ensures Indexes(linked, modules, Static) && Indexes(delayed, modules, Delayed)
    ensures Indexes(pinvoke, modules, PInvoke) && Indexes(dynamic, modules, Strings)
  {
    linked, delayed, pinvoke, dynamic := map[], map[], map[], map[];
    for i := 0 to |modules|
      invariant Indexes(linked, modules[..i], Static) && Indexes(delayed, modules[..i], Delayed)
      invariant Indexes(pinvoke, modules[..i], PInvoke) && Indexes(dynamic, modules[..i], Strings)
    {
      hide Indexes;
      var m := modules[i];
      ghost var before := modules[..i];
      assert modules[..i + 1] == before + [m];
      if m.artifact || !m.readable {
        SkipModule(linked, m, Static, before);
        SkipModule(delayed, m, Delayed, before);
        SkipModule(pinvoke, m, PInvoke, before);
        SkipModule(dynamic, m, Strings, before);
      } else {
        linked := AddModule(linked, m, Static, before);
        delayed := AddModule(delayed, m, Delayed, before);
        pinvoke := AddModule(pinvoke, m, PInvoke, before);
        dynamic := AddModule(dynamic, m, Strings, before);
      }
    }
    assert modules[..|modules|] == modules;
  }

  /******* Families *******/

  function SplitOn(s: string, c: char): (parts: seq<string>)
    ensures parts != []
  {
    if s == "" then [""]
    else
      var rest := SplitOn(s[1..], c);
      if s[0] == c then [""] + rest else [[s[0]] + rest[0]] + rest[1..]
  }

  // family_of
  function FamilyOf(symbol: string): string {
    var parts := SplitOn(symbol, '_');
    if |parts| < 3 then "Common" else parts[1]
  }

  datatype Totals = Totals(reference: nat, ours: nat, imported: nat, missing: nat)

  datatype Column = Reference | Ours | Imported | Absent

  function Cell(t: Totals, column: Column): nat {
    match column
    case Reference => t.reference
    case Ours => t.ours
    case Imported => t.imported
    case Absent => t.missing
  }

  ghost function InFamily(symbols: set<string>, family: string): set<string> {
    set s | s in symbols && FamilyOf(s) == family
  }

  ghost function Families(symbols: set<string>): set<string> {
    set s | s in symbols :: FamilyOf(s)
  }

  // The totals of one family, counting only the symbols in `done`.
  ghost function Tally(done: set<string>, family: string, reference: set<string>, ours: set<string>,
                       imported: set<string>): Totals
  {
    Totals(|InFamily(done * reference, family)|, |InFamily(done * ours, family)|,
           |InFamily(done * imported, family)|, |InFamily(done * (imported - ours), family)|)
  }

  lemma CountOne(done: set<string>, s: string, family: string, x: set<string>)
    requires s !in done
    ensures |InFamily((done + {s}) * x, family)|
            == |InFamily(done * x, family)| + if s in x && FamilyOf(s) == family then 1 else 0
  {
    var extra := if s in x && FamilyOf(s) == family then {s} else {};
    assert InFamily((done + {s}) * x, family) == InFamily(done * x, family) + extra;
  }

  lemma TallyOne(done: set<string>, s: string, family: string, reference: set<string>, ours: set<string>,
                 imported: set<string>)
    requires s !in done
    ensures var before := Tally(done, family, reference, ours, imported);
            Tally(done + {s}, family, reference, ours, imported) ==
              if FamilyOf(s) != family then before else Counted(before, s, reference, ours, imported)
  {
    CountOne(done, s, family, reference);
    CountOne(done, s, family, ours);
    CountOne(done, s, family, imported);
    CountOne(done, s, family, imported - ours);
  }

  // The body of the family loop for one symbol.
  function Counted(t: Totals, s: string, reference: set<string>, ours: set<string>, imported: set<string>): Totals {
    Totals(t.reference + (if s in reference then 1 else 0), t.ours + (if s in ours then 1 else 0),
           t.imported + (if s in imported then 1 else 0), t.missing + (if s in imported && s !in ours then 1 else 0))
  }

  // The families met so far, with their totals over the symbols in `done`.
  ghost predicate Counting(families: map<string, Totals>, done: set<string>, reference: set<string>, ours: set<string>,
                           imported: set<string>)
  {
    && families.Keys == Families(done)
    && forall f :: f in families ==> families[f] == Tally(done, f, reference, ours, imported)
  }

  lemma CountSymbol(families: map<string, Totals>, done: set<string>, s: string, reference: set<string>,
                    ours: set<string>, imported: set<string>)
    requires Counting(families, done, reference, ours, imported) && s !in done
    ensures var t := if FamilyOf(s) in families then families[FamilyOf(s)] else Totals(0, 0, 0, 0);
            Counting(families[FamilyOf(s) := Counted(t, s, reference, ours, imported)], done + {s}, reference, ours,
                     imported)
  {
    hide Tally, Counted, FamilyOf;
    var family := FamilyOf(s);
    if family !in families { NoneYet(done, family, reference, ours, imported); }
    assert Families(done + {s}) == Families(done) + {family};
    forall f | f in Families(done + {s})
      ensures Tally(done + {s}, f, reference, ours, imported) ==
              if f != family then Tally(done, f, reference, ours, imported)
              else Counted(Tally(done, f, reference, ours, imported), s, reference, ours, imported) {
      TallyOne(done, s, f, reference, ours, imported);
    }
  }

  lemma NothingCounting(reference: set<string>, ours: set<string>, imported: set<string>)
    ensures Counting(map[], {}, reference, ours, imported)
  {
  }

  method CountFamilies(reference: set<string>, ours: set<string>, imported: set<string>)
    returns (families: map<string, Totals>)
    ensures Counting(families, imported + reference, reference, ours, imported)
  {
    hide Tally, Counted, FamilyOf, Families, Less, Sorted;
    families := map[];
    var order := Sort(imported + reference);
    NothingCounting(reference, ours, imported);
    ghost var done: set<string> := {};
    for i := 0 to |order|
      invariant done == Elements(order[..i]) && Counting(families, done, reference, ours, imported)
    {
      hide Counting;
      var s := order[i];
      NotYet(order, i);
      CountSymbol(families, done, s, reference, ours, imported);
      var t := if FamilyOf(s) in families then families[FamilyOf(s)] else Totals(0, 0, 0, 0);
      families := families[FamilyOf(s) := Counted(t, s, reference, ours, imported)];
      assert order[..i + 1] == order[..i] + [s];
      done := done + {s};
    }
    assert order[..|order|] == order;
  }

  lemma NotYet(order: seq<string>, i: nat)
    requires Increasing(order) && i < |order|
    ensures order[i] !in Elements(order[..i])
  {
    if order[i] in order[..i] {
      var k :| 0 <= k < i && order[k] == order[i];
      LessIsIrreflexive(order[i]);
    }
  }

  lemma NoneYet(done: set<string>, family: string, reference: set<string>, ours: set<string>, imported: set<string>)
    requires family !in Families(done)
    ensures Tally(done, family, reference, ours, imported) == Totals(0, 0, 0, 0)
  {
  }

  // The sum of one column over all families.
  ghost function Total(families: map<string, Totals>, column: Column): nat
    decreases |families|
  {
    if families == map[] then 0
    else
      var f :| f in families;
      Cell(families[f], column) + Total(families - {f}, column)
  }

  lemma {:induction false} TotalIsConserved(families: map<string, Totals>, column: Column, symbols: set<string>)
    requires Families(symbols) <= families.Keys
    requires forall f :: f in families ==> Cell(families[f], column) == |InFamily(symbols, f)|
    ensures Total(families, column) == |symbols|
    decreases |families|
  {
    hide FamilyOf, Families, InFamily, Cell;
    if families == map[] {
      NoFamilies(symbols);
    } else {
      var f :| f in families && Total(families, column) == Cell(families[f], column) + Total(families - {f}, column);
      FamilyApart(symbols, f);
      TotalIsConserved(families - {f}, column, symbols - InFamily(symbols, f));
    }
  }

  lemma NoFamilies(symbols: set<string>)
    requires Families(symbols) == {}
    ensures symbols == {}
  {
    assert forall s :: s in symbols ==> FamilyOf(s) in Families(symbols);
  }

  lemma FamilyApart(symbols: set<string>, f: string)
    ensures var here := InFamily(symbols, f); var rest := symbols - here;
            && |symbols| == |here| + |rest| && Families(rest) == Families(symbols) - {f}
            && forall g :: g != f ==> InFamily(rest, g) == InFamily(symbols, g)
  {
    hide FamilyOf;
    var here := InFamily(symbols, f);
    var rest := symbols - here;
    assert symbols == here + rest;
    forall g | g != f ensures InFamily(rest, g) == InFamily(symbols, g) {
    }
  }

  /******* The report *******/

  datatype Report = Report(
    linked: Index, delayed: Index, pinvoke: Index, dynamicOnly: Index,
    loaderFatal: Index, optionalDelayed: Index, pinvokeRequired: Index, dynamicRequired: Index,
    families: map<string, Totals>)
  {
    function Imported(): set<string> {
      linked.Keys + delayed.Keys + pinvoke.Keys + dynamicOnly.Keys
    }
  }

  function Missing(index: Index, ours: set<string>): (missing: Index)
    ensures missing.Keys == index.Keys - ours
  {
    map s | s in index && s !in ours :: index[s]
  }

  function Restricted(index: Index, reference: set<string>): Index {
    if reference == {} then index else map s | s in index && s in reference :: index[s]
  }

  function Unlinked(index: Index, linked: Index, delayed: Index): Index {
    map s | s in index && s !in linked && s !in delayed :: index[s]
  }

  // What the scan found in readable modules that are no artifacts of ours is what the indexes list.
  ghost predicate ReportsImports(r: Report, modules: seq<Module>, reference: set<string>) {
    && (forall s :: s in r.linked <==> exists m :: m in modules && m.readable && !m.artifact && s in m.linked)
    && (forall s :: s in r.delayed <==> exists m :: m in modules && m.readable && !m.artifact && s in m.delayed)
    && (forall s :: s in r.pinvoke <==>
          && (reference == {} || s in reference)
          && exists m :: m in modules && m.readable && !m.artifact && s in m.pinvoke)
    && (forall s :: s in r.dynamicOnly <==>
          && (reference == {} || s in reference) && s !in r.linked && s !in r.delayed
          && exists m :: m in modules && m.readable && !m.artifact && s in m.strings)
  }

  // And under each symbol, the paths of those modules and no others.
  ghost predicate ReportsPaths(r: Report, modules: seq<Module>) {
    && (forall s, p :: s in r.linked ==>
          (p in r.linked[s] <==>
             exists m :: m in modules && m.readable && !m.artifact && s in m.linked && m.path == p))
    && (forall s, p :: s in r.delayed ==>
          (p in r.delayed[s] <==>
             exists m :: m in modules && m.readable && !m.artifact && s in m.delayed && m.path == p))
    && (forall s, p :: s in r.pinvoke ==>
          (p in r.pinvoke[s] <==>
             exists m :: m in modules && m.readable && !m.artifact && s in m.pinvoke && m.path == p))
    && (forall s, p :: s in r.dynamicOnly ==>
          (p in r.dynamicOnly[s] <==>
             exists m :: m in modules && m.readable && !m.artifact && s in m.strings && m.path == p))
  }

  lemma SymbolsAreReported(r: Report, modules: seq<Module>, reference: set<string>)
    requires ListsImporters(r, modules, reference)
    ensures ReportsImports(r, modules, reference)
  {
    hide Importers;
    forall s, kind {:trigger Importers(modules, kind, s)}
      ensures Importers(modules, kind, s) != [] <==> exists m :: m in modules && Mentions(m, kind, s) {
      ImportersMembers(modules, kind, s);
    }
  }

  lemma PathsAreReported(r: Report, modules: seq<Module>, reference: set<string>)
    requires ListsImporters(r, modules, reference)
    ensures ReportsPaths(r, modules)
  {
    hide Importers;
    forall s, kind {:trigger Importers(modules, kind, s)}
      ensures forall p :: p in Importers(modules, kind, s) <==>
                            exists m :: m in modules && Mentions(m, kind, s) && m.path == p {
      ImportersMembers(modules, kind, s);
    }
  }

  // Every index of the report lists, under exactly the symbols it should, all their importers in order.
  ghost predicate ListsImporters(r: Report, modules: seq<Module>, reference: set<string>) {
    && Indexes(r.linked, modules, Static) && Indexes(r.delayed, modules, Delayed)
    // Managed and string mentions only count when the reference SDK, if there is one, exports them.
    && (forall s :: s in r.pinvoke <==> Importers(modules, PInvoke, s) != [] && (reference == {} || s in reference))
    && (forall s :: s in r.pinvoke ==> r.pinvoke[s] == Importers(modules, PInvoke, s))
    // Dynamic symbols are those linked neither statically nor delayed.
    && (forall s :: s in r.dynamicOnly <==>
          && Importers(modules, Strings, s) != [] && (reference == {} || s in reference)
          && Importers(modules, Static, s) == [] && Importers(modules, Delayed, s) == [])
    && (forall s :: s in r.dynamicOnly ==> r.dynamicOnly[s] == Importers(modules, Strings, s))
  }

  // The missing symbols are the imported ones we do not export, each under the way it is imported.
  ghost predicate ListsMissing(r: Report, ours: set<string>) {
    && r.loaderFatal.Keys + r.optionalDelayed.Keys + r.pinvokeRequired.Keys + r.dynamicRequired.Keys
       == r.Imported() - ours
    && r.loaderFatal.Keys == r.linked.Keys - ours && r.optionalDelayed.Keys == r.delayed.Keys - ours
    && r.pinvokeRequired.Keys == r.pinvoke.Keys - ours && r.dynamicRequired.Keys == r.dynamicOnly.Keys - ours
    && (forall s :: s in r.loaderFatal ==> r.loaderFatal[s] == r.linked[s])
    && (forall s :: s in r.optionalDelayed ==> r.optionalDelayed[s] == r.delayed[s])
    && (forall s :: s in r.pinvokeRequired ==> r.pinvokeRequired[s] == r.pinvoke[s])
    && (forall s :: s in r.dynamicRequired ==> r.dynamicRequired[s] == r.dynamicOnly[s])
  }

  // Each family counts its own symbols, and nothing is lost or counted twice across families.
  ghost predicate ConservesTotals(families: map<string, Totals>, reference: set<string>, ours: set<string>,
                                  imported: set<string>)
  {
    && families.Keys == Families(imported + reference)
    && (forall f :: f in families ==>
          && families[f].reference == |InFamily(reference, f)|
          && families[f].imported == |InFamily(imported, f)|
          && families[f].missing == |InFamily(imported - ours, f)|
          && families[f].ours == |InFamily((imported + reference) * ours, f)|)
    && Total(families, Reference) == |reference|
    && Total(families, Imported) == |imported|
    && Total(families, Absent) == |imported - ours|
    && Total(families, Ours) == |(imported + reference) * ours|
  }

  // The part of main between scanning and reporting.
  method TakeCensus(modules: seq<Module>, ours: set<string>, reference: set<string>) returns (r: Report)
    requires forall m :: m in modules ==> Scanned(m)
    ensures ListsImporters(r, modules, reference)
    ensures ReportsImports(r, modules, reference) && ReportsPaths(r, modules)
    ensures ListsMissing(r, ours)
    ensures ConservesTotals(r.families, reference, ours, r.Imported())
  {
    hide Indexes, Importers, Counting, ConservesTotals, ListsImporters, ListsMissing, Missing, Restricted, Unlinked,
      ReportsImports, ReportsPaths;
    var linked, delayed, pinvoke, dynamic := FoldModules(modules);
    var keptPInvoke, keptDynamic := Restricted(pinvoke, reference), Restricted(dynamic, reference);
    var dynamicOnly := Unlinked(keptDynamic, linked, delayed);
    var imported := linked.Keys + delayed.Keys + keptPInvoke.Keys + dynamicOnly.Keys;
    var families := CountFamilies(reference, ours, imported);
    FamiliesConserve(families, reference, ours, imported);
    r := Report(linked, delayed, keptPInvoke, dynamicOnly,
                Missing(linked, ours), Missing(delayed, ours), Missing(keptPInvoke, ours), Missing(dynamicOnly, ours),
                families);
    ImportersAreListed(r, modules, reference, pinvoke, dynamic);
    SymbolsAreReported(r, modules, reference);
    PathsAreReported(r, modules, reference);
    MissingIsListed(r, ours);
  }

  lemma MissingIsListed(r: Report, ours: set<string>)
    requires r.loaderFatal == Missing(r.linked, ours) && r.optionalDelayed == Missing(r.delayed, ours)
    requires r.pinvokeRequired == Missing(r.pinvoke, ours) && r.dynamicRequired == Missing(r.dynamicOnly, ours)
    ensures ListsMissing(r, ours)
  {
  }

  lemma ImportersAreListed(r: Report, modules: seq<Module>, reference: set<string>, pinvoke: Index, dynamic: Index)
    requires Indexes(r.linked, modules, Static) && Indexes(r.delayed, modules, Delayed)
    requires Indexes(pinvoke, modules, PInvoke) && Indexes(dynamic, modules, Strings)
    requires r.pinvoke == Restricted(pinvoke, reference)
    requires r.dynamicOnly == Unlinked(Restricted(dynamic, reference), r.linked, r.delayed)
    ensures ListsImporters(r, modules, reference)
  {
  }

  lemma FamiliesConserve(families: map<string, Totals>, reference: set<string>, ours: set<string>,
                         imported: set<string>)
    requires Counting(families, imported + reference, reference, ours, imported)
    ensures ConservesTotals(families, reference, ours, imported)
  {
    hide InFamily, Total;
    var all := imported + reference;
    assert all * reference == reference && all * imported == imported && all * (imported - ours) == imported - ours;
    TotalIsConserved(families, Reference, reference);
    TotalIsConserved(families, Imported, imported);
    TotalIsConserved(families, Absent, imported - ours);
    TotalIsConserved(families, Ours, all * ours);
  }

  // What a family is: the part between the first two underscores, if there are two.
  lemma FamilyOfParts(prefix: string, family: string, rest: string)
    requires '_' !in prefix && '_' !in family
    ensures FamilyOf(prefix + "_" + family + "_" + rest) == family
    ensures FamilyOf(prefix + "_" + family) == "Common" && FamilyOf(family) == "Common"
  {
    SplitPart(prefix, family + "_" + rest);
    SplitPart(family, rest);
    SplitPart(prefix, family);
    SplitLast(family);
    assert prefix + "_" + family + "_" + rest == prefix + "_" + (family + "_" + rest);
    assert SplitOn(rest, '_') != [];
  }

  lemma {:induction false} SplitPart(part: string, rest: string)
    requires '_' !in part
    ensures SplitOn(part + "_" + rest, '_') == [part] + SplitOn(rest, '_')
  {
    var s := part + "_" + rest;
    if part == "" {
      assert s[1..] == rest;
    } else {
      assert s[1..] == part[1..] + "_" + rest && s[0] == part[0];
      SplitPart(part[1..], rest);
      assert [part[0]] + part[1..] == part;
    }
  }

  lemma {:induction false} SplitLast(part: string)
    requires '_' !in part
    ensures SplitOn(part, '_') == [part]
  {
    if part != "" {
      SplitLast(part[1..]);
      assert [part[0]] + part[1..] == part;
    }
  }
}
