// The generator of tools/gen_stubs.py: which exports are stubbed, in which group and with which body, and that
// writing the file does not change what is generated next.
module Generator {
  import opened Wrappers
  import opened Sequences
  import opened Ordering
  import opened ParamLists
  import Params
  import NotificationNames
  import Stubs

  // What the header scan takes for a function's name.
  predicate ExportName(s: string) {
    "EOS_" <= s && |s| > 4 && forall k :: 0 <= k < |s| ==> Params.IdentifierChar(s[k])
  }

  type Symbol = s: string | ExportName(s) witness "EOS_A"

  // One EOS_DECLARE_FUNC the header scan finds.
  datatype Declaration = Declaration(name: Symbol, ret: string, args: string)

  // One EOS_DECLARE_CALLBACK: a delegate type and the CallbackInfo it takes.
  datatype Callback = Callback(delegate: string, info: string)

  datatype Header = Header(file: string, inlines: seq<string>, callbacks: seq<Callback>, functions: seq<Declaration>)

  // A declaration and the file it stands in.
  datatype Site = Site(declaration: Declaration, file: string)

  // A declared function with the header a stub must include to see its types.
  datatype Function = Function(name: Symbol, ret: string, args: string, owner: string)

  const OUT := "eos_stubs_flat.cpp"
  const BASE := "eos_base.h"

  // `listing` is the order in which the directory lists its *.h files; `sources` the sorted *.h then the
  // sorted *.inl files; `flat` the names each hand-written or generated *.cpp file defines.
  datatype Tree = Tree(listing: seq<Header>, sources: seq<Header>, flat: map<string, set<string>>)

  /******* implemented *******/

  ghost function Implemented(flat: map<string, set<string>>): set<string> {
    set f, n | f in flat && f != OUT && n in flat[f] :: n
  }

  method FindImplemented(flat: map<string, set<string>>) returns (found: set<string>)
    ensures found == Implemented(flat)
  {
    found := {};
    var files := Sort(flat.Keys);
    assert forall f :: f in files ==> f in Elements(files);
    for i := 0 to |files|
      invariant forall n :: n in found <==> exists f :: f in files[..i] && f != OUT && n in flat[f]
    {
      assert files[..i + 1] == files[..i] + [files[i]];
      if files[i] != OUT { found := found + flat[files[i]]; }
    }
    assert files[..|files|] == files;
    forall n ensures n in found <==> n in Implemented(flat) {
      if n in Implemented(flat) {
        var f :| f in flat && f != OUT && n in flat[f];
        assert f in Elements(files);
      }
    }
  }

  /******* parse_headers *******/

  // The last listed header that includes `file`, or the file itself.
  function Owner(listing: seq<Header>, file: string): string {
    if listing == [] then file
    else
      var n := |listing| - 1;
      if file in listing[n].inlines then listing[n].file else Owner(listing[..n], file)
  }

  function Parent(parents: map<string, string>, file: string): string {
    if file in parents then parents[file] else file
  }

  // Which header includes each *.inl file; a later one replaces an earlier one.
  method ReadParents(listing: seq<Header>) returns (parents: map<string, string>)
    ensures forall file :: Parent(parents, file) == Owner(listing, file)
  {
    parents := map[];
    for i := 0 to |listing|
      invariant forall file :: Parent(parents, file) == Owner(listing[..i], file)
    {
      assert listing[..i + 1][..i] == listing[..i];
      var h := listing[i];
      for k := 0 to |h.inlines|
        invariant forall file :: Parent(parents, file) ==
                    if file in h.inlines[..k] then h.file else Owner(listing[..i], file)
      {
        assert h.inlines[..k + 1] == h.inlines[..k] + [h.inlines[k]];
        parents := parents[h.inlines[k] := h.file];
      }
      assert h.inlines[..|h.inlines|] == h.inlines;
    }
    assert listing[..|listing|] == listing;
  }

  function SitesOf(functions: seq<Declaration>, file: string): seq<Site> {
    seq(|functions|, i requires 0 <= i < |functions| => Site(functions[i], file))
  }

  // Every declaration in scanning order; the header that defines the macros declares nothing.
  function Sites(sources: seq<Header>): seq<Site> {
    if sources == [] then []
    else
      var n := |sources| - 1;
      Sites(sources[..n]) + if sources[n].file == BASE then [] else SitesOf(sources[n].functions, sources[n].file)
  }

  function Callbacks(sources: seq<Header>): seq<Callback> {
    if sources == [] then []
    else
      var n := |sources| - 1;
      Callbacks(sources[..n]) + if sources[n].file == BASE then [] else sources[n].callbacks
  }

  // The first declaration of each name counts.
  ghost predicate FirstWins(first: map<string, Site>, declared: seq<Site>) {
    && (forall n :: n in first ==> First(first[n], declared) && first[n].declaration.name == n)
    && forall s :: s in declared ==> s.declaration.name in first
  }

  ghost predicate First(s: Site, declared: seq<Site>) {
    exists i :: 0 <= i < |declared| && declared[i] == s
                && forall j :: 0 <= j < i ==> declared[j].declaration.name != s.declaration.name
  }

  ghost function Parsed(declared: seq<Site>): (first: map<string, Site>)
    ensures FirstWins(first, declared)
  {
    if declared == [] then map[]
    else
      var n := |declared| - 1;
      var s, first := declared[n], Parsed(declared[..n]);
      DeclareOne(first, declared[..n], s);
      assert declared[..n] + [s] == declared;
      if s.declaration.name in first then first else first[s.declaration.name := s]
  }

  // A declaration whose name is known already changes nothing.
  lemma DeclareOne(first: map<string, Site>, declared: seq<Site>, s: Site)
    requires FirstWins(first, declared)
    ensures var name := s.declaration.name;
            FirstWins(if name in first then first else first[name := s], declared + [s])
  {
    var name, all := s.declaration.name, declared + [s];
    var next := if name in first then first else first[name := s];
    forall n | n in next ensures First(next[n], all) && next[n].declaration.name == n {
      if n in first {
        assert First(first[n], declared);
        var i :| 0 <= i < |declared| && declared[i] == first[n]
                 && forall j :: 0 <= j < i ==> declared[j].declaration.name != first[n].declaration.name;
        assert all[i] == next[n];
      } else {
        assert all[|declared|] == s;
        forall j | 0 <= j < |declared| ensures all[j].declaration.name != name { assert declared[j] in declared; }
      }
    }
  }

  function Locate(listing: seq<Header>, s: Site): Function {
    Function(s.declaration.name, s.declaration.ret, s.declaration.args, Owner(listing, s.file))
  }

  function Located(listing: seq<Header>, first: map<string, Site>): map<string, Function> {
    map n | n in first :: Locate(listing, first[n])
  }

  // The functions of one header.
  method ParseFunctions(funcs: map<string, Function>, listing: seq<Header>, functions: seq<Declaration>, file: string,
                        owner: string, ghost before: seq<Site>)
    returns (next: map<string, Function>)
    requires owner == Owner(listing, file) && funcs == Located(listing, Parsed(before))
    ensures next == Located(listing, Parsed(before + SitesOf(functions, file)))
  {
    hide FirstWins, Owner;
    next := funcs;
    assert before + SitesOf(functions[..0], file) == before;
    for i := 0 to |functions|
      invariant next == Located(listing, Parsed(before + SitesOf(functions[..i], file)))
    {
      hide Parsed, Located;
      var d := functions[i];
      assert SitesOf(functions[..i + 1], file) == SitesOf(functions[..i], file) + [Site(d, file)];
      Associative(before, SitesOf(functions[..i], file), [Site(d, file)]);
      ParseOne(listing, before + SitesOf(functions[..i], file), Site(d, file));
      if d.name !in next { next := next[d.name := Function(d.name, d.ret, d.args, owner)]; }
    }
    assert functions[..|functions|] == functions;
  }

  lemma ParseOne(listing: seq<Header>, declared: seq<Site>, s: Site)
    ensures var funcs, name := Located(listing, Parsed(declared)), s.declaration.name;
            Located(listing, Parsed(declared + [s]))
              == if name in funcs then funcs else funcs[name := Locate(listing, s)]
  {
    assert (declared + [s])[..|declared|] == declared;
  }

  // The last declaration of each delegate type counts.
  function DelegatesOf(callbacks: seq<Callback>): map<string, string> {
    if callbacks == [] then map[]
    else
      var n := |callbacks| - 1;
      DelegatesOf(callbacks[..n])[callbacks[n].delegate := callbacks[n].info]
  }

  lemma {:induction false} LastCallbackCounts(callbacks: seq<Callback>, delegate: string)
    ensures delegate in DelegatesOf(callbacks) <==> exists c :: c in callbacks && c.delegate == delegate
    ensures delegate in DelegatesOf(callbacks) ==>
              exists i :: 0 <= i < |callbacks| && callbacks[i] == Callback(delegate, DelegatesOf(callbacks)[delegate])
                          && forall j :: i < j < |callbacks| ==> callbacks[j].delegate != delegate
  {
    if callbacks != [] {
      var n := |callbacks| - 1;
      LastCallbackCounts(callbacks[..n], delegate);
      assert callbacks == callbacks[..n] + [callbacks[n]];
      if callbacks[n].delegate != delegate && delegate in DelegatesOf(callbacks) {
        var i :| 0 <= i < n && callbacks[..n][i] == Callback(delegate, DelegatesOf(callbacks)[delegate])
                 && forall j :: i < j < n ==> callbacks[..n][j].delegate != delegate;
        assert callbacks[i] == callbacks[..n][i];
      }
    }
  }

  method ParseCallbacks(delegates: map<string, string>, callbacks: seq<Callback>, ghost before: seq<Callback>)
    returns (next: map<string, string>)
    requires delegates == DelegatesOf(before)
    ensures next == DelegatesOf(before + callbacks)
  {
    next := delegates;
    assert before + callbacks[..0] == before;
    for i := 0 to |callbacks|
      invariant next == DelegatesOf(before + callbacks[..i])
    {
      assert (before + callbacks[..i + 1])[..|before| + i] == before + callbacks[..i];
      next := next[callbacks[i].delegate := callbacks[i].info];
    }
    assert callbacks[..|callbacks|] == callbacks;
  }

  method ParseHeaders(listing: seq<Header>, sources: seq<Header>)
    returns (funcs: map<string, Function>, delegates: map<string, string>)
    ensures funcs == Located(listing, Parsed(Sites(sources)))
    ensures delegates == DelegatesOf(Callbacks(sources))
  {
    hide Parsed, Owner, Located, Parent, DelegatesOf;
    var parents := ReadParents(listing);
    funcs, delegates := map[], map[];
    NothingParsed(listing);
    for i := 0 to |sources|
      invariant funcs == Located(listing, Parsed(Sites(sources[..i])))
      invariant delegates == DelegatesOf(Callbacks(sources[..i]))
    {
      assert sources[..i + 1][..i] == sources[..i];
      var h := sources[i];
      if h.file != BASE {
        delegates := ParseCallbacks(delegates, h.callbacks, Callbacks(sources[..i]));
        funcs := ParseFunctions(funcs, listing, h.functions, h.file, Parent(parents, h.file), Sites(sources[..i]));
      } else {
        assert Sites(sources[..i]) + [] == Sites(sources[..i]);
        assert Callbacks(sources[..i]) + [] == Callbacks(sources[..i]);
      }
    }
    assert sources[..|sources|] == sources;
  }

  lemma NothingParsed(listing: seq<Header>)
    ensures Located(listing, Parsed([])) == map[] && DelegatesOf([]) == map[]
  {
  }

  /******* main *******/

  datatype Definition = Definition(
    header: string, name: string, ret: string, signature: string, body: seq<Stubs.Statement>)

  // stub_body raises for these return types.
  predicate Refused(f: Function) {
    f.ret in {"const char*", "double", "float"}
  }

  function Define(f: Function, delegates: map<string, string>): (d: Definition)
    requires !Refused(f)
    ensures d.header == f.owner && d.name == f.name
  {
    hide Stubs.Disciplined, Stubs.Body, Split, Print, Stubs.FirstDelegate, NotificationNames.EventName;
    var params := Split(f.args);
    var delegate, event := Stubs.FirstDelegate(params, delegates), NotificationNames.EventName(f.name);
    Stubs.BodiesAreDisciplined(f.name, f.ret, params, delegate, event);
    Definition(f.owner, f.name, f.ret, Print(params), Stubs.Body(f.name, f.ret, params, delegate, event).value)
  }

  lemma DefinitionAnswers(f: Function, delegates: map<string, string>)
    requires !Refused(f)
    ensures var d, params := Define(f, delegates), Split(f.args);
            && d.ret == f.ret && d.signature == Print(params)
            && Stubs.Disciplined(f.name, f.ret, params, Stubs.FirstDelegate(params, delegates),
                                 NotificationNames.EventName(f.name), d.body)
  {
    hide Stubs.Disciplined, Stubs.Body, Split, Print, Stubs.FirstDelegate, NotificationNames.EventName;
    var params := Split(f.args);
    Stubs.BodiesAreDisciplined(f.name, f.ret, params, Stubs.FirstDelegate(params, delegates),
                               NotificationNames.EventName(f.name));
  }

  lemma SymbolHasNoNewline(name: Symbol)
    ensures '\n' !in name
  {
    assert !Params.IdentifierChar('\n');
  }

  method DefineOne(f: Function, delegates: map<string, string>) returns (d: Option<Definition>)
    ensures d.None? <==> Refused(f)
    ensures d.Some? ==> d.value == Define(f, delegates)
  {
    hide Stubs.Disciplined, Stubs.Body, Split, Print, Stubs.FirstDelegate, NotificationNames.EventName;
    SymbolHasNoNewline(f.name);
    var params := SplitParams(f.args);
    var body := Stubs.StubBody(f.name, f.ret, params, delegates);
    if body.None? { return None; }
    d := Some(Definition(f.owner, f.name, f.ret, Print(params), body.value));
  }

  // The names of `order` declared for one header, in order.
  function Group(order: seq<string>, todo: map<string, Function>, header: string): seq<string> {
    if order == [] then []
    else
      var n := |order| - 1;
      Group(order[..n], todo, header)
      + if order[n] in todo && todo[order[n]].owner == header then [order[n]] else []
  }

  function Groups(headers: seq<string>, order: seq<string>, todo: map<string, Function>): seq<string> {
    if headers == [] then []
    else
      var n := |headers| - 1;
      Groups(headers[..n], order, todo) + Group(order, todo, headers[n])
  }

  ghost function OwnersOf(names: set<string>, todo: map<string, Function>): set<string> {
    set n | n in names && n in todo :: todo[n].owner
  }

  // What is declared and not written by hand.
  ghost function Pending(tree: Tree): (todo: map<string, Function>)
    ensures forall n :: n in todo ==> todo[n].name == n
  {
    var first, have := Parsed(Sites(tree.sources)), Implemented(tree.flat);
    map n | n in first && n !in have :: Locate(tree.listing, first[n])
  }

  // The names of the generated definitions, in file order.
  ghost function Emitted(todo: map<string, Function>): (names: seq<string>)
    ensures forall n :: n in names <==> n in todo
  {
    EmittedNames(todo);
    Groups(Sorted(OwnersOf(todo.Keys, todo)), Sorted(todo.Keys), todo)
  }

  // The groups in file order, cut into definitions; None when stub_body raises for one of them.
  ghost function Generated(tree: Tree): Option<seq<Definition>> {
    var todo := Pending(tree);
    if exists n :: n in todo && Refused(todo[n]) then None
    else Some(DefineAllOf(Emitted(todo), todo, DelegatesOf(Callbacks(tree.sources))))
  }

  function DefineAllOf(names: seq<string>, todo: map<string, Function>, delegates: map<string, string>): seq<Definition>
    requires forall n :: n in names ==> n in todo && !Refused(todo[n])
  {
    seq(|names|, i requires 0 <= i < |names| => Define(todo[names[i]], delegates))
  }

  // main
  method Generate(tree: Tree) returns (out: Option<seq<Definition>>)
    ensures out == Generated(tree)
  {
    hide Define, Refused, Implemented, Parsed, Locate, DelegatesOf, Callbacks, Sites, Emitted;
    var have := FindImplemented(tree.flat);
    var funcs, delegates := ParseHeaders(tree.listing, tree.sources);
    var todo := map n | n in funcs && n !in have :: funcs[n];
    assert todo == Pending(tree);
    var names := InGroups(todo);
    out := DefineAll(names, todo, delegates);
  }

  method InGroups(todo: map<string, Function>) returns (names: seq<string>)
    ensures names == Emitted(todo)
  {
    hide Group;
    var order := Sort(todo.Keys);
    assert forall n :: n in order ==> n in Elements(order);
    var byHeader := GroupByHeader(order, todo);
    var headers := Sort(byHeader.Keys);
    names := [];
    for i := 0 to |headers|
      invariant names == Groups(headers[..i], order, todo)
    {
      assert headers[..i + 1][..i] == headers[..i];
      assert headers[i] in Elements(headers);
      names := names + byHeader[headers[i]];
    }
    assert headers[..|headers|] == headers;
  }

  method DefineAll(names: seq<string>, todo: map<string, Function>, delegates: map<string, string>)
    returns (out: Option<seq<Definition>>)
    requires forall n :: n in names ==> n in todo
    ensures out.None? <==> exists n :: n in names && Refused(todo[n])
    ensures out.Some? ==> out.value == DefineAllOf(names, todo, delegates)
  {
    hide Define, Refused;
    var defined: seq<Definition> := [];
    for i := 0 to |names|
      invariant DefinedUpTo(names, todo, delegates, i, defined)
    {
      hide DefinedUpTo;
      assert names[i] in names;
      var d := DefineOne(todo[names[i]], delegates);
      if d.None? { return None; }
      DefinedOneMore(names, todo, delegates, i, defined);
      defined := defined + [d.value];
    }
    out := Some(defined);
  }

  ghost predicate DefinedUpTo(names: seq<string>, todo: map<string, Function>, delegates: map<string, string>, n: nat,
                              defined: seq<Definition>)
    requires n <= |names| && forall n :: n in names ==> n in todo
  {
    && |defined| == n
    && forall k :: 0 <= k < n ==> !Refused(todo[names[k]]) && defined[k] == Define(todo[names[k]], delegates)
  }

  lemma DefinedOneMore(names: seq<string>, todo: map<string, Function>, delegates: map<string, string>, n: nat,
                       defined: seq<Definition>)
    requires n < |names| && forall n :: n in names ==> n in todo
    requires DefinedUpTo(names, todo, delegates, n, defined) && !Refused(todo[names[n]])
    ensures DefinedUpTo(names, todo, delegates, n + 1, defined + [Define(todo[names[n]], delegates)])
  {
    hide Define, Refused;
  }

  // The sorted names, each added to the end of its header's list.
  method GroupByHeader(order: seq<string>, todo: map<string, Function>) returns (groups: map<string, seq<string>>)
    requires forall n :: n in order ==> n in todo
    ensures groups.Keys == OwnersOf(Elements(order), todo)
    ensures forall h :: h in groups ==> groups[h] == Group(order, todo, h)
  {
    hide Group;
    groups := map[];
    for i := 0 to |order|
      invariant groups.Keys == OwnersOf(Elements(order[..i]), todo)
      invariant forall h :: h in groups ==> groups[h] == Group(order[..i], todo, h)
    {
      var n := order[i];
      assert order[..i + 1][..i] == order[..i] && order[..i + 1] == order[..i] + [n];
      var header := todo[n].owner;
      if header !in groups { EmptyGroup(order[..i], todo, header); }
      GroupStep(order, i, todo);
      assert OwnersOf(Elements(order[..i + 1]), todo) == OwnersOf(Elements(order[..i]), todo) + {header};
      groups := groups[header := (if header in groups then groups[header] else []) + [n]];
    }
    assert order[..|order|] == order;
  }

  lemma GroupStep(order: seq<string>, i: nat, todo: map<string, Function>)
    requires i < |order|
    ensures forall h :: Group(order[..i + 1], todo, h)
              == Group(order[..i], todo, h) + if order[i] in todo && todo[order[i]].owner == h then [order[i]] else []
  {
    assert order[..i + 1][..i] == order[..i];
  }

  lemma EmptyGroup(order: seq<string>, todo: map<string, Function>, header: string)
    requires header !in OwnersOf(Elements(order), todo)
    ensures Group(order, todo, header) == []
  {
  }

  /******* Which names are generated, and in which order *******/

  lemma {:induction false} GroupMembers(order: seq<string>, todo: map<string, Function>, header: string, n: string)
    ensures n in Group(order, todo, header) <==> n in order && n in todo && todo[n].owner == header
  {
    if order != [] {
      GroupMembers(order[..|order| - 1], todo, header, n);
      assert order == order[..|order| - 1] + [order[|order| - 1]];
    }
  }

  lemma {:induction false} GroupsMembers(headers: seq<string>, order: seq<string>, todo: map<string, Function>,
                                         n: string)
    ensures n in Groups(headers, order, todo) <==> n in order && n in todo && todo[n].owner in headers
  {
    if headers != [] {
      var k := |headers| - 1;
      GroupsMembers(headers[..k], order, todo, n);
      GroupMembers(order, todo, headers[k], n);
      assert headers == headers[..k] + [headers[k]];
    }
  }

  lemma EmittedNames(todo: map<string, Function>)
    ensures forall n :: n in Groups(Sorted(OwnersOf(todo.Keys, todo)), Sorted(todo.Keys), todo) <==> n in todo
  {
    var order, headers := Sorted(todo.Keys), Sorted(OwnersOf(todo.Keys, todo));
    forall n ensures n in Groups(headers, order, todo) <==> n in todo {
      GroupsMembers(headers, order, todo, n);
      assert n in order <==> n in Elements(order);
      if n in todo { assert todo[n].owner in Elements(headers); }
    }
  }

  // The order of the file: by header, then by name.
  predicate Before(header: string, name: string, header': string, name': string) {
    Less(header, header') || (header == header' && Less(name, name'))
  }

  ghost predicate InFileOrder(names: seq<string>, todo: map<string, Function>) {
    && (forall n :: n in names ==> n in todo)
    && forall i, j :: 0 <= i < j < |names| ==> Before(todo[names[i]].owner, names[i], todo[names[j]].owner, names[j])
  }

  lemma InOrderConcat(names: seq<string>, more: seq<string>, todo: map<string, Function>)
    requires InFileOrder(names, todo) && InFileOrder(more, todo)
    requires forall n, m :: n in names && m in more ==> Before(todo[n].owner, n, todo[m].owner, m)
    ensures InFileOrder(names + more, todo)
  {
    hide Before;
  }

  lemma {:induction false} GroupInOrder(order: seq<string>, todo: map<string, Function>, header: string)
    requires Increasing(order)
    ensures InFileOrder(Group(order, todo, header), todo)
  {
    hide Less;
    if order != [] {
      var k := |order| - 1;
      GroupInOrder(order[..k], todo, header);
      if order[k] in todo && todo[order[k]].owner == header {
        forall n | n in Group(order[..k], todo, header) ensures Before(todo[n].owner, n, header, order[k]) {
          GroupMembers(order[..k], todo, header, n);
        }
        InOrderConcat(Group(order[..k], todo, header), [order[k]], todo);
      }
    }
  }

  lemma {:induction false} GroupsInOrder(headers: seq<string>, order: seq<string>, todo: map<string, Function>)
    requires Increasing(order) && Increasing(headers)
    ensures InFileOrder(Groups(headers, order, todo), todo)
  {
    hide Less, Group, InFileOrder;
    if headers == [] {
      NothingInOrder(todo);
    } else {
      var k := |headers| - 1;
      GroupsInOrder(headers[..k], order, todo);
      GroupInOrder(order, todo, headers[k]);
      forall n | n in Groups(headers[..k], order, todo) ensures n in todo && todo[n].owner in headers[..k] {
        GroupsMembers(headers[..k], order, todo, n);
      }
      forall m | m in Group(order, todo, headers[k]) ensures m in todo && todo[m].owner == headers[k] {
        GroupMembers(order, todo, headers[k], m);
      }
      InOrderConcat(Groups(headers[..k], order, todo), Group(order, todo, headers[k]), todo);
    }
  }

  lemma NothingInOrder(todo: map<string, Function>)
    ensures InFileOrder([], todo)
  {
  }

  /******* What the file holds *******/

  ghost predicate IsDeclared(n: string, declared: seq<Site>) {
    exists s :: s in declared && s.declaration.name == n
  }

  // Every declared export has one definition, by hand or generated; nothing undeclared is generated; and the
  // definitions stand by header and name.
  lemma EachExportOnce(tree: Tree)
    requires Generated(tree).Some?
    ensures var defs := Generated(tree).value;
            && (forall i, j :: 0 <= i < j < |defs| ==>
                  Before(defs[i].header, defs[i].name, defs[j].header, defs[j].name))
            && (forall i, j :: 0 <= i < j < |defs| ==> defs[i].name != defs[j].name)
            && forall n :: (exists d :: d in defs && d.name == n) <==>
                             IsDeclared(n, Sites(tree.sources)) && n !in Implemented(tree.flat)
  {
    var todo, defs := Pending(tree), Generated(tree).value;
    var names := Emitted(todo);
    GroupsInOrder(Sorted(OwnersOf(todo.Keys, todo)), Sorted(todo.Keys), todo);
    DefinitionsAt(tree);
    forall i, j | 0 <= i < j < |defs|
      ensures Before(defs[i].header, defs[i].name, defs[j].header, defs[j].name) && defs[i].name != defs[j].name {
      assert Before(todo[names[i]].owner, names[i], todo[names[j]].owner, names[j]);
      LessIsIrreflexive(names[i]);
      LessIsIrreflexive(todo[names[i]].owner);
    }
    forall n ensures (exists d :: d in defs && d.name == n) <==>
                       IsDeclared(n, Sites(tree.sources)) && n !in Implemented(tree.flat) {
      PendingNames(tree, n);
      assert n in names <==> n in todo;
      if n in names {
        var i :| 0 <= i < |names| && names[i] == n;
        assert defs[i] in defs && defs[i].name == n;
      }
    }
  }

  lemma DefinitionsAt(tree: Tree)
    requires Generated(tree).Some?
    ensures var defs, todo := Generated(tree).value, Pending(tree);
            && |defs| == |Emitted(todo)|
            && forall i :: 0 <= i < |defs| ==>
                 && Emitted(todo)[i] in todo && !Refused(todo[Emitted(todo)[i]])
                 && defs[i] == Define(todo[Emitted(todo)[i]], DelegatesOf(Callbacks(tree.sources)))
                 && defs[i].name == Emitted(todo)[i] && defs[i].header == todo[Emitted(todo)[i]].owner
  {
    hide Refused, Emitted, Pending;
    assert forall i :: 0 <= i < |Emitted(Pending(tree))| ==> Emitted(Pending(tree))[i] in Pending(tree);
  }

  lemma PendingNames(tree: Tree, n: string)
    ensures n in Pending(tree) <==> IsDeclared(n, Sites(tree.sources)) && n !in Implemented(tree.flat)
    ensures n in Pending(tree) ==>
              exists s :: First(s, Sites(tree.sources)) && s.declaration.name == n
                          && Pending(tree)[n] == Locate(tree.listing, s)
  {
    hide Implemented;
    var first := Parsed(Sites(tree.sources));
    assert n in first ==> First(first[n], Sites(tree.sources));
  }

  // Each definition is made from the first declaration of its name, and its body is disciplined.
  lemma DefinitionsAreFirst(tree: Tree, d: Definition)
    requires Generated(tree).Some? && d in Generated(tree).value
    ensures exists s :: First(s, Sites(tree.sources)) && s.declaration.name == d.name
                        && d.header == Owner(tree.listing, s.file) && Answers(d, s.declaration, tree)
  {
    hide Stubs.Disciplined, Emitted, Pending, First, DelegatesOf, Callbacks, Owner;
    var todo, defs := Pending(tree), Generated(tree).value;
    DefinitionsAt(tree);
    var i :| 0 <= i < |defs| && defs[i] == d;
    PendingNames(tree, d.name);
    DefinitionAnswers(todo[d.name], DelegatesOf(Callbacks(tree.sources)));
    var s :| First(s, Sites(tree.sources)) && s.declaration.name == d.name && todo[d.name] == Locate(tree.listing, s);
    assert Answers(d, s.declaration, tree);
  }

  // `d` has the declared return type and parameters, and a disciplined body.
  ghost predicate Answers(d: Definition, declaration: Declaration, tree: Tree) {
    var params := Split(declaration.args);
    && d.ret == declaration.ret && d.signature == Print(params)
    && Stubs.Disciplined(d.name, d.ret, params, Stubs.FirstDelegate(params, DelegatesOf(Callbacks(tree.sources))),
                         NotificationNames.EventName(d.name), d.body)
  }

  // Nothing is generated exactly when a pending function, by its first declaration, returns one of three types.
  lemma RefusedExactly(tree: Tree)
    ensures Generated(tree).None? <==>
              exists s :: First(s, Sites(tree.sources)) && s.declaration.name !in Implemented(tree.flat)
                          && s.declaration.ret in {"const char*", "double", "float"}
  {
    hide Implemented, Emitted;
    var declared, todo := Sites(tree.sources), Pending(tree);
    forall n | n in todo && Refused(todo[n])
      ensures exists s :: First(s, declared) && s.declaration.name !in Implemented(tree.flat)
                          && s.declaration.ret in {"const char*", "double", "float"} {
      PendingNames(tree, n);
    }
    forall s | First(s, declared) && s.declaration.name !in Implemented(tree.flat)
      ensures s.declaration.name in todo && todo[s.declaration.name].ret == s.declaration.ret {
      assert s in declared;
      assert First(Parsed(declared)[s.declaration.name], declared);
    }
  }

  /******* A second run *******/

  // The tree once the generated file, defining exactly the names of `defs`, is written.
  ghost function Written(tree: Tree, defs: seq<Definition>): Tree {
    tree.(flat := tree.flat[OUT := NamesOf(defs)])
  }

  ghost function NamesOf(defs: seq<Definition>): set<string> {
    set d | d in defs :: d.name
  }

  lemma ImplementedIgnoresOutput(tree: Tree, defs: seq<Definition>)
    ensures Implemented(Written(tree, defs).flat) == Implemented(tree.flat)
  {
    var flat := Written(tree, defs).flat;
    forall n | n in Implemented(tree.flat) ensures n in Implemented(flat) {
      var f :| f in tree.flat && f != OUT && n in tree.flat[f];
      assert f in flat && n in flat[f];
    }
    forall n | n in Implemented(flat) ensures n in Implemented(tree.flat) {
      var f :| f in flat && f != OUT && n in flat[f];
      assert f in tree.flat && n in tree.flat[f];
    }
  }

  // All headers that include `file` have one name; in a directory that makes it one header.
  ghost predicate OneParent(listing: seq<Header>, file: string) {
    forall g, h :: g in listing && h in listing && file in g.inlines && file in h.inlines ==> g.file == h.file
  }

  // Whatever the listing, the file is attributed alike.
  ghost predicate Unambiguous(tree: Tree) {
    var first := Parsed(Sites(tree.sources));
    forall n :: n in first && n !in Implemented(tree.flat) ==> OneParent(tree.listing, first[n].file)
  }

  ghost predicate Relisted(listing: seq<Header>, other: seq<Header>) {
    multiset(listing) == multiset(other)
  }

  function Files(headers: seq<Header>): seq<string> {
    seq(|headers|, i requires 0 <= i < |headers| => headers[i].file)
  }

  // A tree as one directory gives it: the sources are the listed *.h files, sorted, then the sorted *.inl files.
  ghost predicate IsDirectory(tree: Tree) {
    exists k :: 0 <= k <= |tree.sources| && IsDirectoryAt(tree, k)
  }

  ghost predicate IsDirectoryAt(tree: Tree, k: nat)
    requires k <= |tree.sources|
  {
    var headers, inlines := tree.sources[..k], tree.sources[k..];
    && Relisted(tree.listing, headers) && Increasing(Files(headers)) && Increasing(Files(inlines))
    && (forall h :: h in headers ==> Params.EndsWith(h.file, ".h"))
    && forall h :: h in inlines ==> Params.EndsWith(h.file, ".inl")
  }

  // Running the generator on the tree it has written generates the same definitions, in whatever order the
  // directory lists its headers then, exactly when no header but one includes the file of a pending function;
  // or when it generates nothing at all.
  lemma SecondRunIsSame(tree: Tree, defs: seq<Definition>)
    ensures (forall other :: Relisted(tree.listing, other) ==>
                               Generated(Written(tree, defs).(listing := other)) == Generated(tree)) <==>
              Generated(tree).None? || Unambiguous(tree)
    // Where it fails in a directory, it fails for another listing of that directory.
    ensures IsDirectory(tree) && Generated(tree).Some? && !Unambiguous(tree) ==>
              exists other :: Relisted(tree.listing, other) && IsDirectory(tree.(listing := other))
                              && Generated(Written(tree, defs).(listing := other)) != Generated(tree)
  {
    hide Generated, Unambiguous, Relisted, IsDirectory;
    var again := Written(tree, defs);
    forall other ensures Generated(again.(listing := other)) == Generated(tree.(listing := other)) {
      OutputIsIgnored(tree, defs, other);
    }
    if Generated(tree).None? {
      forall other ensures Generated(tree.(listing := other)).None? { RefusalIgnoresListing(tree, other); }
    } else if Unambiguous(tree) {
      forall other | Relisted(tree.listing, other) ensures Generated(tree.(listing := other)) == Generated(tree) {
        ListingIsIgnored(tree, other);
      }
    } else {
      var other := ListingMatters(tree);
      assert Generated(again.(listing := other)) != Generated(tree);
      if IsDirectory(tree) { RelistedDirectory(tree, other); }
    }
  }

  lemma RelistedDirectory(tree: Tree, other: seq<Header>)
    requires IsDirectory(tree) && Relisted(tree.listing, other)
    ensures IsDirectory(tree.(listing := other))
  {
    var k :| 0 <= k <= |tree.sources| && IsDirectoryAt(tree, k);
    assert IsDirectoryAt(tree.(listing := other), k);
  }

  lemma OutputIsIgnored(tree: Tree, defs: seq<Definition>, other: seq<Header>)
    ensures Generated(Written(tree, defs).(listing := other)) == Generated(tree.(listing := other))
  {
    hide Parsed, Emitted, Refused, DefineAllOf;
    ImplementedIgnoresOutput(tree, defs);
    assert Pending(Written(tree, defs).(listing := other)) == Pending(tree.(listing := other));
  }

  lemma RefusalIgnoresListing(tree: Tree, other: seq<Header>)
    ensures Generated(tree.(listing := other)).None? <==> Generated(tree).None?
  {
    RefusedExactly(tree);
    RefusedExactly(tree.(listing := other));
  }

  lemma ListingIsIgnored(tree: Tree, other: seq<Header>)
    requires Unambiguous(tree) && Relisted(tree.listing, other)
    ensures Generated(tree.(listing := other)) == Generated(tree)
  {
    hide Parsed, Emitted, Refused, DefineAllOf, Implemented, OneParent;
    var first := Parsed(Sites(tree.sources));
    forall n | n in Pending(tree) ensures Pending(tree)[n] == Pending(tree.(listing := other))[n] {
      OwnerIsOrderFree(tree.listing, other, first[n].file);
    }
    assert Pending(tree) == Pending(tree.(listing := other));
  }

  // A listing that gives another file.
  lemma ListingMatters(tree: Tree) returns (other: seq<Header>)
    requires Generated(tree).Some? && !Unambiguous(tree)
    ensures Relisted(tree.listing, other) && Generated(tree.(listing := other)) != Generated(tree)
  {
    var first := Parsed(Sites(tree.sources));
    var n :| n in first && n !in Implemented(tree.flat) && !OneParent(tree.listing, first[n].file);
    var file := first[n].file;
    var g, h :| g in tree.listing && h in tree.listing && file in g.inlines && file in h.inlines && g.file != h.file;
    var last := if Owner(tree.listing, file) == g.file then h else g;
    other := ListedLast(tree.listing, last, file);
    RefusalIgnoresListing(tree, other);
    HeaderOf(tree, n);
    HeaderOf(tree.(listing := other), n);
  }

  lemma ListedLast(listing: seq<Header>, last: Header, file: string) returns (other: seq<Header>)
    requires last in listing && file in last.inlines
    ensures Relisted(listing, other) && Owner(other, file) == last.file
  {
    var i :| 0 <= i < |listing| && listing[i] == last;
    assert listing == listing[..i] + [last] + listing[i + 1..];
    other := listing[..i] + listing[i + 1..] + [last];
  }

  // The definition of a pending name stands in its owner's group.
  lemma HeaderOf(tree: Tree, n: string)
    requires Generated(tree).Some? && n in Pending(tree)
    ensures exists d :: d in Generated(tree).value && d.name == n
    ensures forall d :: d in Generated(tree).value && d.name == n ==> d.header == Pending(tree)[n].owner
  {
    hide Emitted, Pending, Generated;
    var defs, names := Generated(tree).value, Emitted(Pending(tree));
    DefinitionsAt(tree);
    assert n in names;
    var i :| 0 <= i < |names| && names[i] == n;
    assert defs[i] in defs && defs[i].name == n;
  }

  // One directory, in which two headers include the same file: the listing decides where its functions go.
  lemma ListingDecides()
    ensures var one, two := Header("a.h", ["x.inl"], [], []), Header("b.h", ["x.inl"], [], []);
            var inline := Header("x.inl", [], [], [Declaration("EOS_X", "void", "")]);
            var tree := Tree([one, two], [one, two, inline], map[]);
            && IsDirectory(tree) && IsDirectory(tree.(listing := [two, one]))
            && Generated(tree) != Generated(tree.(listing := [two, one]))
  {
    hide Generated, Pending, IsDirectory, Sites;
    var one, two := Header("a.h", ["x.inl"], [], []), Header("b.h", ["x.inl"], [], []);
    var inline := Header("x.inl", [], [], [Declaration("EOS_X", "void", "")]);
    var tree := Tree([one, two], [one, two, inline], map[]);
    ThreeFiles(one, two, inline);
    OneExport([one, two], tree.sources, inline, two);
    OneExport([two, one], tree.sources, inline, one);
    var d := Generated(tree).value[0];
    assert d in Generated(tree).value;
    assert d.header == "b.h" && "a.h"[0] != "b.h"[0];
  }

  lemma ThreeFiles(one: Header, two: Header, inline: Header)
    requires one.file == "a.h" && two.file == "b.h" && inline.file == "x.inl"
    requires one.functions == [] && two.functions == [] && |inline.functions| == 1
    ensures var sources := [one, two, inline];
            && IsDirectory(Tree([one, two], sources, map[])) && IsDirectory(Tree([two, one], sources, map[]))
            && Sites(sources) == [Site(inline.functions[0], "x.inl")]
  {
    hide IsDirectory, Sites, Params.EndsWith;
    var headers, sources := [one, two], [one, two, inline];
    assert multiset([two, one]) == multiset(headers);
    SmallDirectory(headers, one, two, inline);
    SmallDirectory([two, one], one, two, inline);
    assert "a.h" != BASE && "b.h" != BASE && "x.inl" != BASE by {
      assert "a.h"[0] != BASE[0] && "b.h"[0] != BASE[0] && "x.inl"[0] != BASE[0];
    }
    NoSites();
    SitesAppend([], one);
    SitesAppend([one], two);
    SitesAppend(headers, inline);
    assert [] + [one] == [one] && [one] + [two] == headers && headers + [inline] == sources;
  }

  lemma SmallDirectory(listing: seq<Header>, one: Header, two: Header, inline: Header)
    requires one.file == "a.h" && two.file == "b.h" && inline.file == "x.inl" && Relisted(listing, [one, two])
    ensures IsDirectory(Tree(listing, [one, two, inline], map[]))
  {
    hide IsDirectory, Increasing, Params.EndsWith;
    var headers, sources := [one, two], [one, two, inline];
    assert sources[..2] == headers && sources[2..] == [inline];
    assert Files(headers) == ["a.h", "b.h"] && Files([inline]) == ["x.inl"];
    SmallListsIncrease();
    DirectoryAt(Tree(listing, sources, map[]), 2);
  }

  lemma SmallListsIncrease()
    ensures Increasing(["a.h", "b.h"]) && Increasing(["x.inl"])
    ensures Params.EndsWith("a.h", ".h") && Params.EndsWith("b.h", ".h") && Params.EndsWith("x.inl", ".inl")
  {
  }

  lemma DirectoryAt(tree: Tree, k: nat)
    requires k <= |tree.sources| && IsDirectoryAt(tree, k)
    ensures IsDirectory(tree)
  {
  }

  lemma NoSites()
    ensures Sites([]) == []
  {
  }

  lemma SitesAppend(sources: seq<Header>, h: Header)
    requires h.file != BASE
    ensures Sites(sources + [h]) == Sites(sources) + SitesOf(h.functions, h.file)
  {
    assert (sources + [h])[..|sources|] == sources;
  }

  // A tree with one declaration, of a void function, in a file that the last listed header includes.
  lemma OneExport(listing: seq<Header>, sources: seq<Header>, inline: Header, last: Header)
    requires |inline.functions| == 1 && inline.functions[0].ret == "void"
    requires Sites(sources) == [Site(inline.functions[0], inline.file)]
    requires listing != [] && listing[|listing| - 1] == last && inline.file in last.inlines
    ensures var tree := Tree(listing, sources, map[]);
            && Generated(tree).Some? && Generated(tree).value != []
            && forall d :: d in Generated(tree).value ==> d.header == last.file
  {
    hide Generated, Pending, Sites;
    var tree := Tree(listing, sources, map[]);
    var site := Site(inline.functions[0], inline.file);
    RefusedExactly(tree);
    EachExportOnce(tree);
    assert IsDeclared(site.declaration.name, Sites(tree.sources)) by { assert site in Sites(tree.sources); }
    forall d | d in Generated(tree).value ensures d.header == last.file { DefinitionsAreFirst(tree, d); }
  }

  // Every name some file defines, the generated one included.
  ghost function Defined(flat: map<string, set<string>>): set<string> {
    set f, n | f in flat && n in flat[f] :: n
  }

  // Why the generated file itself is left out of the measurement: counting it would leave nothing to do.
  lemma CountingTheOutputErasesIt(tree: Tree)
    requires Generated(tree).Some?
    ensures forall n :: IsDeclared(n, Sites(tree.sources)) ==> n in Defined(Written(tree, Generated(tree).value).flat)
  {
    hide Sites;
    var defs := Generated(tree).value;
    var flat := Written(tree, defs).flat;
    EachExportOnce(tree);
    forall n | IsDeclared(n, Sites(tree.sources)) ensures n in Defined(flat) {
      if n in Implemented(tree.flat) {
        var f :| f in tree.flat && f != OUT && n in tree.flat[f];
        assert f in flat && n in flat[f];
      } else {
        var d :| d in defs && d.name == n;
        assert n in flat[OUT];
      }
    }
  }

  /******* Owners *******/

  // The order in which the directory lists its headers does not matter to a file at most one header includes.
  lemma OwnerIsOrderFree(listing: seq<Header>, other: seq<Header>, file: string)
    requires Relisted(listing, other) && OneParent(listing, file)
    ensures Owner(listing, file) == Owner(other, file)
  {
    assert forall h :: h in listing <==> h in multiset(listing);
    assert forall h :: h in other <==> h in multiset(other);
    OwnerIncludes(listing, file);
    OwnerIncludes(other, file);
  }

  // The last listed header that includes a file owns it; a file that none includes owns itself.
  lemma {:induction false} OwnerIsLast(listing: seq<Header>, file: string, i: int)
    requires -1 <= i < |listing| && (i >= 0 ==> file in listing[i].inlines)
    requires forall j :: i < j < |listing| ==> file !in listing[j].inlines
    ensures Owner(listing, file) == if i >= 0 then listing[i].file else file
  {
    if listing != [] && i < |listing| - 1 { OwnerIsLast(listing[..|listing| - 1], file, i); }
  }

  lemma {:induction false} OwnerIncludes(listing: seq<Header>, file: string)
    ensures if exists h :: h in listing && file in h.inlines
            then exists h :: h in listing && file in h.inlines && Owner(listing, file) == h.file
            else Owner(listing, file) == file
  {
    if listing != [] {
      var n := |listing| - 1;
      OwnerIncludes(listing[..n], file);
      assert listing == listing[..n] + [listing[n]];
      if file in listing[n].inlines { assert listing[n] in listing; }
    }
  }
}
