// What the generator reads and writes, in terms of the files themselves: which declarations count, and which names
// are left to hand-written code.
module GeneratorFiles {
  import opened Generator

  // The k-th function of the i-th source, unless that is the header that defines the macros.
  ghost predicate DeclaredAt(sources: seq<Header>, i: int, k: int, d: Declaration) {
    && 0 <= i < |sources| && sources[i].file != "eos_base.h"
    && 0 <= k < |sources[i].functions| && sources[i].functions[k] == d
  }

  ghost predicate CallbackAt(sources: seq<Header>, i: int, k: int, c: Callback) {
    && 0 <= i < |sources| && sources[i].file != "eos_base.h"
    && 0 <= k < |sources[i].callbacks| && sources[i].callbacks[k] == c
  }

  predicate Earlier(i: int, k: int, j: int, l: int) {
    i < j || (i == j && k < l)
  }

  lemma {:induction false} SitesMembers(sources: seq<Header>, s: Site)
    ensures s in Sites(sources) <==>
              exists i, k :: DeclaredAt(sources, i, k, s.declaration) && sources[i].file == s.file
  {
    hide DeclaredAt;
    if sources == [] {
      NothingDeclared(s.declaration);
    } else {
      var n := |sources| - 1;
      SitesMembers(sources[..n], s);
      DeclaredBefore(sources, s.declaration);
      SitesOfMembers(sources, s);
    }
  }

  lemma NothingDeclared(d: Declaration)
    ensures forall i, k :: !DeclaredAt([], i, k, d)
  {
  }

  lemma DeclaredBefore(sources: seq<Header>, d: Declaration)
    requires sources != []
    ensures var n := |sources| - 1;
            && (forall i, k :: DeclaredAt(sources[..n], i, k, d) <==> DeclaredAt(sources, i, k, d) && i < n)
            && forall i, k :: DeclaredAt(sources, i, k, d) ==> 0 <= i <= n
  {
  }

  lemma SitesOfMembers(sources: seq<Header>, s: Site)
    requires sources != []
    ensures var n := |sources| - 1; var last := sources[n];
            (last.file != BASE && s in SitesOf(last.functions, last.file)) <==>
              exists k :: DeclaredAt(sources, n, k, s.declaration) && last.file == s.file
  {
    var n := |sources| - 1;
    var last := sources[n];
    if last.file != BASE && s in SitesOf(last.functions, last.file) {
      var k :| 0 <= k < |last.functions| && SitesOf(last.functions, last.file)[k] == s;
      assert DeclaredAt(sources, n, k, s.declaration);
    }
    forall k | DeclaredAt(sources, n, k, s.declaration) && last.file == s.file
      ensures s in SitesOf(last.functions, last.file) {
      assert SitesOf(last.functions, last.file)[k] == s;
    }
  }

  // The first site of a name is its first declaration in the sources, file by file.
  lemma {:induction false} FirstInSources(sources: seq<Header>, s: Site)
    requires First(s, Sites(sources))
    ensures exists i, k :: DeclaredAt(sources, i, k, s.declaration) && sources[i].file == s.file
              && forall j, l, d :: DeclaredAt(sources, j, l, d) && Earlier(j, l, i, k) ==> d.name != s.declaration.name
  {
    var n := |sources| - 1;
    var before := Sites(sources[..n]);
    var p :| 0 <= p < |Sites(sources)| && Sites(sources)[p] == s
             && forall q :: 0 <= q < p ==> Sites(sources)[q].declaration.name != s.declaration.name;
    if p < |before| {
      FirstBefore(before, Sites(sources), s, p);
      FirstInSources(sources[..n], s);
      var i, k :| DeclaredAt(sources[..n], i, k, s.declaration) && sources[..n][i].file == s.file
        && forall j, l, d :: DeclaredAt(sources[..n], j, l, d) && Earlier(j, l, i, k) ==> d.name != s.declaration.name;
      assert DeclaredAt(sources, i, k, s.declaration);
      forall j, l, d | DeclaredAt(sources, j, l, d) && Earlier(j, l, i, k) ensures d.name != s.declaration.name {
        assert DeclaredAt(sources[..n], j, l, d);
      }
    } else {
      FirstInLast(sources, s, p);
    }
  }

  lemma FirstInLast(sources: seq<Header>, s: Site, p: int)
    requires sources != [] && |Sites(sources[..|sources| - 1])| <= p < |Sites(sources)| && Sites(sources)[p] == s
    requires forall q :: 0 <= q < p ==> Sites(sources)[q].declaration.name != s.declaration.name
    ensures var n := |sources| - 1; var k := p - |Sites(sources[..n])|;
            && DeclaredAt(sources, n, k, s.declaration) && sources[n].file == s.file
            && forall j, l, d :: DeclaredAt(sources, j, l, d) && Earlier(j, l, n, k) ==> d.name != s.declaration.name
  {
    var n := |sources| - 1;
    var before := Sites(sources[..n]);
    var k := p - |before|;
    assert DeclaredAt(sources, n, k, s.declaration);
    forall j, l, d | DeclaredAt(sources, j, l, d) && Earlier(j, l, n, k) ensures d.name != s.declaration.name {
      if j < n {
        assert DeclaredAt(sources[..n], j, l, d);
        SitesMembers(sources[..n], Site(d, sources[j].file));
        var q :| 0 <= q < |before| && before[q] == Site(d, sources[j].file);
        assert Sites(sources)[q] == before[q];
      } else {
        assert Sites(sources)[|before| + l] == Site(d, sources[n].file);
      }
    }
  }

  lemma FirstBefore(before: seq<Site>, all: seq<Site>, s: Site, p: nat)
    requires before <= all && p < |before| && all[p] == s
    requires forall q :: 0 <= q < p ==> all[q].declaration.name != s.declaration.name
    ensures First(s, before)
  {
  }

  // A declared name is either defined by hand in some file but the generated one, or generated; never both.
  lemma HandWrittenOrGenerated(tree: Tree, n: string)
    requires Generated(tree).Some?
    ensures var declared := exists i, k, d :: DeclaredAt(tree.sources, i, k, d) && d.name == n;
            var byHand := exists f :: f in tree.flat && f != "eos_stubs_flat.cpp" && n in tree.flat[f];
            (exists d :: d in Generated(tree).value && d.name == n) <==> declared && !byHand
  {
    hide Generated, Sites;
    EachExportOnce(tree);
    if IsDeclared(n, Sites(tree.sources)) {
      var s :| s in Sites(tree.sources) && s.declaration.name == n;
      SitesMembers(tree.sources, s);
    }
    forall i, k, d | DeclaredAt(tree.sources, i, k, d) && d.name == n ensures IsDeclared(n, Sites(tree.sources)) {
      SitesMembers(tree.sources, Site(d, tree.sources[i].file));
    }
  }

  // The delegate map holds the last declaration of each delegate type in the sources, file by file.
  lemma DelegateInSources(sources: seq<Header>, delegate: string)
    ensures var delegates := DelegatesOf(Callbacks(sources));
            && (delegate in delegates <==> exists i, k, c :: CallbackAt(sources, i, k, c) && c.delegate == delegate)
            && (delegate in delegates ==>
                  exists i, k :: CallbackAt(sources, i, k, Callback(delegate, delegates[delegate]))
                    && forall j, l, c :: CallbackAt(sources, j, l, c) && Earlier(i, k, j, l) ==> c.delegate != delegate)
  {
    hide DelegatesOf;
    LastCallbackCounts(Callbacks(sources), delegate);
    forall c ensures c in Callbacks(sources) <==> exists i, k :: CallbackAt(sources, i, k, c) {
      CallbacksMembers(sources, c);
    }
    if delegate in DelegatesOf(Callbacks(sources)) {
      LastInSources(sources, Callback(delegate, DelegatesOf(Callbacks(sources))[delegate]));
    }
  }

  ghost predicate Last(c: Callback, callbacks: seq<Callback>) {
    exists i :: 0 <= i < |callbacks| && callbacks[i] == c
                && forall j :: i < j < |callbacks| ==> callbacks[j].delegate != c.delegate
  }

  lemma {:induction false} CallbacksMembers(sources: seq<Header>, c: Callback)
    ensures c in Callbacks(sources) <==> exists i, k :: CallbackAt(sources, i, k, c)
  {
    if sources != [] {
      var n := |sources| - 1;
      CallbacksMembers(sources[..n], c);
      forall i, k | CallbackAt(sources[..n], i, k, c) ensures CallbackAt(sources, i, k, c) {
      }
      forall i, k | CallbackAt(sources, i, k, c) && i < n ensures CallbackAt(sources[..n], i, k, c) {
      }
      if c in sources[n].callbacks && sources[n].file != BASE {
        var k :| 0 <= k < |sources[n].callbacks| && sources[n].callbacks[k] == c;
        assert CallbackAt(sources, n, k, c);
      }
    }
  }

  lemma {:induction false} LastInSources(sources: seq<Header>, c: Callback)
    requires Last(c, Callbacks(sources))
    ensures exists i, k :: CallbackAt(sources, i, k, c)
              && forall j, l, e :: CallbackAt(sources, j, l, e) && Earlier(i, k, j, l) ==> e.delegate != c.delegate
  {
    var n := |sources| - 1;
    var before, all := Callbacks(sources[..n]), Callbacks(sources);
    var p :| 0 <= p < |all| && all[p] == c && forall q :: p < q < |all| ==> all[q].delegate != c.delegate;
    forall l, e | CallbackAt(sources, n, l, e) ensures all[|before| + l] == e {
    }
    if p < |before| {
      assert forall q :: 0 <= q < |before| ==> before[q] == all[q];
      LastInSources(sources[..n], c);
      var i, k :| CallbackAt(sources[..n], i, k, c)
        && forall j, l, e :: CallbackAt(sources[..n], j, l, e) && Earlier(i, k, j, l) ==> e.delegate != c.delegate;
      assert CallbackAt(sources, i, k, c);
      forall j, l, e | CallbackAt(sources, j, l, e) && Earlier(i, k, j, l) ensures e.delegate != c.delegate {
        if j < n { assert CallbackAt(sources[..n], j, l, e); }
      }
    } else {
      assert CallbackAt(sources, n, p - |before|, c);
    }
  }
}
