// Python's sorted() on a set of strings: by code points, each string once.
module Ordering {
  predicate Less(a: string, b: string) {
    if b == "" then false
    else if a == "" then true
    else a[0] < b[0] || (a[0] == b[0] && Less(a[1..], b[1..]))
  }

  ghost predicate Increasing(r: seq<string>) {
    forall i, j :: 0 <= i < j < |r| ==> Less(r[i], r[j])
  }

  function Elements(r: seq<string>): set<string> {
    set s | s in r
  }

  // A string is below another if it is a proper prefix of it or smaller at the first difference.
  ghost predicate DiffersBelow(a: string, b: string, k: int) {
    0 <= k <= |a| && k < |b| && a[..k] == b[..k] && (k == |a| || a[k] < b[k])
  }

  lemma {:induction false} LessIsFirstDifference(a: string, b: string)
    ensures Less(a, b) <==> exists k :: DiffersBelow(a, b, k)
  {
    if b != "" && (a == "" || a[0] < b[0]) {
      assert DiffersBelow(a, b, 0);
    } else if b != "" && a[0] == b[0] {
      LessIsFirstDifference(a[1..], b[1..]);
      if Less(a[1..], b[1..]) {
        var k :| DiffersBelow(a[1..], b[1..], k);
        assert a[..k + 1] == [a[0]] + a[1..][..k] && b[..k + 1] == [b[0]] + b[1..][..k];
        assert DiffersBelow(a, b, k + 1);
      }
      forall k | DiffersBelow(a, b, k) ensures DiffersBelow(a[1..], b[1..], k - 1) {
        assert a[1..][..k - 1] == a[..k][1..] && b[1..][..k - 1] == b[..k][1..];
      }
    } else if b != "" {
      HeadsAgree(a, b);
    }
  }

  lemma HeadsAgree(a: string, b: string)
    ensures forall k :: k > 0 && DiffersBelow(a, b, k) ==> a[0] == b[0]
  {
    forall k | k > 0 && DiffersBelow(a, b, k) ensures a[0] == b[0] {
      assert a[..k][0] == b[..k][0];
    }
  }

  lemma {:induction false} LessIsTotal(a: string, b: string)
    ensures Less(a, b) || Less(b, a) || a == b
    ensures !(Less(a, b) && Less(b, a)) && !Less(a, a)
  {
    if a != "" && b != "" {
      LessIsTotal(a[1..], b[1..]);
      if a[0] == b[0] && a[1..] == b[1..] { assert a == [a[0]] + a[1..] && b == [b[0]] + b[1..]; }
    }
    if a != "" { LessIsIrreflexive(a); }
  }

  lemma {:induction false} LessIsIrreflexive(a: string)
    ensures !Less(a, a)
  {
    if a != "" { LessIsIrreflexive(a[1..]); }
  }

  lemma {:induction false} LessIsTransitive(a: string, b: string, c: string)
    requires Less(a, b) && Less(b, c)
    ensures Less(a, c)
  {
    if a != "" && a[0] == b[0] == c[0] { LessIsTransitive(a[1..], b[1..], c[1..]); }
  }

  // A set has one increasing listing.
  lemma {:induction false} IncreasingIsUnique(r: seq<string>, q: seq<string>)
    requires Increasing(r) && Increasing(q) && Elements(r) == Elements(q)
    ensures r == q
  {
    assert r == [] <==> Elements(r) == {} by { assert r != [] ==> r[0] in Elements(r); }
    assert q == [] <==> Elements(q) == {} by { assert q != [] ==> q[0] in Elements(q); }
    if r != [] {
      FirstIsLeast(r, q);
      TailElements(r);
      TailElements(q);
      IncreasingIsUnique(r[1..], q[1..]);
      assert r == [r[0]] + r[1..] && q == [q[0]] + q[1..];
    }
  }

  lemma FirstIsLeast(r: seq<string>, q: seq<string>)
    requires r != [] && q != [] && Increasing(r) && Increasing(q) && Elements(r) == Elements(q)
    ensures r[0] == q[0]
  {
    assert r[0] in Elements(q) && q[0] in Elements(r);
    var i :| 0 <= i < |q| && q[i] == r[0];
    var j :| 0 <= j < |r| && r[j] == q[0];
    LessIsTotal(r[0], q[0]);
  }

  lemma TailElements(r: seq<string>)
    requires r != [] && Increasing(r)
    ensures Increasing(r[1..]) && Elements(r[1..]) == Elements(r) - {r[0]}
  {
    forall s | s in r[1..] ensures s != r[0] {
      var i :| 1 <= i < |r| && r[i] == s;
      LessIsIrreflexive(r[0]);
    }
    assert r == [r[0]] + r[1..];
  }

  ghost function Sorted(s: set<string>): (r: seq<string>)
    ensures Increasing(r) && Elements(r) == s
  {
    SortedExists(s);
    var r :| Increasing(r) && Elements(r) == s;
    r
  }

  lemma {:induction false} SortedExists(s: set<string>)
    ensures exists r :: Increasing(r) && Elements(r) == s
  {
    if s == {} {
      assert Increasing([]) && Elements([]) == s;
    } else {
      var x :| x in s;
      SortedExists(s - {x});
      var r :| Increasing(r) && Elements(r) == s - {x};
      var k := Place(r, x);
      InsertIncreasing(r, x, k);
    }
  }

  // How many leading elements are below `x`.
  function Place(r: seq<string>, x: string): (k: nat)
    ensures k <= |r| && (forall i :: 0 <= i < k ==> Less(r[i], x)) && (k < |r| ==> !Less(r[k], x))
  {
    if r == [] || !Less(r[0], x) then 0 else 1 + Place(r[1..], x)
  }

  lemma InsertIncreasing(r: seq<string>, x: string, k: nat)
    requires Increasing(r) && x !in r && k <= |r|
    requires (forall i :: 0 <= i < k ==> Less(r[i], x)) && (k < |r| ==> !Less(r[k], x))
    ensures Increasing(r[..k] + [x] + r[k..]) && Elements(r[..k] + [x] + r[k..]) == Elements(r) + {x}
  {
    hide Less, Increasing;
    assert r == r[..k] + r[k..];
    AboveAfter(r, x, k);
    InsertedInOrder(r, r[..k] + [x] + r[k..], x, k);
  }

  lemma InsertedInOrder(r: seq<string>, q: seq<string>, x: string, k: nat)
    requires Increasing(r) && k <= |r| && |q| == |r| + 1
    requires (forall i :: 0 <= i < k ==> q[i] == r[i]) && q[k] == x && forall i :: k < i < |q| ==> q[i] == r[i - 1]
    requires (forall i :: 0 <= i < k ==> Less(r[i], x)) && forall i :: k <= i < |r| ==> Less(x, r[i])
    ensures Increasing(q)
  {
    hide Less;
    forall i, j | 0 <= i < j < |q| ensures Less(q[i], q[j]) {
      if k < j { assert q[j] == r[j - 1]; }
      if k < i { assert q[i] == r[i - 1]; }
    }
  }

  lemma AboveAfter(r: seq<string>, x: string, k: nat)
    requires Increasing(r) && x !in r && k <= |r| && (k < |r| ==> !Less(r[k], x))
    ensures forall i :: k <= i < |r| ==> Less(x, r[i])
  {
    hide Less;
    forall i | k <= i < |r| ensures Less(x, r[i]) {
      LessIsTotal(x, r[k]);
      if k < i { LessIsTransitive(x, r[k], r[i]); }
    }
  }

  method Sort(s: set<string>) returns (r: seq<string>)
    ensures r == Sorted(s)
    ensures (forall x :: x in r <==> x in s) && forall i, j :: 0 <= i < j < |r| ==> Less(r[i], r[j])
  {
    r := [];
    var rest := s;
    while rest != {}
      invariant rest <= s && Increasing(r) && Elements(r) == s - rest
      decreases |rest|
    {
      var x :| x in rest;
      assert x !in Elements(r);
      var k := Place(r, x);
      InsertIncreasing(r, x, k);
      rest, r := rest - {x}, r[..k] + [x] + r[k..];
    }
    IncreasingIsUnique(r, Sorted(s));
    assert forall x :: x in r <==> x in Elements(r);
  }
}
