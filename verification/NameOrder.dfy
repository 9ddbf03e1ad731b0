/** Sets of strings as ascending sequences. */
module NameOrder {
  import opened TextLines

  lemma {:induction false} StrTransitive(a: string, b: string, c: string)
    requires StrLess(a, b) && StrLess(b, c)
    ensures StrLess(a, c)
  {
    if a != "" && a[0] == b[0] == c[0] { StrTransitive(a[1..], b[1..], c[1..]); }
  }

  predicate IsLeast(x: string, names: set<string>) {
    x in names && forall y :: y in names ==> x == y || StrLess(x, y)
  }

  lemma {:induction false} LeastExists(names: set<string>)
    requires names != {}
    ensures exists x :: IsLeast(x, names)
    decreases names
  {
    var y :| y in names;
    if names == {y} {
      assert IsLeast(y, names);
    } else {
      LeastExists(names - {y});
      var x :| IsLeast(x, names - {y});
      StrTrichotomy(x, y);
      if StrLess(x, y) {
        assert IsLeast(x, names);
      } else {
        forall z | z in names ensures y == z || StrLess(y, z) {
          if z != y && z != x { StrTransitive(y, x, z); }
        }
        assert IsLeast(y, names);
      }
    }
  }

  predicate Ascending(names: seq<string>) {
    forall i, j :: 0 <= i < j < |names| ==> StrLess(names[i], names[j])
  }

  predicate Holds(names: seq<string>, all: set<string>) {
    (forall i :: 0 <= i < |names| ==> names[i] in all) && (forall x :: x in all ==> x in names)
  }

  /** An ascending sequence is determined by what it holds. */
  lemma {:induction false} AscendingUnique(a: seq<string>, b: seq<string>, all: set<string>)
    requires Ascending(a) && Ascending(b) && Holds(a, all) && Holds(b, all)
    ensures a == b
    decreases |a|
  {
    if a != [] {
      assert a[0] in b && b[0] in a;
      StrTrichotomy(a[0], b[0]);
      var rest := all - {a[0]};
      HoldsRest(a, all);
      HoldsRest(b, all);
      AscendingUnique(a[1..], b[1..], rest);
    }
  }

  lemma HoldsRest(a: seq<string>, all: set<string>)
    requires a != [] && Ascending(a) && Holds(a, all)
    ensures Ascending(a[1..]) && Holds(a[1..], all - {a[0]})
  {
    forall i | 1 <= i < |a| ensures a[i] != a[0] { StrTrichotomy(a[0], a[i]); }
    assert forall x :: x in a && x != a[0] ==> x in a[1..];
  }

  lemma {:induction false} OrderExists(names: set<string>)
    ensures exists r :: Ascending(r) && Holds(r, names)
    decreases names
  {
    if names == {} {
      assert Holds([], names);
    } else {
      LeastExists(names);
      var x :| IsLeast(x, names);
      OrderExists(names - {x});
      var r :| Ascending(r) && Holds(r, names - {x});
      assert Ascending([x] + r) && Holds([x] + r, names) by {
        assert forall y :: y in r ==> y in [x] + r;
        assert ([x] + r)[0] == x;
      }
    }
  }

  /** The names as an ascending sequence: `sorted(names)`. */
  ghost function InOrder(names: set<string>): (r: seq<string>)
  {
    OrderExists(names);
    var r :| Ascending(r) && Holds(r, names);
    r
  }

  lemma InOrderIs(names: set<string>)
    ensures Ascending(InOrder(names)) && Holds(InOrder(names), names)
  {
    OrderExists(names);
  }

  method Sorted(names: set<string>) returns (r: seq<string>)
    ensures Ascending(r) && Holds(r, names) && r == InOrder(names)
  {
    r := [];
    var rest := names;
    while rest != {}
      invariant rest <= names && Ascending(r) && Holds(r, names - rest)
      invariant forall i, y :: 0 <= i < |r| && y in rest ==> StrLess(r[i], y)
      decreases rest
    {
      LeastExists(rest);
      var x :| x in rest && IsLeast(x, rest);
      rest := rest - {x};
      r := r + [x];
    }
    assert names - rest == names;
    InOrderIs(names);
    AscendingUnique(r, InOrder(names), names);
  }
}
