/** How the ledger orders snapshot files: Python compares strings code point by
    code point, and `sorted(version_dir.iterdir(), reverse=True)` lists the
    file names of one version directory from the greatest to the least. */
module Ordering {

  /** Python's `a < b` on `str`. */
  predicate LexLess(a: string, b: string)
    decreases |a|
  {
    if a == [] then b != []
    else if b == [] then false
    else if a[0] == b[0] then LexLess(a[1..], b[1..])
    else a[0] < b[0]
  }

  lemma {:induction false} LexIrreflexive(a: string)
    ensures !LexLess(a, a)
    decreases |a|
  {
    if a != [] { LexIrreflexive(a[1..]); }
  }

  lemma {:induction false} LexTransitive(a: string, b: string, c: string)
    requires LexLess(a, b) && LexLess(b, c)
    ensures LexLess(a, c)
    decreases |a|
  {
    if a != [] && b != [] && c != [] && a[0] == b[0] == c[0] {
      LexTransitive(a[1..], b[1..], c[1..]);
    }
  }

  lemma {:induction false} LexTotal(a: string, b: string)
    ensures a == b || LexLess(a, b) || LexLess(b, a)
    decreases |a|
  {
    if a != [] && b != [] && a[0] == b[0] {
      LexTotal(a[1..], b[1..]);
      if a[1..] == b[1..] {
        assert a == [a[0]] + a[1..] && b == [b[0]] + b[1..];
      }
    }
  }

  lemma LexAsymmetric(a: string, b: string)
    requires LexLess(a, b)
    ensures !LexLess(b, a)
  {
    if LexLess(b, a) {
      LexTransitive(a, b, a);
      LexIrreflexive(a);
    }
  }

  /** Comparing two strings whose first parts have the same length: the first
      parts decide, and the second parts only break a tie. */
  lemma {:induction false} LexConcat(a1: string, a2: string, b1: string, b2: string)
    requires |a1| == |b1|
    ensures LexLess(a1 + a2, b1 + b2) <==> LexLess(a1, b1) || (a1 == b1 && LexLess(a2, b2))
    decreases |a1|
  {
    if a1 == [] {
      assert a1 + a2 == a2 && b1 + b2 == b2;
    } else {
      assert (a1 + a2)[0] == a1[0] && (b1 + b2)[0] == b1[0];
      assert (a1 + a2)[1..] == a1[1..] + a2 && (b1 + b2)[1..] == b1[1..] + b2;
      LexConcat(a1[1..], a2, b1[1..], b2);
      if a1[0] == b1[0] && a1[1..] == b1[1..] {
        assert a1 == [a1[0]] + a1[1..] && b1 == [b1[0]] + b1[1..];
      }
    }
  }

  /** `m` is the greatest name in `names`. */
  predicate IsGreatest(m: string, names: set<string>) {
    m in names && forall y :: y in names && y != m ==> LexLess(y, m)
  }

  lemma {:induction false} GreatestExists(names: set<string>)
    requires names != {}
    ensures exists m :: IsGreatest(m, names)
    decreases |names|
  {
    var x :| x in names;
    if names == {x} {
      assert IsGreatest(x, names);
    } else {
      GreatestExists(names - {x});
      var m :| IsGreatest(m, names - {x});
      LexTotal(x, m);
      if LexLess(x, m) {
        assert IsGreatest(m, names);
      } else {
        forall y | y in names && y != x ensures LexLess(y, x) {
          if y != m { LexTransitive(y, m, x); }
        }
        assert IsGreatest(x, names);
      }
    }
  }

  /** `r` lists exactly `names`, strictly from the greatest to the least. */
  ghost predicate DescendingListing(r: seq<string>, names: set<string>) {
    (forall i, j :: 0 <= i < j < |r| ==> LexLess(r[j], r[i]))
    && (forall x :: x in names <==> x in r)
  }

  lemma {:induction false} ListingExists(names: set<string>)
    ensures exists r :: DescendingListing(r, names)
    decreases |names|
  {
    if names == {} {
      assert DescendingListing([], names);
    } else {
      GreatestExists(names);
      var m :| IsGreatest(m, names);
      ListingExists(names - {m});
      var r :| DescendingListing(r, names - {m});
      var r' := [m] + r;
      forall i, j | 0 <= i < j < |r'| ensures LexLess(r'[j], r'[i]) {
        if i > 0 {
          assert r'[i] == r[i - 1] && r'[j] == r[j - 1];
        } else {
          assert r'[j] == r[j - 1] && r'[j] in names - {m};
        }
      }
      forall x ensures x in names <==> x in r' {
        assert x in r' <==> x == m || x in r;
      }
      assert DescendingListing(r', names);
    }
  }

  /** A descending listing has one entry per name. */
  lemma {:induction false} ListingLength(r: seq<string>, names: set<string>)
    requires DescendingListing(r, names)
    ensures |r| == |names|
    decreases |r|
  {
    if r != [] {
      var rest := names - {r[0]};
      forall j | 0 < j < |r| ensures r[j] != r[0] {
        LexIrreflexive(r[0]);
      }
      forall x ensures x in rest <==> x in r[1..] {
        assert x in r <==> x == r[0] || x in r[1..];
      }
      assert DescendingListing(r[1..], rest) by {
        forall i, j | 0 <= i < j < |r[1..]| ensures LexLess(r[1..][j], r[1..][i]) {
          assert r[1..][j] == r[j + 1] && r[1..][i] == r[i + 1];
        }
      }
      ListingLength(r[1..], rest);
    } else {
      assert forall x :: x !in names;
      assert names == {};
    }
  }

  /** There is only one descending listing of a set of names. */
  lemma {:induction false} ListingUnique(r1: seq<string>, r2: seq<string>, names: set<string>)
    requires DescendingListing(r1, names) && DescendingListing(r2, names)
    ensures r1 == r2
    decreases |r1|
  {
    ListingLength(r1, names);
    ListingLength(r2, names);
    if r1 != [] {
      assert r1[0] == r2[0] by {
        if r1[0] != r2[0] {
          assert r2[0] in r1 && r1[0] in r2;
          var i :| 0 <= i < |r1| && r1[i] == r2[0];
          var j :| 0 <= j < |r2| && r2[j] == r1[0];
          LexAsymmetric(r1[i], r1[0]);
        }
      }
      var rest := names - {r1[0]};
      forall r | r == r1 || r == r2 ensures DescendingListing(r[1..], rest) {
        forall j | 0 < j < |r| ensures r[j] != r[0] {
          LexIrreflexive(r[0]);
        }
        forall x ensures x in rest <==> x in r[1..] {
          assert x in r <==> x == r[0] || x in r[1..];
        }
        forall i, j | 0 <= i < j < |r[1..]| ensures LexLess(r[1..][j], r[1..][i]) {
          assert r[1..][j] == r[j + 1] && r[1..][i] == r[i + 1];
        }
      }
      ListingUnique(r1[1..], r2[1..], rest);
      assert r1 == [r1[0]] + r1[1..] && r2 == [r2[0]] + r2[1..];
    }
  }

  /** The listing `sorted(names, reverse=True)`. */
  ghost function Listing(names: set<string>): (r: seq<string>)
    ensures DescendingListing(r, names)
    ensures |r| == |names|
  {
    ListingExists(names);
    var r :| DescendingListing(r, names);
    ListingLength(r, names);
    r
  }

  /** Relative index 1 of a listing is the greatest name: every other name sorts before it. */
  lemma ListingHead(names: set<string>, x: string)
    requires x in names
    ensures Listing(names)[0] in names
    ensures x != Listing(names)[0] ==> LexLess(x, Listing(names)[0])
  {
    var r := Listing(names);
    var i :| 0 <= i < |r| && r[i] == x;
  }

  /** A name that sorts after every other name of the set is listed first. */
  lemma GreatestListedFirst(names: set<string>, m: string)
    requires m in names
    requires forall y :: y in names && y != m ==> LexLess(y, m)
    ensures Listing(names)[0] == m
  {
    var r := Listing(names);
    if r[0] != m {
      ListingHead(names, m);
      LexAsymmetric(m, r[0]);
    }
  }

  /** `sorted(names, reverse=True)`, by repeatedly taking the greatest remaining name. */
  method SortDescending(names: set<string>) returns (r: seq<string>)
    ensures r == Listing(names)
  {
    r := [];
    var rest := names;
    while rest != {}
      invariant rest <= names
      invariant forall x :: x in names <==> x in rest || x in r
      invariant forall x :: x in rest ==> x !in r
      invariant forall i, j :: 0 <= i < j < |r| ==> LexLess(r[j], r[i])
      invariant forall i, x :: 0 <= i < |r| && x in rest ==> LexLess(x, r[i])
      decreases rest
    {
      GreatestExists(rest);
      var m :| IsGreatest(m, rest);
      r := r + [m];
      rest := rest - {m};
    }
    ListingUnique(r, Listing(names), names);
  }
}
