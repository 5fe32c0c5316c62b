/** The order of strings, and the sorted list of a set of strings. */
module Lexical {
  predicate Less(a: string, b: string) {
    b != "" && (a == "" || a[0] < b[0] || (a[0] == b[0] && Less(a[1..], b[1..])))
  }

  lemma {:induction false} LessIsTransitive(a: string, b: string, c: string)
    requires Less(a, b) && Less(b, c)
    ensures Less(a, c)
  {
    if a != "" && a[0] == b[0] == c[0] {
      LessIsTransitive(a[1..], b[1..], c[1..]);
    }
  }

  /** Exactly one of the three ways two strings can compare. */
  lemma {:induction false} LessIsTotal(a: string, b: string)
    ensures a == b || Less(a, b) || Less(b, a)
    ensures Less(a, b) ==> a != b && !Less(b, a)
  {
    if a != "" && b != "" && a[0] == b[0] {
      LessIsTotal(a[1..], b[1..]);
      assert a == [a[0]] + a[1..] && b == [b[0]] + b[1..];
    }
  }

  /** The strings agree on their first k characters, and there a ends or has the smaller character. */
  ghost predicate SmallerAt(a: string, b: string, k: nat) {
    k <= |a| && k < |b| && a[..k] == b[..k] && (k == |a| || a[k] < b[k])
  }

  lemma SameHeads(a: string, b: string, k: nat)
    requires SmallerAt(a, b, k)
    ensures 0 < k ==> a != "" && a[0] == b[0]
  {
    if 0 < k {
      assert a[..k][0] == a[0] && b[..k][0] == b[0];
    }
  }

  /** One string comes before another exactly when it is smaller where they first differ. */
  lemma {:induction false} LessAtFirstDifference(a: string, b: string)
    ensures Less(a, b) <==> exists k: nat :: SmallerAt(a, b, k)
  {
    if a != "" && b != "" && a[0] == b[0] {
      LessAtFirstDifference(a[1..], b[1..]);
      if k: nat :| SmallerAt(a[1..], b[1..], k) {
        assert a[..k + 1] == [a[0]] + a[1..][..k] && b[..k + 1] == [b[0]] + b[1..][..k];
        assert SmallerAt(a, b, k + 1);
      }
      if k: nat :| SmallerAt(a, b, k) {
        assert a[1..][..k - 1] == a[..k][1..] && b[1..][..k - 1] == b[..k][1..];
        assert SmallerAt(a[1..], b[1..], k - 1);
      }
    } else if Less(a, b) {
      assert SmallerAt(a, b, 0);
    } else if k: nat :| SmallerAt(a, b, k) {
      SameHeads(a, b, k);
    }
  }

  ghost predicate Ascending(s: seq<string>) {
    forall i, j :: 0 <= i < j < |s| ==> Less(s[i], s[j])
  }

  /** Positions in an ascending list compare like their strings. */
  lemma PositionsCompare(s: seq<string>, m: nat, n: nat)
    requires Ascending(s) && m < |s| && n < |s|
    ensures m < n <==> Less(s[m], s[n])
    ensures m == n <==> s[m] == s[n]
  {
    hide Less;
    LessIsTotal(s[m], s[n]);
    LessIsTotal(s[n], s[m]);
  }

  predicate IsLeast(x: string, s: set<string>) {
    x in s && forall y :: y in s && y != x ==> Less(x, y)
  }

  lemma {:induction false} LeastExists(s: set<string>) returns (x: string)
    requires s != {}
    ensures IsLeast(x, s)
    decreases |s|
  {
    var y :| y in s;
    if s == {y} {
      x := y;
    } else {
      var rest := s - {y};
      x := LeastExists(rest);
      LessIsTotal(x, y);
      if Less(y, x) {
        forall z | z in s && z != y
          ensures Less(y, z)
        {
          if z != x {
            LessIsTransitive(y, x, z);
          }
        }
        x := y;
      }
    }
  }

  lemma LeastIsUnique(s: set<string>)
    requires s != {}
    ensures exists x :: IsLeast(x, s)
    ensures forall x, y :: IsLeast(x, s) && IsLeast(y, s) ==> x == y
  {
    var least := LeastExists(s);
    forall x, y | IsLeast(x, s) && IsLeast(y, s)
      ensures x == y
    {
      LessIsTotal(x, y);
    }
  }

  function Least(s: set<string>): (x: string)
    requires s != {}
    ensures IsLeast(x, s)
  {
    LeastIsUnique(s);
    var x :| IsLeast(x, s);
    x
  }

  /** The elements of a set in ascending order, as the built-in sorted() returns them. */
  function Sorted(s: set<string>): (r: seq<string>)
    ensures Ascending(r) && forall x :: x in r <==> x in s
  {
    if s == {} then []
    else
      var x := Least(s);
      [x] + Sorted(s - {x})
  }

  lemma FirstIsBelowRest(a: seq<string>)
    requires Ascending(a) && a != []
    ensures forall x :: x in a[1..] ==> Less(a[0], x) && x != a[0]
  {
    forall x | x in a[1..]
      ensures Less(a[0], x) && x != a[0]
    {
      var j :| 0 <= j < |a[1..]| && a[1..][j] == x;
      assert Less(a[0], a[j + 1]);
      LessIsTotal(a[0], x);
    }
  }

  /** A set has only one ascending list of its elements. */
  lemma {:induction false} SortedIsUnique(a: seq<string>, b: seq<string>)
    requires Ascending(a) && Ascending(b) && forall x :: x in a <==> x in b
    ensures a == b
  {
    assert (a != [] ==> a[0] in b) && (b != [] ==> b[0] in a);
    if a != [] && b != [] {
      assert a == [a[0]] + a[1..] && b == [b[0]] + b[1..];
      FirstIsBelowRest(a);
      FirstIsBelowRest(b);
      LessIsTotal(a[0], b[0]);
      assert a[0] == b[0];
      forall x
        ensures x in a[1..] <==> x in b[1..]
      {
        assert x in a[1..] ==> x in a && x in b && x != b[0];
        assert x in b[1..] ==> x in b && x in a && x != a[0];
      }
      SortedIsUnique(a[1..], b[1..]);
    }
  }
}
