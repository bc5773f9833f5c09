// Sorted lists of names: `sort.Strings` in memory and `ORDER BY name` under a binary collation.
module Names {

  /** The lexicographic order of character codes. */
  predicate Less(a: string, b: string) {
    if b == "" then false
    else if a == "" then true
    else a[0] < b[0] || (a[0] == b[0] && Less(a[1..], b[1..]))
  }

  lemma {:induction false} LessTotal(a: string, b: string)
    ensures !(Less(a, b) && Less(b, a))
    ensures a == b || Less(a, b) || Less(b, a)
    ensures a == b ==> !Less(a, b)
  {
    if a != "" && b != "" {
      LessTotal(a[1..], b[1..]);
      assert a == [a[0]] + a[1..] && b == [b[0]] + b[1..];
    }
  }

  lemma {:induction false} LessTransitive(a: string, b: string, c: string)
    requires Less(a, b) && Less(b, c)
    ensures Less(a, c)
  {
    if a != "" && a[0] == b[0] == c[0] {
      LessTransitive(a[1..], b[1..], c[1..]);
    }
  }

  /** Of two names that first differ at a position, the one with the smaller character there, or that ends there, comes first. */
  lemma {:induction false} LessIff(a: string, b: string, k: nat)
    requires k <= |a| && k <= |b| && a[..k] == b[..k]
    requires k == |a| || k == |b| || a[k] != b[k]
    ensures Less(a, b) <==> k < |b| && (k == |a| || a[k] < b[k])
    decreases k
  {
    if k > 0 {
      assert a[0] == a[..k][0] == b[..k][0] == b[0];
      assert a[1..][..k - 1] == a[..k][1..] && b[1..][..k - 1] == b[..k][1..];
      LessIff(a[1..], b[1..], k - 1);
    }
  }

  predicate IsLeast(m: string, names: set<string>) {
    m in names && forall x :: x in names ==> x == m || Less(m, x)
  }

  lemma {:induction false} HasLeast(names: set<string>)
    requires names != {}
    ensures exists m :: IsLeast(m, names)
  {
    var x :| x in names;
    var rest := names - {x};
    assert names == rest + {x};
    if rest == {} {
      assert IsLeast(x, names);
    } else {
      HasLeast(rest);
      var m :| IsLeast(m, rest);
      LessTotal(x, m);
      if Less(m, x) {
        assert forall y :: y in names ==> y == x || y in rest;
        assert IsLeast(m, names);
      } else {
        forall y | y in names && y != x
          ensures Less(x, y)
        {
          if y != m {
            LessTransitive(x, m, y);
          }
        }
        assert IsLeast(x, names);
      }
    }
  }

  lemma LeastUnique(a: string, b: string, names: set<string>)
    requires IsLeast(a, names) && IsLeast(b, names)
    ensures a == b
  {
    LessTotal(a, b);
  }

  /** The names in ascending order. */
  ghost function Sorted(names: set<string>): (s: seq<string>) {
    if names == {} then []
    else
      HasLeast(names);
      var m :| IsLeast(m, names);
      [m] + Sorted(names - {m})
  }

  predicate Ascending(s: seq<string>) {
    forall i, j :: 0 <= i < j < |s| ==> Less(s[i], s[j])
  }

  /** Sorting lists every name once, in strictly ascending order. */
  lemma {:induction false} SortedIsAscending(names: set<string>)
    ensures Ascending(Sorted(names))
    ensures forall x :: x in Sorted(names) <==> x in names
  {
    if names != {} {
      HasLeast(names);
      var s := Sorted(names);
      var m := s[0];
      assert IsLeast(m, names);
      SortedIsAscending(names - {m});
      assert s[1..] == Sorted(names - {m});
      forall i, j | 0 <= i < j < |s|
        ensures Less(s[i], s[j])
      {
        assert s[j] == s[1..][j - 1];
        if i > 0 {
          assert s[i] == s[1..][i - 1];
        } else {
          assert s[j] in names - {m};
        }
      }
      assert s == [m] + s[1..];
    }
  }

  /** The sort, taking the least remaining name each time. */
  method SortStrings(names: set<string>) returns (s: seq<string>)
    ensures s == Sorted(names)
  {
    s := [];
    var rest := names;
    while rest != {}
      invariant s + Sorted(rest) == Sorted(names)
      decreases |rest|
    {
      HasLeast(rest);
      var m :| m in rest && forall x :: x in rest ==> x == m || Less(m, x);
      ghost var first := Sorted(rest)[0];
      LeastUnique(m, first, rest);
      assert Sorted(rest) == [m] + Sorted(rest - {m});
      assert s + ([m] + Sorted(rest - {m})) == (s + [m]) + Sorted(rest - {m});
      s := s + [m];
      rest := rest - {m};
    }
  }
}
