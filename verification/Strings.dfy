/** Strings in the order Python's sorted() puts them, and the sorted list of a finite set of strings. */
module Strings {
  predicate Leq(a: string, b: string) {
    a == [] || (b != [] && (a[0] < b[0] || (a[0] == b[0] && Leq(a[1..], b[1..]))))
  }

  lemma {:induction false} LeqTotal(a: string, b: string)
    ensures Leq(a, b) || Leq(b, a)
    ensures Leq(a, b) && Leq(b, a) ==> a == b
  {
    if a != [] && b != [] && a[0] == b[0] {
      LeqTotal(a[1..], b[1..]);
      assert a == [a[0]] + a[1..] && b == [b[0]] + b[1..];
    }
  }

  /** One comes before the other if it is a prefix of it, or smaller at the first difference. */
  lemma {:induction false} LeqIsLexicographic(a: string, b: string)
    ensures Leq(a, b) <==> a <= b || exists i: nat :: SmallerAt(a, b, i)
  {
    if a != [] && b != [] && a[0] == b[0] {
      LeqIsLexicographic(a[1..], b[1..]);
      if i: nat :| SmallerAt(a, b, i) {
        assert SmallerAt(a[1..], b[1..], i - 1);
      }
      if i: nat :| SmallerAt(a[1..], b[1..], i) {
        assert SmallerAt(a, b, i + 1);
      }
      assert a == [a[0]] + a[1..] && b == [b[0]] + b[1..];
    } else if a != [] && b != [] {
      assert a[0] < b[0] ==> SmallerAt(a, b, 0);
    }
  }

  predicate SmallerAt(a: string, b: string, i: nat) {
    i < |a| && i < |b| && a[i] < b[i] && forall k: nat | k < i :: a[k] == b[k]
  }

  lemma {:induction false} LeqTransitive(a: string, b: string, c: string)
    requires Leq(a, b) && Leq(b, c)
    ensures Leq(a, c)
  {
    if a != [] && a[0] == b[0] && b[0] == c[0] {
      LeqTransitive(a[1..], b[1..], c[1..]);
    }
  }

  predicate IsLeast(m: string, s: set<string>) {
    m in s && forall x | x in s :: Leq(m, x)
  }

  lemma {:induction false} LeastExists(s: set<string>)
    requires s != {}
    ensures exists m :: IsLeast(m, s)
    ensures forall m, n :: IsLeast(m, s) && IsLeast(n, s) ==> m == n
  {
    forall m, n | IsLeast(m, s) && IsLeast(n, s) ensures m == n {
      LeqTotal(m, n);
    }
    var x :| x in s;
    LeqTotal(x, x);
    if s == {x} {
      assert IsLeast(x, s);
    } else {
      var rest := s - {x};
      assert rest != {} by { assert s == rest + {x}; }
      LeastExists(rest);
      var m :| IsLeast(m, rest);
      LeqTotal(m, x);
      if Leq(m, x) {
        assert IsLeast(m, s);
      } else {
        forall y | y in s ensures Leq(x, y) {
          if y != x {
            LeqTransitive(x, m, y);
          }
        }
        assert IsLeast(x, s);
      }
    }
  }

  predicate Distinct<T(==)>(s: seq<T>) {
    forall i, j | 0 <= i < j < |s| :: s[i] != s[j]
  }

  function Elements<T>(s: seq<T>): set<T> {
    set x | x in s
  }

  lemma HasMember<T>(s: seq<T>)
    ensures s == [] || exists x :: x in s
  {
    assert s == [] || s[0] in s;
  }

  lemma ElementsNext<T>(s: seq<T>, i: nat)
    requires i < |s|
    ensures Elements(s[..i + 1]) == Elements(s[..i]) + {s[i]}
  {
    assert s[..i + 1] == s[..i] + [s[i]];
  }

  lemma ElementsEnds<T>(s: seq<T>)
    ensures Elements(s[..0]) == {} && Elements(s[..|s|]) == Elements(s)
  {
    assert s[..|s|] == s;
  }

  predicate Ascending(s: seq<string>) {
    forall i, j | 0 <= i < j < |s| :: Leq(s[i], s[j])
  }

  /** The members of a set, each once, in order. */
  function Sorted(s: set<string>): (r: seq<string>)
    ensures Elements(r) == s && Distinct(r) && Ascending(r)
  {
    if s == {} then [] else
      LeastExists(s);
      var m :| IsLeast(m, s);
      var rest := Sorted(s - {m});
      assert forall x :: x in [m] + rest <==> x == m || x in rest;
      assert forall x :: x in rest <==> x in Elements(rest);
      [m] + rest
  }

  /** sorted() of a list without repetitions. */
  function SortedList(q: seq<string>): seq<string>
    requires Distinct(q)
  {
    Sorted(Elements(q))
  }

  lemma {:induction false} DistinctSize<T>(s: seq<T>)
    requires Distinct(s)
    ensures |Elements(s)| == |s|
  {
    if s != [] {
      var n := |s| - 1;
      DistinctSize(s[..n]);
      assert Elements(s) == Elements(s[..n]) + {s[n]};
    }
  }

  lemma {:induction false} Subset<T>(a: set<T>, b: set<T>)
    requires a <= b
    ensures |a| <= |b|
    ensures |a| == |b| ==> a == b
  {
    if a != {} {
      var x :| x in a;
      Subset(a - {x}, b - {x});
    }
  }
}
