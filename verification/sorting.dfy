/** Result lists of the read queries. `ORDER BY` returns the selected rows
    sorted by a total preorder; a query without `ORDER BY` returns them in
    some order. Both list every selected row exactly once. */
module Sorting {
  import Optional

  /** `s` is ascending under `le`. */
  predicate Sorted<T>(s: seq<T>, le: (T, T) -> bool) {
    forall i, j :: 0 <= i < j < |s| ==> le(s[i], s[j])
  }

  /** `le` is total and transitive; rows that compare equal both ways may come
      in either order. */
  ghost predicate TotalPreorder<T(!new)>(le: (T, T) -> bool) {
    && (forall a, b :: le(a, b) || le(b, a))
    && (forall a, b, c :: le(a, b) && le(b, c) ==> le(a, c))
  }

  /** Every element of `s` is preceded by `a`. */
  predicate LowerBound<T>(a: T, s: seq<T>, le: (T, T) -> bool) {
    forall j :: 0 <= j < |s| ==> le(a, s[j])
  }

  /** What precedes the head of a sorted list precedes all of it. */
  lemma HeadBound<T(!new)>(x: T, s: seq<T>, le: (T, T) -> bool)
    requires TotalPreorder(le) && Sorted(s, le)
    requires |s| > 0 && le(x, s[0])
    ensures LowerBound(x, s, le)
  {
    forall j | 0 <= j < |s| ensures le(x, s[j]) {
      if j > 0 { assert le(s[0], s[j]); }
    }
  }

  /** The head of a sorted list precedes the rest of it. */
  lemma TailBound<T>(s: seq<T>, le: (T, T) -> bool)
    requires Sorted(s, le) && |s| > 0
    ensures LowerBound(s[0], s[1..], le)
  {
    forall j | 0 <= j < |s[1..]| ensures le(s[0], s[1..][j]) {
      assert s[1..][j] == s[j + 1];
    }
  }

  /** A lower bound of `s` and of `x` bounds any list made of the same
      elements as `s` and `x`. */
  lemma BoundPermuted<T>(a: T, x: T, s: seq<T>, t: seq<T>, le: (T, T) -> bool)
    requires LowerBound(a, s, le) && le(a, x)
    requires multiset(t) == multiset(s) + multiset{x}
    ensures LowerBound(a, t, le)
  {
    forall j | 0 <= j < |t| ensures le(a, t[j]) {
      assert t[j] in multiset(t);
      if t[j] != x {
        assert t[j] in multiset(s);
        var k :| 0 <= k < |s| && s[k] == t[j];
      }
    }
  }

  /** A lower bound of a sorted list can go in front of it. */
  lemma ConsSorted<T>(a: T, s: seq<T>, le: (T, T) -> bool)
    requires LowerBound(a, s, le) && Sorted(s, le)
    ensures Sorted([a] + s, le)
  {
    forall i, j | 0 <= i < j < |[a] + s| ensures le(([a] + s)[i], ([a] + s)[j]) {
      if i > 0 { assert ([a] + s)[i] == s[i - 1]; }
      assert ([a] + s)[j] == s[j - 1];
    }
  }

  /** `x` placed into the sorted list `s` after every element it does not
      precede. */
  function Insert<T(!new)>(x: T, s: seq<T>, le: (T, T) -> bool): (r: seq<T>)
    requires TotalPreorder(le) && Sorted(s, le)
    ensures multiset(r) == multiset(s) + multiset{x}
    ensures Sorted(r, le)
  {
    if |s| == 0 then [x]
    else if le(x, s[0]) then
      HeadBound(x, s, le);
      ConsSorted(x, s, le);
      [x] + s
    else
      var tail := Insert(x, s[1..], le);
      assert le(s[0], x);
      TailBound(s, le);
      BoundPermuted(s[0], x, s[1..], tail, le);
      ConsSorted(s[0], tail, le);
      assert s == [s[0]] + s[1..];
      [s[0]] + tail
  }

  /** The rows of a set in ascending order: what `ORDER BY` returns. */
  method SortSet<T(!new)>(s: set<T>, le: (T, T) -> bool) returns (r: seq<T>)
    requires TotalPreorder(le)
    ensures Sorted(r, le)
    ensures multiset(r) == multiset(s)
  {
    r := [];
    var rest := s;
    while rest != {}
      invariant Sorted(r, le)
      invariant multiset(r) + multiset(rest) == multiset(s)
      decreases |rest|
    {
      var x :| x in rest;
      assert multiset(rest) == multiset(rest - {x}) + multiset{x};
      r := Insert(x, r, le);
      rest := rest - {x};
    }
  }

  /** The rows of a set in some order: what a query without `ORDER BY`
      returns. */
  method Enumerate<T>(s: set<T>) returns (r: seq<T>)
    ensures multiset(r) == multiset(s)
  {
    r := [];
    var rest := s;
    while rest != {}
      invariant multiset(r) + multiset(rest) == multiset(s)
      decreases |rest|
    {
      var x :| x in rest;
      assert multiset(rest) == multiset(rest - {x}) + multiset{x};
      r := r + [x];
      rest := rest - {x};
    }
  }

  /** An element that occurs at two positions counts at least twice. */
  lemma Repeated<T>(r: seq<T>, i: nat, j: nat)
    requires i < j < |r| && r[i] == r[j]
    ensures multiset(r)[r[i]] >= 2
  {
    assert r == r[..i] + [r[i]] + r[i + 1..j] + [r[j]] + r[j + 1..];
  }

  /** A list whose multiset is that of a set holds exactly its elements. */
  lemma ListsSet<T>(r: seq<T>, s: set<T>)
    requires multiset(r) == multiset(s)
    ensures forall x :: x in r <==> x in s
    ensures forall i, j :: 0 <= i < j < |r| ==> r[i] != r[j]
  {
    forall x ensures x in r <==> x in s {
      assert x in r <==> x in multiset(r);
    }
    forall i, j | 0 <= i < j < |r| ensures r[i] != r[j] {
      if r[i] == r[j] {
        Repeated(r, i, j);
        assert false;
      }
    }
  }

  /** Code-point lexicographic order on strings. */
  predicate LexLe(a: string, b: string) {
    |a| == 0 || (|b| > 0 && (a[0] < b[0] || (a[0] == b[0] && LexLe(a[1..], b[1..]))))
  }

  lemma {:induction false} LexTotal(a: string, b: string)
    ensures LexLe(a, b) || LexLe(b, a)
  {
    if |a| > 0 && |b| > 0 && a[0] == b[0] {
      LexTotal(a[1..], b[1..]);
    }
  }

  lemma {:induction false} LexTransitive(a: string, b: string, c: string)
    requires LexLe(a, b) && LexLe(b, c)
    ensures LexLe(a, c)
  {
    if |a| > 0 && a[0] == b[0] && b[0] == c[0] {
      LexTransitive(a[1..], b[1..], c[1..]);
    }
  }

  /** Only equal strings precede each other. */
  lemma {:induction false} LexAntisymmetric(a: string, b: string)
    requires LexLe(a, b) && LexLe(b, a)
    ensures a == b
  {
    if |a| > 0 {
      LexAntisymmetric(a[1..], b[1..]);
      assert a == [a[0]] + a[1..] && b == [b[0]] + b[1..];
    }
  }

  lemma LexOrder()
    ensures TotalPreorder(LexLe)
  {
    forall a, b ensures LexLe(a, b) || LexLe(b, a) {
      LexTotal(a, b);
    }
    forall a, b, c | LexLe(a, b) && LexLe(b, c) ensures LexLe(a, c) {
      LexTransitive(a, b, c);
    }
  }

  /** Text with SQL NULL (`None`) sorted after every string, as ascending
      `ORDER BY` does in PostgreSQL. */
  predicate NullsLastLe(a: Optional.Option<string>, b: Optional.Option<string>) {
    b.None? || (a.Some? && LexLe(a.value, b.value))
  }

  lemma NullsLastOrder()
    ensures TotalPreorder(NullsLastLe)
  {
    LexOrder();
  }

  predicate NatLe(a: nat, b: nat) {
    a <= b
  }

  lemma NatOrder()
    ensures TotalPreorder(NatLe)
  {
  }
}
