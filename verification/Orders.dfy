// Strict total orders and the list Python's `sorted` makes of a set.
module Orders {
  ghost predicate StrictTotalOrder<T(!new)>(less: (T, T) -> bool) {
    && (forall x :: !less(x, x))
    && (forall x, y, z :: less(x, y) && less(y, z) ==> less(x, z))
    && (forall x, y :: x != y ==> less(x, y) || less(y, x))
  }

  ghost predicate Ascending<T>(xs: seq<T>, less: (T, T) -> bool) {
    forall i, j :: 0 <= i < j < |xs| ==> less(xs[i], xs[j])
  }

  ghost predicate IsLeast<T>(m: T, s: set<T>, less: (T, T) -> bool) {
    m in s && forall x :: x in s && x != m ==> less(m, x)
  }

  lemma {:induction false} LeastExists<T(!new)>(s: set<T>, less: (T, T) -> bool)
    requires StrictTotalOrder(less) && s != {}
    ensures exists m :: IsLeast(m, s, less)
    decreases |s|
  {
    var m :| m in s;
    if s == {m} {
      assert IsLeast(m, s, less);
    } else {
      LeastExists(s - {m}, less);
      var n :| IsLeast(n, s - {m}, less);
      assert IsLeast(if less(n, m) then n else m, s, less);
    }
  }

  // The least element; the order makes it unique.
  function Least<T(==, !new)>(s: set<T>, less: (T, T) -> bool): (m: T)
    requires StrictTotalOrder(less) && s != {}
    ensures IsLeast(m, s, less)
  {
    LeastExists(s, less);
    assert exists m :: m in s && forall x :: x in s && x != m ==> less(m, x) by {
      var m :| IsLeast(m, s, less);
    }
    var m :| m in s && forall x :: x in s && x != m ==> less(m, x);
    m
  }

  // `sorted(s)`: every element once, in ascending order.
  function Sorted<T(==, !new)>(s: set<T>, less: (T, T) -> bool): (xs: seq<T>)
    requires StrictTotalOrder(less)
    ensures Ascending(xs, less)
    ensures forall x :: x in xs <==> x in s
    ensures |xs| == |s|
    decreases |s|
  {
    if s == {} then []
    else
      var m := Least(s, less);
      [m] + Sorted(s - {m}, less)
  }

  // Two ascending lists of the same elements are the same list.
  lemma {:induction false} AscendingUnique<T(!new)>(xs: seq<T>, ys: seq<T>, less: (T, T) -> bool)
    requires StrictTotalOrder(less)
    requires Ascending(xs, less) && Ascending(ys, less)
    requires |xs| == |ys| && forall x :: x in xs <==> x in ys
    ensures xs == ys
    decreases |xs|
  {
    if xs != [] {
      assert xs[0] in ys;
      assert ys[0] in xs;
      assert xs[0] == ys[0];
      forall x ensures x in xs[1..] <==> x in ys[1..] {
        if x in xs[1..] { assert x in ys; }
        if x in ys[1..] { assert x in xs; }
      }
      AscendingUnique(xs[1..], ys[1..], less);
    }
  }

  // Python's string order: by code point, a proper prefix first.
  predicate Precedes(a: string, b: string) {
    if b == "" then false
    else if a == "" then true
    else a[0] < b[0] || (a[0] == b[0] && Precedes(a[1..], b[1..]))
  }

  // The first difference decides; a proper prefix comes first.
  lemma {:induction false} PrecedesAtFirstDifference(a: string, b: string)
    ensures Precedes(a, b)
       <==> exists k :: 0 <= k <= |a| && k < |b| && a[..k] == b[..k] && (k == |a| || a[k] < b[k])
  {
    if a != "" && b != "" && a[0] == b[0] {
      PrecedesAtFirstDifference(a[1..], b[1..]);
      if k :| 0 <= k <= |a[1..]| && k < |b[1..]| && a[1..][..k] == b[1..][..k]
              && (k == |a[1..]| || a[1..][k] < b[1..][k]) {
        assert a[..k + 1] == [a[0]] + a[1..][..k] && b[..k + 1] == [b[0]] + b[1..][..k];
      }
      if k :| 0 <= k <= |a| && k < |b| && a[..k] == b[..k] && (k == |a| || a[k] < b[k]) {
        assert k > 0;
        assert a[1..][..k - 1] == a[..k][1..] && b[1..][..k - 1] == b[..k][1..];
      }
    } else if Precedes(a, b) {
      assert a[..0] == b[..0];
    } else if b != "" && a != "" {
      forall k | 0 < k <= |a| && k < |b| ensures a[..k] != b[..k] {
        assert a[..k][0] == a[0] && b[..k][0] == b[0];
      }
    }
  }

  lemma {:induction false} PrecedesIrreflexive(a: string)
    ensures !Precedes(a, a)
  {
    if a != "" { PrecedesIrreflexive(a[1..]); }
  }

  lemma {:induction false} PrecedesTransitive(a: string, b: string, c: string)
    requires Precedes(a, b) && Precedes(b, c)
    ensures Precedes(a, c)
  {
    if a != "" && a[0] == b[0] && b[0] == c[0] {
      PrecedesTransitive(a[1..], b[1..], c[1..]);
    }
  }

  lemma {:induction false} PrecedesTotal(a: string, b: string)
    requires a != b
    ensures Precedes(a, b) || Precedes(b, a)
  {
    if a != "" && b != "" && a[0] == b[0] {
      assert a == [a[0]] + a[1..] && b == [b[0]] + b[1..];
      PrecedesTotal(a[1..], b[1..]);
    }
  }

  lemma PrecedesIsStrictTotal()
    ensures StrictTotalOrder(Precedes)
  {
    forall a: string ensures !Precedes(a, a) { PrecedesIrreflexive(a); }
    forall a: string, b: string, c: string | Precedes(a, b) && Precedes(b, c) ensures Precedes(a, c) {
      PrecedesTransitive(a, b, c);
    }
    forall a: string, b: string | a != b ensures Precedes(a, b) || Precedes(b, a) { PrecedesTotal(a, b); }
  }

  // `sorted` on a set of strings.
  function SortedStrings(s: set<string>): (xs: seq<string>)
    ensures Ascending(xs, Precedes)
    ensures forall x :: x in xs <==> x in s
    ensures |xs| == |s|
  {
    PrecedesIsStrictTotal();
    Sorted(s, Precedes)
  }
}
