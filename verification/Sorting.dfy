/** The library's unstable sort, and why its instability cannot be seen on distinct keys. */
module Sorting {

  /** A strict weak order on the elements of s, which is what slices.SortFunc and sort.Slice ask of a comparison. */
  ghost predicate StrictWeakOrder<T(!new)>(s: seq<T>, less: (T, T) -> bool) {
    && (forall x | x in s :: !less(x, x))
    && (forall x, y, z | x in s && y in s && z in s && less(x, y) && less(y, z) :: less(x, z))
    && (forall x, y, z | x in s && y in s && z in s && !less(x, y) && !less(y, z) :: !less(x, z))
  }

  ghost predicate InOrder<T>(s: seq<T>, less: (T, T) -> bool) {
    forall i, j | 0 <= i < j < |s| :: !less(s[j], s[i])
  }

  ghost predicate StrictlyIncreasing<T>(s: seq<T>, less: (T, T) -> bool) {
    forall i, j | 0 <= i < j < |s| :: less(s[i], s[j])
  }

  function Insert<T>(x: T, s: seq<T>, less: (T, T) -> bool): seq<T> {
    if s == [] then [x]
    else if less(s[0], x) then [s[0]] + Insert(x, s[1..], less)
    else [x] + s
  }

  lemma {:induction false} InsertKeeps<T>(x: T, s: seq<T>, less: (T, T) -> bool)
    ensures multiset(Insert(x, s, less)) == multiset(s) + multiset{x}
  {
    if s == [] {
    } else {
      assert s == [s[0]] + s[1..];
      if less(s[0], x) {
        InsertKeeps(x, s[1..], less);
      }
    }
  }

  /** Inserting into a list in order keeps it in order, all being elements that the comparison orders. */
  lemma {:induction false} InsertInOrder<T(!new)>(x: T, s: seq<T>, all: seq<T>, less: (T, T) -> bool)
    requires StrictWeakOrder(all, less) && InOrder(s, less) && x in all && forall y | y in s :: y in all
    ensures InOrder(Insert(x, s, less), less)
  {
    if s == [] {
    } else {
      if less(s[0], x) {
        var tail := Insert(x, s[1..], less);
        InsertInOrder(x, s[1..], all, less);
        InsertKeeps(x, s[1..], less);
        forall i | 0 <= i < |tail| ensures !less(tail[i], s[0]) {
          InsertHas(x, s[1..], less, tail[i]);
        }
      } else {
        forall i | 0 <= i < |s| ensures !less(s[i], x) {
          assert i > 0 ==> !less(s[i], s[0]);
        }
      }
    }
  }

  lemma InsertHas<T>(x: T, s: seq<T>, less: (T, T) -> bool, y: T)
    requires y in Insert(x, s, less)
    ensures y == x || y in s
  {
    InsertKeeps(x, s, less);
    assert y in multiset(Insert(x, s, less));
  }

  /**
   * Any permutation, in order when the comparison orders the elements: callers know nothing of how
   * ties are broken, nor of what a comparison that is no order leads to.
   */
  method SortFunc<T(!new)>(s: seq<T>, less: (T, T) -> bool) returns (r: seq<T>)
    ensures multiset(r) == multiset(s)
    ensures StrictWeakOrder(s, less) ==> InOrder(r, less)
  {
    r := [];
    for i := 0 to |s|
      invariant multiset(r) == multiset(s[..i])
      invariant StrictWeakOrder(s, less) ==> InOrder(r, less)
    {
      assert s[..i + 1] == s[..i] + [s[i]];
      InsertKeeps(s[i], r, less);
      if StrictWeakOrder(s, less) {
        forall y | y in r ensures y in s {
          assert y in multiset(r);
        }
        InsertInOrder(s[i], r, s, less);
      }
      r := Insert(s[i], r, less);
    }
    assert s[..|s|] == s;
  }

  // ----- Distinct elements -----

  predicate Distinct<T(==)>(s: seq<T>) {
    forall i, j | 0 <= i < j < |s| :: s[i] != s[j]
  }

  /** Rearranging distinct elements leaves them distinct. */
  lemma DistinctStays<T>(s: seq<T>, t: seq<T>)
    requires Distinct(s) && multiset(t) == multiset(s)
    ensures Distinct(t)
  {
    forall i, j | 0 <= i < j < |t| ensures t[i] != t[j] {
      if t[i] == t[j] {
        TwiceCounts(t, i, j);
        OnceCounts(s, t[i]);
        assert false;
      }
    }
  }

  lemma {:induction false} OnceCounts<T>(s: seq<T>, x: T)
    requires Distinct(s)
    ensures multiset(s)[x] <= 1
  {
    if s == [] {
    } else {
      var front, last := s[..|s| - 1], s[|s| - 1];
      assert s == front + [last];
      OnceCounts(front, x);
      assert last !in front;
    }
  }

  lemma TwiceCounts<T>(s: seq<T>, i: nat, j: nat)
    requires i < j < |s| && s[i] == s[j]
    ensures multiset(s)[s[i]] >= 2
  {
    assert s == s[..j] + [s[j]] + s[j + 1..];
    assert s[i] in s[..j];
  }

  /** A strictly increasing list is determined by its elements. */
  lemma {:induction false} IncreasingUnique<T(!new)>(a: seq<T>, b: seq<T>, less: (T, T) -> bool)
    requires forall x, y | x in a && y in a :: !(less(x, y) && less(y, x))
    requires StrictlyIncreasing(a, less) && StrictlyIncreasing(b, less)
    requires forall x :: x in a <==> x in b
    ensures a == b
  {
    assert |a| > 0 ==> a[0] in b;
    assert |b| > 0 ==> b[0] in a;
    if a == [] || b == [] {
    } else {
      assert a[0] in b && b[0] in a;
      assert a[0] == b[0];
      forall x ensures x in a[1..] <==> x in b[1..] {
        assert x in a <==> x == a[0] || x in a[1..];
        assert x in b <==> x == b[0] || x in b[1..];
        assert a[0] !in a[1..] && b[0] !in b[1..];
      }
      IncreasingUnique(a[1..], b[1..], less);
      assert a == [a[0]] + a[1..] && b == [b[0]] + b[1..];
    }
  }

  /** No list with a cycle is in order. */
  lemma CycleHasNoOrder<T(!new)>(s: seq<T>, less: (T, T) -> bool, a: T, b: T, c: T)
    requires a in s && b in s && c in s && a != b && b != c && c != a
    requires less(a, b) && less(b, c) && less(c, a)
    ensures !InOrder(s, less)
  {
    var i :| 0 <= i < |s| && s[i] == a;
    var j :| 0 <= j < |s| && s[j] == b;
    var k :| 0 <= k < |s| && s[k] == c;
    assert less(s[i], s[j]) && less(s[j], s[k]) && less(s[k], s[i]);
  }
}
