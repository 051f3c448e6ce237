/** Kotlin's `sortedBy` / `sortedWith`: a stable sort under a comparator. The library uses a
    merge sort; it is modelled by a stable insertion sort, which yields the same list because a
    stable sort's result is fixed by its comparator. */
module Sorting {
  import opened Base

  /** `le(a, b)` holds when the comparator places `a` no later than `b` (compare(a, b) <= 0). */
  ghost predicate TotalPreorder<T(!new)>(le: (T, T) -> bool) {
    (forall a, b :: le(a, b) || le(b, a)) &&
    (forall a, b, c :: le(a, b) && le(b, c) ==> le(a, c))
  }

  predicate Sorted<T>(s: seq<T>, le: (T, T) -> bool) {
    forall i, j :: 0 <= i < j < |s| ==> le(s[i], s[j])
  }

  /** Elements the comparator cannot tell apart from `k`. */
  function EquivTo<T>(le: (T, T) -> bool, k: T): T -> bool {
    x => le(x, k) && le(k, x)
  }

  /** Puts `x` before the first element it does not come after. */
  function Insert<T>(x: T, s: seq<T>, le: (T, T) -> bool): (r: seq<T>)
    ensures |r| == |s| + 1
    ensures multiset(r) == multiset(s) + multiset{x}
  {
    if |s| == 0 then [x]
    else if le(x, s[0]) then [x] + s
    else
      assert s == [s[0]] + s[1..];
      [s[0]] + Insert(x, s[1..], le)
  }

  function SortBy<T>(s: seq<T>, le: (T, T) -> bool): (r: seq<T>)
    ensures |r| == |s|
    ensures multiset(r) == multiset(s)
  {
    if |s| == 0 then []
    else
      assert s == [s[0]] + s[1..];
      Insert(s[0], SortBy(s[1..], le), le)
  }

  lemma {:induction false} InsertSorted<T(!new)>(x: T, s: seq<T>, le: (T, T) -> bool)
    requires TotalPreorder(le) && Sorted(s, le)
    ensures Sorted(Insert(x, s, le), le)
  {
    if |s| > 0 && !le(x, s[0]) {
      InsertSorted(x, s[1..], le);
      var r := Insert(x, s[1..], le);
      assert forall y | y in multiset(r) :: le(s[0], y) by {
        forall y | y in multiset(r) ensures le(s[0], y) {
          if y == x {
          } else {
            assert y in multiset(s[1..]);
            var j :| 0 <= j < |s[1..]| && s[1..][j] == y;
            assert s[j + 1] == y;
          }
        }
      }
      forall j | 0 <= j < |r| ensures le(s[0], r[j]) {
        assert r[j] in multiset(r);
      }
    }
  }

  /** The sorted list is in comparator order. */
  lemma {:induction false} SortBySorted<T(!new)>(s: seq<T>, le: (T, T) -> bool)
    requires TotalPreorder(le)
    ensures Sorted(SortBy(s, le), le)
  {
    if |s| > 0 {
      SortBySorted(s[1..], le);
      InsertSorted(s[0], SortBy(s[1..], le), le);
    }
  }

  lemma {:induction false} FilterInsert<T(!new)>(x: T, s: seq<T>, le: (T, T) -> bool, k: T)
    requires TiesFollow(le, k, x)
    ensures Filter(Insert(x, s, le), EquivTo(le, k))
         == (if EquivTo(le, k)(x) then [x] else []) + Filter(s, EquivTo(le, k))
  {
    var p := EquivTo(le, k);
    if |s| == 0 {
      FilterCons(x, [], p);
    } else if le(x, s[0]) {
      FilterCons(x, s, p);
    } else {
      var y, rest := s[0], s[1..];
      var ins := Insert(x, rest, le);
      assert Insert(x, s, le) == [y] + ins;
      FilterInsert(x, rest, le, k);
      FilterCons(y, ins, p);
      assert s == [y] + rest;
      FilterCons(y, rest, p);
      assert !(p(x) && p(y));
      SwapSingles(if p(x) then [x] else [], if p(y) then [y] else [], Filter(rest, p));
    }
  }

  /** Two lists of which at most one is non-empty can be put in either order. */
  lemma SwapSingles<T>(a: seq<T>, b: seq<T>, t: seq<T>)
    requires |a| == 0 || |b| == 0
    ensures b + (a + t) == a + (b + t)
  {
    if |a| == 0 {
      assert a + t == t && b + t == a + (b + t);
    } else {
      assert b + (a + t) == a + t && b + t == t;
    }
  }

  ghost predicate TiesFollow<T(!new)>(le: (T, T) -> bool, k: T, x: T) {
    forall y :: EquivTo(le, k)(x) && !le(x, y) ==> !EquivTo(le, k)(y)
  }

  lemma TotalPreorderTiesFollow<T(!new)>(le: (T, T) -> bool, k: T, x: T)
    requires TotalPreorder(le)
    ensures TiesFollow(le, k, x)
  {
  }

  /** Stability: elements the comparator ties keep their original relative order. */
  lemma {:induction false} SortByStable<T(!new)>(s: seq<T>, le: (T, T) -> bool, k: T)
    requires TotalPreorder(le)
    ensures Filter(SortBy(s, le), EquivTo(le, k)) == Filter(s, EquivTo(le, k))
  {
    if |s| > 0 {
      SortByStable(s[1..], le, k);
      TotalPreorderTiesFollow(le, k, s[0]);
      FilterInsert(s[0], SortBy(s[1..], le), le, k);
    }
  }

  /** A list already in order is left as it is. */
  lemma {:induction false} SortBySortedInput<T(!new)>(s: seq<T>, le: (T, T) -> bool)
    requires Sorted(s, le)
    ensures SortBy(s, le) == s
  {
    if |s| > 0 {
      assert Sorted(s[1..], le);
      SortBySortedInput(s[1..], le);
      if |s| > 1 {
        assert le(s[0], s[1]);
      }
    }
  }

  /** Filtering a sorted list leaves it sorted. */
  lemma {:induction false} FilterSorted<T(!new)>(s: seq<T>, p: T -> bool, le: (T, T) -> bool)
    requires Sorted(s, le)
    ensures Sorted(Filter(s, p), le)
  {
    if |s| > 0 {
      assert Sorted(s[1..], le);
      FilterSorted(s[1..], p, le);
      var rest := Filter(s[1..], p);
      forall j | 0 <= j < |rest| ensures le(s[0], rest[j]) {
        assert rest[j] in s[1..];
      }
    }
  }

  /** In a sorted list every element before a final piece is at most each element of it. */
  lemma SortedBeforeSuffix<T>(s: seq<T>, r: seq<T>, le: (T, T) -> bool)
    requires Sorted(s, le) && |r| <= |s| && s == s[..|s| - |r|] + r
    ensures forall i, j :: 0 <= i < |s| - |r| && 0 <= j < |r| ==> le(s[i], r[j])
  {
    forall i, j | 0 <= i < |s| - |r| && 0 <= j < |r| ensures le(s[i], r[j]) {
      assert r[j] == s[|s| - |r| + j];
    }
  }

  /** In a sorted list every element of a leading piece is at most each element after it. */
  lemma SortedPrefixBefore<T>(s: seq<T>, r: seq<T>, le: (T, T) -> bool)
    requires Sorted(s, le) && r <= s
    ensures forall i, j :: 0 <= i < |r| <= j < |s| ==> le(r[i], s[j])
  {
    forall i, j | 0 <= i < |r| <= j < |s| ensures le(r[i], s[j]) {
      assert r[i] == s[i];
    }
  }
}
