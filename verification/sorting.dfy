/** `Array.prototype.sort` with a comparator. The ECMAScript sort the
    dashboard runs on is stable, so the result is the unique ordering that is
    sorted, a permutation of the input, and keeps equivalent elements in
    their input order. An insertion sort has exactly that result. */
module Sorting {

  /** `le` orders every pair and is transitive: what a consistent comparator
      function provides. */
  ghost predicate TotalPreorder<T(!new)>(le: (T, T) -> bool) {
    && (forall a, b :: le(a, b) || le(b, a))
    && (forall a, b, c :: le(a, b) && le(b, c) ==> le(a, c))
  }

  predicate Sorted<T>(s: seq<T>, le: (T, T) -> bool) {
    forall i, j :: 0 <= i < j < |s| ==> le(s[i], s[j])
  }

  /** Places `x` in front of the first element it does not sort after. */
  function Insert<T>(x: T, s: seq<T>, le: (T, T) -> bool): (r: seq<T>)
    ensures |r| == |s| + 1
    ensures multiset(r) == multiset(s) + multiset{x}
  {
    if |s| == 0 || le(x, s[0]) then [x] + s
    else
      assert s == [s[0]] + s[1..];
      [s[0]] + Insert(x, s[1..], le)
  }

  /** `s.sort(compare)` where `le(a, b)` means `compare(a, b) <= 0`. */
  function SortBy<T>(s: seq<T>, le: (T, T) -> bool): (r: seq<T>)
    ensures |r| == |s|
    ensures multiset(r) == multiset(s)
  {
    if |s| == 0 then []
    else
      assert s == [s[0]] + s[1..];
      Insert(s[0], SortBy(s[1..], le), le)
  }

  lemma {:induction false} InsertSorted<T(!new)>(x: T, s: seq<T>, le: (T, T) -> bool)
    requires TotalPreorder(le) && Sorted(s, le)
    ensures Sorted(Insert(x, s, le), le)
  {
    if |s| > 0 && !le(x, s[0]) {
      var t := Insert(x, s[1..], le);
      InsertSorted(x, s[1..], le);
      assert le(s[0], x);
      InsertBelow(s[0], x, s[1..], le);
      var r := [s[0]] + t;
      forall i, j | 0 <= i < j < |r| ensures le(r[i], r[j]) {
        if i == 0 {
          assert r[j] == t[j - 1];
        } else {
          assert r[i] == t[i - 1] && r[j] == t[j - 1];
        }
      }
    }
  }

  /** A lower bound of `x` and of every element of `s` bounds every element
      of `Insert(x, s, le)`. */
  lemma InsertBelow<T>(y: T, x: T, s: seq<T>, le: (T, T) -> bool)
    requires le(y, x)
    requires forall k :: 0 <= k < |s| ==> le(y, s[k])
    ensures forall k :: 0 <= k < |s| + 1 ==> le(y, Insert(x, s, le)[k])
  {
    var t := Insert(x, s, le);
    forall k | 0 <= k < |t| ensures le(y, t[k]) {
      assert t[k] in multiset(t);
      if t[k] != x {
        assert t[k] in multiset(s);
        var m :| 0 <= m < |s| && s[m] == t[k];
      }
    }
  }

  /** The sort yields an ordering consistent with the comparator. */
  lemma {:induction false} SortBySorted<T(!new)>(s: seq<T>, le: (T, T) -> bool)
    requires TotalPreorder(le)
    ensures Sorted(SortBy(s, le), le)
  {
    if |s| > 0 {
      SortBySorted(s[1..], le);
      InsertSorted(s[0], SortBy(s[1..], le), le);
    }
  }

  /** An input that is already ordered comes back unchanged. */
  lemma {:induction false} SortBySortedIsIdentity<T>(s: seq<T>, le: (T, T) -> bool)
    requires Sorted(s, le)
    ensures SortBy(s, le) == s
  {
    if |s| > 0 {
      assert Sorted(s[1..], le);
      SortBySortedIsIdentity(s[1..], le);
    }
  }

  /** No two elements of `s` share a key. */
  predicate DistinctKeys<T, K(==)>(s: seq<T>, key: T -> K) {
    forall i, j :: 0 <= i < j < |s| ==> key(s[i]) != key(s[j])
  }

  lemma {:induction false} InsertDistinctKeys<T, K>(x: T, s: seq<T>, le: (T, T) -> bool, key: T -> K)
    requires DistinctKeys(s, key)
    requires forall i :: 0 <= i < |s| ==> key(s[i]) != key(x)
    ensures DistinctKeys(Insert(x, s, le), key)
  {
    if |s| > 0 && !le(x, s[0]) {
      var t := Insert(x, s[1..], le);
      InsertDistinctKeys(x, s[1..], le, key);
      forall j | 0 <= j < |t| ensures key(t[j]) != key(s[0]) {
        assert t[j] in multiset(t);
        if t[j] != x {
          assert t[j] in s[1..];
        }
      }
      var r := [s[0]] + t;
      forall i, j | 0 <= i < j < |r| ensures key(r[i]) != key(r[j]) {
        if i > 0 {
          assert r[i] == t[i - 1] && r[j] == t[j - 1];
        } else {
          assert r[j] == t[j - 1];
        }
      }
    }
  }

  /** Sorting never makes two elements share a key. */
  lemma {:induction false} SortByDistinctKeys<T, K>(s: seq<T>, le: (T, T) -> bool, key: T -> K)
    requires DistinctKeys(s, key)
    ensures DistinctKeys(SortBy(s, le), key)
  {
    if |s| > 0 {
      assert DistinctKeys(s[1..], key);
      SortByDistinctKeys(s[1..], le, key);
      var t := SortBy(s[1..], le);
      forall i | 0 <= i < |t| ensures key(t[i]) != key(s[0]) {
        assert t[i] in multiset(s[1..]);
      }
      InsertDistinctKeys(s[0], t, le, key);
    }
  }

  /** The elements of `s` the comparator cannot tell apart from `y`, in the
      order `s` has them. */
  function Equivalents<T>(s: seq<T>, le: (T, T) -> bool, y: T): (r: seq<T>)
    ensures |r| <= |s|
  {
    if |s| == 0 then []
    else (if le(s[0], y) && le(y, s[0]) then [s[0]] else []) + Equivalents(s[1..], le, y)
  }

  lemma {:induction false} InsertStable<T(!new)>(x: T, s: seq<T>, le: (T, T) -> bool, y: T)
    requires TotalPreorder(le)
    ensures Equivalents(Insert(x, s, le), le, y)
         == (if le(x, y) && le(y, x) then [x] else []) + Equivalents(s, le, y)
  {
    if |s| > 0 && !le(x, s[0]) {
      var t := Insert(x, s[1..], le);
      assert Insert(x, s, le) == [s[0]] + t;
      assert s == [s[0]] + s[1..];
      InsertStable(x, s[1..], le, y);
      EquivalentsCons(s[0], t, le, y);
      EquivalentsCons(s[0], s[1..], le, y);
      NotBothEquivalent(x, s[0], le, y);
      var ex := if le(x, y) && le(y, x) then [x] else [];
      var e0 := if le(s[0], y) && le(y, s[0]) then [s[0]] else [];
      SwapWhenOneEmpty(e0, ex, Equivalents(s[1..], le, y));
    } else {
      EquivalentsCons(x, s, le, y);
    }
  }

  lemma EquivalentsCons<T>(a: T, s: seq<T>, le: (T, T) -> bool, y: T)
    ensures Equivalents([a] + s, le, y)
         == (if le(a, y) && le(y, a) then [a] else []) + Equivalents(s, le, y)
  {
    assert ([a] + s)[0] == a && ([a] + s)[1..] == s;
  }

  lemma SwapWhenOneEmpty<T>(a: seq<T>, b: seq<T>, c: seq<T>)
    requires a == [] || b == []
    ensures a + (b + c) == b + (a + c)
  {
  }

  /** Two elements one of which sorts strictly after the other are not both
      equivalent to `y`. */
  lemma NotBothEquivalent<T(!new)>(x: T, a: T, le: (T, T) -> bool, y: T)
    requires TotalPreorder(le)
    requires !le(x, a)
    ensures !(le(x, y) && le(y, x) && le(a, y) && le(y, a))
  {
  }

  /** Stability: among elements the comparator treats as equal, the sorted
      output keeps the input order. */
  lemma {:induction false} SortByStable<T(!new)>(s: seq<T>, le: (T, T) -> bool, y: T)
    requires TotalPreorder(le)
    ensures Equivalents(SortBy(s, le), le, y) == Equivalents(s, le, y)
  {
    if |s| > 0 {
      SortByStable(s[1..], le, y);
      InsertStable(s[0], SortBy(s[1..], le), le, y);
    }
  }
}
