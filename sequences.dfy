/**
 * Operations on lists that both programs rely on: the stable sort behind
 * JavaScript's `Array.prototype.sort` and Python's `list.sort`, list
 * filtering, reversal, and the lookup table built by `new Map(pairs)`.
 */
module Sequences {

  /** `le` is total and transitive: an order on keys in which ties are allowed. */
  ghost predicate TotalPreorder<T(!new)>(le: (T, T) -> bool)
  {
    && (forall x, y :: le(x, y) || le(y, x))
    && (forall x, y, z :: le(x, y) && le(y, z) ==> le(x, z))
  }

  ghost predicate SortedBy<T>(s: seq<T>, le: (T, T) -> bool)
  {
    forall i, j :: 0 <= i < j < |s| ==> le(s[i], s[j])
  }

  /** No two positions of `s` carry the same key. */
  ghost predicate DistinctBy<T, K>(s: seq<T>, key: T -> K)
  {
    forall i, j :: 0 <= i < j < |s| ==> key(s[i]) != key(s[j])
  }

  /**
   * Places `x` after every element that does not come after it, so that
   * elements with equal keys keep their relative order.
   */
  function Insert<T>(x: T, s: seq<T>, le: (T, T) -> bool): (r: seq<T>)
    ensures |r| == |s| + 1
    ensures multiset(r) == multiset(s) + multiset{x}
  {
    if s == [] then [x]
    else if le(s[0], x) then
      assert s == [s[0]] + s[1..];
      [s[0]] + Insert(x, s[1..], le)
    else [x] + s
  }

  /** Stable insertion sort: each element is inserted after the sorted prefix before it. */
  function SortBy<T>(s: seq<T>, le: (T, T) -> bool): (r: seq<T>)
    ensures |r| == |s|
    ensures multiset(r) == multiset(s)
  {
    if s == [] then []
    else
      assert s == s[..|s| - 1] + [s[|s| - 1]];
      Insert(s[|s| - 1], SortBy(s[..|s| - 1], le), le)
  }

  lemma {:induction false} InsertSorted<T(!new)>(x: T, s: seq<T>, le: (T, T) -> bool)
    requires TotalPreorder(le)
    requires SortedBy(s, le)
    ensures SortedBy(Insert(x, s, le), le)
  {
    if s == [] {
    } else if le(s[0], x) {
      var rest := Insert(x, s[1..], le);
      InsertSorted(x, s[1..], le);
      forall k | 0 <= k < |rest|
        ensures le(s[0], rest[k])
      {
        assert rest[k] in multiset(rest);
        if rest[k] != x {
          assert rest[k] in multiset(s[1..]);
          var j :| 0 <= j < |s[1..]| && s[1..][j] == rest[k];
          assert s[1 + j] == rest[k];
        }
      }
      assert Insert(x, s, le) == [s[0]] + rest;
    } else {
      assert le(x, s[0]);
      forall k | 0 <= k < |s|
        ensures le(x, s[k])
      {
        if k > 0 {
          assert le(s[0], s[k]);
        }
      }
    }
  }

  /** Sorting yields a list in `le` order. */
  lemma {:induction false} SortSorted<T(!new)>(s: seq<T>, le: (T, T) -> bool)
    requires TotalPreorder(le)
    ensures SortedBy(SortBy(s, le), le)
  {
    if s != [] {
      SortSorted(s[..|s| - 1], le);
      InsertSorted(s[|s| - 1], SortBy(s[..|s| - 1], le), le);
    }
  }

  /** An element that comes after everything in `s` is appended. */
  lemma {:induction false} InsertAfterAll<T>(x: T, s: seq<T>, le: (T, T) -> bool)
    requires forall k :: 0 <= k < |s| ==> le(s[k], x)
    ensures Insert(x, s, le) == s + [x]
  {
    if s != [] {
      InsertAfterAll(x, s[1..], le);
      assert s == [s[0]] + s[1..];
    }
  }

  /** Sorting a list that is already in order changes nothing. */
  lemma {:induction false} SortOfSorted<T>(s: seq<T>, le: (T, T) -> bool)
    requires SortedBy(s, le)
    ensures SortBy(s, le) == s
  {
    if s != [] {
      var n := |s| - 1;
      SortOfSorted(s[..n], le);
      InsertAfterAll(s[n], s[..n], le);
      assert s[..n] + [s[n]] == s;
    }
  }

  lemma {:induction false} InsertDistinct<T, K>(x: T, s: seq<T>, le: (T, T) -> bool, key: T -> K)
    requires DistinctBy(s, key)
    requires forall k :: 0 <= k < |s| ==> key(s[k]) != key(x)
    ensures DistinctBy(Insert(x, s, le), key)
  {
    if s != [] && le(s[0], x) {
      var rest := Insert(x, s[1..], le);
      InsertDistinct(x, s[1..], le, key);
      forall k | 0 <= k < |rest|
        ensures key(s[0]) != key(rest[k])
      {
        assert rest[k] in multiset(rest);
        if rest[k] != x {
          assert rest[k] in multiset(s[1..]);
          var j :| 0 <= j < |s[1..]| && s[1..][j] == rest[k];
          assert s[1 + j] == rest[k];
        }
      }
      assert Insert(x, s, le) == [s[0]] + rest;
    }
  }

  /** Sorting never makes two elements share a key. */
  lemma {:induction false} SortDistinct<T, K>(s: seq<T>, le: (T, T) -> bool, key: T -> K)
    requires DistinctBy(s, key)
    ensures DistinctBy(SortBy(s, le), key)
  {
    if s != [] {
      var n := |s| - 1;
      var sorted := SortBy(s[..n], le);
      SortDistinct(s[..n], le, key);
      forall k | 0 <= k < |sorted|
        ensures key(sorted[k]) != key(s[n])
      {
        assert sorted[k] in multiset(sorted);
        assert sorted[k] in multiset(s[..n]);
        var j :| 0 <= j < n && s[..n][j] == sorted[k];
      }
      InsertDistinct(s[n], sorted, le, key);
    }
  }

  /** The elements of `s` that satisfy `p`, in their original order. */
  function Filter<T>(s: seq<T>, p: T -> bool): (r: seq<T>)
    ensures |r| <= |s|
    ensures forall i :: 0 <= i < |r| ==> r[i] in s && p(r[i])
    ensures forall i :: 0 <= i < |s| && p(s[i]) ==> s[i] in r
  {
    if s == [] then []
    else
      assert s == [s[0]] + s[1..];
      (if p(s[0]) then [s[0]] else []) + Filter(s[1..], p)
  }

  /** Filtering a list extended by one element extends the filtered list by it, if it passes. */
  lemma {:induction false} FilterAppend<T>(s: seq<T>, x: T, p: T -> bool)
    ensures Filter(s + [x], p) == Filter(s, p) + (if p(x) then [x] else [])
  {
    if s == [] {
      assert s + [x] == [x];
    } else {
      assert (s + [x])[0] == s[0];
      assert (s + [x])[1..] == s[1..] + [x];
      FilterAppend(s[1..], x, p);
    }
  }

  /** A filtered list keeps the order of the list it was taken from. */
  lemma {:induction false} FilterSorted<T>(s: seq<T>, p: T -> bool, le: (T, T) -> bool)
    requires SortedBy(s, le)
    ensures SortedBy(Filter(s, p), le)
  {
    if s != [] {
      FilterSorted(s[1..], p, le);
      var rest := Filter(s[1..], p);
      forall k | 0 <= k < |rest|
        ensures le(s[0], rest[k])
      {
        assert rest[k] in rest;
        var j :| 0 <= j < |s[1..]| && s[1..][j] == rest[k];
        assert s[1 + j] == rest[k];
      }
    }
  }

  function Reverse<T>(s: seq<T>): (r: seq<T>)
    ensures |r| == |s|
    ensures forall i :: 0 <= i < |s| ==> r[i] == s[|s| - 1 - i]
  {
    if s == [] then [] else Reverse(s[1..]) + [s[0]]
  }

  /**
   * The table `new Map(s.map(x => [key(x), x]))` builds: every key of `s`
   * maps to the LAST element carrying it, since later entries overwrite.
   */
  function IndexBy<T>(s: seq<T>, key: T -> string): (m: map<string, T>)
  {
    if s == [] then map[] else IndexBy(s[..|s| - 1], key)[key(s[|s| - 1]) := s[|s| - 1]]
  }

  /** What a lookup in `IndexBy(s, key)` finds. */
  lemma {:induction false} IndexByLookup<T>(s: seq<T>, key: T -> string)
    ensures forall k :: k in IndexBy(s, key) <==> exists i :: 0 <= i < |s| && key(s[i]) == k
    ensures forall k :: k in IndexBy(s, key) ==> key(IndexBy(s, key)[k]) == k && IndexBy(s, key)[k] in s
    ensures forall i :: 0 <= i < |s| && (forall j :: i < j < |s| ==> key(s[j]) != key(s[i])) ==>
      key(s[i]) in IndexBy(s, key) && IndexBy(s, key)[key(s[i])] == s[i]
  {
    IndexByKeys(s, key);
    IndexByLast(s, key);
  }

  /** The keys of the table are the keys of the elements, and each maps to an element carrying it. */
  lemma {:induction false} IndexByKeys<T>(s: seq<T>, key: T -> string)
    ensures forall k :: k in IndexBy(s, key) <==> exists i :: 0 <= i < |s| && key(s[i]) == k
    ensures forall k :: k in IndexBy(s, key) ==> key(IndexBy(s, key)[k]) == k && IndexBy(s, key)[k] in s
  {
    if s != [] {
      var n := |s| - 1;
      var p := s[..n];
      IndexByKeys(p, key);
      var m := IndexBy(s, key);
      var mp := IndexBy(p, key);
      assert m == mp[key(s[n]) := s[n]];
      assert forall i :: 0 <= i < n ==> p[i] == s[i];
      assert forall x :: x in p ==> x in s;
      forall k | k in m
        ensures exists i :: 0 <= i < |s| && key(s[i]) == k
      {
        if k != key(s[n]) {
          var i :| 0 <= i < n && key(p[i]) == k;
          assert key(s[i]) == k;
        }
      }
    }
  }

  /** An element whose key no later element carries is what its key finds. */
  lemma {:induction false} IndexByLast<T>(s: seq<T>, key: T -> string)
    ensures forall i :: 0 <= i < |s| && (forall j :: i < j < |s| ==> key(s[j]) != key(s[i])) ==>
      key(s[i]) in IndexBy(s, key) && IndexBy(s, key)[key(s[i])] == s[i]
  {
    if s != [] {
      var n := |s| - 1;
      var p := s[..n];
      IndexByLast(p, key);
      var m := IndexBy(s, key);
      var mp := IndexBy(p, key);
      assert m == mp[key(s[n]) := s[n]];
      forall i | 0 <= i < |s| && (forall j :: i < j < |s| ==> key(s[j]) != key(s[i]))
        ensures key(s[i]) in m && m[key(s[i])] == s[i]
      {
        if i < n {
          assert p[i] == s[i];
          assert forall j :: i < j < n ==> key(p[j]) != key(p[i]);
        }
      }
    }
  }
}
