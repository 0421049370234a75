/** The stable descending sort both clients use: JavaScript's `Array.prototype.sort`
    (stable since ECMAScript 2019) with a comparator `key(b) - key(a)`, i.e. newest
    first, equal keys in their original order. Written as an insertion sort. */
module Sorting {
  import opened Wrappers

  ghost predicate SortedDesc<T>(s: seq<T>, key: T -> int) {
    forall i, j | 0 <= i < j < |s| :: key(s[i]) >= key(s[j])
  }

  /** Places x in front of the first element whose key is not larger than x's. */
  function Insert<T>(x: T, s: seq<T>, key: T -> int): seq<T>
    decreases |s|
  {
    if s == [] || key(x) >= key(s[0]) then [x] + s
    else [s[0]] + Insert(x, s[1..], key)
  }

  /** `[...s].sort((a, b) => key(b) - key(a))`. */
  function SortDescBy<T>(s: seq<T>, key: T -> int): seq<T>
    decreases |s|
  {
    if s == [] then [] else Insert(s[0], SortDescBy(s[1..], key), key)
  }

  /** Each element of Insert(x, s) is x or an element of s. */
  lemma {:induction false} InsertFrom<T>(x: T, s: seq<T>, key: T -> int, k: nat)
    requires k < |Insert(x, s, key)|
    ensures Insert(x, s, key)[k] == x || Insert(x, s, key)[k] in s
    decreases |s|
  {
    if s == [] || key(x) >= key(s[0]) {
      if k > 0 {
        assert Insert(x, s, key)[k] == s[k - 1];
      }
    } else if k > 0 {
      InsertFrom(x, s[1..], key, k - 1);
      assert Insert(x, s, key)[k] == Insert(x, s[1..], key)[k - 1];
    }
  }

  /** Insert adds x and keeps every element of s. */
  lemma {:induction false} InsertPermutes<T>(x: T, s: seq<T>, key: T -> int)
    ensures multiset(Insert(x, s, key)) == multiset{x} + multiset(s)
    ensures |Insert(x, s, key)| == |s| + 1
    decreases |s|
  {
    if s != [] && key(x) < key(s[0]) {
      InsertPermutes(x, s[1..], key);
      assert s == [s[0]] + s[1..];
    }
  }

  /** Insert into a newest-first sequence keeps it newest first. */
  lemma {:induction false} InsertSorted<T>(x: T, s: seq<T>, key: T -> int)
    requires SortedDesc(s, key)
    ensures SortedDesc(Insert(x, s, key), key)
    decreases |s|
  {
    if s == [] || key(x) >= key(s[0]) {
      var t := [x] + s;
      forall i, j | 0 <= i < j < |t| ensures key(t[i]) >= key(t[j]) {
        if i > 0 {
          assert t[i] == s[i - 1] && t[j] == s[j - 1];
        } else {
          assert t[j] == s[j - 1];
        }
      }
    } else {
      var rest := s[1..];
      InsertSorted(x, rest, key);
      var r := Insert(x, rest, key);
      // every element of r is x or comes from rest, so none is above s[0]
      forall k | 0 <= k < |r| ensures key(s[0]) >= key(r[k]) {
        InsertFrom(x, rest, key, k);
        if r[k] != x {
          var m :| 0 <= m < |rest| && rest[m] == r[k];
          assert s[m + 1] == r[k];
        }
      }
      var t := [s[0]] + r;
      assert Insert(x, s, key) == t;
      forall i, j | 0 <= i < j < |t| ensures key(t[i]) >= key(t[j]) {
        if i > 0 {
          assert t[i] == r[i - 1] && t[j] == r[j - 1];
        } else {
          assert t[j] == r[j - 1];
        }
      }
    }
  }

  /** The sorted view is ordered newest first and is a permutation of its input. */
  lemma {:induction false} SortDescByCorrect<T>(s: seq<T>, key: T -> int)
    ensures SortedDesc(SortDescBy(s, key), key)
    ensures multiset(SortDescBy(s, key)) == multiset(s)
    ensures |SortDescBy(s, key)| == |s|
    decreases |s|
  {
    if s != [] {
      SortDescByCorrect(s[1..], key);
      InsertSorted(s[0], SortDescBy(s[1..], key), key);
      InsertPermutes(s[0], SortDescBy(s[1..], key), key);
      assert s == [s[0]] + s[1..];
    }
  }

  /** The elements of s whose key is k, in order. */
  function WithKey<T>(s: seq<T>, key: T -> int, k: int): seq<T>
    decreases |s|
  {
    if s == [] then [] else (if key(s[0]) == k then [s[0]] else []) + WithKey(s[1..], key, k)
  }

  lemma {:induction false} InsertStable<T>(x: T, s: seq<T>, key: T -> int, k: int)
    ensures WithKey(Insert(x, s, key), key, k) == (if key(x) == k then [x] else []) + WithKey(s, key, k)
    decreases |s|
  {
    var X := if key(x) == k then [x] else [];
    if s == [] || key(x) >= key(s[0]) {
      var r := [x] + s;
      assert r[0] == x && r[1..] == s;
      assert WithKey(r, key, k) == X + WithKey(s, key, k);
    } else {
      var t := Insert(x, s[1..], key);
      InsertStable(x, s[1..], key, k);
      var r := [s[0]] + t;
      assert r[0] == s[0] && r[1..] == t;
      var A := if key(s[0]) == k then [s[0]] else [];
      assert WithKey(r, key, k) == A + WithKey(t, key, k);
      assert WithKey(s, key, k) == A + WithKey(s[1..], key, k);
      assert A == [] || X == [];
      assert A + (X + WithKey(s[1..], key, k)) == X + (A + WithKey(s[1..], key, k));
    }
  }

  /** Stability: restricted to one key value, the sorted view is the input, in order. */
  lemma {:induction false} SortDescByStable<T>(s: seq<T>, key: T -> int, k: int)
    ensures WithKey(SortDescBy(s, key), key, k) == WithKey(s, key, k)
    decreases |s|
  {
    if s != [] {
      SortDescByStable(s[1..], key, k);
      InsertStable(s[0], SortDescBy(s[1..], key), key, k);
    }
  }

  /** `sorted.length > 0 ? sorted[0] : null` after the descending sort. */
  function NewestBy<T>(s: seq<T>, key: T -> int): (r: Option<T>)
    ensures r.None? <==> s == []
    ensures r.Some? ==> r.value in s && forall i | 0 <= i < |s| :: key(s[i]) <= key(r.value)
  {
    SortDescByCorrect(s, key);
    var sorted := SortDescBy(s, key);
    if |sorted| > 0 then
      assert sorted[0] in multiset(s);
      forall i | 0 <= i < |s| ensures key(s[i]) <= key(sorted[0]) {
        assert s[i] in multiset(sorted);
        var m :| 0 <= m < |sorted| && sorted[m] == s[i];
      }
      Some(sorted[0])
    else None
  }
}
