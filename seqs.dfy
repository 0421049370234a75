/** Sequence helpers shared by the models: JavaScript's `Array.prototype.filter`,
    occurrence counts and the subsequence order. */
module Seqs {

  /** `s.filter(p)`: the elements satisfying p, in their original order. */
  function Filter<T>(s: seq<T>, p: T -> bool): (r: seq<T>)
    ensures |r| <= |s|
    ensures forall i | 0 <= i < |r| :: r[i] in s && p(r[i])
    ensures forall i | 0 <= i < |s| && p(s[i]) :: s[i] in r
    decreases |s|
  {
    if s == [] then []
    else (if p(s[0]) then [s[0]] else []) + Filter(s[1..], p)
  }

  /** t is obtained from s by deleting elements (order kept). */
  ghost predicate IsSubsequence<T>(t: seq<T>, s: seq<T>)
    decreases |s|
  {
    if t == [] then true
    else if s == [] then false
    else if t[0] == s[0] then IsSubsequence(t[1..], s[1..])
    else IsSubsequence(t, s[1..])
  }

  lemma {:induction false} FilterIsSubsequence<T>(s: seq<T>, p: T -> bool)
    ensures IsSubsequence(Filter(s, p), s)
    decreases |s|
  {
    if s != [] {
      FilterIsSubsequence(s[1..], p);
      if p(s[0]) {
        assert Filter(s, p) == [s[0]] + Filter(s[1..], p);
        assert Filter(s, p)[1..] == Filter(s[1..], p);
      } else {
        assert Filter(s, p) == Filter(s[1..], p);
        SubsequenceOfTail(Filter(s[1..], p), s);
      }
    }
  }

  lemma {:induction false} SubsequenceOfTail<T>(t: seq<T>, s: seq<T>)
    requires s != []
    requires IsSubsequence(t, s[1..])
    ensures IsSubsequence(t, s)
    decreases |s|, 0
  {
    if t != [] && t[0] == s[0] {
      // t[0] == s[0]: t[1..] is a subsequence of s[1..] because t is
      SubsequenceDropHead(t, s[1..]);
    }
  }

  lemma {:induction false} SubsequenceDropHead<T>(t: seq<T>, s: seq<T>)
    requires t != []
    requires IsSubsequence(t, s)
    ensures IsSubsequence(t[1..], s)
    decreases |s|, 1
  {
    if s == [] {
    } else if t[0] == s[0] {
      if t[1..] != [] {
        SubsequenceOfTail(t[1..], s);
      }
    } else {
      SubsequenceDropHead(t, s[1..]);
      if t[1..] != [] {
        SubsequenceOfTail(t[1..], s);
      }
    }
  }

  /** Filtering with a predicate that holds everywhere gives the whole sequence. */
  lemma {:induction false} FilterAll<T>(s: seq<T>, p: T -> bool)
    requires forall i | 0 <= i < |s| :: p(s[i])
    ensures Filter(s, p) == s
    decreases |s|
  {
    if s != [] {
      FilterAll(s[1..], p);
    }
  }

  lemma {:induction false} FilterAppend<T>(a: seq<T>, b: seq<T>, p: T -> bool)
    ensures Filter(a + b, p) == Filter(a, p) + Filter(b, p)
    decreases |a|
  {
    if a == [] {
      assert a + b == b;
    } else {
      assert (a + b)[1..] == a[1..] + b;
      FilterAppend(a[1..], b, p);
    }
  }

  /** Number of occurrences of x in s. */
  function Count<T(==)>(s: seq<T>, x: T): nat
    decreases |s|
  {
    if s == [] then 0 else (if s[0] == x then 1 else 0) + Count(s[1..], x)
  }

  /** The position of the first occurrence of x in s, or |s| when x does not occur. */
  function FirstIndex<T(==)>(s: seq<T>, x: T): (r: nat)
    ensures r <= |s|
    ensures r < |s| ==> s[r] == x
    ensures forall k | 0 <= k < r :: s[k] != x
    decreases |s|
  {
    if s == [] then 0 else if s[0] == x then 0 else 1 + FirstIndex(s[1..], x)
  }

  /** Filtering keeps every occurrence of a value it selects and none of one it drops. */
  lemma {:induction false} FilterKeepsCount<T>(s: seq<T>, p: T -> bool, x: T)
    ensures Count(Filter(s, p), x) == if p(x) then Count(s, x) else 0
    decreases |s|
  {
    if s != [] {
      var head := if p(s[0]) then [s[0]] else [];
      FilterKeepsCount(s[1..], p, x);
      CountAppend(head, Filter(s[1..], p), x);
      if p(s[0]) {
        assert head[1..] == [];
      }
    }
  }

  /** Every sequence is a subsequence of itself. */
  lemma {:induction false} SubsequenceRefl<T>(s: seq<T>)
    ensures IsSubsequence(s, s)
    decreases |s|
  {
    if s != [] {
      SubsequenceRefl(s[1..]);
    }
  }

  /** No value occurs twice. */
  ghost predicate NoDuplicates<T>(s: seq<T>) {
    forall i, j | 0 <= i < j < |s| :: s[i] != s[j]
  }

  lemma {:induction false} CountAppend<T>(a: seq<T>, b: seq<T>, x: T)
    ensures Count(a + b, x) == Count(a, x) + Count(b, x)
    decreases |a|
  {
    if a != [] {
      assert (a + b)[0] == a[0] && (a + b)[1..] == a[1..] + b;
      CountAppend(a[1..], b, x);
    } else {
      assert a + b == b;
    }
  }

  lemma {:induction false} CountPositive<T>(s: seq<T>, x: T)
    ensures x in s <==> Count(s, x) > 0
    decreases |s|
  {
    if s != [] {
      CountPositive(s[1..], x);
      assert x in s <==> x == s[0] || x in s[1..];
    }
  }

  /** Two positions of a subsequence of a duplicate-free sequence hold different values. */
  lemma {:induction false} SubsequenceNoDup<T>(t: seq<T>, s: seq<T>, i: int, j: int)
    requires IsSubsequence(t, s) && NoDuplicates(s)
    requires 0 <= i < j < |t|
    ensures t[i] != t[j]
    decreases |s|
  {
    if t[0] == s[0] {
      if i == 0 {
        assert t[j] == t[1..][j - 1];
        SubsequenceElement(t[1..], s[1..], j - 1);
        assert t[j] in s[1..];
      } else {
        SubsequenceNoDup(t[1..], s[1..], i - 1, j - 1);
      }
    } else {
      SubsequenceNoDup(t, s[1..], i, j);
    }
  }

  lemma {:induction false} SubsequenceElement<T>(t: seq<T>, s: seq<T>, k: int)
    requires IsSubsequence(t, s) && 0 <= k < |t|
    ensures t[k] in s
    decreases |s|
  {
    if t[0] == s[0] {
      if k > 0 {
        SubsequenceElement(t[1..], s[1..], k - 1);
      }
    } else {
      SubsequenceElement(t, s[1..], k);
    }
  }

  /** `s.filter(v => v !== x)`: every occurrence of x removed, the rest kept in order. */
  function RemoveAll<T(==,!new)>(s: seq<T>, x: T): (r: seq<T>)
    ensures x !in r
    ensures forall v | v != x :: Count(r, v) == Count(s, v)
    ensures IsSubsequence(r, s)
    decreases |s|
  {
    if s == [] then []
    else
      var tail := RemoveAll(s[1..], x);
      if s[0] != x then
        assert ([s[0]] + tail)[0] == s[0] && ([s[0]] + tail)[1..] == tail;
        [s[0]] + tail
      else
        SubsequenceOfTail(tail, s);
        tail
  }

  lemma {:induction false} RemoveAllAppend<T(!new)>(a: seq<T>, b: seq<T>, x: T)
    ensures RemoveAll(a + b, x) == RemoveAll(a, x) + RemoveAll(b, x)
    decreases |a|
  {
    if a == [] {
      assert a + b == b;
    } else {
      assert (a + b)[0] == a[0] && (a + b)[1..] == a[1..] + b;
      RemoveAllAppend(a[1..], b, x);
    }
  }
}
