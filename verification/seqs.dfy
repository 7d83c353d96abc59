/** Generic sequence operations shared by the recommender's table steps:
    order-preserving selection, stable sorting by a real key, and
    keep-first de-duplication by a key. */
module Seqs {

  /** `a` occurs in `b` in the same order, possibly with gaps. */
  predicate IsSubseq<T(==)>(a: seq<T>, b: seq<T>)
    decreases |b|
  {
    if a == [] then true
    else if b == [] then false
    else (a[0] == b[0] && IsSubseq(a[1..], b[1..])) || IsSubseq(a, b[1..])
  }

  /** No element occurs twice. */
  predicate Distinct<T(==)>(s: seq<T>)
  {
    forall i, j :: 0 <= i < j < |s| ==> s[i] != s[j]
  }

  /** No two elements share a key. */
  predicate DistinctBy<T, K(==)>(s: seq<T>, key: T -> K)
  {
    forall i, j :: 0 <= i < j < |s| ==> key(s[i]) != key(s[j])
  }

  /** The keys of the elements of `s`. */
  function Keys<T, K>(s: seq<T>, key: T -> K): set<K>
  {
    if s == [] then {} else {key(s[0])} + Keys(s[1..], key)
  }

  /** `x` is the first element of `s` with its key. */
  predicate IsFirstWithKey<T(==), K(==)>(s: seq<T>, key: T -> K, x: T)
  {
    |s| > 0 && if key(s[0]) == key(x) then s[0] == x else IsFirstWithKey(s[1..], key, x)
  }

  /** Ascending by `key` (ties allowed). */
  predicate SortedBy<T>(s: seq<T>, key: T -> real)
  {
    forall i, j :: 0 <= i < j < |s| ==> key(s[i]) <= key(s[j])
  }

  /** The indices 0, 1, ..., n-1 in order. */
  function Range(n: nat): (r: seq<nat>)
    ensures |r| == n
    ensures forall i :: 0 <= i < n ==> r[i] == i
  {
    seq(n, i requires 0 <= i < n => i)
  }

  /** The elements of `s` that satisfy `p`, in their original order; a row
      filter of a table. */
  function Filter<T(==,!new)>(s: seq<T>, p: T -> bool): (r: seq<T>)
    ensures |r| <= |s|
    ensures IsSubseq(r, s)
    ensures forall x :: x in r <==> x in s && p(x)
    ensures forall x :: multiset(r)[x] == if p(x) then multiset(s)[x] else 0
  {
    if s == [] then []
    else
      var rest := Filter(s[1..], p);
      assert s == [s[0]] + s[1..];
      if p(s[0]) then [s[0]] + rest else rest
  }

  /** Places `x` into the sorted `s` before the first element whose key is not
      smaller, so that `x` precedes the elements it ties with. */
  function InsertBy<T(==)>(x: T, s: seq<T>, key: T -> real): (r: seq<T>)
    requires SortedBy(s, key)
    ensures |r| == |s| + 1
    ensures SortedBy(r, key)
    ensures multiset(r) == multiset(s) + multiset{x}
  {
    if s == [] || key(x) <= key(s[0]) then [x] + s
    else
      var t := InsertBy(x, s[1..], key);
      assert s == [s[0]] + s[1..];
      InsertedStaysAbove(s[0], x, s[1..], t, key);
      [s[0]] + t
  }

  lemma InsertedStaysAbove<T>(lo: T, x: T, s: seq<T>, t: seq<T>, key: T -> real)
    requires key(lo) <= key(x)
    requires forall k :: 0 <= k < |s| ==> key(lo) <= key(s[k])
    requires multiset(t) == multiset(s) + multiset{x}
    ensures forall k :: 0 <= k < |t| ==> key(lo) <= key(t[k])
  {
    forall k | 0 <= k < |t|
      ensures key(lo) <= key(t[k])
    {
      assert t[k] in multiset(t);
      if t[k] != x {
        assert t[k] in multiset(s);
      }
    }
  }

  /** Stable insertion sort, ascending by `key`: the result is a permutation
      of `s` and elements with equal keys keep their relative order. */
  function SortBy<T(==)>(s: seq<T>, key: T -> real): (r: seq<T>)
    ensures |r| == |s|
    ensures SortedBy(r, key)
    ensures multiset(r) == multiset(s)
  {
    if s == [] then []
    else
      assert s == [s[0]] + s[1..];
      InsertBy(s[0], SortBy(s[1..], key), key)
  }

  /** Keep-first de-duplication by `key`, skipping keys already in `seen`. */
  function DedupBy<T(==), K(==)>(s: seq<T>, key: T -> K, seen: set<K>): (r: seq<T>)
    ensures IsSubseq(r, s)
    ensures DistinctBy(r, key)
    ensures Keys(r, key) == Keys(s, key) - seen
    ensures forall k :: 0 <= k < |r| ==> key(r[k]) !in seen && IsFirstWithKey(s, key, r[k])
  {
    if s == [] then []
    else if key(s[0]) in seen then DedupBy(s[1..], key, seen)
    else
      var t := DedupBy(s[1..], key, seen + {key(s[0])});
      assert forall k :: 0 < k < |t| + 1 ==> ([s[0]] + t)[k] == t[k - 1];
      [s[0]] + t
  }

  /** `Keys` collects exactly the keys of the elements. */
  lemma {:induction false} KeysMembership<T, K>(s: seq<T>, key: T -> K)
    ensures forall x :: x in s ==> key(x) in Keys(s, key)
    ensures forall kk :: kk in Keys(s, key) ==> exists x :: x in s && key(x) == kk
  {
    if s != [] {
      KeysMembership(s[1..], key);
      assert s == [s[0]] + s[1..];
    }
  }

  /** The first element with a given key has the least score among the
      elements with that key, when the sequence is sorted by that score. */
  lemma {:induction false} FirstIsLeast<T, K>(s: seq<T>, key: T -> K, score: T -> real, x: T, i: int)
    requires IsFirstWithKey(s, key, x)
    requires SortedBy(s, score)
    requires 0 <= i < |s| && key(s[i]) == key(x)
    ensures score(x) <= score(s[i])
  {
    if key(s[0]) != key(x) {
      assert i != 0;
      FirstIsLeast(s[1..], key, score, x, i - 1);
    }
  }

  /** The first element with a given key is an element of the sequence. */
  lemma {:induction false} FirstIsMember<T, K>(s: seq<T>, key: T -> K, x: T)
    requires IsFirstWithKey(s, key, x)
    ensures x in s
  {
    if key(s[0]) != key(x) {
      FirstIsMember(s[1..], key, x);
    }
  }

  /** Every element of a subsequence is an element of the whole. */
  lemma {:induction false} SubseqMembers<T>(a: seq<T>, b: seq<T>)
    requires IsSubseq(a, b)
    ensures forall x :: x in a ==> x in b
    decreases |b|
  {
    if a != [] && b != [] {
      if a[0] == b[0] && IsSubseq(a[1..], b[1..]) {
        SubseqMembers(a[1..], b[1..]);
        assert a == [a[0]] + a[1..];
      } else {
        SubseqMembers(a, b[1..]);
      }
      assert b == [b[0]] + b[1..];
    }
  }

  /** A subsequence of a sorted sequence is sorted. */
  lemma {:induction false} SubseqSorted<T>(a: seq<T>, b: seq<T>, key: T -> real)
    requires IsSubseq(a, b)
    requires SortedBy(b, key)
    ensures SortedBy(a, key)
    decreases |b|
  {
    if a != [] && b != [] {
      if a[0] == b[0] && IsSubseq(a[1..], b[1..]) {
        SubseqSorted(a[1..], b[1..], key);
        SubseqMembers(a[1..], b[1..]);
        forall j | 0 < j < |a|
          ensures key(a[0]) <= key(a[j])
        {
          assert a[1..][j - 1] == a[j];
          assert a[j] in a[1..];
          var m :| 0 <= m < |b[1..]| && b[1..][m] == a[j];
          assert b[m + 1] == a[j];
        }
        forall i, j | 0 <= i < j < |a|
          ensures key(a[i]) <= key(a[j])
        {
          if i > 0 {
            assert a[1..][i - 1] == a[i] && a[1..][j - 1] == a[j];
          }
        }
      } else {
        SubseqSorted(a, b[1..], key);
      }
    }
  }

  /** Number of occurrences of `x` in `s`, as a multiset count. */
  lemma CountOfDistinct<T>(s: seq<T>, x: T)
    requires Distinct(s)
    ensures multiset(s)[x] <= 1
    decreases |s|
  {
    if s != [] {
      assert s == [s[0]] + s[1..];
      CountOfDistinct(s[1..], x);
      if s[0] == x {
        assert x !in s[1..];
      }
    }
  }

  /** A permutation of a sequence without repeats has no repeats either. */
  lemma {:induction false} PermutationKeepsDistinct<T>(a: seq<T>, b: seq<T>)
    requires multiset(a) == multiset(b)
    requires Distinct(b)
    ensures Distinct(a)
  {
    forall i, j | 0 <= i < j < |a|
      ensures a[i] != a[j]
    {
      if a[i] == a[j] {
        assert a == a[..j] + a[j..];
        assert a[i] in a[..j];
        assert a[j] == a[j..][0];
        assert multiset(a[..j])[a[i]] >= 1;
        assert multiset(a[j..])[a[i]] >= 1;
        assert multiset(a)[a[i]] >= 2;
        CountOfDistinct(b, a[i]);
        assert false;
      }
    }
  }

  /** A subsequence is no longer than the whole. */
  lemma {:induction false} SubseqLength<T>(a: seq<T>, b: seq<T>)
    requires IsSubseq(a, b)
    ensures |a| <= |b|
    decreases |b|
  {
    if a != [] && b != [] {
      if a[0] == b[0] && IsSubseq(a[1..], b[1..]) {
        SubseqLength(a[1..], b[1..]);
      } else {
        SubseqLength(a, b[1..]);
      }
    }
  }

  /** A subsequence of a sequence without repeats has no repeats. */
  lemma {:induction false} SubseqDistinct<T>(a: seq<T>, b: seq<T>)
    requires IsSubseq(a, b)
    requires Distinct(b)
    ensures Distinct(a)
    decreases |b|
  {
    if a != [] && b != [] {
      if a[0] == b[0] && IsSubseq(a[1..], b[1..]) {
        SubseqDistinct(a[1..], b[1..]);
        SubseqMembers(a[1..], b[1..]);
        forall j | 0 < j < |a|
          ensures a[0] != a[j]
        {
          assert a[j] in a[1..];
          assert a[j] in b[1..];
          assert b[0] !in b[1..];
        }
        forall i, j | 0 <= i < j < |a|
          ensures a[i] != a[j]
        {
          if i > 0 {
            assert a[1..][i - 1] == a[i] && a[1..][j - 1] == a[j];
          }
        }
      } else {
        SubseqDistinct(a, b[1..]);
      }
    }
  }

  /** Matching the head of `b` extends a subsequence of the rest of `b`. */
  lemma SubseqCons<T>(x: T, a: seq<T>, b: seq<T>)
    requires b != [] && b[0] == x
    requires IsSubseq(a, b[1..])
    ensures IsSubseq([x] + a, b)
  {
    assert ([x] + a)[1..] == a;
  }

  /** Skipping the head of `b` keeps a subsequence of the rest one of `b`. */
  lemma SubseqSkip<T>(a: seq<T>, b: seq<T>)
    requires b != []
    requires IsSubseq(a, b[1..])
    ensures IsSubseq(a, b)
  {
  }

  /** The blocks joined end to end, in order: an element is in the result
      exactly when it is in one of the blocks. */
  function Flatten<T>(blocks: seq<seq<T>>): (r: seq<T>)
    ensures forall i, x :: 0 <= i < |blocks| && x in blocks[i] ==> x in r
    ensures forall x :: x in r ==> exists i :: 0 <= i < |blocks| && x in blocks[i]
  {
    if blocks == [] then []
    else
      var rest := Flatten(blocks[1..]);
      assert forall i :: 1 <= i < |blocks| ==> blocks[1..][i - 1] == blocks[i];
      blocks[0] + rest
  }

  /** Blocks of between `lo` and `hi` elements each join into between
      `|blocks| * lo` and `|blocks| * hi` elements. */
  lemma {:induction false} FlattenLength<T>(blocks: seq<seq<T>>, lo: int, hi: int)
    requires forall i :: 0 <= i < |blocks| ==> lo <= |blocks[i]| <= hi
    ensures |blocks| * lo <= |Flatten(blocks)| <= |blocks| * hi
  {
    if blocks != [] {
      var n := |blocks|;
      assert forall i :: 0 <= i < n - 1 ==> blocks[1..][i] == blocks[i + 1];
      FlattenLength(blocks[1..], lo, hi);
      assert n * lo == lo + (n - 1) * lo;
      assert n * hi == hi + (n - 1) * hi;
    }
  }
}
