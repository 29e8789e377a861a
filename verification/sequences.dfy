/** Sequence algorithms shared by the pipeline: filtering that keeps order,
    pandas' `drop_duplicates(keep="first")`, and the stable sort Python's
    `sorted(..., reverse=True)` performs. */
module Sequences {
  import opened Common

  // ---------------------------------------------------------------------------
  // Order-preserving selection

  /** `a` can be obtained from `b` by deleting elements. */
  predicate IsSubseq<T(==)>(a: seq<T>, b: seq<T>)
    decreases |b|
  {
    |a| == 0 || (|b| > 0 && if a[0] == b[0] then IsSubseq(a[1..], b[1..]) else IsSubseq(a, b[1..]))
  }

  lemma {:induction false} IsSubseqRefl<T>(a: seq<T>)
    ensures IsSubseq(a, a)
    decreases |a|
  {
    if |a| > 0 {
      IsSubseqRefl(a[1..]);
    }
  }

  /** Dropping the first kept element keeps a subsequence. */
  lemma {:induction false} SubseqDropHead<T>(a: seq<T>, b: seq<T>)
    requires |a| > 0 && IsSubseq(a, b)
    ensures IsSubseq(a[1..], b)
    decreases |b|, 1
  {
    if |a| > 1 {
      if a[0] == b[0] {
        if a[1] == b[0] {
          SubseqDropHead(a[1..], b[1..]);
        }
      } else {
        SubseqDropHead(a, b[1..]);
        SubseqSkip(a[1..], b);
      }
    }
  }

  /** A subsequence of a tail is a subsequence of the whole. */
  lemma {:induction false} SubseqSkip<T>(a: seq<T>, b: seq<T>)
    requires |b| > 0 && IsSubseq(a, b[1..])
    ensures IsSubseq(a, b)
    decreases |b|, 0
  {
    if |a| > 0 && a[0] == b[0] {
      SubseqDropHead(a, b[1..]);
    }
  }

  lemma {:induction false} SubseqTrans<T>(a: seq<T>, b: seq<T>, c: seq<T>)
    requires IsSubseq(a, b) && IsSubseq(b, c)
    ensures IsSubseq(a, c)
    decreases |c|
  {
    if |a| > 0 && |c| > 0 {
      if b[0] == c[0] {
        if a[0] == b[0] {
          SubseqTrans(a[1..], b[1..], c[1..]);
        } else {
          SubseqTrans(a, b[1..], c[1..]);
        }
      } else {
        SubseqTrans(a, b, c[1..]);
        SubseqSkip(a, c);
      }
    }
  }

  lemma {:induction false} SubseqLength<T>(a: seq<T>, b: seq<T>)
    requires IsSubseq(a, b)
    ensures |a| <= |b|
    decreases |b|
  {
    if |a| > 0 {
      if a[0] == b[0] {
        SubseqLength(a[1..], b[1..]);
      } else {
        SubseqLength(a, b[1..]);
      }
    }
  }

  /** Every element of a subsequence occurs in the original. */
  lemma {:induction false} SubseqElems<T>(a: seq<T>, b: seq<T>)
    requires IsSubseq(a, b)
    ensures forall x :: x in a ==> x in b
    decreases |b|
  {
    if |a| > 0 {
      if a[0] == b[0] {
        SubseqElems(a[1..], b[1..]);
        assert forall x :: x in a ==> x == a[0] || x in a[1..];
      } else {
        SubseqElems(a, b[1..]);
      }
    }
  }

  /** A contiguous slice is a subsequence. */
  lemma {:induction false} InfixSubseq<T>(s: seq<T>, k: nat, n: nat)
    requires k + n <= |s|
    ensures IsSubseq(s[k..k + n], s)
    decreases |s|
  {
    if n > 0 {
      if k == 0 {
        InfixSubseq(s[1..], 0, n - 1);
        assert s[1..][0..n - 1] == s[0..n][1..];
      } else {
        InfixSubseq(s[1..], k - 1, n);
        assert s[1..][k - 1..k - 1 + n] == s[k..k + n];
        SubseqSkip(s[k..k + n], s);
      }
    }
  }

  /** The elements satisfying `keep`, in their original order (a boolean
      mask applied to a frame). */
  function Filter<T>(s: seq<T>, keep: T -> bool): (r: seq<T>)
    ensures |r| <= |s|
    ensures forall x :: x in r ==> x in s && keep(x)
    ensures forall x :: x in s && keep(x) ==> x in r
    ensures IsSubseq(r, s)
    decreases |s|
  {
    if |s| == 0 then []
    else if keep(s[0]) then [s[0]] + Filter(s[1..], keep)
    else Filter(s[1..], keep)
  }

  /** The rows a mask selects and the rows its negation selects together
      make up the input, with multiplicity. */
  lemma {:induction false} FilterPartition<T>(s: seq<T>, keep: T -> bool)
    ensures multiset(Filter(s, keep)) + multiset(Filter(s, x => !keep(x))) == multiset(s)
    decreases |s|
  {
    if |s| > 0 {
      FilterPartition(s[1..], keep);
      assert s == [s[0]] + s[1..];
    }
  }

  /** Filtering keeps everything exactly when every element passes. */
  lemma {:induction false} FilterAll<T>(s: seq<T>, keep: T -> bool)
    requires forall x :: x in s ==> keep(x)
    ensures Filter(s, keep) == s
    decreases |s|
  {
    if |s| > 0 {
      FilterAll(s[1..], keep);
      assert s == [s[0]] + s[1..];
    }
  }

  // ---------------------------------------------------------------------------
  // drop_duplicates(keep="first")

  /** Every element passed through `f`. */
  function Map<T, U>(s: seq<T>, f: T -> U): (r: seq<U>)
    ensures |r| == |s| && forall i :: 0 <= i < |s| ==> r[i] == f(s[i])
  {
    seq(|s|, i requires 0 <= i < |s| => f(s[i]))
  }

  /** Filtering after a map that the filter cannot see through is mapping
      after filtering. */
  lemma {:induction false} FilterMap<T, U>(s: seq<T>, f: T -> U, keep: U -> bool, keepBefore: T -> bool)
    requires forall x :: keep(f(x)) == keepBefore(x)
    ensures Filter(Map(s, f), keep) == Map(Filter(s, keepBefore), f)
    decreases |s|
  {
    if |s| > 0 {
      FilterMap(s[1..], f, keep, keepBefore);
      assert Map(s, f)[1..] == Map(s[1..], f);
      assert keep(f(s[0])) == keepBefore(s[0]);
    }
  }

  /** Position of the first occurrence of `x`. */
  function FirstIndex<T(==)>(s: seq<T>, x: T): (i: nat)
    requires x in s
    ensures i < |s| && s[i] == x
    ensures forall j :: 0 <= j < i ==> s[j] != x
  {
    if s[0] == x then 0 else 1 + FirstIndex(s[1..], x)
  }

  lemma {:induction false} FirstIndexPrefix<T>(s: seq<T>, n: nat, x: T)
    requires n <= |s| && x in s[..n]
    ensures FirstIndex(s, x) == FirstIndex(s[..n], x)
  {
    var i := FirstIndex(s[..n], x);
    var k := FirstIndex(s, x);
    assert s[i] == x;
    assert k <= i;
    assert s[..n][k] == x;
  }

  /** Every distinct element once, at the position of its first occurrence. */
  function Distinct<T(==)>(s: seq<T>): (r: seq<T>)
    ensures NoDup(r)
    ensures Elems(r) == Elems(s)
    decreases |s|
  {
    if |s| == 0 then []
    else
      var init := s[..|s| - 1];
      var x := s[|s| - 1];
      assert Elems(s) == Elems(init) + {x} by {
        assert s == init + [x];
      }
      var d := Distinct(init);
      if x in d then d else d + [x]
  }

  /** The survivors keep the order of their first occurrences, which is what
      distinguishes keep-first from any other choice of representatives. */
  lemma {:induction false} DistinctKeepsFirst<T>(s: seq<T>)
    ensures forall i, j :: 0 <= i < j < |Distinct(s)| ==>
      Distinct(s)[i] in s && Distinct(s)[j] in s && FirstIndex(s, Distinct(s)[i]) < FirstIndex(s, Distinct(s)[j])
    decreases |s|
  {
    if |s| > 0 {
      var init := s[..|s| - 1];
      var x := s[|s| - 1];
      var d := Distinct(init);
      DistinctKeepsFirst(init);
      FirstIndicesPreserved(s, d);
      var r := Distinct(s);
      if x in d {
        assert r == d;
        forall i, j | 0 <= i < j < |r|
          ensures r[i] in s && r[j] in s && FirstIndex(s, r[i]) < FirstIndex(s, r[j])
        {
          assert FirstIndex(init, d[i]) < FirstIndex(init, d[j]);
        }
      } else {
        assert r == d + [x];
        assert x !in Elems(init);
        assert FirstIndex(s, x) == |s| - 1;
        forall i, j | 0 <= i < j < |r|
          ensures r[i] in s && r[j] in s && FirstIndex(s, r[i]) < FirstIndex(s, r[j])
        {
          if j < |d| {
            assert r[i] == d[i] && r[j] == d[j];
            assert FirstIndex(init, d[i]) < FirstIndex(init, d[j]);
          } else {
            assert r[i] == d[i];
          }
        }
      }
    } else {
      assert Distinct(s) == [];
    }
  }

  lemma FirstIndicesPreserved<T>(s: seq<T>, d: seq<T>)
    requires |s| > 0 && Elems(d) == Elems(s[..|s| - 1])
    ensures forall i :: 0 <= i < |d| ==> d[i] in s[..|s| - 1] && d[i] in s && FirstIndex(s, d[i]) == FirstIndex(s[..|s| - 1], d[i]) < |s| - 1
  {
    forall i | 0 <= i < |d|
      ensures d[i] in s[..|s| - 1] && d[i] in s && FirstIndex(s, d[i]) == FirstIndex(s[..|s| - 1], d[i]) < |s| - 1
    {
      assert d[i] in Elems(d);
      FirstIndexPrefix(s, |s| - 1, d[i]);
    }
  }

  /** A duplicate-free sequence has as many elements as distinct values. */
  lemma {:induction false} NoDupCard<T>(s: seq<T>)
    requires NoDup(s)
    ensures |Elems(s)| == |s|
    decreases |s|
  {
    if |s| > 0 {
      var init := s[..|s| - 1];
      NoDupCard(init);
      assert s == init + [s[|s| - 1]];
      assert s[|s| - 1] !in init;
      assert Elems(s) == Elems(init) + {s[|s| - 1]};
    }
  }

  /** There are never more distinct values than elements. */
  lemma {:induction false} ElemsCard<T>(s: seq<T>)
    ensures |Elems(s)| <= |s|
    decreases |s|
  {
    if |s| > 0 {
      var init := s[..|s| - 1];
      ElemsCard(init);
      assert s == init + [s[|s| - 1]];
      assert Elems(s) == Elems(init) + {s[|s| - 1]};
    }
  }

  /** Deduplication keeps exactly one row per distinct value. */
  lemma DistinctCount<T>(s: seq<T>)
    ensures |Distinct(s)| == |Elems(s)| <= |s|
  {
    NoDupCard(Distinct(s));
    ElemsCard(s);
  }

  /** Permuting a sequence does not change its set of values. */
  lemma PermutationElems<T>(a: seq<T>, b: seq<T>)
    requires multiset(a) == multiset(b)
    ensures Elems(a) == Elems(b)
  {
    forall x ensures x in a <==> x in b {
      assert x in a <==> x in multiset(a);
      assert x in b <==> x in multiset(b);
    }
  }

  // ---------------------------------------------------------------------------
  // Stable sorting

  /** `before(a, b)`: `a` may be placed ahead of `b`. */
  ghost predicate TotalPreorder<T(!new)>(before: (T, T) -> bool) {
    (forall a, b :: before(a, b) || before(b, a))
    && (forall a, b, c :: before(a, b) && before(b, c) ==> before(a, c))
  }

  predicate Ordered<T>(s: seq<T>, before: (T, T) -> bool) {
    forall i, j :: 0 <= i < j < |s| ==> before(s[i], s[j])
  }

  /** Places `x` after every element that may precede it. */
  function Insert<T>(x: T, s: seq<T>, before: (T, T) -> bool): (r: seq<T>)
    ensures multiset(r) == multiset(s) + multiset{x}
    decreases |s|
  {
    if |s| == 0 then [x]
    else if before(s[0], x) then
      assert s == [s[0]] + s[1..];
      [s[0]] + Insert(x, s[1..], before)
    else [x] + s
  }

  /** Stable insertion sort: later elements go after earlier equivalent ones,
      as with Python's `list.sort(key=..., reverse=True)`. */
  function SortBy<T>(s: seq<T>, before: (T, T) -> bool): (r: seq<T>)
    ensures multiset(r) == multiset(s)
    decreases |s|
  {
    if |s| == 0 then []
    else
      assert s == s[..|s| - 1] + [s[|s| - 1]];
      Insert(s[|s| - 1], SortBy(s[..|s| - 1], before), before)
  }

  lemma {:induction false} InsertOrdered<T(!new)>(x: T, s: seq<T>, before: (T, T) -> bool)
    requires TotalPreorder(before) && Ordered(s, before)
    ensures Ordered(Insert(x, s, before), before)
    decreases |s|
  {
    if |s| > 0 && before(s[0], x) {
      InsertOrdered(x, s[1..], before);
      var r := Insert(x, s, before);
      var t := Insert(x, s[1..], before);
      forall j | 1 <= j < |r| ensures before(r[0], r[j]) {
        assert r[j] in multiset(t);
        assert r[j] == x || r[j] in multiset(s[1..]);
        if r[j] != x {
          var k :| 0 <= k < |s[1..]| && s[1..][k] == r[j];
          assert s[1 + k] == r[j];
        }
      }
    } else if |s| > 0 {
      var r := Insert(x, s, before);
      forall i, j | 0 <= i < j < |r| ensures before(r[i], r[j]) {
        if i == 0 {
          assert before(x, s[0]);
          assert r[j] == s[j - 1];
        }
      }
    }
  }

  /** The sort's output is ordered. */
  lemma {:induction false} SortOrdered<T(!new)>(s: seq<T>, before: (T, T) -> bool)
    requires TotalPreorder(before)
    ensures Ordered(SortBy(s, before), before)
    decreases |s|
  {
    if |s| > 0 {
      SortOrdered(s[..|s| - 1], before);
      InsertOrdered(s[|s| - 1], SortBy(s[..|s| - 1], before), before);
    }
  }

  /** Cutting an ordered sequence anywhere leaves every element of the front
      before every element of the back. */
  lemma SplitOrdered<T>(s: seq<T>, k: nat, before: (T, T) -> bool)
    requires Ordered(s, before) && k <= |s|
    ensures forall i, j :: 0 <= i < |s[..k]| && 0 <= j < |s[k..]| ==> before(s[..k][i], s[k..][j])
  {
    forall i, j | 0 <= i < |s[..k]| && 0 <= j < |s[k..]| ensures before(s[..k][i], s[k..][j]) {
      assert s[..k][i] == s[i] && s[k..][j] == s[k + j];
    }
  }

  /** Inserting an element every element may precede appends it. */
  lemma {:induction false} InsertLast<T>(x: T, s: seq<T>, before: (T, T) -> bool)
    requires forall i :: 0 <= i < |s| ==> before(s[i], x)
    ensures Insert(x, s, before) == s + [x]
    decreases |s|
  {
    if |s| > 0 {
      InsertLast(x, s[1..], before);
    }
  }

  /** Sorting an ordered sequence leaves it as it is (the sort is stable). */
  lemma {:induction false} SortFixed<T>(s: seq<T>, before: (T, T) -> bool)
    requires Ordered(s, before)
    ensures SortBy(s, before) == s
    decreases |s|
  {
    if |s| > 0 {
      var init := s[..|s| - 1];
      SortFixed(init, before);
      InsertLast(s[|s| - 1], init, before);
    }
  }

  /** `key=len, reverse=True`: longer strings go first. */
  function LongerFirst(): (string, string) -> bool {
    (a: string, b: string) => |a| >= |b|
  }

  lemma LongerFirstPreorder()
    ensures TotalPreorder(LongerFirst())
  {
  }
}
