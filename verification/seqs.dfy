/**
 * Order-preserving filtering of sequences (JavaScript's `Array.prototype.filter`
 * with a pure predicate), counting, and the subsequence relation that gives
 * filtering a definition independent of its recursion.
 */
module Seqs {

  /** `r` can be obtained from `s` by deleting elements, without reordering. */
  predicate IsSubsequence<T(==)>(r: seq<T>, s: seq<T>)
    decreases |s|
  {
    if |r| == 0 then true
    else if |s| == 0 then false
    else (r[0] == s[0] && IsSubsequence(r[1..], s[1..])) || IsSubsequence(r, s[1..])
  }

  /** The number of elements of `s` that satisfy `p`. */
  function Count<T>(s: seq<T>, p: T -> bool): (n: nat)
    ensures n <= |s|
  {
    if |s| == 0 then 0 else (if p(s[0]) then 1 else 0) + Count(s[1..], p)
  }

  /** The elements of `s` that satisfy `p`, in their original order. */
  function Filter<T(==)>(s: seq<T>, p: T -> bool): (r: seq<T>)
    ensures |r| <= |s|
    ensures forall i :: 0 <= i < |r| ==> r[i] in s && p(r[i])
    ensures forall i :: 0 <= i < |s| && p(s[i]) ==> s[i] in r
  {
    if |s| == 0 then []
    else if p(s[0]) then [s[0]] + Filter(s[1..], p)
    else Filter(s[1..], p)
  }

  lemma {:induction false} FilterLength<T>(s: seq<T>, p: T -> bool)
    ensures |Filter(s, p)| == Count(s, p)
  {
    if |s| > 0 {
      FilterLength(s[1..], p);
    }
  }

  /** Two complementary predicates split a sequence into two counts. */
  lemma {:induction false} CountSplit<T>(s: seq<T>, p: T -> bool, q: T -> bool)
    requires forall x :: q(x) == !p(x)
    ensures Count(s, p) + Count(s, q) == |s|
  {
    if |s| > 0 {
      CountSplit(s[1..], p, q);
    }
  }

  lemma {:induction false} FilterIsSubsequence<T>(s: seq<T>, p: T -> bool)
    ensures IsSubsequence(Filter(s, p), s)
  {
    if |s| > 0 {
      FilterIsSubsequence(s[1..], p);
      var r := Filter(s, p);
      if p(s[0]) {
        assert r[0] == s[0] && r[1..] == Filter(s[1..], p);
      }
    }
  }

  /** Filtering with a predicate every element satisfies changes nothing. */
  lemma {:induction false} FilterKeepsAll<T>(s: seq<T>, p: T -> bool)
    requires forall i :: 0 <= i < |s| ==> p(s[i])
    ensures Filter(s, p) == s
  {
    if |s| > 0 {
      FilterKeepsAll(s[1..], p);
      assert [s[0]] + s[1..] == s;
    }
  }

  /** A subsequence made of `p`-elements has at most `Count(s, p)` elements. */
  lemma {:induction false} SubsequenceBound<T>(r: seq<T>, s: seq<T>, p: T -> bool)
    requires IsSubsequence(r, s)
    requires forall i :: 0 <= i < |r| ==> p(r[i])
    ensures |r| <= Count(s, p)
    decreases |s|
  {
    if |r| > 0 {
      assert |s| > 0;
      if r[0] == s[0] && IsSubsequence(r[1..], s[1..]) {
        SubsequenceBound(r[1..], s[1..], p);
      } else {
        SubsequenceBound(r, s[1..], p);
      }
    }
  }

  /**
   * The only subsequence of `s` made of `p`-elements that is as long as the
   * number of `p`-elements in `s` is `Filter(s, p)`.
   */
  lemma {:induction false} FilterUnique<T>(r: seq<T>, s: seq<T>, p: T -> bool)
    requires IsSubsequence(r, s)
    requires forall i :: 0 <= i < |r| ==> p(r[i])
    requires |r| == Count(s, p)
    ensures r == Filter(s, p)
    decreases |s|
  {
    if |s| == 0 {
    } else if |r| == 0 {
      FilterLength(s, p);
    } else if p(s[0]) {
      if r[0] == s[0] && IsSubsequence(r[1..], s[1..]) {
        FilterUnique(r[1..], s[1..], p);
        assert r == [r[0]] + r[1..];
      } else {
        SubsequenceBound(r, s[1..], p);
      }
    } else {
      assert !(r[0] == s[0]);
      FilterUnique(r, s[1..], p);
    }
  }

  /**
   * `Filter` is exactly the order-preserving subsequence of the elements
   * satisfying `p`: both directions.
   */
  lemma FilterCharacterization<T>(s: seq<T>, p: T -> bool, r: seq<T>)
    ensures r == Filter(s, p) <==>
      && IsSubsequence(r, s)
      && (forall i :: 0 <= i < |r| ==> p(r[i]))
      && |r| == Count(s, p)
  {
    FilterIsSubsequence(s, p);
    FilterLength(s, p);
    if IsSubsequence(r, s) && (forall i :: 0 <= i < |r| ==> p(r[i])) && |r| == Count(s, p) {
      FilterUnique(r, s, p);
    }
  }

  /** Every element of a subsequence occurs in the sequence. */
  lemma {:induction false} SubsequenceMembers<T>(r: seq<T>, s: seq<T>)
    requires IsSubsequence(r, s)
    ensures forall j :: 0 <= j < |r| ==> exists k :: 0 <= k < |s| && s[k] == r[j]
    decreases |s|
  {
    if |r| > 0 {
      if r[0] == s[0] && IsSubsequence(r[1..], s[1..]) {
        SubsequenceMembers(r[1..], s[1..]);
        forall j | 0 < j < |r|
          ensures exists k :: 0 <= k < |s| && s[k] == r[j]
        {
          var k :| 0 <= k < |s[1..]| && s[1..][k] == r[1..][j - 1];
          assert s[k + 1] == r[j];
        }
      } else {
        SubsequenceMembers(r, s[1..]);
        forall j | 0 <= j < |r|
          ensures exists k :: 0 <= k < |s| && s[k] == r[j]
        {
          var k :| 0 <= k < |s[1..]| && s[1..][k] == r[j];
          assert s[k + 1] == r[j];
        }
      }
    }
  }

  lemma {:induction false} SubsequenceReflexive<T>(s: seq<T>)
    ensures IsSubsequence(s, s)
  {
    if |s| > 0 {
      SubsequenceReflexive(s[1..]);
    }
  }
}
