/**
 * `accumulate`: the per-repository batches are concatenated in arrival
 * order and the result sorted by line-match count, then by URI path.
 */
module Aggregate {
  import opened SearchTypes
  import opened Ordering
  import opened Sorting

  /**
   * The batches concatenated in arrival order. No batches give no matches
   * and a single batch gives itself; with `FlattenAppend` this fixes the
   * concatenation of any batch sequence.
   */
  function Flatten(batches: seq<seq<RepoMatch>>): (r: seq<RepoMatch>)
    ensures |batches| == 0 ==> r == []
    ensures |batches| == 1 ==> r == batches[0]
    decreases |batches|
  {
    if |batches| == 0 then [] else batches[0] + Flatten(batches[1..])
  }

  lemma {:induction false} FlattenAppend(a: seq<seq<RepoMatch>>, b: seq<seq<RepoMatch>>)
    ensures Flatten(a + b) == Flatten(a) + Flatten(b)
    decreases |a|
  {
    if |a| > 0 {
      assert (a + b)[1..] == a[1..] + b;
      FlattenAppend(a[1..], b);
      assert Flatten(a + b) == a[0] + Flatten(a[1..] + b);
    } else {
      assert a + b == b;
    }
  }

  /** A batch in front of the others comes first in the concatenation. */
  lemma FlattenCons(x: seq<RepoMatch>, rest: seq<seq<RepoMatch>>)
    ensures Flatten([x] + rest) == x + Flatten(rest)
  {
    assert ([x] + rest)[1..] == rest;
  }

  /** Batch `k` sits between the batches before it and those after it. */
  lemma FlattenAround(b: seq<seq<RepoMatch>>, k: nat)
    requires k < |b|
    ensures Flatten(b) == Flatten(b[..k]) + (b[k] + Flatten(b[k + 1..]))
  {
    var pre, x, post := b[..k], b[k], b[k + 1..];
    SplitAt(b, k);
    FlattenAppend(pre, [x] + post);
    FlattenCons(x, post);
  }

  lemma SplitAt<T>(s: seq<T>, k: nat)
    requires k < |s|
    ensures s == s[..k] + ([s[k]] + s[k + 1..])
  {
  }

  /** The concatenation holds batch `k`'s matches plus those of the other batches. */
  lemma FlattenWithout(b: seq<seq<RepoMatch>>, k: nat)
    requires k < |b|
    ensures multiset(Flatten(b)) == multiset(Flatten(b[..k] + b[k + 1..])) + multiset(b[k])
  {
    FlattenAround(b, k);
    FlattenAppend(b[..k], b[k + 1..]);
    MultisetMiddle(Flatten(b[..k]), b[k], Flatten(b[k + 1..]));
  }

  lemma MultisetMiddle<T>(p: seq<T>, x: seq<T>, q: seq<T>)
    ensures multiset(p + (x + q)) == multiset(p + q) + multiset(x)
  {
  }

  /** Every match of every batch is in the concatenation, and nothing else is. */
  lemma {:induction false} FlattenContents(batches: seq<seq<RepoMatch>>, x: RepoMatch)
    ensures x in Flatten(batches) <==> exists i :: 0 <= i < |batches| && x in batches[i]
    decreases |batches|
  {
    if |batches| > 0 {
      FlattenContents(batches[1..], x);
      if x in batches[0] {
        assert 0 < |batches| && x in batches[0];
      }
      if exists i :: 1 <= i < |batches| && x in batches[i] {
        var i :| 1 <= i < |batches| && x in batches[i];
        assert x in batches[1..][i - 1];
      }
    }
  }

  /**
   * The concatenated contents do not depend on the order in which the
   * batches arrived.
   */
  lemma {:induction false} FlattenArrivalOrder(b1: seq<seq<RepoMatch>>, b2: seq<seq<RepoMatch>>)
    requires multiset(b1) == multiset(b2)
    ensures multiset(Flatten(b1)) == multiset(Flatten(b2))
    decreases |b1|
  {
    assert |b1| == |multiset(b1)| == |multiset(b2)| == |b2|;
    if |b1| > 0 {
      assert b1[0] in multiset(b2);
      var k :| 0 <= k < |b2| && b2[k] == b1[0];
      var rest1, rest2 := b1[1..], b2[..k] + b2[k + 1..];
      SameContentsWithoutHead(b1, b2, k);
      FlattenArrivalOrder(rest1, rest2);
      FlattenWithout(b2, k);
      assert Flatten(b1) == b1[0] + Flatten(rest1);
    }
  }

  /**
   * The aggregated answer: every match of every batch exactly as often as
   * it was received, sorted by line-match count, then URI path.
   */
  function Accumulate(batches: seq<seq<RepoMatch>>): (r: seq<RepoMatch>)
    ensures Sorted(r)
    ensures multiset(r) == multiset(Flatten(batches))
    ensures |r| == |Flatten(batches)|
  {
    var r := Sort(Flatten(batches));
    assert |r| == |multiset(r)|;
    r
  }

  /** A match is in the answer exactly when some batch holds it. */
  lemma AccumulateContents(batches: seq<seq<RepoMatch>>, x: RepoMatch)
    ensures x in Accumulate(batches) <==> exists i :: 0 <= i < |batches| && x in batches[i]
  {
    FlattenContents(batches, x);
    assert x in Accumulate(batches) <==> x in multiset(Accumulate(batches));
  }

  /**
   * Adjacent results are in ascending order: fewer line matches first, and
   * among equal counts the path that `strings.Compare` orders first.
   */
  lemma AccumulateAdjacentOrder(batches: seq<seq<RepoMatch>>, i: nat)
    requires i + 1 < |Accumulate(batches)|
    ensures var r := Accumulate(batches);
      || |r[i].lineMatches| < |r[i + 1].lineMatches|
      || (|r[i].lineMatches| == |r[i + 1].lineMatches| && PathLessEq(r[i].uri.path, r[i + 1].uri.path))
  {
    var r := Accumulate(batches);
    InOrderIsKeyOrder(r[i], r[i + 1]);
  }

  /**
   * The order of the answer is masked from completion order: however the
   * batches arrive, the answer has the same length and the same sort key
   * at every position. Only matches with equal keys may trade places,
   * because `sort.Slice` is not stable.
   */
  lemma ArrivalOrderIrrelevant(b1: seq<seq<RepoMatch>>, b2: seq<seq<RepoMatch>>)
    requires multiset(b1) == multiset(b2)
    ensures |Accumulate(b1)| == |Accumulate(b2)|
    ensures forall i :: 0 <= i < |Accumulate(b1)| ==> Key(Accumulate(b1)[i]) == Key(Accumulate(b2)[i])
  {
    FlattenArrivalOrder(b1, b2);
    SortedKeysDetermined(Accumulate(b1), Accumulate(b2));
  }

  lemma SwapFirstTwo(a: RepoMatch, b: RepoMatch, c: RepoMatch)
    ensures multiset([a, b, c]) == multiset([b, a, c])
  {
  }

  lemma FlattenSingletons(a: RepoMatch, b: RepoMatch, c: RepoMatch)
    ensures Flatten([[a], [b], [c]]) == [a, b, c]
  {
    var batches := [[a], [b], [c]];
    assert Flatten(batches[2..]) == [c] + Flatten(batches[3..]);
    assert Flatten(batches[1..]) == [b] + Flatten(batches[2..]);
    assert Flatten(batches) == [a] + Flatten(batches[1..]);
  }

  /**
   * Repositories answering with different numbers of matching lines come
   * out fewest first, whatever order they answered in: answers of 2, 0 and
   * 5 lines from repositories a, b and c give the order b, a, c.
   */
  lemma FewestMatchesFirst(a: RepoMatch, b: RepoMatch, c: RepoMatch, arrived: seq<seq<RepoMatch>>)
    requires |b.lineMatches| < |a.lineMatches| < |c.lineMatches|
    requires multiset(arrived) == multiset([[a], [b], [c]])
    ensures Accumulate(arrived) == [b, a, c]
  {
    var r := Accumulate(arrived);
    FlattenSingletons(a, b, c);
    FlattenArrivalOrder(arrived, [[a], [b], [c]]);
    SwapFirstTwo(a, b, c);
    DistinctCountsSortUniquely(b, a, c, r);
  }
}
