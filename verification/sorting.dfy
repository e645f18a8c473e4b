/**
 * Sorting repository matches into the `accumulate` order. Go's `sort.Slice`
 * is not stable, so the contract is the one every correct sort meets:
 * the output is ordered and is a permutation of the input.
 */
module Sorting {
  import opened SearchTypes
  import opened Ordering

  /** Every element may precede every later one. */
  predicate Sorted(s: seq<RepoMatch>)
  {
    forall i, j :: 0 <= i < j < |s| ==> InOrder(s[i], s[j])
  }

  /** `h` may precede every element of `t`. */
  predicate PrecedesAll(h: RepoMatch, t: seq<RepoMatch>)
  {
    forall i :: 0 <= i < |t| ==> InOrder(h, t[i])
  }

  lemma InOrderReflexive(a: RepoMatch)
    ensures InOrder(a, a)
  {
    PathLessIrreflexive(a.uri.path);
  }

  /** Precedence over a sequence depends only on its contents. */
  lemma PrecedesAllSameContents(h: RepoMatch, t: seq<RepoMatch>, u: seq<RepoMatch>)
    requires multiset(t) == multiset(u)
    requires PrecedesAll(h, u)
    ensures PrecedesAll(h, t)
  {
    forall i | 0 <= i < |t|
      ensures InOrder(h, t[i])
    {
      assert t[i] in multiset(u);
    }
  }

  /** `x` inserted into sorted `s` after every element that must precede it. */
  function Insert(x: RepoMatch, s: seq<RepoMatch>): (r: seq<RepoMatch>)
    requires Sorted(s)
    ensures Sorted(r)
    ensures multiset(r) == multiset(s) + multiset{x}
    decreases |s|
  {
    if |s| == 0 then
      [x]
    else if InOrder(x, s[0]) then
      assert PrecedesAll(x, s) by {
        forall i | 0 <= i < |s|
          ensures InOrder(x, s[i])
        {
          if i > 0 { InOrderTransitive(x, s[0], s[i]); }
        }
      }
      [x] + s
    else
      var rest := Insert(x, s[1..]);
      assert s == [s[0]] + s[1..];
      assert PrecedesAll(s[0], rest) by {
        InOrderTotal(x, s[0]);
        PrecedesAllSameContents(s[0], rest, s[1..] + [x]);
      }
      [s[0]] + rest
  }

  /** Insertion sort into the `accumulate` order. */
  function Sort(s: seq<RepoMatch>): (r: seq<RepoMatch>)
    ensures Sorted(r)
    ensures multiset(r) == multiset(s)
    decreases |s|
  {
    if |s| == 0 then
      []
    else
      assert s == [s[0]] + s[1..];
      Insert(s[0], Sort(s[1..]))
  }

  /** Removing one element keeps a sequence sorted. */
  lemma SortedWithout(t: seq<RepoMatch>, k: nat)
    requires Sorted(t) && k < |t|
    ensures Sorted(t[..k] + t[k + 1..])
  {
  }

  /** The head of a sorted sequence may precede each of its elements. */
  lemma HeadPrecedes(s: seq<RepoMatch>, y: RepoMatch)
    requires Sorted(s) && y in multiset(s)
    ensures InOrder(s[0], y)
  {
    var j :| 0 <= j < |s| && s[j] == y;
    if j == 0 { InOrderReflexive(y); }
  }

  /** In a sorted sequence whose head may follow `t[k]`, positions 0..k all share `t[k]`'s key. */
  lemma PrefixSharesKey(t: seq<RepoMatch>, k: nat)
    requires Sorted(t) && k < |t|
    requires InOrder(t[k], t[0])
    ensures forall i :: 0 <= i <= k ==> Key(t[i]) == Key(t[k])
  {
    forall i | 0 <= i <= k
      ensures Key(t[i]) == Key(t[k])
    {
      InOrderReflexive(t[i]);
      InOrderReflexive(t[0]);
      InOrderTransitive(t[k], t[0], t[i]);
      InOrderIsKeyOrder(t[k], t[i]);
      InOrderIsKeyOrder(t[i], t[k]);
      KeyLessEqAntisymmetric(Key(t[k]), Key(t[i]));
    }
  }

  /** A sequence's contents are those of the sequence without position `k`, plus its element at `k`. */
  lemma MultisetWithout<T>(t: seq<T>, k: nat)
    requires k < |t|
    ensures multiset(t) == multiset(t[..k] + t[k + 1..]) + multiset{t[k]}
  {
    assert t == t[..k] + [t[k]] + t[k + 1..];
  }

  /** Removing the same element from two arrangements of the same contents. */
  lemma SameContentsWithoutHead<T>(s: seq<T>, t: seq<T>, k: nat)
    requires multiset(s) == multiset(t)
    requires 0 < |s| && k < |t| && t[k] == s[0]
    ensures multiset(s[1..]) == multiset(t[..k] + t[k + 1..])
  {
    MultisetWithout(t, k);
    assert s == [s[0]] + s[1..];
    var a, b, m := multiset(s[1..]), multiset(t[..k] + t[k + 1..]), multiset{s[0]};
    assert a + m == multiset(s) == multiset(t) == b + m;
    assert a == (a + m) - m;
    assert b == (b + m) - m;
  }

  /** Putting the same element back into two arrangements of the same contents. */
  lemma SameContentsWithHead<T>(s: seq<T>, t: seq<T>, k: nat)
    requires 0 < |s| && k < |t| && t[k] == s[0]
    requires multiset(s[1..]) == multiset(t[..k] + t[k + 1..])
    ensures multiset(s) == multiset(t)
  {
    MultisetWithout(t, k);
    assert s == [s[0]] + s[1..];
  }

  /** Reassembles the key agreement of the inductive step of `SortedKeysDetermined`. */
  lemma KeysAfterRemoval(s: seq<RepoMatch>, t: seq<RepoMatch>, k: nat)
    requires 0 < |s| == |t| && k < |t|
    requires Key(s[0]) == Key(t[k])
    requires forall i :: 0 <= i <= k ==> Key(t[i]) == Key(t[k])
    requires forall i :: 0 <= i < |s| - 1 ==> Key(s[1..][i]) == Key((t[..k] + t[k + 1..])[i])
    ensures forall i :: 0 <= i < |s| ==> Key(s[i]) == Key(t[i])
  {
    var t' := t[..k] + t[k + 1..];
    forall i | 0 <= i < |s|
      ensures Key(s[i]) == Key(t[i])
    {
      if 0 < i <= k {
        assert s[1..][i - 1] == s[i] && t'[i - 1] == t[i - 1];
      } else if k < i {
        assert s[1..][i - 1] == s[i] && t'[i - 1] == t[i];
      }
    }
  }

  /**
   * Two sorted arrangements of the same matches agree on every position's
   * sort key: the key sequence of a sorted result depends on its contents
   * only. Matches with equal keys may still trade places.
   */
  lemma {:induction false} SortedKeysDetermined(s: seq<RepoMatch>, t: seq<RepoMatch>)
    requires Sorted(s) && Sorted(t)
    requires multiset(s) == multiset(t)
    ensures |s| == |t|
    ensures forall i :: 0 <= i < |s| ==> Key(s[i]) == Key(t[i])
    decreases |s|
  {
    assert |s| == |multiset(s)| == |multiset(t)| == |t|;
    if |s| > 0 {
      var x := s[0];
      assert x in multiset(t);
      var k :| 0 <= k < |t| && t[k] == x;
      var t' := t[..k] + t[k + 1..];
      SameContentsWithoutHead(s, t, k);
      SortedWithout(t, k);
      SortedKeysDetermined(s[1..], t');
      HeadPrecedes(s, t[0]);
      PrefixSharesKey(t, k);
      KeysAfterRemoval(s, t, k);
    }
  }

  /** Three matches with distinct line-match counts have exactly one sorted arrangement. */
  lemma DistinctCountsSortUniquely(x: RepoMatch, y: RepoMatch, z: RepoMatch, r: seq<RepoMatch>)
    requires |x.lineMatches| < |y.lineMatches| < |z.lineMatches|
    requires Sorted(r) && multiset(r) == multiset([x, y, z])
    ensures r == [x, y, z]
  {
  }
}
