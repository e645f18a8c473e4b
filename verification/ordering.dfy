/**
 * The order `accumulate` sorts repository matches into: ascending number of
 * line matches, ties broken by ascending URI path under `strings.Compare`.
 */
module Ordering {
  import opened SearchTypes

  /** `a` and `b` agree before position `i` and `a` has the smaller character at `i`. */
  predicate DiffersBelow(a: string, b: string)
  {
    exists i :: 0 <= i < |a| && i < |b| && a[..i] == b[..i] && a[i] < b[i]
  }

  /** `a` is a proper prefix of `b`. */
  predicate ProperPrefix(a: string, b: string)
  {
    |a| < |b| && a == b[..|a|]
  }

  /** Strings that start with the same character compare as their tails do. */
  lemma LexicographicTails(a: string, b: string)
    requires 0 < |a| && 0 < |b| && a[0] == b[0]
    ensures DiffersBelow(a, b) <==> DiffersBelow(a[1..], b[1..])
    ensures ProperPrefix(a, b) <==> ProperPrefix(a[1..], b[1..])
  {
    if DiffersBelow(a, b) {
      DiffersBelowDropsHead(a, b);
    }
    if DiffersBelow(a[1..], b[1..]) {
      DiffersBelowAddsHead(a, b);
    }
    if ProperPrefix(a[1..], b[1..]) {
      assert a == [a[0]] + a[1..] && b[..|a|] == [b[0]] + b[1..][..|a| - 1];
    }
  }

  /** A first difference after a shared head is a first difference of the tails. */
  lemma DiffersBelowDropsHead(a: string, b: string)
    requires 0 < |a| && 0 < |b| && a[0] == b[0] && DiffersBelow(a, b)
    ensures DiffersBelow(a[1..], b[1..])
  {
    var i :| 0 <= i < |a| && i < |b| && a[..i] == b[..i] && a[i] < b[i];
    if i == 0 {
      assert false;
    }
    assert a[1..][..i - 1] == a[..i][1..] == b[..i][1..] == b[1..][..i - 1];
    assert a[1..][i - 1] < b[1..][i - 1];
  }

  /** A first difference of the tails stays one when the shared head is put back. */
  lemma DiffersBelowAddsHead(a: string, b: string)
    requires 0 < |a| && 0 < |b| && a[0] == b[0] && DiffersBelow(a[1..], b[1..])
    ensures DiffersBelow(a, b)
  {
    var i :| 0 <= i < |a[1..]| && i < |b[1..]| && a[1..][..i] == b[1..][..i] && a[1..][i] < b[1..][i];
    assert a[..i + 1] == [a[0]] + a[1..][..i];
    assert b[..i + 1] == [b[0]] + b[1..][..i];
    assert a[i + 1] < b[i + 1];
  }

  /** Strings whose first characters differ compare as those characters do. */
  lemma LexicographicHeads(a: string, b: string)
    requires 0 < |a| && 0 < |b| && a[0] != b[0]
    ensures DiffersBelow(a, b) <==> a[0] < b[0]
    ensures !ProperPrefix(a, b)
  {
    if a[0] < b[0] {
      assert a[..0] == b[..0];
    }
  }

  /**
   * `strings.Compare(a, b) < 0`: at the first position where the strings
   * differ `a` has the smaller character, or `a` is a proper prefix of `b`.
   */
  predicate PathLess(a: string, b: string)
    ensures PathLess(a, b) <==> DiffersBelow(a, b) || ProperPrefix(a, b)
    decreases |a|
  {
    if |b| == 0 then false
    else if |a| == 0 then assert a == b[..0]; true
    else if a[0] != b[0] then LexicographicHeads(a, b); a[0] < b[0]
    else LexicographicTails(a, b); PathLess(a[1..], b[1..])
  }

  /** `strings.Compare(a, b) <= 0`. */
  predicate PathLessEq(a: string, b: string)
  {
    a == b || PathLess(a, b)
  }

  lemma {:induction false} PathLessIrreflexive(a: string)
    ensures !PathLess(a, a)
    decreases |a|
  {
    if |a| > 0 {
      PathLessIrreflexive(a[1..]);
    }
  }

  /** Any two distinct strings are ordered one way round or the other. */
  lemma {:induction false} PathLessTrichotomy(a: string, b: string)
    ensures a == b || PathLess(a, b) || PathLess(b, a)
    ensures !(PathLess(a, b) && PathLess(b, a))
    decreases |a|
  {
    if |a| > 0 && |b| > 0 && a[0] == b[0] {
      PathLessTrichotomy(a[1..], b[1..]);
      if a[1..] == b[1..] {
        assert a == [a[0]] + a[1..] && b == [b[0]] + b[1..];
      }
    }
  }

  lemma {:induction false} PathLessTransitive(a: string, b: string, c: string)
    requires PathLess(a, b) && PathLess(b, c)
    ensures PathLess(a, c)
    decreases |a|
  {
    if |a| > 0 && a[0] == b[0] && b[0] == c[0] {
      PathLessTransitive(a[1..], b[1..], c[1..]);
    }
  }

  /** The sort key of a repository match: line-match count, then URI path. */
  function Key(m: RepoMatch): (nat, string)
  {
    (|m.lineMatches|, m.uri.path)
  }

  /**
   * The comparison function `accumulate` passes to `sort.Slice`: strictly
   * below in the (count, path) key order.
   */
  predicate Less(a: RepoMatch, b: RepoMatch)
    ensures Less(a, b) <==> !KeyLessEq(Key(b), Key(a))
    ensures Less(a, b) ==> KeyLessEq(Key(a), Key(b)) && Key(a) != Key(b)
  {
    PathLessTrichotomy(a.uri.path, b.uri.path);
    if |a.lineMatches| != |b.lineMatches| then |a.lineMatches| < |b.lineMatches|
    else PathLess(a.uri.path, b.uri.path)
  }

  /** Sort keys in ascending order: count first, then path. */
  predicate KeyLessEq(p: (nat, string), q: (nat, string))
  {
    p.0 < q.0 || (p.0 == q.0 && PathLessEq(p.1, q.1))
  }

  /** `a` may precede `b` in the sorted result: `b` is not less than `a`. */
  predicate InOrder(a: RepoMatch, b: RepoMatch)
  {
    !Less(b, a)
  }

  /** Precedence is exactly the ascending key order: fewer matches, or as many and a path no greater. */
  lemma InOrderIsKeyOrder(a: RepoMatch, b: RepoMatch)
    ensures InOrder(a, b) <==> KeyLessEq(Key(a), Key(b))
    ensures InOrder(a, b) <==>
      |a.lineMatches| < |b.lineMatches|
      || (|a.lineMatches| == |b.lineMatches| && PathLessEq(a.uri.path, b.uri.path))
  {
    PathLessTrichotomy(a.uri.path, b.uri.path);
    PathLessIrreflexive(a.uri.path);
  }

  lemma KeyLessEqTotal(p: (nat, string), q: (nat, string))
    ensures KeyLessEq(p, q) || KeyLessEq(q, p)
  {
    PathLessTrichotomy(p.1, q.1);
  }

  lemma KeyLessEqAntisymmetric(p: (nat, string), q: (nat, string))
    requires KeyLessEq(p, q) && KeyLessEq(q, p)
    ensures p == q
  {
    PathLessTrichotomy(p.1, q.1);
  }

  lemma KeyLessEqTransitive(p: (nat, string), q: (nat, string), s: (nat, string))
    requires KeyLessEq(p, q) && KeyLessEq(q, s)
    ensures KeyLessEq(p, s)
  {
    if p.0 == q.0 == s.0 && PathLess(p.1, q.1) && PathLess(q.1, s.1) {
      PathLessTransitive(p.1, q.1, s.1);
    }
  }

  lemma InOrderTotal(a: RepoMatch, b: RepoMatch)
    ensures InOrder(a, b) || InOrder(b, a)
  {
    InOrderIsKeyOrder(a, b);
    InOrderIsKeyOrder(b, a);
    KeyLessEqTotal(Key(a), Key(b));
  }

  lemma InOrderTransitive(a: RepoMatch, b: RepoMatch, c: RepoMatch)
    requires InOrder(a, b) && InOrder(b, c)
    ensures InOrder(a, c)
  {
    InOrderIsKeyOrder(a, b);
    InOrderIsKeyOrder(b, c);
    InOrderIsKeyOrder(a, c);
    KeyLessEqTransitive(Key(a), Key(b), Key(c));
  }
}
