/** The list primitives the storefront pages build on: JavaScript's
    `Array.prototype.filter` and `slice(0, n)`, and what they keep of the order
    and contents of the list they are applied to. */
module Seqs {

  /** `s.filter(keep)`: the elements of `s` for which `keep` holds, in the order
      of `s`. */
  function Filter<T>(s: seq<T>, keep: T -> bool): (r: seq<T>)
    ensures |r| <= |s|
    ensures forall i :: 0 <= i < |r| ==> keep(r[i])
  {
    if s == [] then []
    else if keep(s[0]) then [s[0]] + Filter(s[1..], keep)
    else Filter(s[1..], keep)
  }

  /** Filtering loses exactly the elements `keep` rejects: what it returns comes
      from `s` (no more often than there), and every accepted element of `s`
      is returned. */
  lemma {:induction false} FilterMembers<T>(s: seq<T>, keep: T -> bool)
    ensures forall x | x in Filter(s, keep) :: x in s
    ensures forall i :: 0 <= i < |s| && keep(s[i]) ==> s[i] in Filter(s, keep)
    ensures multiset(Filter(s, keep)) <= multiset(s)
  {
    FilterSubMultiset(s, keep);
    FilterKeepsAccepted(s, keep);
    forall x | x in Filter(s, keep)
      ensures x in s
    {
      assert x in multiset(Filter(s, keep));
    }
  }

  lemma {:induction false} FilterSubMultiset<T>(s: seq<T>, keep: T -> bool)
    ensures multiset(Filter(s, keep)) <= multiset(s)
  {
    if s != [] {
      FilterSubMultiset(s[1..], keep);
      assert s == [s[0]] + s[1..];
    }
  }

  lemma {:induction false} FilterKeepsAccepted<T>(s: seq<T>, keep: T -> bool)
    ensures forall i :: 0 <= i < |s| && keep(s[i]) ==> s[i] in Filter(s, keep)
  {
    if s != [] {
      FilterKeepsAccepted(s[1..], keep);
      assert forall i :: 1 <= i < |s| ==> s[i] == s[1..][i - 1];
    }
  }

  /** `s.slice(0, n)` for `n >= 0`: the first `n` elements, or all of `s` when it
      is shorter. */
  function Take<T>(s: seq<T>, n: nat): (r: seq<T>)
    ensures |r| == if |s| <= n then |s| else n
    ensures r <= s
  {
    if |s| <= n then s else s[..n]
  }

  /** `a` is obtained from `b` by deleting elements, so it keeps `b`'s order. */
  ghost predicate IsSubsequence<T>(a: seq<T>, b: seq<T>)
    decreases |b|
  {
    if a == [] then true
    else if b == [] then false
    else (a[0] == b[0] && IsSubsequence(a[1..], b[1..])) || IsSubsequence(a, b[1..])
  }

  /** Filtering only deletes: its result is a subsequence of its input. */
  lemma {:induction false} FilterIsSubsequence<T>(s: seq<T>, keep: T -> bool)
    ensures IsSubsequence(Filter(s, keep), s)
  {
    if s != [] {
      FilterIsSubsequence(s[1..], keep);
      var r := Filter(s, keep);
      if keep(s[0]) {
        assert r[0] == s[0] && r[1..] == Filter(s[1..], keep);
      } else {
        assert r == Filter(s[1..], keep);
        if r != [] {
          assert IsSubsequence(r, s[1..]);
        }
      }
    }
  }

  /** Every prefix of a subsequence is still a subsequence. */
  lemma {:induction false} PrefixIsSubsequence<T>(a: seq<T>, b: seq<T>, n: nat)
    requires IsSubsequence(a, b)
    requires n <= |a|
    ensures IsSubsequence(a[..n], b)
    decreases |b|
  {
    if n == 0 || a == [] {
      assert a[..n] == [];
    } else {
      assert b != [];
      var p := a[..n];
      assert p[0] == a[0];
      if a[0] == b[0] && IsSubsequence(a[1..], b[1..]) {
        PrefixIsSubsequence(a[1..], b[1..], n - 1);
        assert p[1..] == a[1..][..n - 1];
      } else {
        PrefixIsSubsequence(a, b[1..], n);
      }
    }
  }

  /** A subsequence has no element its supersequence lacks. */
  lemma {:induction false} SubsequenceMembers<T>(a: seq<T>, b: seq<T>)
    requires IsSubsequence(a, b)
    ensures |a| <= |b|
    ensures forall x :: x in a ==> x in b
    decreases |b|
  {
    if a != [] {
      if a[0] == b[0] && IsSubsequence(a[1..], b[1..]) {
        SubsequenceMembers(a[1..], b[1..]);
        assert a == [a[0]] + a[1..];
        assert b == [b[0]] + b[1..];
      } else {
        SubsequenceMembers(a, b[1..]);
        assert b == [b[0]] + b[1..];
      }
    }
  }

  /** Filtering distributes over concatenation. */
  lemma {:induction false} FilterConcat<T>(a: seq<T>, b: seq<T>, keep: T -> bool)
    ensures Filter(a + b, keep) == Filter(a, keep) + Filter(b, keep)
  {
    if a != [] {
      assert (a + b)[0] == a[0];
      assert (a + b)[1..] == a[1..] + b;
      FilterConcat(a[1..], b, keep);
    } else {
      assert a + b == b;
    }
  }

  /** Filtering twice is filtering once by the conjunction. */
  lemma {:induction false} FilterTwice<T>(s: seq<T>, first: T -> bool, second: T -> bool, both: T -> bool)
    requires forall x :: both(x) == (first(x) && second(x))
    ensures Filter(Filter(s, first), second) == Filter(s, both)
  {
    if s != [] {
      FilterTwice(s[1..], first, second, both);
    }
  }

  /** One step of the filter, for a list written as its head and tail. */
  lemma FilterCons<T>(x: T, s: seq<T>, keep: T -> bool)
    ensures Filter([x] + s, keep) == (if keep(x) then [x] else []) + Filter(s, keep)
  {
    assert ([x] + s)[1..] == s;
  }

  /** A filter that rejects everything present returns nothing. */
  lemma {:induction false} FilterKeepsNone<T>(s: seq<T>, keep: T -> bool)
    requires forall i :: 0 <= i < |s| ==> !keep(s[i])
    ensures Filter(s, keep) == []
  {
    if s != [] {
      FilterKeepsNone(s[1..], keep);
    }
  }

  /** Filters that accept the same elements return the same list. */
  lemma {:induction false} FilterSame<T>(s: seq<T>, keep: T -> bool, keep': T -> bool)
    requires forall x :: keep(x) == keep'(x)
    ensures Filter(s, keep) == Filter(s, keep')
  {
    if s != [] {
      FilterSame(s[1..], keep, keep');
    }
  }

  /** A filter that keeps everything present is the identity. */
  lemma {:induction false} FilterKeepsAll<T>(s: seq<T>, keep: T -> bool)
    requires forall i :: 0 <= i < |s| ==> keep(s[i])
    ensures Filter(s, keep) == s
  {
    if s != [] {
      FilterKeepsAll(s[1..], keep);
    }
  }

  /** A stricter filter keeps a subsequence of what a looser one keeps, hence
      never more elements. */
  lemma {:induction false} StricterFilter<T>(s: seq<T>, loose: T -> bool, strict: T -> bool)
    requires forall x :: strict(x) ==> loose(x)
    ensures IsSubsequence(Filter(s, strict), Filter(s, loose))
    ensures |Filter(s, strict)| <= |Filter(s, loose)|
  {
    var r := Filter(s, strict);
    if s != [] {
      StricterFilter(s[1..], loose, strict);
      var l := Filter(s, loose);
      if strict(s[0]) {
        assert r[0] == l[0] && r[1..] == Filter(s[1..], strict) && l[1..] == Filter(s[1..], loose);
      } else if loose(s[0]) {
        assert r == Filter(s[1..], strict) && l[1..] == Filter(s[1..], loose);
        if r != [] {
          assert IsSubsequence(r, l[1..]);
        }
      }
    }
    SubsequenceMembers(r, Filter(s, loose));
  }

  /** Where an element kept by `keep` lands in the filtered list: after exactly
      the kept elements that precede it in `s`. */
  lemma FilterPosition<T>(s: seq<T>, keep: T -> bool, i: nat)
    requires i < |s| && keep(s[i])
    ensures var k := |Filter(s[..i], keep)|;
      k < |Filter(s, keep)| && Filter(s, keep)[k] == s[i]
  {
    assert s == s[..i] + [s[i]] + s[i + 1..];
    FilterConcat(s[..i] + [s[i]], s[i + 1..], keep);
    FilterConcat(s[..i], [s[i]], keep);
  }

  /** `Take(Filter(s, keep), n)` -- the shape of the featured and related
      lists -- holds every element of `s` that `keep` accepts and that fewer
      than `n` accepted elements precede. */
  lemma FirstKept<T>(s: seq<T>, keep: T -> bool, n: nat, i: nat)
    requires i < |s| && keep(s[i]) && |Filter(s[..i], keep)| < n
    ensures s[i] in Take(Filter(s, keep), n)
  {
    FilterPosition(s, keep, i);
    var k := |Filter(s[..i], keep)|;
    assert Take(Filter(s, keep), n)[k] == s[i];
  }

  /** `Take(Filter(s, keep), n)` is a subsequence of `s` made of accepted
      elements only, and holds `n` of them unless fewer exist. */
  lemma TakeFilterFacts<T>(s: seq<T>, keep: T -> bool, n: nat)
    ensures IsSubsequence(Take(Filter(s, keep), n), s)
    ensures |Take(Filter(s, keep), n)| == if |Filter(s, keep)| < n then |Filter(s, keep)| else n
    ensures forall i :: 0 <= i < |Take(Filter(s, keep), n)| ==> keep(Take(Filter(s, keep), n)[i])
  {
    var f := Filter(s, keep);
    FilterIsSubsequence(s, keep);
    if n < |f| {
      PrefixIsSubsequence(f, s, n);
    }
  }
}
