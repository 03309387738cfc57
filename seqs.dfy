/** Models of the JavaScript array built-ins the feed code relies on:
    `Array.prototype.filter`, `Array.prototype.splice` (insertion form) and
    a `map` whose callback returns `undefined` past an index bound, as React
    renders it (undefined children are skipped). */
module Seqs {
  import opened Wrappers

  function Min(a: int, b: int): int { if a <= b then a else b }

  /** `a` is obtained from `b` by deleting elements: `a`'s elements occur in
      `b` in the same relative order. */
  ghost predicate IsSubsequence<T>(a: seq<T>, b: seq<T>)
    decreases |b|
  {
    if b == [] then a == []
    else (a != [] && a[0] == b[0] && IsSubsequence(a[1..], b[1..])) || IsSubsequence(a, b[1..])
  }

  /** Filtering `s` by `keep`: the elements of `s` that satisfy `keep`, in input order. */
  function Filter<T>(s: seq<T>, keep: T -> bool): (r: seq<T>)
    ensures |r| <= |s|
    ensures forall i :: 0 <= i < |r| ==> r[i] in s && keep(r[i])
    ensures forall i :: 0 <= i < |s| && keep(s[i]) ==> s[i] in r
  {
    if s == [] then []
    else if keep(s[0]) then [s[0]] + Filter(s[1..], keep)
    else Filter(s[1..], keep)
  }

  lemma {:induction false} FilterIsSubsequence<T>(s: seq<T>, keep: T -> bool)
    ensures IsSubsequence(Filter(s, keep), s)
  {
    if s != [] {
      FilterIsSubsequence(s[1..], keep);
      if keep(s[0]) {
        assert ([s[0]] + Filter(s[1..], keep))[1..] == Filter(s[1..], keep);
      }
    }
  }

  lemma {:induction false} SubsequenceReflexive<T>(s: seq<T>)
    ensures IsSubsequence(s, s)
  {
    if s != [] {
      SubsequenceReflexive(s[1..]);
    }
  }

  /** The empty sequence is a subsequence of every sequence. */
  lemma {:induction false} SubsequenceEmpty<T>(s: seq<T>)
    ensures IsSubsequence([], s)
  {
    if s != [] {
      SubsequenceEmpty(s[1..]);
    }
  }

  /** `filter` keeps every copy of an accepted element and no copy of a
      rejected one: multiplicities are those of the input, or zero. */
  lemma {:induction false} FilterMultiplicity<T>(s: seq<T>, keep: T -> bool)
    ensures forall x :: multiset(Filter(s, keep))[x] == if keep(x) then multiset(s)[x] else 0
  {
    if s != [] {
      FilterMultiplicity(s[1..], keep);
      assert s == [s[0]] + s[1..];
    }
  }

  /** A subsequence only holds elements of the original and is no longer. */
  lemma {:induction false} SubsequenceMembers<T>(a: seq<T>, b: seq<T>)
    requires IsSubsequence(a, b)
    ensures |a| <= |b|
    ensures forall x :: x in a ==> x in b
    decreases |b|
  {
    if b != [] {
      if a != [] && a[0] == b[0] && IsSubsequence(a[1..], b[1..]) {
        SubsequenceMembers(a[1..], b[1..]);
        assert a == [a[0]] + a[1..];
      } else {
        SubsequenceMembers(a, b[1..]);
      }
    }
  }

  /** When every element passes, `filter` gives back the array unchanged. */
  lemma {:induction false} FilterKeepsAll<T>(s: seq<T>, keep: T -> bool)
    requires forall x :: x in s ==> keep(x)
    ensures Filter(s, keep) == s
  {
    if s != [] {
      FilterKeepsAll(s[1..], keep);
      assert s == [s[0]] + s[1..];
    }
  }

  /** Filtering twice with the same predicate changes nothing the second time. */
  lemma {:induction false} FilterIdempotent<T>(s: seq<T>, keep: T -> bool)
    ensures Filter(Filter(s, keep), keep) == Filter(s, keep)
  {
    FilterKeepsAll(Filter(s, keep), keep);
  }

  /** `filter` only looks at the verdict of its callback. */
  lemma {:induction false} FilterCongruent<T>(s: seq<T>, k1: T -> bool, k2: T -> bool)
    requires forall x :: x in s ==> k1(x) == k2(x)
    ensures Filter(s, k1) == Filter(s, k2)
  {
    if s != [] {
      FilterCongruent(s[1..], k1, k2);
    }
  }

  /** Splicing `item` into `s` at `start`, deleting nothing: JavaScript clamps `start`
      to the length, so the item lands at `min(start, |s|)` and every later
      element moves up one place. */
  function Splice<T>(s: seq<T>, start: nat, item: T): (r: seq<T>)
    ensures |r| == |s| + 1
    ensures forall i :: 0 <= i < |r| ==>
      r[i] == if i < Min(start, |s|) then s[i] else if i == Min(start, |s|) then item else s[i - 1]
  {
    var k := Min(start, |s|);
    s[..k] + [item] + s[k..]
  }

  /** A `map` whose callback returns the element only below index `limit`:
      positions at or past `limit` become `undefined`. */
  function MapBelow<T>(s: seq<T>, limit: nat): seq<Option<T>>
  {
    seq(|s|, i requires 0 <= i < |s| => if i < limit then Some(s[i]) else None)
  }

  /** What React renders of an array of children: `undefined` entries are skipped. */
  function Rendered<T>(xs: seq<Option<T>>): seq<T>
  {
    if xs == [] then []
    else (if xs[0].Some? then [xs[0].value] else []) + Rendered(xs[1..])
  }

  lemma {:induction false} RenderedPast<T>(s: seq<T>, limit: nat, k: nat)
    requires limit <= k <= |s|
    ensures Rendered(MapBelow(s, limit)[k..]) == []
    decreases |s| - k
  {
    var xs := MapBelow(s, limit);
    if k < |s| {
      RenderedPast(s, limit, k + 1);
      assert xs[k..][0] == xs[k] == None;
      assert xs[k..][1..] == xs[k + 1..];
    } else {
      assert xs[k..] == [];
    }
  }

  lemma {:induction false} RenderedBelow<T>(s: seq<T>, limit: nat, k: nat)
    requires k <= Min(limit, |s|)
    ensures Rendered(MapBelow(s, limit)[k..]) == s[k..Min(limit, |s|)]
    decreases |s| - k
  {
    var xs := MapBelow(s, limit);
    var m := Min(limit, |s|);
    if k == m {
      if k == |s| {
        assert xs[k..] == [];
      } else {
        RenderedPast(s, limit, k);
      }
    } else {
      RenderedBelow(s, limit, k + 1);
      assert xs[k..][0] == xs[k] == Some(s[k]);
      assert xs[k..][1..] == xs[k + 1..];
      assert s[k..m] == [s[k]] + s[k + 1..m];
    }
  }

  /** Rendering the index-bounded map shows exactly the first `min(limit, |s|)`
      elements, in order. */
  lemma RenderedPrefix<T>(s: seq<T>, limit: nat)
    ensures Rendered(MapBelow(s, limit)) == s[..Min(limit, |s|)]
  {
    RenderedBelow(s, limit, 0);
    assert MapBelow(s, limit)[0..] == MapBelow(s, limit);
  }
}
