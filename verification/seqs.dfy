/** Order-preserving sequence combinators: the `Array.prototype.filter` and
    `Array.prototype.map` the catalogue's store and search are built from,
    with the subsequence relation that filtering produces. */
module Seqs {

  /** `s.filter(p)`: the elements of `s` satisfying `p`, in their original order. */
  function Filter<T>(s: seq<T>, p: T -> bool): (r: seq<T>)
    ensures |r| <= |s|
    ensures forall x :: x in r ==> x in s && p(x)
    ensures forall x :: x in s && p(x) ==> x in r
  {
    if s == [] then []
    else
      assert s == [s[0]] + s[1..];
      if p(s[0]) then [s[0]] + Filter(s[1..], p)
      else Filter(s[1..], p)
  }

  /** `s.map(f)`: `f` applied to every element, length and positions kept. */
  function Map<T, U>(s: seq<T>, f: T -> U): (r: seq<U>)
    ensures |r| == |s|
    ensures forall i :: 0 <= i < |s| ==> r[i] == f(s[i])
  {
    if s == [] then [] else [f(s[0])] + Map(s[1..], f)
  }

  /** `idx` lists, in strictly increasing order, the positions of `b` that
      the elements of `a` were taken from. */
  ghost predicate Embeds<T>(idx: seq<nat>, a: seq<T>, b: seq<T>) {
    && |idx| == |a|
    && (forall k :: 0 <= k < |idx| ==> idx[k] < |b| && a[k] == b[idx[k]])
    && (forall k, l :: 0 <= k < l < |idx| ==> idx[k] < idx[l])
  }

  /** `a` is `b` with some elements removed and the rest kept in order. */
  ghost predicate IsSubsequence<T>(a: seq<T>, b: seq<T>) {
    exists idx :: Embeds(idx, a, b)
  }

  /** An embedding of `a` into `t` shifts to one of `a` into `[h] + t`, and
      extends to one of `[h] + a` there. */
  lemma ShiftEmbedding<T>(tail: seq<nat>, a: seq<T>, h: T, t: seq<T>) returns (shifted: seq<nat>)
    requires Embeds(tail, a, t)
    ensures Embeds(shifted, a, [h] + t)
    ensures Embeds([0] + shifted, [h] + a, [h] + t)
  {
    shifted := seq(|tail|, k requires 0 <= k < |tail| => tail[k] + 1);
    forall k | 0 <= k < |shifted|
      ensures shifted[k] < |[h] + t| && a[k] == ([h] + t)[shifted[k]]
    {
      assert tail[k] < |t| && a[k] == t[tail[k]];
    }
    var ext := [0] + shifted;
    forall k | 0 <= k < |ext|
      ensures ext[k] < |[h] + t| && ([h] + a)[k] == ([h] + t)[ext[k]]
    {
      if k > 0 {
        assert ext[k] == shifted[k - 1];
      }
    }
  }

  /** Filtering never reorders: its result is a subsequence of its input. */
  lemma {:induction false} FilterIsSubsequence<T>(s: seq<T>, p: T -> bool)
    ensures IsSubsequence(Filter(s, p), s)
  {
    if s == [] {
      assert Embeds([], Filter(s, p), s);
    } else {
      FilterIsSubsequence(s[1..], p);
      var rest := Filter(s[1..], p);
      var tail :| Embeds(tail, rest, s[1..]);
      assert s == [s[0]] + s[1..];
      var shifted := ShiftEmbedding(tail, rest, s[0], s[1..]);
      if p(s[0]) {
        assert Filter(s, p) == [s[0]] + rest;
        assert Embeds([0] + shifted, Filter(s, p), s);
      } else {
        assert Embeds(shifted, Filter(s, p), s);
      }
    }
  }

  /** Filtering with a predicate every element satisfies returns the input. */
  lemma {:induction false} FilterKeepsAll<T>(s: seq<T>, p: T -> bool)
    requires forall x :: x in s ==> p(x)
    ensures Filter(s, p) == s
  {
    if s != [] {
      FilterKeepsAll(s[1..], p);
      assert s == [s[0]] + s[1..];
    }
  }

  /** Two predicates that agree on the elements of `s` filter it alike. */
  lemma {:induction false} FilterCongruent<T>(s: seq<T>, p: T -> bool, q: T -> bool)
    requires forall x :: x in s ==> p(x) == q(x)
    ensures Filter(s, p) == Filter(s, q)
  {
    if s != [] {
      FilterCongruent(s[1..], p, q);
    }
  }
}
