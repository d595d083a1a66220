/**
 * Row selection as numpy does it: `data[np.where(cond)]` keeps the rows that
 * satisfy `cond`, in their original order. `Filter` is the selected rows and
 * `KeptIndices` the positions `np.where` returns.
 */
module Seqs {

  /** The elements of `s` that satisfy `p`, in order. */
  function Filter<T>(s: seq<T>, p: T -> bool): (r: seq<T>)
    ensures |r| <= |s|
    ensures forall k :: 0 <= k < |r| ==> p(r[k])
    ensures forall x :: x in r ==> x in s
    ensures forall i :: 0 <= i < |s| && p(s[i]) ==> s[i] in r
  {
    if |s| == 0 then []
    else Filter(s[..|s| - 1], p) + (if p(s[|s| - 1]) then [s[|s| - 1]] else [])
  }

  /** The indices `i` of `s` with `p(s[i])`: all of them, strictly increasing. */
  function KeptIndices<T>(s: seq<T>, p: T -> bool): (r: seq<nat>)
    ensures |r| <= |s|
    ensures forall k :: 0 <= k < |r| ==> r[k] < |s| && p(s[r[k]])
    ensures forall j, k :: 0 <= j < k < |r| ==> r[j] < r[k]
    ensures forall i :: 0 <= i < |s| && p(s[i]) ==> i in r
  {
    if |s| == 0 then []
    else KeptIndices(s[..|s| - 1], p) + (if p(s[|s| - 1]) then [|s| - 1] else [])
  }

  /** An element survives the filter exactly when it is in `s` and satisfies `p`. */
  lemma {:induction false} FilterMembership<T>(s: seq<T>, p: T -> bool, x: T)
    ensures x in Filter(s, p) <==> x in s && p(x)
  {
    if |s| > 0 {
      FilterMembership(s[..|s| - 1], p, x);
      assert s == s[..|s| - 1] + [s[|s| - 1]];
    }
  }

  /** Filtering distributes over concatenation, so the original order is kept. */
  lemma {:induction false} FilterAppend<T>(a: seq<T>, b: seq<T>, p: T -> bool)
    ensures Filter(a + b, p) == Filter(a, p) + Filter(b, p)
    decreases |b|
  {
    if |b| > 0 {
      var b' := b[..|b| - 1];
      assert (a + b)[..|a + b| - 1] == a + b';
      FilterAppend(a, b', p);
    } else {
      assert a + b == a;
    }
  }

  /** With a predicate that keeps everything, the indices are `0 .. |s| - 1`. */
  lemma {:induction false} KeptIndicesAll<T>(s: seq<T>, p: T -> bool)
    requires forall k :: 0 <= k < |s| ==> p(s[k])
    ensures |KeptIndices(s, p)| == |s|
    ensures forall k :: 0 <= k < |s| ==> KeptIndices(s, p)[k] == k
  {
    if |s| > 0 {
      KeptIndicesAll(s[..|s| - 1], p);
    }
  }

  /** Taking the rows at the kept indices is the same as filtering. */
  lemma {:induction false} KeptIndicesFilter<T>(s: seq<T>, p: T -> bool)
    ensures |KeptIndices(s, p)| == |Filter(s, p)|
    ensures forall k :: 0 <= k < |Filter(s, p)| ==> Filter(s, p)[k] == s[KeptIndices(s, p)[k]]
  {
    if |s| > 0 {
      var s', x := s[..|s| - 1], s[|s| - 1];
      KeptIndicesFilter(s', p);
      var f, ix := Filter(s', p), KeptIndices(s', p);
      var tail, itail := if p(x) then [x] else [], if p(x) then [|s| - 1] else [];
      assert Filter(s, p) == f + tail;
      assert KeptIndices(s, p) == ix + itail;
      forall k | 0 <= k < |f + tail|
        ensures (f + tail)[k] == s[(ix + itail)[k]]
      {
        if k < |f| {
          assert (f + tail)[k] == f[k] == s'[ix[k]] == s[ix[k]];
        }
      }
    }
  }

  /** One step of `KeptIndices` over a growing prefix. */
  lemma KeptIndicesStep<T>(s: seq<T>, i: nat, p: T -> bool)
    requires i < |s|
    ensures KeptIndices(s[..i + 1], p) == KeptIndices(s[..i], p) + (if p(s[i]) then [i] else [])
  {
    assert s[..i + 1][..i] == s[..i];
  }

  /** Every member of a filter result, stated for all elements at once. */
  lemma FilterMembers<T>(s: seq<T>, p: T -> bool)
    ensures forall x :: x in Filter(s, p) <==> x in s && p(x)
  {
    forall x
      ensures x in Filter(s, p) <==> x in s && p(x)
    {
      FilterMembership(s, p, x);
    }
  }

  /** Two predicates that agree on every element of `s` filter it alike. */
  lemma {:induction false} FilterSamePredicate<T>(s: seq<T>, p: T -> bool, q: T -> bool)
    requires forall k :: 0 <= k < |s| ==> p(s[k]) == q(s[k])
    ensures Filter(s, p) == Filter(s, q)
  {
    if |s| > 0 {
      FilterSamePredicate(s[..|s| - 1], p, q);
    }
  }

  /** `s[mask]` for a boolean mask of the same length. */
  function Select<T>(s: seq<T>, mask: seq<bool>): (r: seq<T>)
    requires |mask| == |s|
    ensures |r| <= |s|
    ensures forall x :: x in r ==> x in s
    ensures forall i :: 0 <= i < |s| && mask[i] ==> s[i] in r
  {
    if |s| == 0 then []
    else Select(s[..|s| - 1], mask[..|s| - 1]) + (if mask[|s| - 1] then [s[|s| - 1]] else [])
  }

  /** Selecting by a mask that records `p` is filtering by `p`. */
  lemma {:induction false} SelectIsFilter<T>(s: seq<T>, mask: seq<bool>, p: T -> bool)
    requires |mask| == |s|
    requires forall k :: 0 <= k < |s| ==> mask[k] == p(s[k])
    ensures Select(s, mask) == Filter(s, p)
  {
    if |s| > 0 {
      SelectIsFilter(s[..|s| - 1], mask[..|s| - 1], p);
    }
  }
}
