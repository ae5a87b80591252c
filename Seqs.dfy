/**
 * The array operations the components are written with (`Array.prototype.filter`,
 * `map` and `find`), as functions on sequences, with the facts about them that the
 * component lemmas are built from.
 */
module Seqs {
  import opened Wrappers

  /** `s.filter(p)`: the elements of `s` satisfying `p`, in their order in `s`. */
  function Filter<T>(s: seq<T>, p: T -> bool): (r: seq<T>)
    ensures |r| <= |s|
    ensures forall x :: x in r ==> x in s && p(x)
    ensures forall i :: 0 <= i < |s| && p(s[i]) ==> s[i] in r
    decreases |s|
  {
    if s == [] then []
    else (if p(s[0]) then [s[0]] else []) + Filter(s[1..], p)
  }

  /** `s.map(f)`. */
  function Map<T, U>(s: seq<T>, f: T -> U): (r: seq<U>)
    ensures |r| == |s|
    ensures forall i :: 0 <= i < |s| ==> r[i] == f(s[i])
  {
    seq(|s|, i requires 0 <= i < |s| => f(s[i]))
  }

  /** `s.findIndex(p)`, with "not found" as None: the first position whose element satisfies `p`. */
  function FindFirst<T>(s: seq<T>, p: T -> bool): (r: Option<nat>)
    ensures r.Some? ==> r.value < |s| && p(s[r.value])
    ensures r.Some? ==> forall j :: 0 <= j < r.value ==> !p(s[j])
    ensures r.None? <==> forall j :: 0 <= j < |s| ==> !p(s[j])
    decreases |s|
  {
    if s == [] then None
    else if p(s[0]) then Some(0)
    else
      match FindFirst(s[1..], p)
      case None => None
      case Some(k) => Some(k + 1)
  }

  /** `idx` lists strictly increasing positions of `s`, and `r` is the elements of `s` at them. */
  ghost predicate Embedding<T>(r: seq<T>, s: seq<T>, idx: seq<nat>)
  {
    && |idx| == |r|
    && (forall k :: 0 <= k < |idx| ==> idx[k] < |s| && r[k] == s[idx[k]])
    && (forall k, l :: 0 <= k < l < |idx| ==> idx[k] < idx[l])
  }

  /**
   * Filtering keeps exactly the positions whose element satisfies `p`, in increasing
   * order: the filtered sequence is the subsequence of `s` at those positions.
   */
  lemma {:induction false} FilterPositions<T>(s: seq<T>, p: T -> bool) returns (idx: seq<nat>)
    ensures Embedding(Filter(s, p), s, idx)
    ensures forall i :: 0 <= i < |s| ==> (p(s[i]) <==> i in idx)
    decreases |s|
  {
    if s == [] {
      idx := [];
    } else {
      var tail := Filter(s[1..], p);
      var rest := FilterPositions(s[1..], p);
      var shifted := Shift(tail, s, rest);
      if p(s[0]) {
        assert Filter(s, p) == [s[0]] + tail;
        idx := Prepend(tail, s, shifted);
      } else {
        assert Filter(s, p) == tail;
        idx := shifted;
        assert 0 !in idx;
      }
      forall i | 1 <= i < |s| ensures p(s[i]) <==> i in idx {
        assert s[i] == s[1..][i - 1];
      }
    }
  }

  /** Position 0 put in front of positions that are all greater than 0. */
  lemma {:induction false} Prepend<T>(r: seq<T>, s: seq<T>, shifted: seq<nat>) returns (idx: seq<nat>)
    requires |s| > 0 && Embedding(r, s, shifted)
    requires forall k :: 0 <= k < |shifted| ==> shifted[k] > 0
    ensures idx == [0] + shifted
    ensures Embedding([s[0]] + r, s, idx)
  {
    idx := [0] + shifted;
    forall k | 1 <= k < |idx| ensures idx[k] < |s| && ([s[0]] + r)[k] == s[idx[k]] {
      assert idx[k] == shifted[k - 1];
    }
  }

  /** Positions in `s[1..]` moved up by one become positions in `s`. */
  lemma {:induction false} Shift<T>(r: seq<T>, s: seq<T>, rest: seq<nat>) returns (shifted: seq<nat>)
    requires |s| > 0 && Embedding(r, s[1..], rest)
    ensures Embedding(r, s, shifted)
    ensures forall k :: 0 <= k < |shifted| ==> shifted[k] > 0
    ensures forall i :: 1 <= i < |s| ==> (i in shifted <==> i - 1 in rest)
    ensures forall k :: 0 <= k < |shifted| ==> shifted[k] == rest[k] + 1
  {
    shifted := seq(|rest|, k requires 0 <= k < |rest| => rest[k] + 1);
    forall i | 1 <= i < |s| ensures i in shifted <==> i - 1 in rest {
      if i in shifted {
        var k :| 0 <= k < |shifted| && shifted[k] == i;
        assert rest[k] == i - 1;
      }
      if i - 1 in rest {
        var k :| 0 <= k < |rest| && rest[k] == i - 1;
        assert shifted[k] == i;
      }
    }
  }

  /** Mapping distributes over concatenation. */
  lemma MapAppend<T, U>(a: seq<T>, b: seq<T>, f: T -> U)
    ensures Map(a + b, f) == Map(a, f) + Map(b, f)
  {
  }

  /** Filtering mapped elements is mapping the elements whose image passes. */
  lemma {:induction false} FilterMap<T, U>(s: seq<T>, f: T -> U, p: U -> bool, q: T -> bool)
    requires forall x :: q(x) == p(f(x))
    ensures Filter(Map(s, f), p) == Map(Filter(s, q), f)
    decreases |s|
  {
    if s != [] {
      assert Map(s, f) == [f(s[0])] + Map(s[1..], f);
      FilterMap(s[1..], f, p, q);
      MapAppend(if q(s[0]) then [s[0]] else [], Filter(s[1..], q), f);
    }
  }

  /**
   * Mapping the kept elements: every image comes from some element of `s` that
   * satisfies `p`, and every such element's image is present.
   */
  lemma {:induction false} FilterMapMembers<T, U>(s: seq<T>, p: T -> bool, f: T -> U)
    ensures forall y :: y in Map(Filter(s, p), f) ==> exists i :: 0 <= i < |s| && p(s[i]) && y == f(s[i])
    ensures forall i :: 0 <= i < |s| && p(s[i]) ==> f(s[i]) in Map(Filter(s, p), f)
  {
    var kept := Filter(s, p);
    var images := Map(kept, f);
    forall y | y in images
      ensures exists i :: 0 <= i < |s| && p(s[i]) && y == f(s[i])
    {
      var k :| 0 <= k < |images| && images[k] == y;
      assert kept[k] in kept;
      var i :| 0 <= i < |s| && s[i] == kept[k];
      assert p(s[i]) && y == f(s[i]);
    }
    forall i | 0 <= i < |s| && p(s[i])
      ensures f(s[i]) in images
    {
      var k :| 0 <= k < |kept| && kept[k] == s[i];
      assert images[k] == f(s[i]);
    }
  }

  /** Nothing is kept when no element satisfies `p`. */
  lemma {:induction false} FilterNone<T>(s: seq<T>, p: T -> bool)
    requires forall i :: 0 <= i < |s| ==> !p(s[i])
    ensures Filter(s, p) == []
    decreases |s|
  {
    if s != [] {
      assert forall i :: 0 <= i < |s[1..]| ==> s[1..][i] == s[i + 1];
      FilterNone(s[1..], p);
    }
  }

  /** Filtering distributes over concatenation. */
  lemma {:induction false} FilterAppend<T>(a: seq<T>, b: seq<T>, p: T -> bool)
    ensures Filter(a + b, p) == Filter(a, p) + Filter(b, p)
    decreases |a|
  {
    if a == [] {
      assert a + b == b;
    } else {
      assert (a + b)[1..] == a[1..] + b;
      FilterAppend(a[1..], b, p);
    }
  }
}
