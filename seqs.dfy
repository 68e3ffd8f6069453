/** Sequence operations the scripts use through JavaScript's `filter` and `flatMap`
    and Python's list comprehensions, with the lemmas that pin down what they keep. */
module Seqs {
  import opened Wrappers

  /** The elements of `s` that satisfy `p`, in their order in `s` (`Array.prototype.filter`). */
  function Filter<T>(s: seq<T>, p: T -> bool): (r: seq<T>)
    ensures |r| <= |s|
    ensures forall k :: 0 <= k < |r| ==> p(r[k])
  {
    if s == [] then [] else (if p(s[0]) then [s[0]] else []) + Filter(s[1..], p)
  }

  lemma {:induction false} FilterAppend<T>(a: seq<T>, b: seq<T>, p: T -> bool)
    ensures Filter(a + b, p) == Filter(a, p) + Filter(b, p)
  {
    if a == [] {
      assert a + b == b;
    } else {
      assert (a + b)[0] == a[0];
      assert (a + b)[1..] == a[1..] + b;
      FilterAppend(a[1..], b, p);
    }
  }

  /** An element is kept exactly when it occurs in the input and satisfies the predicate. */
  lemma {:induction false} FilterMembers<T>(s: seq<T>, p: T -> bool, x: T)
    ensures x in Filter(s, p) <==> x in s && p(x)
  {
    if s != [] {
      FilterMembers(s[1..], p, x);
      assert s == [s[0]] + s[1..];
    }
  }

  /** The filter is an order-preserving selection: the kept elements sit at strictly increasing
      positions of the input, and a position is selected exactly when its element satisfies `p`. */
  lemma {:induction false} FilterSelection<T>(s: seq<T>, p: T -> bool) returns (idx: seq<nat>)
    ensures |idx| == |Filter(s, p)|
    ensures forall j :: 0 <= j < |idx| ==> idx[j] < |s| && Filter(s, p)[j] == s[idx[j]]
    ensures forall j, k :: 0 <= j < k < |idx| ==> idx[j] < idx[k]
    ensures forall i :: 0 <= i < |s| ==> (p(s[i]) <==> i in idx)
  {
    if s == [] {
      idx := [];
    } else {
      var init, last := s[..|s| - 1], s[|s| - 1];
      assert s == init + [last];
      var idx0 := FilterSelection(init, p);
      FilterAppend(init, [last], p);
      assert Filter([last], p) == (if p(last) then [last] else []) by {
        assert [last][1..] == [];
      }
      idx := SelectionStep(s, p, init, last, Filter(init, p), idx0);
    }
  }

  /** One step of `FilterSelection`: the selection of `init + [last]` from that of `init`. */
  lemma SelectionStep<T>(s: seq<T>, p: T -> bool, init: seq<T>, last: T, kept: seq<T>, idx0: seq<nat>)
    returns (idx: seq<nat>)
    requires s == init + [last]
    requires |idx0| == |kept|
    requires forall j :: 0 <= j < |idx0| ==> idx0[j] < |init| && kept[j] == init[idx0[j]]
    requires forall j, k :: 0 <= j < k < |idx0| ==> idx0[j] < idx0[k]
    requires forall i :: 0 <= i < |init| ==> (p(init[i]) <==> i in idx0)
    ensures idx == if p(last) then idx0 + [|init|] else idx0
    ensures |idx| == |kept + (if p(last) then [last] else [])|
    ensures forall j :: 0 <= j < |idx| ==> idx[j] < |s| && (kept + (if p(last) then [last] else []))[j] == s[idx[j]]
    ensures forall j, k :: 0 <= j < k < |idx| ==> idx[j] < idx[k]
    ensures forall i :: 0 <= i < |s| ==> (p(s[i]) <==> i in idx)
  {
    idx := if p(last) then idx0 + [|init|] else idx0;
    SelectionKeeps(s, p, init, last, kept, idx0, idx);
    SelectionMembers(s, p, init, last, idx0, idx);
  }

  /** The positions of the step pick out the kept elements. */
  lemma SelectionKeeps<T>(s: seq<T>, p: T -> bool, init: seq<T>, last: T, kept: seq<T>, idx0: seq<nat>, idx: seq<nat>)
    requires s == init + [last]
    requires |idx0| == |kept|
    requires forall j :: 0 <= j < |idx0| ==> idx0[j] < |init| && kept[j] == init[idx0[j]]
    requires idx == if p(last) then idx0 + [|init|] else idx0
    ensures forall j :: 0 <= j < |idx| ==> idx[j] < |s| && (kept + (if p(last) then [last] else []))[j] == s[idx[j]]
  {
    var extra: seq<T> := if p(last) then [last] else [];
    forall j | 0 <= j < |idx|
      ensures idx[j] < |s| && (kept + extra)[j] == s[idx[j]]
    {
      if j < |idx0| {
        assert idx[j] == idx0[j] && (kept + extra)[j] == kept[j];
        assert s[idx0[j]] == init[idx0[j]];
      }
    }
  }

  /** A position of `init + [last]` is among those of the step exactly when its element
      satisfies `p`. */
  lemma SelectionMembers<T>(s: seq<T>, p: T -> bool, init: seq<T>, last: T, idx0: seq<nat>, idx: seq<nat>)
    requires s == init + [last]
    requires forall j :: 0 <= j < |idx0| ==> idx0[j] < |init|
    requires forall i :: 0 <= i < |init| ==> (p(init[i]) <==> i in idx0)
    requires idx == if p(last) then idx0 + [|init|] else idx0
    ensures forall i :: 0 <= i < |s| ==> (p(s[i]) <==> i in idx)
  {
    forall i | 0 <= i < |s|
      ensures p(s[i]) <==> i in idx
    {
      if i < |init| {
        assert s[i] == init[i];
        assert i in idx <==> i in idx0;
      } else {
        assert s[i] == last;
        assert |init| !in idx0;
      }
    }
  }

  /** The position of the first element satisfying `p` (`findIndex`; `find` returns the
      element there), or `None` when no element does. */
  function FindIndex<T>(s: seq<T>, p: T -> bool): (r: Option<nat>)
    ensures r.Some? ==> r.value < |s| && p(s[r.value])
    ensures r.Some? ==> forall j :: 0 <= j < r.value ==> !p(s[j])
    ensures r.None? ==> forall i :: 0 <= i < |s| ==> !p(s[i])
  {
    if s == [] then None
    else if p(s[0]) then Some(0)
    else match FindIndex(s[1..], p)
      case None => None
      case Some(k) => Some(k + 1)
  }

  /** Concatenation of the inner sequences in order (`flatMap` with the identity). */
  function Flatten<T>(ss: seq<seq<T>>): seq<T>
  {
    if ss == [] then [] else ss[0] + Flatten(ss[1..])
  }

  lemma {:induction false} InFlatten<T>(ss: seq<seq<T>>, x: T)
    ensures x in Flatten(ss) <==> exists i :: 0 <= i < |ss| && x in ss[i]
  {
    if ss != [] {
      InFlatten(ss[1..], x);
      assert forall i :: 1 <= i < |ss| ==> ss[i] == ss[1..][i - 1];
    }
  }
}
