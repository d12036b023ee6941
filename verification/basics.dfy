/** Optional values (the model's stand-in for a dictionary key that may be
    absent and for Python's `None`) and row selection (a pandas boolean mask,
    `df[mask]`). */
module Basics {

  datatype Option<T> = None | Some(value: T) {

    /** The value, or `default` when there is none (`dict.get(key, default)`). */
    function GetOr(default: T): T
    {
      match this
      case Some(v) => v
      case None => default
    }
  }

  // ---------------------------------------------------------------------
  // Selecting the elements a test accepts, in order.

  /** `ps` lists, in increasing order, exactly the positions of `xs` whose
      elements `keep` accepts. Such a list is unique. */
  predicate AcceptedPositions<T>(xs: seq<T>, keep: T -> bool, ps: seq<nat>)
  {
    && (forall j :: 0 <= j < |ps| ==> ps[j] < |xs| && keep(xs[ps[j]]))
    && (forall j, k :: 0 <= j < k < |ps| ==> ps[j] < ps[k])
    && (forall i :: 0 <= i < |xs| && keep(xs[i]) ==> i in ps)
  }

  /** The positions of `xs` whose elements `keep` accepts, in increasing
      order. */
  function Positions<T>(xs: seq<T>, keep: T -> bool): (ps: seq<nat>)
    ensures AcceptedPositions(xs, keep, ps)
    decreases |xs|
  {
    if xs == [] then []
    else
      var rest := Positions(xs[1..], keep);
      PositionsCons(xs, keep, rest);
      (if keep(xs[0]) then [0] else []) + Shift(rest)
  }

  /** The positions in `xs` are position 0 when accepted, then those of
      `xs[1..]` moved one place right. */
  lemma PositionsCons<T>(xs: seq<T>, keep: T -> bool, rest: seq<nat>)
    requires xs != [] && AcceptedPositions(xs[1..], keep, rest)
    ensures AcceptedPositions(xs, keep, (if keep(xs[0]) then [0] else []) + Shift(rest))
  {
    var head: seq<nat> := if keep(xs[0]) then [0] else [];
    ConsAccepted(xs, keep, head, rest);
    ConsIncreasing(head, rest);
    ConsComplete(xs, keep, head, rest);
  }

  lemma ConsAccepted<T>(xs: seq<T>, keep: T -> bool, head: seq<nat>, rest: seq<nat>)
    requires xs != [] && AcceptedPositions(xs[1..], keep, rest)
    requires head == if keep(xs[0]) then [0] else []
    ensures var ps := head + Shift(rest);
      forall j :: 0 <= j < |ps| ==> ps[j] < |xs| && keep(xs[ps[j]])
  {
    var shifted := Shift(rest);
    var ps := head + shifted;
    forall j | 0 <= j < |ps| ensures ps[j] < |xs| && keep(xs[ps[j]]) {
      if j >= |head| {
        var k := j - |head|;
        assert ps[j] == shifted[k] == rest[k] + 1;
        assert xs[rest[k] + 1] == xs[1..][rest[k]];
      }
    }
  }

  lemma ConsIncreasing(head: seq<nat>, rest: seq<nat>)
    requires head == [] || head == [0]
    requires forall j, k :: 0 <= j < k < |rest| ==> rest[j] < rest[k]
    ensures var ps := head + Shift(rest);
      forall j, k :: 0 <= j < k < |ps| ==> ps[j] < ps[k]
  {
    var shifted := Shift(rest);
    var ps := head + shifted;
    forall j, k | 0 <= j < k < |ps| ensures ps[j] < ps[k] {
      assert ps[k] == shifted[k - |head|];
      if j >= |head| {
        assert ps[j] == shifted[j - |head|];
      }
    }
  }

  lemma ConsComplete<T>(xs: seq<T>, keep: T -> bool, head: seq<nat>, rest: seq<nat>)
    requires xs != [] && AcceptedPositions(xs[1..], keep, rest)
    requires head == if keep(xs[0]) then [0] else []
    ensures var ps := head + Shift(rest);
      forall i :: 0 <= i < |xs| && keep(xs[i]) ==> i in ps
  {
    var shifted := Shift(rest);
    var ps := head + shifted;
    forall i | 0 <= i < |xs| && keep(xs[i]) ensures i in ps {
      if i > 0 {
        assert keep(xs[1..][i - 1]);
        assert i - 1 in rest;
        var j :| 0 <= j < |rest| && rest[j] == i - 1;
        assert ps[|head| + j] == i;
      } else {
        assert ps[0] == 0;
      }
    }
  }

  /** There are at most as many positions as elements. */
  lemma {:induction false} PositionsBound<T>(xs: seq<T>, keep: T -> bool)
    ensures |Positions(xs, keep)| <= |xs|
    decreases |xs|
  {
    if xs != [] {
      PositionsBound(xs[1..], keep);
    }
  }

  /** When no element is accepted there are no positions. */
  lemma {:induction false} NoneAccepted<T>(xs: seq<T>, keep: T -> bool)
    requires forall i :: 0 <= i < |xs| ==> !keep(xs[i])
    ensures Positions(xs, keep) == []
    decreases |xs|
  {
    if xs != [] {
      assert forall i :: 0 <= i < |xs[1..]| ==> xs[1..][i] == xs[i + 1];
      NoneAccepted(xs[1..], keep);
    }
  }

  /** Every position moved one place to the right. */
  function Shift(ps: seq<nat>): (qs: seq<nat>)
    ensures |qs| == |ps| && forall j :: 0 <= j < |ps| ==> qs[j] == ps[j] + 1
  {
    seq(|ps|, j requires 0 <= j < |ps| => ps[j] + 1)
  }

  /** `rs` is `xs` with exactly the elements `keep` accepts, each as often as
      in `xs` and in the order of `xs`. */
  predicate KeptInOrder<T(==)>(xs: seq<T>, rs: seq<T>, keep: T -> bool)
  {
    var ps := Positions(xs, keep);
    |rs| == |ps| && forall j :: 0 <= j < |rs| ==> rs[j] == xs[ps[j]]
  }

  /** `xs[mask]` for the mask `keep`: the accepted elements, in order. */
  function Filter<T(==,!new)>(xs: seq<T>, keep: T -> bool): (rs: seq<T>)
    ensures KeptInOrder(xs, rs, keep)
    ensures forall x :: x in rs <==> x in xs && keep(x)
    decreases |xs|
  {
    if xs == [] then []
    else
      var rest := Filter(xs[1..], keep);
      var rs := if keep(xs[0]) then [xs[0]] + rest else rest;
      ConsKept(xs, keep, rest, rs);
      ConsMembers(xs, keep, rest, rs);
      rs
  }

  lemma ConsKept<T>(xs: seq<T>, keep: T -> bool, rest: seq<T>, rs: seq<T>)
    requires xs != [] && KeptInOrder(xs[1..], rest, keep)
    requires rs == if keep(xs[0]) then [xs[0]] + rest else rest
    ensures KeptInOrder(xs, rs, keep)
  {
    var qs := Positions(xs[1..], keep);
    ShiftedPick(xs, rest, qs, rs, keep(xs[0]));
  }

  /** Picking `xs[0]` or not, then the picks `qs` of `xs[1..]`, is picking
      the shifted positions of `xs`. */
  lemma ShiftedPick<T>(xs: seq<T>, rest: seq<T>, qs: seq<nat>, rs: seq<T>, first: bool)
    requires xs != [] && |rest| == |qs|
    requires forall k :: 0 <= k < |qs| ==> qs[k] < |xs| - 1 && rest[k] == xs[1..][qs[k]]
    requires rs == if first then [xs[0]] + rest else rest
    ensures var ps := (if first then [0] else []) + Shift(qs);
      |rs| == |ps| && forall j :: 0 <= j < |rs| ==> rs[j] == xs[ps[j]]
  {
    var head: seq<nat> := if first then [0] else [];
    var ps := head + Shift(qs);
    forall j | 0 <= j < |rs| ensures rs[j] == xs[ps[j]] {
      if j >= |head| {
        var k := j - |head|;
        assert rs[j] == rest[k] == xs[1..][qs[k]];
        assert ps[j] == Shift(qs)[k] == qs[k] + 1;
      }
    }
  }

  lemma ConsMembers<T(!new)>(xs: seq<T>, keep: T -> bool, rest: seq<T>, rs: seq<T>)
    requires xs != [] && forall x :: x in rest <==> x in xs[1..] && keep(x)
    requires rs == if keep(xs[0]) then [xs[0]] + rest else rest
    ensures forall x :: x in rs <==> x in xs && keep(x)
  {
    assert forall x :: x in xs <==> x == xs[0] || x in xs[1..];
  }
}
