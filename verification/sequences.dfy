/** `Array.prototype.filter` over sequences, with the facts the portal's list
    handling depends on. */
module Sequences {

  /** `xs.filter(keep)`. */
  function Filter<T>(xs: seq<T>, keep: T -> bool): (r: seq<T>)
    ensures |r| <= |xs|
    ensures forall i :: 0 <= i < |r| ==> keep(r[i])
    decreases |xs|
  {
    if xs == [] then []
    else
      var last := xs[|xs| - 1];
      Filter(xs[..|xs| - 1], keep) + (if keep(last) then [last] else [])
  }

  /** The positions `idx` pick out exactly the kept elements of `xs`, in
      order. */
  ghost predicate KeptPositions<T>(xs: seq<T>, keep: T -> bool, r: seq<T>, idx: seq<nat>) {
    && |idx| == |r|
    && (forall i, j :: 0 <= i < j < |idx| ==> idx[i] < idx[j])
    && (forall i :: 0 <= i < |idx| ==> idx[i] < |xs| && r[i] == xs[idx[i]])
    && (forall j :: 0 <= j < |xs| && keep(xs[j]) ==> j in idx)
  }

  /** The filtered sequence is the input restricted to its kept positions,
      in their original order. */
  lemma {:induction false} FilterPositions<T>(xs: seq<T>, keep: T -> bool) returns (idx: seq<nat>)
    ensures KeptPositions(xs, keep, Filter(xs, keep), idx)
    decreases |xs|
  {
    if xs == [] {
      idx := [];
    } else {
      var n := |xs| - 1;
      var init := xs[..n];
      var rest := FilterPositions(init, keep);
      assert forall j :: 0 <= j < n ==> init[j] == xs[j];
      if keep(xs[n]) {
        idx := rest + [n];
      } else {
        idx := rest;
      }
    }
  }

  /** An element is kept exactly when it occurs in the input and passes. */
  lemma FilterMembers<T>(xs: seq<T>, keep: T -> bool, x: T)
    ensures x in Filter(xs, keep) <==> x in xs && keep(x)
  {
    var idx := FilterPositions(xs, keep);
    var r := Filter(xs, keep);
    if x in r {
      var i :| 0 <= i < |r| && r[i] == x;
      assert xs[idx[i]] == x;
    }
    if x in xs && keep(x) {
      var j :| 0 <= j < |xs| && xs[j] == x;
      var i :| 0 <= i < |idx| && idx[i] == j;
      assert r[i] == x;
    }
  }

  /** The positions of `xs` whose element passes `keep`. */
  ghost function PassingPositions<T>(xs: seq<T>, keep: T -> bool): set<int> {
    set i | 0 <= i < |xs| && keep(xs[i])
  }

  /** `filter(keep).length` counts the positions whose element passes. */
  lemma {:induction false} FilterCount<T>(xs: seq<T>, keep: T -> bool)
    ensures |Filter(xs, keep)| == |PassingPositions(xs, keep)|
    decreases |xs|
  {
    if xs != [] {
      var n := |xs| - 1;
      var init := xs[..n];
      FilterCount(init, keep);
      var before := PassingPositions(init, keep);
      var after := PassingPositions(xs, keep);
      if keep(xs[n]) {
        assert after == before + {n};
        assert n !in before;
      } else {
        assert after == before;
      }
    }
  }

  /** Filtering with a predicate and with its negation splits the sequence. */
  lemma {:induction false} FilterComplement<T>(xs: seq<T>, keep: T -> bool, drop: T -> bool)
    requires forall x :: drop(x) == !keep(x)
    ensures |Filter(xs, keep)| + |Filter(xs, drop)| == |xs|
    decreases |xs|
  {
    if xs != [] {
      FilterComplement(xs[..|xs| - 1], keep, drop);
    }
  }

  /** Filtering with a weaker predicate keeps at least as much. */
  lemma {:induction false} FilterMonotone<T>(xs: seq<T>, strong: T -> bool, weak: T -> bool)
    requires forall x :: strong(x) ==> weak(x)
    ensures |Filter(xs, strong)| <= |Filter(xs, weak)|
    decreases |xs|
  {
    if xs != [] {
      FilterMonotone(xs[..|xs| - 1], strong, weak);
    }
  }

  /** Filtering with a predicate every element meets changes nothing. */
  lemma {:induction false} FilterAll<T>(xs: seq<T>, keep: T -> bool)
    requires forall i :: 0 <= i < |xs| ==> keep(xs[i])
    ensures Filter(xs, keep) == xs
    decreases |xs|
  {
    if xs != [] {
      var init := xs[..|xs| - 1];
      assert forall i :: 0 <= i < |init| ==> init[i] == xs[i];
      FilterAll(init, keep);
    }
  }

  /** Filtering distributes over concatenation. */
  lemma {:induction false} FilterAppend<T>(xs: seq<T>, ys: seq<T>, keep: T -> bool)
    ensures Filter(xs + ys, keep) == Filter(xs, keep) + Filter(ys, keep)
    decreases |ys|
  {
    if ys == [] {
      assert xs + ys == xs;
    } else {
      var zs := xs + ys;
      assert zs[..|zs| - 1] == xs + ys[..|ys| - 1];
      assert zs[|zs| - 1] == ys[|ys| - 1];
      FilterAppend(xs, ys[..|ys| - 1], keep);
    }
  }
}
