/** Some of the elements of a sequence, from left to right, and their positions. */
module Positions {
  ghost predicate Increasing(p: seq<nat>, n: nat) {
    && (forall i | 0 <= i < |p| :: p[i] < n)
    && forall i, j | 0 <= i < j < |p| :: p[i] < p[j]
  }

  /** Where something turns true, if it is false first and true later. */
  lemma {:induction false} TurnsTrue(flags: seq<bool>, a: nat, b: nat) returns (k: nat)
    requires a < b < |flags| && !flags[a] && flags[b]
    ensures a <= k < b && !flags[k] && flags[k + 1]
    decreases b
  {
    if flags[b - 1] {
      k := TurnsTrue(flags, a, b - 1);
    } else {
      k := b - 1;
    }
  }

  lemma IncreasingSnoc(p: seq<nat>, n: nat)
    requires Increasing(p, n)
    ensures Increasing(p, n + 1) && Increasing(p + [n], n + 1)
    ensures n !in p && forall i: nat :: i in p + [n] <==> i in p || i == n
  {
  }

  lemma LastIsLargest(p: seq<nat>, n: nat)
    requires Increasing(p, n) && p != []
    ensures forall i: nat | i in p :: i <= p[|p| - 1]
    ensures Increasing(p[..|p| - 1], n)
    ensures forall i: nat :: i in p[..|p| - 1] <==> i in p && i != p[|p| - 1]
  {
    assert p == p[..|p| - 1] + [p[|p| - 1]];
  }

  /** Increasing positions are determined by which ones they are. */
  lemma {:induction false} SamePositions(p: seq<nat>, q: seq<nat>, n: nat)
    requires Increasing(p, n) && Increasing(q, n) && forall i: nat :: i in p <==> i in q
    ensures p == q
  {
    assert q != [] ==> q[0] in q;
    if p == [] {
    } else {
      assert p[0] in q;
      LastIsLargest(p, n);
      LastIsLargest(q, n);
      assert p[|p| - 1] in q && q[|q| - 1] in p;
      assert p[|p| - 1] == q[|q| - 1];
      var p', q' := p[..|p| - 1], q[..|q| - 1];
      forall i: nat ensures i in p' <==> i in q' {
        assert i in p <==> i in q;
      }
      SamePositions(p', q', n);
      assert p == p' + [p[|p| - 1]] && q == q' + [q[|q| - 1]];
    }
  }

  /** The elements of `xs` at the positions `p` are `ys`. */
  ghost predicate Picks<T>(p: seq<nat>, xs: seq<T>, ys: seq<T>) {
    Increasing(p, |xs|) && |ys| == |p| && forall k | 0 <= k < |p| :: xs[p[k]] == ys[k]
  }

  ghost predicate Covers<T(!new)>(p: seq<nat>, xs: seq<T>, keep: T -> bool) {
    forall i | 0 <= i < |xs| :: keep(xs[i]) <==> i in p
  }

  function Filter<T>(xs: seq<T>, keep: T -> bool): seq<T> {
    if xs == [] then []
    else
      var n := |xs| - 1;
      if keep(xs[n]) then Filter(xs[..n], keep) + [xs[n]] else Filter(xs[..n], keep)
  }

  lemma PickOne<T>(p: seq<nat>, xs: seq<T>, ys: seq<T>, x: T)
    requires Picks(p, xs, ys)
    ensures Picks(p, xs + [x], ys) && Picks(p + [|xs|], xs + [x], ys + [x])
  {
  }

  lemma CoverOne<T(!new)>(p: seq<nat>, xs: seq<T>, x: T, keep: T -> bool)
    requires Increasing(p, |xs|) && Covers(p, xs, keep)
    ensures Covers(if keep(x) then p + [|xs|] else p, xs + [x], keep)
  {
    var q := if keep(x) then p + [|xs|] else p;
    forall i | 0 <= i < |xs + [x]| ensures keep((xs + [x])[i]) <==> i in q {
      if i < |xs| {
        assert keep(xs[i]) <==> i in p;
      } else {
        assert i !in p;
        assert keep(x) ==> q[|p|] == i;
      }
    }
  }

  lemma FilterOne<T(!new)>(p: seq<nat>, xs: seq<T>, ys: seq<T>, x: T, all: seq<T>, zs: seq<T>, keep: T -> bool)
    returns (q: seq<nat>)
    requires Picks(p, xs, ys) && Covers(p, xs, keep)
    requires all == xs + [x] && zs == if keep(x) then ys + [x] else ys
    ensures Picks(q, all, zs) && Covers(q, all, keep)
  {
    PickOne(p, xs, ys, x);
    CoverOne(p, xs, x, keep);
    q := if keep(x) then p + [|xs|] else p;
  }

  /** A filtered sequence has exactly the elements to keep, in their order. */
  lemma {:induction false} FilterPicks<T(!new)>(xs: seq<T>, keep: T -> bool) returns (p: seq<nat>)
    ensures Picks(p, xs, Filter(xs, keep)) && Covers(p, xs, keep)
  {
    if xs == [] {
      p := [];
    } else {
      var n := |xs| - 1;
      assert xs == xs[..n] + [xs[n]];
      p := FilterPicks(xs[..n], keep);
      p := FilterOne(p, xs[..n], Filter(xs[..n], keep), xs[n], xs, Filter(xs, keep), keep);
    }
  }
}
