/** Rooted trees given by the parent of each node, numbered in the order in which they were added,
    and their preorder. */
module Preorder {

  /** `a` is `p` or above it. */
  predicate Above(par: seq<int>, a: nat, p: nat)
    requires p < |par|
  {
    a == p || (0 <= par[p] < p && Above(par, a, par[p]))
  }

  /** Node 0 is the root, and every other node was added below the one before it or below a node
      above that one. */
  ghost predicate Grown(par: seq<int>) {
    && par != [] && par[0] == -1
    && (forall m :: 0 < m < |par| ==> 0 <= par[m] < m && Above(par, par[m], m - 1))
  }

  lemma {:induction false} AboveLess(par: seq<int>, a: nat, p: nat)
    requires p < |par| && Above(par, a, p)
    ensures a <= p
  {
    if a != p { AboveLess(par, a, par[p]); }
  }

  lemma {:induction false} AboveTrans(par: seq<int>, a: nat, b: nat, p: nat)
    requires p < |par| && Above(par, b, p) && b < |par| && Above(par, a, b)
    ensures Above(par, a, p)
  {
    if b != p { AboveTrans(par, a, b, par[p]); }
  }

  lemma {:induction false} RootAbove(par: seq<int>, p: nat)
    requires Grown(par) && p < |par|
    ensures Above(par, 0, p)
  {
    if p != 0 { RootAbove(par, par[p]); }
  }

  /** What is below a node was added in one go. */
  lemma {:induction false} BelowContiguous(par: seq<int>, a: nat, x: nat, m: nat)
    requires Grown(par) && a <= m <= x < |par| && Above(par, a, x)
    ensures Above(par, a, m)
  {
    if m < x {
      AboveLess(par, a, par[x]);
      AboveTrans(par, a, par[x], x - 1);
      BelowContiguous(par, a, x - 1, m);
    }
  }

  /** Adding nodes leaves what is above an old one as it was. */
  lemma {:induction false} AboveSnoc(par: seq<int>, v: int, a: nat, p: nat)
    requires p < |par|
    ensures Above(par + [v], a, p) == Above(par, a, p)
  {
    if 0 <= par[p] < p { AboveSnoc(par, v, a, par[p]); }
  }

  lemma GrownSnoc(par: seq<int>, p: nat)
    requires Grown(par) && p < |par| && Above(par, p, |par| - 1)
    ensures Grown(par + [p])
  {
    var q := par + [p];
    forall m | 0 < m < |q|
      ensures 0 <= q[m] < m && Above(q, q[m], m - 1)
    {
      AboveSnoc(par, p, q[m], m - 1);
    }
  }

  /** The children of `k`, in the order in which they were added. */
  function Kids(par: seq<int>, k: nat): (r: seq<nat>)
    ensures forall i :: 0 <= i < |r| ==> r[i] < |par| && par[r[i]] == k
  {
    if par == [] then []
    else
      var n := |par| - 1;
      Kids(par[..n], k) + if par[n] == k then [n] else []
  }

  lemma KidsSnoc(par: seq<int>, v: int, k: nat)
    ensures Kids(par + [v], k) == Kids(par, k) + if v == k then [|par|] else []
  {
    assert (par + [v])[..|par|] == par;
  }

  /** Nodes from `k` down, each before the subtrees of its children in turn. */
  function Pre(par: seq<int>, k: nat): seq<nat>
    requires Grown(par) && k < |par|
    decreases |par| - k, 1, 0
  {
    KidsAfter(par, k);
    [k] + PreAll(par, k, Kids(par, k))
  }

  function PreAll(par: seq<int>, k: nat, ks: seq<nat>): seq<nat>
    requires Grown(par) && k < |par|
    requires forall i :: 0 <= i < |ks| ==> k < ks[i] < |par|
    decreases |par| - k, 0, |ks|
  {
    if ks == [] then [] else PreAll(par, k, ks[..|ks| - 1]) + Pre(par, ks[|ks| - 1])
  }

  lemma {:induction false} KidsHas(par: seq<int>, k: nat, c: nat) returns (i: nat)
    requires c < |par| && par[c] == k
    ensures i < |Kids(par, k)| && Kids(par, k)[i] == c
  {
    var n := |par| - 1;
    if c == n {
      i := |Kids(par, k)| - 1;
    } else {
      i := KidsHas(par[..n], k, c);
    }
  }

  lemma {:induction false} KidsIncrease(par: seq<int>, k: nat, i: nat, j: nat)
    requires i < j < |Kids(par, k)|
    ensures Kids(par, k)[i] < Kids(par, k)[j]
  {
    var n := |par| - 1;
    if j < |Kids(par[..n], k)| { KidsIncrease(par[..n], k, i, j); }
  }

  /** Of two children of `k` the earlier is not above a node that the last node is below. */
  lemma EarlierNotAbove(par: seq<int>, p: nat, k: nat, c: nat, m: nat)
    requires Grown(par) && p < |par| && Above(par, p, |par| - 1)
    requires c < m < |par| && par[c] == k && par[m] == k
    ensures !Above(par, c, p)
  {
    if Above(par, c, p) {
      AboveTrans(par, c, p, |par| - 1);
      BelowContiguous(par, c, |par| - 1, m);
      AboveLess(par, c, k);
      assert false;
    }
  }

  /** The child of `k` on the way down to `p`. */
  lemma {:induction false} ChildToward(par: seq<int>, k: nat, p: nat) returns (c: nat)
    requires p < |par| && Above(par, k, p) && k != p
    ensures c < |par| && par[c] == k && Above(par, c, p)
  {
    if par[p] == k { c := p; } else { c := ChildToward(par, k, par[p]); }
  }

  lemma OnlyLastAbove(par: seq<int>, p: nat, k: nat)
    requires Grown(par) && p < |par| && Above(par, p, |par| - 1) && Above(par, k, p) && k != p
    ensures var ks := Kids(par, k);
            && ks != [] && Above(par, ks[|ks| - 1], p)
            && (forall i :: 0 <= i < |ks| - 1 ==> !Above(par, ks[i], p))
  {
    var ks := Kids(par, k);
    var c := ChildToward(par, k, p);
    var j := KidsHas(par, k, c);
    var last := |ks| - 1;
    if j < last {
      KidsIncrease(par, k, j, last);
      EarlierNotAbove(par, p, k, c, ks[last]);
    }
    forall i | 0 <= i < last
      ensures !Above(par, ks[i], p)
    {
      KidsIncrease(par, k, i, last);
      EarlierNotAbove(par, p, k, ks[i], ks[last]);
    }
  }

  lemma {:induction false} PreNew(par: seq<int>, p: nat)
    requires Grown(par + [p])
    ensures Pre(par + [p], |par|) == [|par|]
  {
    NoKids(par + [p], |par|);
  }

  lemma {:induction false} NoKids(par: seq<int>, k: nat)
    requires forall m :: 0 <= m < |par| ==> par[m] != k
    ensures Kids(par, k) == []
  {
    if par != [] { NoKids(par[..|par| - 1], k); }
  }

  lemma PreAllSnoc(par: seq<int>, k: nat, ks: seq<nat>, x: nat)
    requires Grown(par) && k < x < |par|
    requires forall i :: 0 <= i < |ks| ==> k < ks[i] < |par|
    ensures PreAll(par, k, ks + [x]) == PreAll(par, k, ks) + Pre(par, x)
  {
    assert (ks + [x])[..|ks|] == ks;
  }

  lemma {:induction false} PreAllKept(par: seq<int>, p: nat, k: nat, ks: seq<nat>)
    requires Grown(par) && Grown(par + [p]) && k < |par| && p < |par| && Above(par, p, |par| - 1)
    requires forall i :: 0 <= i < |ks| ==> k < ks[i] < |par| && !Above(par, ks[i], p)
    ensures PreAll(par + [p], k, ks) == PreAll(par, k, ks)
    decreases |par| - k, 0, |ks|
  {
    if ks != [] {
      PreAllKept(par, p, k, ks[..|ks| - 1]);
      PreSnoc(par, p, ks[|ks| - 1]);
    }
  }

  /** A subtree that does not get the new node is visited as before, and one that gets it is
      visited with the new node at the end. */
  lemma {:induction false} PreSnoc(par: seq<int>, p: nat, k: nat)
    requires Grown(par) && k < |par| && p < |par| && Above(par, p, |par| - 1)
    ensures Grown(par + [p])
    ensures Pre(par + [p], k) == Pre(par, k) + if Above(par, k, p) then [|par|] else []
    decreases |par| - k, 1, 0
  {
    hide Pre, PreAll, Grown, Kids;
    GrownSnoc(par, p);
    var q := par + [p];
    var ks := Kids(par, k);
    PreIs(par, k);
    PreIs(q, k);
    var was, n := PreAll(par, k, ks), [|par|];
    KidsSnoc(par, p, k);
    if k == p {
      NoneAbove(par, p, k);
      PreAllKept(par, p, k, ks);
      PreNew(par, p);
      PreAllSnoc(q, k, ks, |par|);
      assert [k] + (was + n) == [k] + was + n;
    } else {
      assert ks + [] == ks;
      if Above(par, k, p) {
        OnlyLastAbove(par, p, k);
        var front, last := ks[..|ks| - 1], ks[|ks| - 1];
        PreAllKept(par, p, k, front);
        PreSnoc(par, p, last);
        assert ks == front + [last];
        PreAllSnoc(par, k, front, last);
        PreAllSnoc(q, k, front, last);
        var x, y := PreAll(par, k, front), Pre(par, last);
        assert [k] + (x + (y + n)) == [k] + (x + y) + n;
      } else {
        NoneAbove(par, p, k);
        PreAllKept(par, p, k, ks);
        assert Pre(par, k) + [] == Pre(par, k);
      }
    }
  }

  lemma PreIs(par: seq<int>, k: nat)
    requires Grown(par) && k < |par|
    ensures forall i :: 0 <= i < |Kids(par, k)| ==> k < Kids(par, k)[i] < |par|
    ensures Pre(par, k) == [k] + PreAll(par, k, Kids(par, k))
  {
    KidsAfter(par, k);
  }

  lemma KidsAfter(par: seq<int>, k: nat)
    requires Grown(par)
    ensures forall i :: 0 <= i < |Kids(par, k)| ==> k < Kids(par, k)[i] < |par|
  {
    forall i | 0 <= i < |Kids(par, k)|
      ensures k < Kids(par, k)[i]
    {
      assert par[Kids(par, k)[i]] == k;
    }
  }

  /** No child of `k` is above `p`, when `k` itself is `p` or is not above it. */
  lemma NoneAbove(par: seq<int>, p: nat, k: nat)
    requires Grown(par) && p < |par| && (k == p || !Above(par, k, p))
    ensures forall i :: 0 <= i < |Kids(par, k)| ==> !Above(par, Kids(par, k)[i], p)
  {
    KidsAfter(par, k);
    forall i | 0 <= i < |Kids(par, k)|
      ensures !Above(par, Kids(par, k)[i], p)
    {
      var c := Kids(par, k)[i];
      if Above(par, c, p) {
        AboveLess(par, c, p);
        assert Above(par, k, c);
        AboveTrans(par, k, c, p);
      }
    }
  }

  function Upto(n: nat): (r: seq<nat>)
  {
    if n == 0 then [] else Upto(n - 1) + [n - 1]
  }

  /** The preorder of a grown tree is the order in which its nodes were added. */
  lemma {:induction false} PreorderIsOrder(par: seq<int>)
    requires Grown(par)
    ensures Pre(par, 0) == Upto(|par|)
  {
    var n := |par| - 1;
    if n == 0 {
      assert Kids(par, 0) == [] by { assert par[..0] == []; }
      assert Upto(1) == [0];
    } else {
      var front := par[..n];
      assert par == front + [par[n]];
      forall m | 0 < m < n
        ensures 0 <= front[m] < m && Above(front, front[m], m - 1)
      {
        AbovePrefix(par, n, par[m], m - 1);
      }
      AbovePrefix(par, n, par[n], n - 1);
      PreorderIsOrder(front);
      PreSnoc(front, par[n], 0);
      RootAbove(front, par[n]);
    }
  }

  lemma {:induction false} AbovePrefix(par: seq<int>, n: nat, a: nat, p: nat)
    requires p < n <= |par|
    ensures Above(par[..n], a, p) == Above(par, a, p)
  {
    if 0 <= par[p] < p { AbovePrefix(par, n, a, par[p]); }
  }
}
