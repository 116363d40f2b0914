/** Runs of the machine, and what it means for a piece of code to produce a list of outcomes
    in order, one each time it is backtracked into. */
module Traces {
  import opened Semantics
  import opened Machine

  ghost predicate Reach(P: Prog, s: State, t: State) {
    exists n: nat :: Steps(P, s, n) == t
  }

  lemma {:induction false} StepsAdd(P: Prog, s: State, m: nat, n: nat)
    ensures Steps(P, s, m + n) == Steps(P, Steps(P, s, m), n)
    decreases m
  {
    hide Step;
    if m > 0 {
      StepsAdd(P, Step(P, s), m - 1, n);
    }
  }

  lemma ReachRefl(P: Prog, s: State)
    ensures Reach(P, s, s)
  {
    assert Steps(P, s, 0) == s;
  }

  lemma ReachStep(P: Prog, s: State)
    ensures Reach(P, s, Step(P, s))
  {
    hide Step;
    assert Steps(P, Step(P, s), 0) == Step(P, s);
    assert Steps(P, s, 1) == Step(P, s);
  }

  lemma ReachTrans(P: Prog, s: State, t: State, u: State)
    requires Reach(P, s, t) && Reach(P, t, u)
    ensures Reach(P, s, u)
  {
    hide Step, Steps;
    var m: nat :| Steps(P, s, m) == t;
    var n: nat :| Steps(P, t, n) == u;
    StepsAdd(P, s, m, n);
  }

  /** `bt'` adds to `bt` only entries at which matching can resume: no lookaround is pending. */
  ghost predicate Extends(bt': seq<Entry>, bt: seq<Entry>) {
    && |bt| <= |bt'|
    && bt'[..|bt|] == bt
    && forall k :: |bt| <= k < |bt'| ==> !bt'[k].Ahead?
  }

  lemma ExtendsRefl(bt: seq<Entry>)
    ensures Extends(bt, bt)
  {
  }

  lemma ExtendsTrans(bt'': seq<Entry>, bt': seq<Entry>, bt: seq<Entry>)
    requires Extends(bt'', bt') && Extends(bt', bt)
    ensures Extends(bt'', bt)
  {
    assert bt''[..|bt|] == bt''[..|bt'|][..|bt|];
    forall k | |bt| <= k < |bt''|
      ensures !bt''[k].Ahead?
    {
      if k < |bt'| {
        assert bt''[..|bt'|][k] == bt'[k];
      }
    }
  }

  lemma ExtendsPush(bt: seq<Entry>, e: Entry)
    requires !e.Ahead?
    ensures Extends(bt + [e], bt)
  {
  }

  function At(pc: int, m: M, stk: seq<int>, bt: seq<Entry>): State {
    Run(pc, m.pos, m.caps, stk, bt)
  }

  /** From `s` the machine arrives at `pc` for each of `outs`, in that order: in outs[0], and each
      time it then fails back, in the next one. The operand stack is `stk` at every arrival; when
      the outcomes are used up, the machine is failing back into `bt`. If what follows at `pc`
      fails at once, an arrival may be left out; Arrivals.TermExact rules that out. */
  ghost predicate Yields(P: Prog, s: State, outs: seq<M>, pc: int, stk: seq<int>, bt: seq<Entry>)
    decreases |outs|
  {
    if outs == [] then Reach(P, s, Fail(bt))
    else exists bt' :: YieldsVia(P, s, outs, pc, stk, bt, bt')
  }

  ghost predicate YieldsVia(P: Prog, s: State, outs: seq<M>, pc: int, stk: seq<int>, bt: seq<Entry>, bt': seq<Entry>)
    requires outs != []
    decreases |outs|, 0
  {
    && Extends(bt', bt)
    && Reach(P, s, At(pc, outs[0], stk, bt'))
    && Yields(P, Fail(bt'), outs[1..], pc, stk, bt)
  }

  lemma YieldsPrefix(P: Prog, s: State, t: State, outs: seq<M>, pc: int, stk: seq<int>, bt: seq<Entry>)
    requires Reach(P, s, t) && Yields(P, t, outs, pc, stk, bt)
    ensures Yields(P, s, outs, pc, stk, bt)
  {
    hide Reach;
    if outs == [] {
      ReachTrans(P, s, t, Fail(bt));
    } else {
      var bt' :| YieldsVia(P, t, outs, pc, stk, bt, bt');
      ReachTrans(P, s, t, At(pc, outs[0], stk, bt'));
      assert YieldsVia(P, s, outs, pc, stk, bt, bt');
    }
  }

  lemma YieldsStep(P: Prog, s: State, outs: seq<M>, pc: int, stk: seq<int>, bt: seq<Entry>)
    requires Yields(P, Step(P, s), outs, pc, stk, bt)
    ensures Yields(P, s, outs, pc, stk, bt)
  {
    hide Step;
    ReachStep(P, s);
    YieldsPrefix(P, s, Step(P, s), outs, pc, stk, bt);
  }

  lemma YieldsOne(P: Prog, m: M, pc: int, stk: seq<int>, bt: seq<Entry>)
    ensures Yields(P, At(pc, m, stk, bt), [m], pc, stk, bt)
  {
    hide Reach;
    var s := At(pc, m, stk, bt);
    ReachRefl(P, s);
    ReachRefl(P, Fail(bt));
    assert [m][1..] == [];
    assert YieldsVia(P, s, [m], pc, stk, bt, bt);
  }

  lemma YieldsNone(P: Prog, pc: int, stk: seq<int>, bt: seq<Entry>)
    ensures Yields(P, Fail(bt), [], pc, stk, bt)
  {
    hide Reach;
    ReachRefl(P, Fail(bt));
  }

  /** First one source of outcomes, then, from the choice point below it, another. */
  lemma {:induction false} YieldsAppend(P: Prog, s: State, outs1: seq<M>, outs2: seq<M>, pc: int, stk: seq<int>,
                                        bt1: seq<Entry>, bt: seq<Entry>)
    requires Extends(bt1, bt)
    requires Yields(P, s, outs1, pc, stk, bt1)
    requires Yields(P, Fail(bt1), outs2, pc, stk, bt)
    ensures Yields(P, s, outs1 + outs2, pc, stk, bt)
    decreases |outs1|
  {
    hide Reach, Extends;
    if outs1 == [] {
      assert outs1 + outs2 == outs2;
      YieldsPrefix(P, s, Fail(bt1), outs2, pc, stk, bt);
    } else {
      var bt' :| YieldsVia(P, s, outs1, pc, stk, bt1, bt');
      YieldsAppend(P, Fail(bt'), outs1[1..], outs2, pc, stk, bt1, bt);
      ExtendsTrans(bt', bt1, bt);
      assert (outs1 + outs2)[1..] == outs1[1..] + outs2;
      assert YieldsVia(P, s, outs1 + outs2, pc, stk, bt, bt');
    }
  }

  ghost function Concat(lists: seq<seq<M>>): seq<M> {
    if lists == [] then [] else lists[0] + Concat(lists[1..])
  }

  /** Sequential composition: if from every outcome at `mid` the continuation yields its own
      list, the whole yields the concatenation of those lists. */
  lemma {:induction false} YieldsBind(P: Prog, s: State, ms: seq<M>, lists: seq<seq<M>>, mid: int, stk: seq<int>,
                                      pc: int, stk': seq<int>, bt: seq<Entry>)
    requires |lists| == |ms|
    requires Yields(P, s, ms, mid, stk, bt)
    requires forall i, bt' :: 0 <= i < |ms| && Extends(bt', bt) ==>
        Yields(P, At(mid, ms[i], stk, bt'), lists[i], pc, stk', bt')
    ensures Yields(P, s, Concat(lists), pc, stk', bt)
    decreases |ms|
  {
    hide Reach, Extends;
    if ms != [] {
      var bt' :| YieldsVia(P, s, ms, mid, stk, bt, bt');
      YieldsPrefix(P, s, At(mid, ms[0], stk, bt'), lists[0], pc, stk', bt');
      YieldsBind(P, Fail(bt'), ms[1..], lists[1..], mid, stk, pc, stk', bt);
      YieldsAppend(P, s, lists[0], Concat(lists[1..]), pc, stk', bt', bt);
    }
  }
}
