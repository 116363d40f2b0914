/** The control-flow idioms of emitted code, each proved against the reference semantics for
    every state it can be entered in: choices, checked iterations, counted and unbounded
    loops. What the atom does is a hypothesis (Implements). */
module Loops {
  import opened Options
  import opened Bytes
  import opened Opcodes
  import opened Syntax
  import opened Semantics
  import opened Soundness
  import opened Machine
  import opened Traces

  /** The code in [a, b) yields the outcomes of `t`, whatever lies on either stack. */
  ghost predicate Implements(P: Prog, md: Mode, cc: nat, t: Term, a: int, b: int) {
    forall m, stk, bt :: Sound(P.env, m) ==>
      Yields(P, At(a, m, stk, bt), SemTerm(P.env, md, cc, t, m), b, stk, bt)
  }

  /** Every match of `t` moves the position. */
  ghost predicate AlwaysMoves(e: Env, md: Mode, cc: nat, t: Term) {
    forall m, i :: Sound(e, m) && 0 <= i < |SemTerm(e, md, cc, t, m)| ==>
      Left(e, md.back, SemTerm(e, md, cc, t, m)[i].pos) < Left(e, md.back, m.pos)
  }

  predicate Is(P: Prog, pc: int, i: Instr) {
    pc >= 0 && Decode(P.code, pc) == Some(i)
  }

  /** Entered at `pc` in the state `m`, the code up to `end` yields `outs`, on top of any choices. */
  ghost predicate AlwaysYields(P: Prog, pc: int, m: M, stk: seq<int>, outs: seq<M>, end: int, stk': seq<int>) {
    forall bt :: Yields(P, At(pc, m, stk, bt), outs, end, stk', bt)
  }

  lemma AlwaysYieldsOne(P: Prog, m: M, pc: int, stk: seq<int>)
    ensures AlwaysYields(P, pc, m, stk, [m], pc, stk)
  {
    hide Yields;
    forall bt ensures Yields(P, At(pc, m, stk, bt), [m], pc, stk, bt) {
      YieldsOne(P, m, pc, stk, bt);
    }
  }

  /** A split yields the outcomes of both branches, the preferred one first. */
  lemma ChoiceYields(P: Prog, pc: int, gotoFirst: bool, off: int, m: M, stk: seq<int>, bt: seq<Entry>,
                     next: seq<M>, target: seq<M>, end: int, stk': seq<int>)
    requires Is(P, pc, Split(gotoFirst, off))
    requires AlwaysYields(P, pc + 5, m, stk, next, end, stk')
    requires AlwaysYields(P, pc + 5 + off, m, stk, target, end, stk')
    ensures Yields(P, At(pc, m, stk, bt), if gotoFirst then target + next else next + target, end, stk', bt)
  {
    hide Reach, Yields;
    var s := At(pc, m, stk, bt);
    var other := if gotoFirst then pc + 5 else pc + 5 + off;
    var bt1 := bt + [Choice(other, m.pos, m.caps, stk)];
    assert Step(P, s) == At(if gotoFirst then pc + 5 + off else pc + 5, m, stk, bt1);
    assert bt1[..|bt1| - 1] == bt;
    assert Step(P, Fail(bt1)) == At(other, m, stk, bt);
    ExtendsPush(bt, Choice(other, m.pos, m.caps, stk));
    var first, second := if gotoFirst then target else next, if gotoFirst then next else target;
    YieldsStep(P, Fail(bt1), second, end, stk', bt);
    YieldsAppend(P, Step(P, s), first, second, end, stk', bt1, bt);
    YieldsStep(P, s, first + second, end, stk', bt);
  }

  /** The outcomes that have moved on from `m`. */
  ghost function Moving(e: Env, back: bool, m: M, ms: seq<M>): (r: seq<M>)
    ensures forall i :: 0 <= i < |r| ==> r[i] in ms && Left(e, back, r[i].pos) < Left(e, back, m.pos)
  {
    if ms == [] then []
    else (if Left(e, back, ms[0].pos) < Left(e, back, m.pos) then [ms[0]] else []) + Moving(e, back, m, ms[1..])
  }

  lemma {:induction false} MovingAll(e: Env, back: bool, m: M, ms: seq<M>)
    requires forall i :: 0 <= i < |ms| ==> Left(e, back, ms[i].pos) < Left(e, back, m.pos)
    ensures Moving(e, back, m, ms) == ms
  {
    if ms != [] {
      MovingAll(e, back, m, ms[1..]);
    }
  }

  /** The result of an iteration's position check, outcome by outcome. */
  ghost function Checked(m: M, ms: seq<M>): (r: seq<seq<M>>)
    ensures |r| == |ms|
    ensures forall i :: 0 <= i < |r| ==> r[i] == If(ms[i].pos != m.pos, ms[i])
  {
    seq(|ms|, i requires 0 <= i < |ms| => If(ms[i].pos != m.pos, ms[i]))
  }

  lemma {:induction false} CheckedIsMoving(e: Env, back: bool, m: M, ms: seq<M>)
    requires Sound(e, m) && AllOnward(e, back, m, ms)
    ensures Concat(Checked(m, ms)) == Moving(e, back, m, ms)
  {
    if ms != [] {
      assert Onward(e, back, m, ms[0]);
      assert Checked(m, ms)[1..] == Checked(m, ms[1..]);
      CheckedIsMoving(e, back, m, ms[1..]);
    }
  }

  /** One guarded iteration: push_char_pos, the atom, check_advance. */
  lemma CheckedYields(P: Prog, md: Mode, cc: nat, t: Term, a: int, b: int, m: M, stk: seq<int>, bt: seq<Entry>)
    requires Sound(P.env, m) && Implements(P, md, cc, t, a, b)
    requires Is(P, a - 1, PushCharPos) && Is(P, b, CheckAdvance)
    ensures Yields(P, At(a - 1, m, stk, bt), Moving(P.env, md.back, m, SemTerm(P.env, md, cc, t, m)), b + 1, stk, bt)
  {
    hide Reach, Yields, SemTerm, Moving, Sound;
    var ms := SemTerm(P.env, md, cc, t, m);
    var stk1 := stk + [m.pos];
    var lists := Checked(m, ms);
    forall i, bt' | 0 <= i < |ms| && Extends(bt', bt)
      ensures Yields(P, At(b, ms[i], stk1, bt'), lists[i], b + 1, stk, bt')
    {
      var s := At(b, ms[i], stk1, bt');
      assert stk1[..|stk1| - 1] == stk;
      if ms[i].pos == m.pos {
        assert Step(P, s) == Fail(bt');
        YieldsNone(P, b + 1, stk, bt');
      } else {
        assert Step(P, s) == At(b + 1, ms[i], stk, bt');
        YieldsOne(P, ms[i], b + 1, stk, bt');
      }
      YieldsStep(P, s, lists[i], b + 1, stk, bt');
    }
    var s := At(a - 1, m, stk, bt);
    assert Step(P, s) == At(a, m, stk1, bt);
    YieldsBind(P, Step(P, s), ms, lists, b, stk1, b + 1, stk, bt);
    SemSound(P.env, md, cc, t, m);
    CheckedIsMoving(P.env, md.back, m, ms);
    YieldsStep(P, s, Concat(lists), b + 1, stk, bt);
  }

  /** An iteration as emitted, with the position check or, where it is redundant, without. */
  ghost predicate Iteration(P: Prog, md: Mode, cc: nat, t: Term, check: bool, start: int, end: int) {
    if check then
      && Implements(P, md, cc, t, start + 1, end - 1)
      && Is(P, start, PushCharPos) && Is(P, end - 1, CheckAdvance)
    else
      Implements(P, md, cc, t, start, end) && AlwaysMoves(P.env, md, cc, t)
  }

  lemma IterationYields(P: Prog, md: Mode, cc: nat, t: Term, check: bool, start: int, end: int, m: M, stk: seq<int>,
                        bt: seq<Entry>)
    requires Sound(P.env, m) && Iteration(P, md, cc, t, check, start, end)
    ensures Yields(P, At(start, m, stk, bt), Moving(P.env, md.back, m, SemTerm(P.env, md, cc, t, m)), end, stk, bt)
  {
    hide Reach, Yields, SemTerm, Moving, Sound, Left;
    if check {
      CheckedYields(P, md, cc, t, start + 1, end - 1, m, stk, bt);
    } else {
      MovingAll(P.env, md.back, m, SemTerm(P.env, md, cc, t, m));
    }
  }

  /** The continuations of an optional iteration. */
  ghost function Onwards(e: Env, md: Mode, cc: nat, t: Term, min: int, max: int, greedy: bool,
                         ms: seq<M>): (r: seq<seq<M>>)
    ensures |r| == |ms|
    ensures forall i :: 0 <= i < |r| ==> r[i] == Repeat(e, md, cc, t, min, max, greedy, ms[i])
  {
    seq(|ms|, i requires 0 <= i < |ms| => Repeat(e, md, cc, t, min, max, greedy, ms[i]))
  }

  lemma OnwardsFirst(e: Env, md: Mode, cc: nat, t: Term, min: int, max: int, greedy: bool, ms: seq<M>)
    requires ms != []
    ensures Concat(Onwards(e, md, cc, t, min, max, greedy, ms))
         == Repeat(e, md, cc, t, min, max, greedy, ms[0]) + Concat(Onwards(e, md, cc, t, min, max, greedy, ms[1..]))
  {
    hide Repeat;
    assert Onwards(e, md, cc, t, min, max, greedy, ms)[1..] == Onwards(e, md, cc, t, min, max, greedy, ms[1..]);
  }

  lemma {:induction false} IterateAllConcat(e: Env, md: Mode, cc: nat, t: Term, max: int, greedy: bool, m: M,
                                            ms: seq<M>)
    ensures IterateAll(e, md, cc, t, max, greedy, m, ms)
         == Concat(Onwards(e, md, cc, t, 0, Less(max), greedy, Moving(e, md.back, m, ms)))
  {
    hide Repeat, Left, Less, Onwards, SemTerm;
    if ms == [] {
      assert Onwards(e, md, cc, t, 0, Less(max), greedy, []) == [];
    } else {
      IterateAllConcat(e, md, cc, t, max, greedy, m, ms[1..]);
      var rest := Moving(e, md.back, m, ms[1..]);
      if Left(e, md.back, ms[0].pos) < Left(e, md.back, m.pos) {
        OnwardsFirst(e, md, cc, t, 0, Less(max), greedy, [ms[0]] + rest);
        assert ([ms[0]] + rest)[1..] == rest;
      } else {
        assert [] + rest == rest;
      }
    }
  }

  lemma {:induction false} RepeatAllConcat(e: Env, md: Mode, cc: nat, t: Term, min: int, max: int, greedy: bool,
                                           ms: seq<M>)
    requires min > 0
    ensures RepeatAll(e, md, cc, t, min, max, greedy, ms)
         == Concat(Onwards(e, md, cc, t, min - 1, Less(max), greedy, ms))
  {
    hide Repeat, Left, Less;
    if ms != [] {
      RepeatAllConcat(e, md, cc, t, min, max, greedy, ms[1..]);
      OnwardsFirst(e, md, cc, t, min - 1, Less(max), greedy, ms);
    }
  }

  /** The split loop for an unbounded quantifier: split, iteration, goto. */
  lemma {:induction false} StarYields(P: Prog, md: Mode, cc: nat, t: Term, check: bool, greedy: bool, pc: int, end: int,
                                      m: M, stk: seq<int>, bt: seq<Entry>)
    requires Sound(P.env, m)
    requires Is(P, pc, Split(!greedy, end - (pc + 5)))
    requires Iteration(P, md, cc, t, check, pc + 5, end - 5)
    requires Is(P, end - 5, Goto(pc - end))
    ensures Yields(P, At(pc, m, stk, bt), Repeat(P.env, md, cc, t, 0, INT32_MAX, greedy, m), end, stk, bt)
    decreases Left(P.env, md.back, m.pos)
  {
    hide Reach, Yields, SemTerm, Moving, Sound, Left, IterateAll, Extends, Iteration;
    var e := P.env;
    SemSound(e, md, cc, t, m);
    var ms := Moving(e, md.back, m, SemTerm(e, md, cc, t, m));
    var lists := Onwards(e, md, cc, t, 0, INT32_MAX, greedy, ms);
    IterateAllConcat(e, md, cc, t, INT32_MAX, greedy, m, SemTerm(e, md, cc, t, m));
    var start := pc + 5;
    forall bt0
      ensures Yields(P, At(start, m, stk, bt0), Concat(lists), end, stk, bt0)
    {
      forall i, bt' | 0 <= i < |ms| && Extends(bt', bt0)
        ensures Yields(P, At(end - 5, ms[i], stk, bt'), lists[i], end, stk, bt')
      {
        var s := At(end - 5, ms[i], stk, bt');
        assert Step(P, s) == At(pc, ms[i], stk, bt');
        assert Onward(e, md.back, m, ms[i]);
        StarYields(P, md, cc, t, check, greedy, pc, end, ms[i], stk, bt');
        YieldsStep(P, s, lists[i], end, stk, bt');
      }
      IterationYields(P, md, cc, t, check, start, end - 5, m, stk, bt0);
      YieldsBind(P, At(start, m, stk, bt0), ms, lists, end - 5, stk, end, stk, bt0);
    }
    AlwaysYieldsOne(P, m, end, stk);
    ChoiceYields(P, pc, !greedy, end - (pc + 5), m, stk, bt, Concat(lists), [m], end, stk);
  }

  /** The `?` quantifier: split, iteration. */
  lemma OptionalYields(P: Prog, md: Mode, cc: nat, t: Term, check: bool, greedy: bool, pc: int, end: int,
                       m: M, stk: seq<int>, bt: seq<Entry>)
    requires Sound(P.env, m)
    requires Is(P, pc, Split(!greedy, end - (pc + 5)))
    requires Iteration(P, md, cc, t, check, pc + 5, end)
    ensures Yields(P, At(pc, m, stk, bt), Repeat(P.env, md, cc, t, 0, 1, greedy, m), end, stk, bt)
  {
    hide Reach, Yields, SemTerm, Moving, Sound, Left, IterateAll, Extends, Iteration;
    var e := P.env;
    var ms := Moving(e, md.back, m, SemTerm(e, md, cc, t, m));
    var lists := Onwards(e, md, cc, t, 0, 0, greedy, ms);
    IterateAllConcat(e, md, cc, t, 1, greedy, m, SemTerm(e, md, cc, t, m));
    var start := pc + 5;
    forall bt0
      ensures Yields(P, At(start, m, stk, bt0), Concat(lists), end, stk, bt0)
    {
      forall i, bt' | 0 <= i < |ms| && Extends(bt', bt0)
        ensures Yields(P, At(end, ms[i], stk, bt'), lists[i], end, stk, bt')
      {
        YieldsOne(P, ms[i], end, stk, bt');
      }
      IterationYields(P, md, cc, t, check, start, end, m, stk, bt0);
      YieldsBind(P, At(start, m, stk, bt0), ms, lists, end, stk, end, stk, bt0);
    }
    AlwaysYieldsOne(P, m, end, stk);
    ChoiceYields(P, pc, !greedy, end - (pc + 5), m, stk, bt, Concat(lists), [m], end, stk);
  }

  /** The instructions at the foot of a counted loop: count down, jump back while not zero,
      then discard the counter. */
  ghost predicate Foot(P: Prog, foot: int, head: int) {
    Is(P, foot, Loop(head - (foot + 5))) && Is(P, foot + 5, Drop)
  }

  lemma DropYields(P: Prog, foot: int, m: M, stk: seq<int>, v: int, bt: seq<Entry>)
    requires Is(P, foot + 5, Drop)
    ensures Yields(P, At(foot + 5, m, stk + [v], bt), [m], foot + 6, stk, bt)
  {
    hide Reach, Yields;
    var stk1 := stk + [v];
    assert stk1[..|stk1| - 1] == stk;
    assert Step(P, At(foot + 5, m, stk1, bt)) == At(foot + 6, m, stk, bt);
    YieldsOne(P, m, foot + 6, stk, bt);
    YieldsStep(P, At(foot + 5, m, stk1, bt), [m], foot + 6, stk, bt);
  }

  lemma FootSteps(P: Prog, foot: int, head: int, m: M, stk: seq<int>, k: int, bt: seq<Entry>)
    requires Foot(P, foot, head) && 1 <= k <= INT32_MAX
    ensures Step(P, At(foot, m, stk + [k], bt))
         == At(if k == 1 then foot + 5 else head, m, stk + [k - 1], bt)
  {
    var stk1 := stk + [k];
    assert stk1[|stk| := k - 1] == stk + [k - 1];
  }

  /** The counted loop for a finite number of optional iterations, entered at its split with
      `k` iterations to go on the operand stack. */
  lemma {:induction false} CountedYields(P: Prog, md: Mode, cc: nat, t: Term, check: bool, greedy: bool, pc: int,
                                         foot: int, k: int, m: M, stk: seq<int>, bt: seq<Entry>)
    requires Sound(P.env, m) && 1 <= k < INT32_MAX
    requires Is(P, pc, Split(!greedy, foot - pc))
    requires Iteration(P, md, cc, t, check, pc + 5, foot)
    requires Foot(P, foot, pc)
    ensures Yields(P, At(pc, m, stk + [k], bt), Repeat(P.env, md, cc, t, 0, k, greedy, m), foot + 6, stk, bt)
    decreases k
  {
    hide Reach, Yields, SemTerm, Moving, Sound, Left, IterateAll, Extends, Iteration;
    var e := P.env;
    SemSound(e, md, cc, t, m);
    var ms := Moving(e, md.back, m, SemTerm(e, md, cc, t, m));
    var lists := Onwards(e, md, cc, t, 0, k - 1, greedy, ms);
    IterateAllConcat(e, md, cc, t, k, greedy, m, SemTerm(e, md, cc, t, m));
    var start, end := pc + 5, foot + 6;
    forall bt0
      ensures Yields(P, At(start, m, stk + [k], bt0), Concat(lists), end, stk, bt0)
    {
      forall i, bt' | 0 <= i < |ms| && Extends(bt', bt0)
        ensures Yields(P, At(foot, ms[i], stk + [k], bt'), lists[i], end, stk, bt')
      {
        FootSteps(P, foot, pc, ms[i], stk, k, bt');
        if k == 1 {
          DropYields(P, foot, ms[i], stk, 0, bt');
        } else {
          assert Onward(e, md.back, m, ms[i]);
          CountedYields(P, md, cc, t, check, greedy, pc, foot, k - 1, ms[i], stk, bt');
        }
        YieldsStep(P, At(foot, ms[i], stk + [k], bt'), lists[i], end, stk, bt');
      }
      IterationYields(P, md, cc, t, check, start, foot, m, stk + [k], bt0);
      YieldsBind(P, At(start, m, stk + [k], bt0), ms, lists, foot, stk + [k], end, stk, bt0);
    }
    var target := foot + 5;
    forall bt0
      ensures Yields(P, At(target, m, stk + [k], bt0), [m], end, stk, bt0)
    {
      DropYields(P, foot, m, stk, k, bt0);
    }
    ChoiceYields(P, pc, !greedy, foot - pc, m, stk + [k], bt, Concat(lists), [m], end, stk);
  }

  /** Entered at `pc` in any state, the code yields the optional iterations up to `max`. */
  ghost predicate Rest(P: Prog, md: Mode, cc: nat, t: Term, max: int, greedy: bool, pc: int, end: int) {
    forall m, stk, bt :: Sound(P.env, m) ==>
      Yields(P, At(pc, m, stk, bt), Repeat(P.env, md, cc, t, 0, max, greedy, m), end, stk, bt)
  }

  function Minus(max: int, n: int): int {
    if max == INT32_MAX then max else max - n
  }

  /** The mandatory iterations when there is just one: the atom, then the optional ones. */
  lemma OnceYields(P: Prog, md: Mode, cc: nat, t: Term, max: int, greedy: bool, a: int, b: int, end: int,
                   m: M, stk: seq<int>, bt: seq<Entry>)
    requires Sound(P.env, m) && 1 <= max <= INT32_MAX
    requires Implements(P, md, cc, t, a, b)
    requires Rest(P, md, cc, t, Minus(max, 1), greedy, b, end)
    ensures Yields(P, At(a, m, stk, bt), Repeat(P.env, md, cc, t, 1, max, greedy, m), end, stk, bt)
  {
    hide Reach, Yields, SemTerm, Sound, Left, Extends;
    var e := P.env;
    SemSound(e, md, cc, t, m);
    var ms := SemTerm(e, md, cc, t, m);
    var lists := Onwards(e, md, cc, t, 0, Less(max), greedy, ms);
    RepeatAllConcat(e, md, cc, t, 1, max, greedy, ms);
    forall i, bt' | 0 <= i < |ms| && Extends(bt', bt)
      ensures Yields(P, At(b, ms[i], stk, bt'), lists[i], end, stk, bt')
    {
      assert Onward(e, md.back, m, ms[i]);
    }
    YieldsBind(P, At(a, m, stk, bt), ms, lists, b, stk, end, stk, bt);
  }

  /** The loop over the mandatory iterations, with `k` of them to go on the operand stack. */
  lemma {:induction false} MinYields(P: Prog, md: Mode, cc: nat, t: Term, k: int, max: int, greedy: bool, a: int,
                                     b: int, end: int, m: M, stk: seq<int>, bt: seq<Entry>)
    requires Sound(P.env, m) && 1 <= k <= max <= INT32_MAX
    requires Implements(P, md, cc, t, a, b)
    requires Foot(P, b, a)
    requires Rest(P, md, cc, t, Minus(max, k), greedy, b + 6, end)
    ensures Yields(P, At(a, m, stk + [k], bt), Repeat(P.env, md, cc, t, k, max, greedy, m), end, stk, bt)
    decreases k
  {
    hide Reach, Yields, SemTerm, Sound, Left, Extends;
    var e := P.env;
    SemSound(e, md, cc, t, m);
    var ms := SemTerm(e, md, cc, t, m);
    var lists := Onwards(e, md, cc, t, k - 1, Less(max), greedy, ms);
    RepeatAllConcat(e, md, cc, t, k, max, greedy, ms);
    forall i, bt' | 0 <= i < |ms| && Extends(bt', bt)
      ensures Yields(P, At(b, ms[i], stk + [k], bt'), lists[i], end, stk, bt')
    {
      assert Onward(e, md.back, m, ms[i]);
      FootSteps(P, b, a, ms[i], stk, k, bt');
      if k == 1 {
        DropTo(P, b, ms[i], stk, 0, bt', lists[i], end);
      } else {
        MinYields(P, md, cc, t, k - 1, Less(max), greedy, a, b, end, ms[i], stk, bt');
      }
      YieldsStep(P, At(b, ms[i], stk + [k], bt'), lists[i], end, stk, bt');
    }
    YieldsBind(P, At(a, m, stk + [k], bt), ms, lists, b, stk + [k], end, stk, bt);
  }

  lemma DropTo(P: Prog, foot: int, m: M, stk: seq<int>, v: int, bt: seq<Entry>, outs: seq<M>, end: int)
    requires Is(P, foot + 5, Drop)
    requires Yields(P, At(foot + 6, m, stk, bt), outs, end, stk, bt)
    ensures Yields(P, At(foot + 5, m, stk + [v], bt), outs, end, stk, bt)
  {
    hide Reach, Yields;
    var stk1 := stk + [v];
    assert stk1[..|stk1| - 1] == stk;
    assert Step(P, At(foot + 5, m, stk1, bt)) == At(foot + 6, m, stk, bt);
    YieldsStep(P, At(foot + 5, m, stk1, bt), outs, end, stk, bt);
  }

  lemma MovesAgain(e: Env, md: Mode, cc: nat, t: Term, greedy: bool, m: M)
    requires Sound(e, m) && AlwaysMoves(e, md, cc, t)
    ensures var more := Repeat(e, md, cc, t, 1, INT32_MAX, greedy, m);
            Repeat(e, md, cc, t, 0, INT32_MAX, greedy, m) == if greedy then more + [m] else [m] + more
  {
    hide SemTerm, Sound, Left;
    var ms := SemTerm(e, md, cc, t, m);
    MovingAll(e, md.back, m, ms);
    IterateAllConcat(e, md, cc, t, INT32_MAX, greedy, m, ms);
    RepeatAllConcat(e, md, cc, t, 1, INT32_MAX, greedy, ms);
  }

  /** The `+` quantifier on an atom that always moves: the atom, then a split back to it. */
  lemma {:induction false} PlusYields(P: Prog, md: Mode, cc: nat, t: Term, greedy: bool, a: int, b: int,
                                      m: M, stk: seq<int>, bt: seq<Entry>)
    requires Sound(P.env, m)
    requires Implements(P, md, cc, t, a, b) && AlwaysMoves(P.env, md, cc, t)
    requires Is(P, b, Split(greedy, a - (b + 5)))
    ensures Yields(P, At(a, m, stk, bt), Repeat(P.env, md, cc, t, 1, INT32_MAX, greedy, m), b + 5, stk, bt)
    decreases Left(P.env, md.back, m.pos)
  {
    hide Reach, Yields, SemTerm, Sound, Left, Extends, Repeat;
    var e := P.env;
    SemSound(e, md, cc, t, m);
    var ms := SemTerm(e, md, cc, t, m);
    var lists := Onwards(e, md, cc, t, 0, INT32_MAX, greedy, ms);
    RepeatAllConcat(e, md, cc, t, 1, INT32_MAX, greedy, ms);
    forall i, bt' | 0 <= i < |ms| && Extends(bt', bt)
      ensures Yields(P, At(b, ms[i], stk, bt'), lists[i], b + 5, stk, bt')
    {
      var o := ms[i];
      assert Onward(e, md.back, m, o);
      MovesAgain(e, md, cc, t, greedy, o);
      forall bt0
        ensures Yields(P, At(a, o, stk, bt0), Repeat(e, md, cc, t, 1, INT32_MAX, greedy, o), b + 5, stk, bt0)
      {
        PlusYields(P, md, cc, t, greedy, a, b, o, stk, bt0);
      }
      AlwaysYieldsOne(P, o, b + 5, stk);
      ChoiceYields(P, b, greedy, a - (b + 5), o, stk, bt', [o], Repeat(e, md, cc, t, 1, INT32_MAX, greedy, o), b + 5,
                   stk);
    }
    YieldsBind(P, At(a, m, stk, bt), ms, lists, b, stk, b + 5, stk, bt);
    RepeatOnce(e, md, cc, t, greedy, m);
  }

  lemma RepeatOnce(e: Env, md: Mode, cc: nat, t: Term, greedy: bool, m: M)
    ensures Repeat(e, md, cc, t, 1, INT32_MAX, greedy, m)
         == RepeatAll(e, md, cc, t, 1, INT32_MAX, greedy, SemTerm(e, md, cc, t, m))
  {
    hide SemTerm, RepeatAll;
  }
}
