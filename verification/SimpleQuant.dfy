/** simple_greedy_quant: counting greedily and backing off a fixed number of characters gives
    the outcomes of the general backtracking loop, in the same order. */
module SimpleQuant {
  import opened Options
  import opened Bytes
  import opened Opcodes
  import opened Text
  import opened Syntax
  import opened Emission
  import opened Semantics
  import opened Machine
  import opened Traces
  import opened Loops

  /** The combined effect of instructions that only read and test. */
  function RunList(e: Env, ins: seq<Instr>, pos: nat): Option<nat> {
    if ins == [] then Some(pos)
    else
      match Simple(e, ins[0], pos)
      case None => None
      case Some(q) => RunList(e, ins[1..], q)
  }

  function Then(e: Env, r: Option<nat>, ins: seq<Instr>): Option<nat> {
    match r
    case None => None
    case Some(q) => RunList(e, ins, q)
  }

  lemma {:induction false} RunListAppend(e: Env, x: seq<Instr>, y: seq<Instr>, pos: nat)
    ensures RunList(e, x + y, pos) == Then(e, RunList(e, x, pos), y)
    decreases |x|
  {
    hide Simple;
    if x == [] {
      assert x + y == y;
    } else {
      assert (x + y)[1..] == x[1..] + y;
      match Simple(e, x[0], pos)
      case None =>
      case Some(q) => RunListAppend(e, x[1..], y, q);
    }
  }

  lemma RunListOne(e: Env, i: Instr, pos: nat)
    ensures RunList(e, [i], pos) == Simple(e, i, pos)
  {
    hide Simple;
  }

  lemma {:induction false} SimpleCountAppend(x: seq<Instr>, y: seq<Instr>)
    ensures SimpleCount(x + y) ==
            if SimpleCount(x) < 0 || SimpleCount(y) < 0 then -1 else SimpleCount(x) + SimpleCount(y)
    decreases |y|
  {
    if y == [] {
      assert x + y == x;
    } else {
      assert (x + y)[..|x + y| - 1] == x + y[..|y| - 1];
      SimpleCountAppend(x, y[..|y| - 1]);
    }
  }

  /** Going back over as many characters as the code reads undoes it. */
  lemma {:induction false} RunListUndone(e: Env, ins: seq<Instr>, pos: nat)
    requires Aligned(e.subject, pos) && SimpleCount(ins) >= 0 && RunList(e, ins, pos).Some?
    ensures var q := RunList(e, ins, pos).value;
            && Aligned(e.subject, q)
            && Back(e, q, SimpleCount(ins)) == pos
            && pos <= q
            && (SimpleCount(ins) > 0 ==> pos < q)
    decreases |ins|
  {
    hide Test, Holds;
    if ins != [] {
      var init, last := ins[..|ins| - 1], ins[|ins| - 1];
      assert ins == init + [last];
      RunListAppend(e, init, [last], pos);
      RunListUndone(e, init, pos);
      var p := RunList(e, init, pos).value;
      RunListOne(e, last, p);
      if ReadsChar(last) {
        PrevUndoesGet(e.subject, p);
      }
    }
  }

  /** `n`-character steps back, `k` times over. */
  function Undo(e: Env, x: nat, n: nat, k: nat): nat
    decreases k
  {
    if k == 0 then x else Undo(e, Back(e, x, n), n, k - 1)
  }

  lemma {:induction false} UndoLast(e: Env, x: nat, n: nat, k: nat)
    ensures Undo(e, x, n, k + 1) == Back(e, Undo(e, x, n, k), n)
    decreases k
  {
    hide Back;
    if k > 0 {
      UndoLast(e, Back(e, x, n), n, k - 1);
    }
  }

  /** The positions visited on backing off `k` times from `x`. */
  function Down(e: Env, m: M, x: nat, n: nat, k: nat): (r: seq<M>)
    ensures |r| == k + 1
    decreases k
  {
    [m.(pos := x)] + if k == 0 then [] else Down(e, m, Back(e, x, n), n, k - 1)
  }

  lemma {:induction false} DownLast(e: Env, m: M, x: nat, n: nat, k: nat)
    ensures Down(e, m, x, n, k + 1) == Down(e, m, x, n, k) + [m.(pos := Undo(e, x, n, k + 1))]
    decreases k
  {
    hide Back;
    if k > 0 {
      DownLast(e, m, Back(e, x, n), n, k - 1);
    }
  }

  /** The body of the instruction stands at `pc`: what the nested call computes from it. */
  ghost predicate Body(P: Prog, pc: int, ins: seq<Instr>) {
    forall pos :: RunNested(P, pc, pos) ==
      match RunList(P.env, ins, pos)
      case None => NoMatch
      case Some(q) => Matched(q)
  }

  /** Where a single match of a term ends up, as a list of outcomes. */
  ghost function RunOutcome(m: M, r: Option<nat>): seq<M> {
    match r
    case None => []
    case Some(q) => [m.(pos := q)]
  }

  /** The term has at most one outcome, and it is what running `ins` gives. */
  ghost predicate Deterministic(e: Env, md: Mode, cc: nat, t: Term, ins: seq<Instr>) {
    forall m :: Sound(e, m) ==> SemTerm(e, md, cc, t, m) == RunOutcome(m, RunList(e, ins, m.pos))
  }

  lemma MoveKeepsSound(e: Env, m: M, q: nat)
    requires Sound(e, m) && Aligned(e.subject, q)
    ensures Sound(e, m.(pos := q))
  {
  }

  lemma LeftForward(e: Env, p: nat, q: nat)
    requires p < q <= |e.subject.units|
    ensures Left(e, false, q) < Left(e, false, p)
  {
  }

  /** What the counting loop finds is where the reference's iterations lead, and backing off
      enumerates its outcomes in order. */
  ghost predicate Refines(e: Env, md: Mode, cc: nat, t: Term, n: nat, min: int, room: int, m: M, r: Option<(nat, nat)>,
                          q0: nat) {
    && r.Some?
    && var (x, q) := r.value;
       && q >= q0
       && Undo(e, x, n, q - q0) == m.pos
       && Repeat(e, md, cc, t, min, room, true, m)
          == if q - q0 < min then [] else Down(e, m, x, n, q - q0 - min)
  }

  lemma RefinesNone(e: Env, md: Mode, cc: nat, t: Term, n: nat, min: int, room: int, m: M, q0: nat)
    requires 0 <= min <= room && 1 <= room && SemTerm(e, md, cc, t, m) == []
    ensures Refines(e, md, cc, t, n, min, room, m, Some((m.pos, q0)), q0)
  {
    hide SemTerm, Left, Back;
    assert Down(e, m, m.pos, n, 0) == [m];
    var none: seq<M> := [];
    assert IterateAll(e, md, cc, t, room, true, m, none) == none;
    assert none + [m] == [m];
    if min > 0 {
      assert RepeatAll(e, md, cc, t, min, room, true, none) == none;
    }
  }

  lemma RefinesLast(e: Env, md: Mode, cc: nat, t: Term, n: nat, min: int, m: M, o: M, q0: nat)
    requires 0 <= min <= 1 && SemTerm(e, md, cc, t, m) == [o] && o == m.(pos := o.pos)
    requires Left(e, md.back, o.pos) < Left(e, md.back, m.pos) && Back(e, o.pos, n) == m.pos
    ensures Refines(e, md, cc, t, n, min, 1, m, Some((o.pos, q0 + 1)), q0)
  {
    hide SemTerm, Left, Back;
    RepeatStep(e, md, cc, t, min, 1, m, o);
    assert Undo(e, o.pos, n, 1) == Undo(e, Back(e, o.pos, n), n, 0);
    DownLast(e, m, o.pos, n, 0);
    assert Down(e, m, o.pos, n, 0) == [o];
  }

  lemma RefinesMore(e: Env, md: Mode, cc: nat, t: Term, n: nat, min: int, room: int, m: M, o: M, r: Option<(nat, nat)>,
                    q0: nat)
    requires 0 <= min <= room && 1 < room <= INT32_MAX
    requires SemTerm(e, md, cc, t, m) == [o] && o == m.(pos := o.pos)
    requires Left(e, md.back, o.pos) < Left(e, md.back, m.pos) && Back(e, o.pos, n) == m.pos
    requires Refines(e, md, cc, t, n, if min > 0 then min - 1 else 0, Less(room), o, r, q0 + 1)
    ensures Refines(e, md, cc, t, n, min, room, m, r, q0)
  {
    hide SemTerm, Left, Back, Repeat, Down, Undo;
    RepeatStep(e, md, cc, t, min, room, m, o);
    var (x, q) := r.value;
    var j, min' := q - q0 - 1, if min > 0 then min - 1 else 0;
    UndoLast(e, x, n, j);
    if j >= min' {
      DownMoved(e, m, o, x, n, j - min');
      if min == 0 {
        DownLast(e, m, x, n, j);
      }
    }
  }

  lemma {:induction false} GreedyRefines(P: Prog, md: Mode, cc: nat, t: Term, ins: seq<Instr>, pc: int,
                                         min: int, room: int, m: M, q0: nat)
    requires Sound(P.env, m) && !md.back
    requires 0 <= min <= room && 1 <= room <= INT32_MAX
    requires SimpleCount(ins) > 0
    requires Body(P, pc, ins) && Deterministic(P.env, md, cc, t, ins)
    ensures Refines(P.env, md, cc, t, SimpleCount(ins), min, room, m, RunGreedy(P, pc, m.pos, room, q0), q0)
    decreases |P.env.subject.units| - m.pos
  {
    hide RunNested, SemTerm, Sound, Back, Left, RunList, SimpleCount, Refines;
    var e := P.env;
    var n := SimpleCount(ins);
    assert SemTerm(e, md, cc, t, m) == RunOutcome(m, RunList(e, ins, m.pos));
    match RunList(e, ins, m.pos)
    case None =>
      RefinesNone(e, md, cc, t, n, min, room, m, q0);
    case Some(p) =>
      SoundAligned(e, m);
      RunListUndone(e, ins, m.pos);
      var o := m.(pos := p);
      MoveKeepsSound(e, m, p);
      LeftForward(e, m.pos, p);
      if room == 1 {
        RefinesLast(e, md, cc, t, n, min, m, o, q0);
      } else {
        GreedyRefines(P, md, cc, t, ins, pc, if min > 0 then min - 1 else 0, Less(room), o, q0 + 1);
        RefinesMore(e, md, cc, t, n, min, room, m, o, RunGreedy(P, pc, p, Less(room), q0 + 1), q0);
      }
  }

  lemma SoundAligned(e: Env, m: M)
    requires Sound(e, m)
    ensures Aligned(e.subject, m.pos)
  {
  }

  lemma {:induction false} DownMoved(e: Env, m: M, m': M, x: nat, n: nat, k: nat)
    requires m.caps == m'.caps
    ensures Down(e, m, x, n, k) == Down(e, m', x, n, k)
    decreases k
  {
    hide Back;
    if k > 0 {
      DownMoved(e, m, m', Back(e, x, n), n, k - 1);
    }
  }

  /** Unfolding one iteration that has a single outcome. */
  lemma RepeatStep(e: Env, md: Mode, cc: nat, t: Term, min: int, max: int, m: M, o: M)
    requires 0 <= min <= max && 1 <= max <= INT32_MAX
    requires SemTerm(e, md, cc, t, m) == [o] && Left(e, md.back, o.pos) < Left(e, md.back, m.pos)
    ensures Repeat(e, md, cc, t, min, max, true, m)
         == if min > 0 then Repeat(e, md, cc, t, min - 1, Less(max), true, o)
            else Repeat(e, md, cc, t, 0, Less(max), true, o) + [m]
  {
    hide SemTerm, Left;
    var outs := [o];
    assert outs[1..] == [];
    if min > 0 {
      RepeatAllConcat(e, md, cc, t, min, max, true, outs);
      var lists := Onwards(e, md, cc, t, min - 1, Less(max), true, outs);
      assert Concat(lists) == lists[0] + Concat([]);
    } else {
      IterateAllConcat(e, md, cc, t, max, true, m, outs);
      assert Moving(e, md.back, m, outs) == [o] + Moving(e, md.back, m, []);
      var lists := Onwards(e, md, cc, t, 0, Less(max), true, outs);
      assert Concat(lists) == lists[0] + Concat([]);
    }
  }

  /** The choices that remain after backing off to `x` with `k` iterations to give up. */
  function Remaining(pc: int, m: M, x: nat, k: nat, stk: seq<int>, bt: seq<Entry>): seq<Entry> {
    if k == 0 then bt else bt + [Greedy(pc + 1, x, m.caps, stk, k)]
  }

  lemma UnwindStep(P: Prog, pc: int, i: Instr, m: M, x: nat, k: nat, stk: seq<int>, bt: seq<Entry>)
    requires i.SimpleGreedyQuant? && i.count >= 0 && Is(P, pc, i) && k > 0
    ensures var y := Back(P.env, x, i.count);
            Step(P, Fail(Remaining(pc, m, x, k, stk, bt)))
            == At(pc + 17 + i.next, m.(pos := y), stk, Remaining(pc, m, y, k - 1, stk, bt))
  {
    hide Back;
    var bt1 := Remaining(pc, m, x, k, stk, bt);
    assert bt1[..|bt1| - 1] == bt;
  }

  /** Resuming a greedy entry backs off one iteration at a time, `k` times. */
  lemma {:induction false} UnwindYields(P: Prog, pc: int, i: Instr, m: M, x: nat, k: nat, stk: seq<int>, bt: seq<Entry>)
    requires i.SimpleGreedyQuant? && i.count >= 0 && Is(P, pc, i)
    ensures Yields(P, At(pc + 17 + i.next, m.(pos := x), stk, Remaining(pc, m, x, k, stk, bt)),
                   Down(P.env, m, x, i.count, k), pc + 17 + i.next, stk, bt)
    decreases k
  {
    hide Reach, Yields, Back, Step, Is;
    var end := pc + 17 + i.next;
    var o := m.(pos := x);
    if k == 0 {
      assert Down(P.env, m, x, i.count, 0) == [o];
      YieldsOne(P, o, end, stk, bt);
    } else {
      var bt1 := Remaining(pc, m, x, k, stk, bt);
      var y := Back(P.env, x, i.count);
      UnwindStep(P, pc, i, m, x, k, stk, bt);
      UnwindYields(P, pc, i, m, y, k - 1, stk, bt);
      YieldsStep(P, Fail(bt1), Down(P.env, m, y, i.count, k - 1), end, stk, bt);
      ExtendsPush(bt, Greedy(pc + 1, x, m.caps, stk, k));
      YieldsOne(P, o, end, stk, bt1);
      YieldsAppend(P, At(end, o, stk, bt1), [o], Down(P.env, m, y, i.count, k - 1), end, stk, bt1, bt);
    }
  }

  lemma SimpleQuantYields(P: Prog, md: Mode, cc: nat, t: Term, ins: seq<Instr>, pc: int, i: Instr,
                          m: M, stk: seq<int>, bt: seq<Entry>)
    requires Sound(P.env, m) && !md.back
    requires i.SimpleGreedyQuant? && 0 <= i.min <= i.max && 1 <= i.max <= INT32_MAX
    requires i.count == SimpleCount(ins) && SimpleCount(ins) > 0 && Is(P, pc, i)
    requires Body(P, pc + 17, ins) && Deterministic(P.env, md, cc, t, ins)
    ensures Yields(P, At(pc, m, stk, bt), Repeat(P.env, md, cc, t, i.min, i.max, true, m), pc + 17 + i.next, stk, bt)
  {
    hide Reach, Yields, RunGreedy, Sound, Deterministic, Body, SimpleCount, Repeat;
    GreedyRefines(P, md, cc, t, ins, pc + 17, i.min, i.max, m, 0);
    var (x, q) := RunGreedy(P, pc + 17, m.pos, i.max, 0).value;
    var s := At(pc, m, stk, bt);
    var end := pc + 17 + i.next;
    var outs := Repeat(P.env, md, cc, t, i.min, i.max, true, m);
    if q < i.min {
      assert Step(P, s) == Fail(bt);
      YieldsNone(P, end, stk, bt);
    } else {
      UnwindYields(P, pc, i, m, x, q - i.min, stk, bt);
    }
    YieldsStep(P, s, outs, end, stk, bt);
  }
}
