/** What a piece of code does, arrival by arrival: from a state the machine gets to the end of
    the code once for each outcome, in order, and at no other time. Yields leaves room for
    arrivals from which the code that follows fails at once; Arrives does not, and so at most
    one list fits. Emitted code meets it wherever it stands: cut off behind the code, a program
    has nothing that follows, and it takes the same steps up to there. */
module Arrivals {
  import opened Options
  import opened Bytes
  import opened Opcodes
  import opened Syntax
  import opened Emission
  import opened Semantics
  import opened Machine
  import opened Traces
  import opened Fragments
  import opened Correctness

  /** At the end of the code, or failing back into the choices there were before it. */
  predicate Stop(s: State, end: int, bt: seq<Entry>) {
    (s.Run? && s.pc == end) || s == Fail(bt)
  }

  /** `t` is the first state from `s` on, after `n` steps, that can be a Stop. */
  ghost predicate First(P: Prog, s: State, n: nat, t: State, end: int, bt: seq<Entry>) {
    && Steps(P, s, n) == t
    && forall j: nat :: j < n ==> !Stop(Steps(P, s, j), end, bt)
  }

  /** From `s` the machine arrives at `end` exactly once for each of `outs`, in that order. */
  ghost predicate Arrives(P: Prog, s: State, outs: seq<M>, end: int, stk: seq<int>, bt: seq<Entry>)
    decreases |outs|
  {
    if outs == [] then exists n :: First(P, s, n, Fail(bt), end, bt)
    else exists n, bt' :: ArrivesVia(P, s, outs, end, stk, bt, n, bt')
  }

  ghost predicate ArrivesVia(P: Prog, s: State, outs: seq<M>, end: int, stk: seq<int>, bt: seq<Entry>,
                             n: nat, bt': seq<Entry>)
    requires outs != []
    decreases |outs|, 0
  {
    && Extends(bt', bt)
    && First(P, s, n, At(end, outs[0], stk, bt'), end, bt)
    && Arrives(P, Fail(bt'), outs[1..], end, stk, bt)
  }

  lemma FirstUnique(P: Prog, s: State, n: nat, t: State, n': nat, t': State, end: int, bt: seq<Entry>)
    requires First(P, s, n, t, end, bt) && Stop(t, end, bt)
    requires First(P, s, n', t', end, bt) && Stop(t', end, bt)
    ensures t == t'
  {
    hide Steps;
  }

  /** The outcomes of a run are determined: whatever the program, two lists cannot both be it. */
  lemma {:induction false} ArrivesUnique(P: Prog, s: State, outs: seq<M>, outs': seq<M>, end: int, stk: seq<int>,
                                         bt: seq<Entry>)
    requires Arrives(P, s, outs, end, stk, bt) && Arrives(P, s, outs', end, stk, bt)
    ensures outs == outs'
    decreases |outs|
  {
    hide First;
    if outs == [] {
      var n :| First(P, s, n, Fail(bt), end, bt);
      if outs' != [] {
        var n', bt' :| ArrivesVia(P, s, outs', end, stk, bt, n', bt');
        FirstUnique(P, s, n, Fail(bt), n', At(end, outs'[0], stk, bt'), end, bt);
      }
    } else {
      var n, bt1 :| ArrivesVia(P, s, outs, end, stk, bt, n, bt1);
      var t := At(end, outs[0], stk, bt1);
      if outs' == [] {
        var n' :| First(P, s, n', Fail(bt), end, bt);
        FirstUnique(P, s, n, t, n', Fail(bt), end, bt);
      } else {
        var n', bt2 :| ArrivesVia(P, s, outs', end, stk, bt, n', bt2);
        FirstUnique(P, s, n, t, n', At(end, outs'[0], stk, bt2), end, bt);
        ArrivesUnique(P, Fail(bt1), outs[1..], outs'[1..], end, stk, bt);
        assert outs == [outs[0]] + outs[1..] && outs' == [outs'[0]] + outs'[1..];
      }
    }
  }

  /** The program cut off at `end`. */
  function Cut(P: Prog, end: nat): Prog
    requires end <= |P.code|
  {
    P.(code := P.code[..end])
  }

  /** The state `s`, on top of the choices `bt`. */
  function Under(bt: seq<Entry>, s: State): State {
    match s
    case Run(pc, pos, caps, stk, rest) => Run(pc, pos, caps, stk, bt + rest)
    case Succeed(caps, rest) => Succeed(caps, bt + rest)
    case Fail(rest) => Fail(bt + rest)
    case _ => s
  }

  lemma {:induction false} BoundsOfPrefix(code: seq<byte>, end: nat, p: nat, wide: bool, n: nat)
    requires end <= |code| && p + (if wide then 4 * n else 2 * n) <= end
    ensures DecodeBounds(code[..end], p, wide, n) == DecodeBounds(code, p, wide, n)
    decreases n
  {
    if n > 0 {
      BoundsOfPrefix(code, end, p, wide, n - 1);
    }
  }

  lemma DecodePrefix(code: seq<byte>, end: nat, pc: nat)
    requires end <= |code| && Decode(code[..end], pc).Some?
    ensures pc < end && Decode(code, pc) == Decode(code[..end], pc)
  {
    hide DecodeShort, DecodeWord, DecodeBounds;
    var wide := code[pc] >= REOP_RANGE32;
    if REOP_RANGE <= code[pc] < REOP_LOOKAHEAD {
      BoundsOfPrefix(code, end, pc + 3, wide, 2 * GetU16(code, pc + 1));
    }
  }

  lemma {:induction false} NestedOfCut(P: Prog, end: nat, pc: int, pos: nat)
    requires end <= |P.code| && RunNested(Cut(P, end), pc, pos) != Stuck
    ensures RunNested(P, pc, pos) == RunNested(Cut(P, end), pc, pos)
    decreases |P.code| - pc
  {
    hide Decode, Simple;
    DecodePrefix(P.code, end, pc);
    var i := Decode(P.code, pc).value;
    if !i.Match? && Simple(P.env, i, pos).Some? {
      NestedOfCut(P, end, pc + Size(i), Simple(P.env, i, pos).value);
    }
  }

  lemma {:induction false} GreedyOfCut(P: Prog, end: nat, pc: int, pos: nat, room: int, q: nat)
    requires end <= |P.code| && RunGreedy(Cut(P, end), pc, pos, room, q).Some?
    ensures RunGreedy(P, pc, pos, room, q) == RunGreedy(Cut(P, end), pc, pos, room, q)
    decreases |P.env.subject.units| - pos
  {
    hide RunNested;
    NestedOfCut(P, end, pc, pos);
    match RunNested(P, pc, pos)
    case Matched(pos') =>
      if room > 1 {
        GreedyOfCut(P, end, pc, pos', Less(room), q + 1);
      }
    case _ =>
  }

  /** The step goes on: it neither ends the call nor leaves the code. */
  predicate Live(s: State) {
    !s.Halt? && !s.Abort?
  }

  lemma RunOfCut(P: Prog, end: nat, i: Instr, s: State, bt: seq<Entry>)
    requires end <= |P.code| && s.Run? && Live(StepRun(Cut(P, end), i, s))
    ensures StepRun(P, i, Under(bt, s)) == Under(bt, StepRun(Cut(P, end), i, s))
  {
    hide RunGreedy, Simple, RefForward, RefBackward, Reset;
    if i.SimpleGreedyQuant? {
      GreedyOfCut(P, end, s.pc + 17, s.pos, i.max, 0);
    }
  }

  lemma FailOfCut(P: Prog, end: nat, rest: seq<Entry>, bt: seq<Entry>)
    requires end <= |P.code| && Live(StepFail(Cut(P, end), rest))
    ensures StepFail(P, bt + rest) == Under(bt, StepFail(Cut(P, end), rest))
  {
    hide Decode, Back;
    var all := bt + rest;
    var n := |rest| - 1;
    assert all[..|all| - 1] == bt + rest[..n];
    if rest[n].Greedy? {
      DecodePrefix(P.code, end, rest[n].pc - 1);
    }
  }

  lemma SucceedOf(caps: seq<Option<nat>>, rest: seq<Entry>, bt: seq<Entry>)
    requires Live(StepSucceed(caps, rest))
    ensures StepSucceed(caps, bt + rest) == Under(bt, StepSucceed(caps, rest))
  {
    var all := bt + rest;
    assert all[..|all| - 1] == bt + rest[..|rest| - 1];
  }

  /** A live step of the cut program, on no choices, is a step of the program on any; and it
      does not start where the run is over. */
  lemma StepOfCut(P: Prog, end: nat, s: State, bt: seq<Entry>)
    requires end <= |P.code| && Live(Step(Cut(P, end), s))
    ensures Step(P, Under(bt, s)) == Under(bt, Step(Cut(P, end), s))
    ensures !Stop(Under(bt, s), end, bt)
  {
    hide StepRun, StepFail, StepSucceed, Decode;
    match s
    case Run(pc, _, _, _, _) =>
      DecodePrefix(P.code, end, pc);
      RunOfCut(P, end, Decode(P.code, pc).value, s, bt);
    case Succeed(caps, rest) => SucceedOf(caps, rest, bt);
    case Fail(rest) =>
      FailOfCut(P, end, rest, bt);
      EmptyEnds(Cut(P, end), rest);
    case _ =>
  }

  lemma EmptyEnds(P: Prog, rest: seq<Entry>)
    requires Live(StepFail(P, rest))
    ensures rest != []
  {
  }

  lemma {:induction false} DeadStays(P: Prog, s: State, n: nat)
    requires !Live(s)
    ensures Steps(P, s, n) == s
    decreases n
  {
    if n > 0 {
      DeadStays(P, s, n - 1);
    }
  }

  lemma {:induction false} StepsOfCut(P: Prog, end: nat, s: State, n: nat, bt: seq<Entry>)
    requires end <= |P.code| && Live(Steps(Cut(P, end), s, n))
    ensures First(P, Under(bt, s), n, Under(bt, Steps(Cut(P, end), s, n)), end, bt)
    decreases n
  {
    hide Step, Stop, Under;
    if n > 0 {
      var s' := Step(Cut(P, end), s);
      if !Live(s') {
        DeadStays(Cut(P, end), s', n - 1);
      }
      StepOfCut(P, end, s, bt);
      StepsOfCut(P, end, s', n - 1, bt);
      forall j: nat | j < n
        ensures !Stop(Steps(P, Under(bt, s), j), end, bt)
      {
        if j > 0 {
          assert Steps(P, Under(bt, s), j) == Steps(P, Under(bt, s'), j - 1);
        }
      }
    }
  }

  /** What the cut program yields on no choices is what the program arrives with on any. */
  lemma {:induction false} CutArrives(P: Prog, end: nat, s: State, outs: seq<M>, stk: seq<int>, bt: seq<Entry>)
    requires end <= |P.code| && Yields(Cut(P, end), s, outs, end, stk, [])
    ensures Arrives(P, Under(bt, s), outs, end, stk, bt)
    decreases |outs|
  {
    hide First, Steps;
    var T := Cut(P, end);
    if outs == [] {
      var n: nat :| Steps(T, s, n) == Fail([]);
      StepsOfCut(P, end, s, n, bt);
      assert bt + [] == bt;
    } else {
      var bt' :| YieldsVia(T, s, outs, end, stk, [], bt');
      var n: nat :| Steps(T, s, n) == At(end, outs[0], stk, bt');
      StepsOfCut(P, end, s, n, bt);
      CutArrives(P, end, Fail(bt'), outs[1..], stk, bt);
      assert Extends(bt + bt', bt);
      assert ArrivesVia(P, Under(bt, s), outs, end, stk, bt, n, bt + bt');
    }
  }

  /** The code of a fragment is all that counts for what it yields. */
  lemma StandsCut(P: Prog, a: int, ins: seq<Instr>)
    requires Stands(P, a, ins)
    ensures 0 <= a + SizeAll(ins) <= |P.code| && Stands(Cut(P, a + SizeAll(ins)), a, ins)
  {
    hide EncodeAll, Fits;
    assert P.code[..a + SizeAll(ins)][a..a + |EncodeAll(ins)|] == P.code[a..a + |EncodeAll(ins)|];
  }

  /** A list that the code yields when nothing follows it is the one list it arrives with
      anywhere. */
  lemma FragmentExact(P: Prog, a: int, ins: seq<Instr>, m: M, stk: seq<int>, bt: seq<Entry>, sem: seq<M>, outs: seq<M>)
    requires Stands(P, a, ins) && 0 <= a + SizeAll(ins) <= |P.code|
    requires Yields(Cut(P, a + SizeAll(ins)), At(a, m, stk, []), sem, a + SizeAll(ins), stk, [])
    ensures Arrives(P, At(a, m, stk, bt), outs, a + SizeAll(ins), stk, bt) <==> outs == sem
  {
    hide Stands, SizeAll, Yields, Arrives;
    var end := a + SizeAll(ins);
    CutArrives(P, end, At(a, m, stk, []), sem, stk, bt);
    assert bt + [] == bt;
    if Arrives(P, At(a, m, stk, bt), outs, end, stk, bt) {
      ArrivesUnique(P, At(a, m, stk, bt), outs, sem, end, stk, bt);
    }
  }

  /** Exactness: entered in any sound state, on any stacks, in any program that holds it, the
      code of a term gets to its end with the outcomes of the term, in order, and with nothing
      else. */
  lemma TermExact(P: Prog, md: Mode, cc: nat, t: Term, a: int, m: M, stk: seq<int>, bt: seq<Entry>, outs: seq<M>)
    requires Ready(P, cc, NumCaps(t)) && Valid(t) && Sound(P.env, m)
    requires Stands(P, a, EmitTerm(P.env.canon, md, cc, t))
    ensures Arrives(P, At(a, m, stk, bt), outs, a + SizeAll(EmitTerm(P.env.canon, md, cc, t)), stk, bt)
            <==> outs == SemTerm(P.env, md, cc, t, m)
  {
    hide Stands, SizeAll, EmitTerm, SemTerm, Yields, Arrives, Sound;
    var code := EmitTerm(P.env.canon, md, cc, t);
    StandsCut(P, a, code);
    TermYields(Cut(P, a + SizeAll(code)), md, cc, t, a, m, stk, []);
    FragmentExact(P, a, code, m, stk, bt, SemTerm(P.env, md, cc, t, m), outs);
  }
}
