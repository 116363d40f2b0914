/** Compiler correctness: the code emitted for a pattern, run from any position, captures and
    stacks, yields exactly the outcomes of the reference semantics, in priority order. */
module Correctness {
  import opened Options
  import opened Bytes
  import opened Opcodes
  import opened Text
  import opened Syntax
  import opened Emission
  import opened Semantics
  import opened Soundness
  import opened Machine
  import opened Traces
  import opened Loops
  import opened Atoms
  import opened SimpleQuant
  import opened Determinism
  import opened Fragments

  /** In lookbehind every character test comes with steps back, so no atom that reads is simple. */
  lemma BackNotSimple(canon: int -> int, md: Mode, cc: nat, t: Term)
    requires Valid(t) && md.back
    ensures SimpleCount(EmitTerm(canon, md, cc, t)) <= 0
    decreases t, 1
  {
    hide EmitAlts, EmitQuant, SimpleCount, ReadsChar, IsAssertion;
    var ins := EmitTerm(canon, md, cc, t);
    if SimpleCount(ins) > 0 {
      SimplePredictable(ins);
      match t
      case Group(alts) => BackNotSimpleAlts(canon, md, cc, alts);
      case Modified(add, remove, alts) =>
        BackNotSimpleAlts(canon, md.(flags := Update(md.flags, add, remove)), cc, alts);
      case Quant(atom, min, max, greedy) =>
        BackNotSimple(canon, md, cc, atom);
        QuantNotSimple(EmitTerm(canon, md, cc, atom), cc, NumCaps(atom), min, max, greedy);
      case _ => BackNotSimpleOne(canon, md, cc, t);
    }
  }

  lemma BackNotSimpleOne(canon: int -> int, md: Mode, cc: nat, t: Term)
    requires md.back && !t.Group? && !t.Modified? && !t.Quant?
    ensures SimpleCount(EmitTerm(canon, md, cc, t)) <= 0
  {
    hide EmitAlts;
    var ins := EmitTerm(canon, md, cc, t);
    var first := ins[0];
    if IsAssertion(first) {
      assert ins[..0] == [];
    } else if SimpleCount(ins) > 0 {
      SimplePredictable(ins);
    }
  }

  lemma QuantNotSimple(atom: seq<Instr>, first: nat, ncaps: nat, min: int, max: int, greedy: bool)
    requires 0 <= min <= max && SimpleCount(atom) <= 0
    ensures SimpleCount(EmitQuant(atom, first, ncaps, min, max, greedy)) <= 0
  {
    hide EmitQuant;
    var c := EmitQuant(atom, first, ncaps, min, max, greedy);
    QuantShape(atom, first, ncaps, min, max, greedy);
    var first := if c == [] then Match else c[0];
    if SimpleCount(c) > 0 {
      SimplePredictable(c);
    }
  }

  lemma BackNotSimpleSeq(canon: int -> int, md: Mode, cc: nat, ts: seq<Term>)
    requires ValidSeq(ts) && md.back
    ensures SimpleCount(EmitSeq(canon, md, cc, ts)) <= 0
    decreases ts, 0
  {
    hide EmitTerm, SimpleCount;
    if ts != [] {
      var init, last := ts[..|ts| - 1], ts[|ts| - 1];
      BackNotSimple(canon, md, cc + NumCapsSeq(init), last);
      BackNotSimpleSeq(canon, md, cc, init);
      SimpleCountAppend(EmitTerm(canon, md, cc + NumCapsSeq(init), last), EmitSeq(canon, md, cc, init));
    } else {
      NothingSimple();
    }
  }

  lemma NothingSimple()
    ensures SimpleCount([]) == 0
  {
  }

  lemma BackNotSimpleAlts(canon: int -> int, md: Mode, cc: nat, alts: seq<Alt>)
    requires ValidAlts(alts) && md.back
    ensures SimpleCount(EmitAlts(canon, md, cc, alts)) <= 0
    decreases alts, 0
  {
    hide EmitSeq, SimpleCount;
    var init := alts[..|alts| - 1];
    if init == [] {
      BackNotSimpleSeq(canon, md, cc + NumCapsAlts(init), alts[|alts| - 1].terms);
    } else {
      var ins := EmitAlts(canon, md, cc, alts);
      var first := ins[0];
      if SimpleCount(ins) > 0 {
        SimplePredictable(ins);
      }
    }
  }

  /** An atom accepted as simple opens no capture group. */
  lemma SimpleNoCaps(canon: int -> int, md: Mode, cc: nat, t: Term)
    requires Valid(t) && SimpleCount(EmitTerm(canon, md, cc, t)) >= 0
    ensures NumCaps(t) == 0
    decreases t, 1
  {
    hide EmitAlts, EmitQuant, SimpleCount, NumCapsAlts;
    var ins := EmitTerm(canon, md, cc, t);
    var first := if ins == [] then Match else ins[0];
    SimplePredictable(ins);
    match t
    case Group(alts) => SimpleNoCapsAlts(canon, md, cc, alts);
    case Modified(add, remove, alts) =>
      SimpleNoCapsAlts(canon, md.(flags := Update(md.flags, add, remove)), cc, alts);
    case Quant(atom, min, max, greedy) =>
      QuantShape(EmitTerm(canon, md, cc, atom), cc, NumCaps(atom), min, max, greedy);
      if max != 0 {
        SimpleNoCaps(canon, md, cc, atom);
      }
    case _ =>
  }

  lemma SimpleNoCapsSeq(canon: int -> int, md: Mode, cc: nat, ts: seq<Term>)
    requires ValidSeq(ts) && SimpleCount(EmitSeq(canon, md, cc, ts)) >= 0
    ensures NumCapsSeq(ts) == 0
    decreases ts, 0
  {
    hide EmitTerm, SimpleCount, NumCaps;
    if ts != [] {
      var init, last := ts[..|ts| - 1], ts[|ts| - 1];
      var x, y := EmitSeq(canon, md, cc, init), EmitTerm(canon, md, cc + NumCapsSeq(init), last);
      SimpleCountAppend(x, y);
      SimpleCountAppend(y, x);
      SimpleNoCaps(canon, md, cc + NumCapsSeq(init), last);
      SimpleNoCapsSeq(canon, md, cc, init);
    }
  }

  lemma SimpleNoCapsAlts(canon: int -> int, md: Mode, cc: nat, alts: seq<Alt>)
    requires ValidAlts(alts) && SimpleCount(EmitAlts(canon, md, cc, alts)) >= 0
    ensures NumCapsAlts(alts) == 0
    decreases alts, 0
  {
    hide EmitSeq, SimpleCount, NumCapsSeq;
    var init := alts[..|alts| - 1];
    var ins := EmitAlts(canon, md, cc, alts);
    var first := if ins == [] then Match else ins[0];
    SimplePredictable(ins);
    if init == [] {
      assert NumCapsAlts(init) == 0;
      SimpleNoCapsSeq(canon, md, cc + NumCapsAlts(init), alts[|alts| - 1].terms);
    }
  }

  /** The quantifier's code, whichever of its forms was emitted. */
  lemma SimpleCodeYields(P: Prog, md: Mode, cc: nat, t: Term, min: int, max: int, a: int, m: M, stk: seq<int>,
                         bt: seq<Entry>)
    requires ValidEnv(P.env) && Valid(Quant(t, min, max, true)) && max > 0 && Sound(P.env, m)
    requires SimpleCount(EmitTerm(P.env.canon, md, cc, t)) > 0
    requires Stands(P, a, SimpleQuantCode(EmitTerm(P.env.canon, md, cc, t), min, max))
    ensures Yields(P, At(a, m, stk, bt), Repeat(P.env, md, cc, t, min, max, true, m),
                   a + SizeAll(SimpleQuantCode(EmitTerm(P.env.canon, md, cc, t), min, max)), stk, bt)
  {
    hide Stands, SizeAll, Is, Yields, Repeat, Sound, EmitTerm, SimpleCount, Deterministic, ReadsChar, IsAssertion,
         RunNested, RunList;
    var atom := EmitTerm(P.env.canon, md, cc, t);
    if md.back {
      BackNotSimple(P.env.canon, md, cc, t);
    } else {
      var i := SimpleGreedyQuant(SizeAll(atom) + 1, min, max, SimpleCount(atom));
      assert SimpleQuantCode(atom, min, max) == [i] + (atom + [Match]);
      StandsFirst(P, a, i, atom + [Match]);
      StandsLast(P, a + 17, atom, Match);
      SimplePredictable(atom);
      forall pos
        ensures RunNested(P, a + 17, pos) ==
                match RunList(P.env, atom, pos)
                case None => NoMatch
                case Some(q) => Matched(q)
      {
        BodyRuns(P, a + 17, atom, pos);
      }
      SimpleDeterministic(P.env, md, cc, t);
      SimpleQuantYields(P, md, cc, t, atom, a, i, m, stk, bt);
    }
  }

  lemma ResetNothing(m: M, first: nat)
    ensures Reset(m, first, 0) == m
  {
    assert Reset(m, first, 0).caps == m.caps;
  }

  lemma ResetYields(P: Prog, first: nat, ncaps: nat, a: int, m: M, stk: seq<int>, bt: seq<Entry>, outs: seq<M>,
                    end: int)
    requires Sound(P.env, m) && first + ncaps <= P.env.ncap
    requires Stands(P, a, ResetCode(first, ncaps))
    requires Yields(P, At(a + SizeAll(ResetCode(first, ncaps)), Reset(m, first, ncaps), stk, bt), outs, end, stk, bt)
    ensures Yields(P, At(a, m, stk, bt), outs, end, stk, bt)
  {
    hide Stands, Yields, Reach, Reset, SizeAll;
    if ncaps == 0 {
      ResetNothing(m, first);
      assert SizeAll([]) == 0 by { NoSize(); }
    } else {
      StandsOne(P, a, SaveReset(first, first + ncaps - 1));
      ResetSound(P.env, m, first, ncaps);
      assert Step(P, At(a, m, stk, bt)) == At(a + 3, Reset(m, first, ncaps), stk, bt);
      YieldsStep(P, At(a, m, stk, bt), outs, end, stk, bt);
    }
  }

  lemma NoSize()
    ensures SizeAll([]) == 0
  {
  }

  lemma MinCodeYields(P: Prog, md: Mode, cc: nat, t: Term, atom: seq<Instr>, min: int, max: int, greedy: bool, a: int,
                      end: int, m: M, stk: seq<int>, bt: seq<Entry>)
    requires 1 <= min <= max <= INT32_MAX && Sound(P.env, m)
    requires Stands(P, a, MinCode(atom, min)) && Relocatable(P, md, cc, t, atom)
    requires Rest(P, md, cc, t, Minus(max, min), greedy, a + SizeAll(MinCode(atom, min)), end)
    ensures Yields(P, At(a, m, stk, bt), Repeat(P.env, md, cc, t, min, max, greedy, m), end, stk, bt)
  {
    hide Stands, SizeAll, Implements, Is, Yields, Repeat, Sound, Rest;
    if min == 1 {
      OnceYields(P, md, cc, t, max, greedy, a, a + SizeAll(atom), end, m, stk, bt);
    } else {
      var loop := Loop(-(SizeAll(atom) + 5));
      assert MinCode(atom, min) == [PushI32(min)] + (atom + [loop] + [Drop]);
      StandsFirst(P, a, PushI32(min), atom + [loop] + [Drop]);
      StandsLast(P, a + 5, atom + [loop], Drop);
      StandsLast(P, a + 5, atom, loop);
      var b := a + 5 + SizeAll(atom);
      MinYields(P, md, cc, t, min, max, greedy, a + 5, b, end, m, stk, bt);
      PushYields(P, a, min, m, stk, bt, Repeat(P.env, md, cc, t, min, max, greedy, m), end);
    }
  }

  lemma GeneralCodeYields(P: Prog, md: Mode, cc: nat, t: Term, atom: seq<Instr>, min: int, max: int, greedy: bool,
                          a: int, m: M, stk: seq<int>, bt: seq<Entry>)
    requires 0 <= min <= max <= INT32_MAX && Sound(P.env, m) && cc + NumCaps(t) <= P.env.ncap
    requires !(greedy && max > 0 && SimpleCount(atom) > 0)
    requires Stands(P, a, EmitQuant(atom, cc, NumCaps(t), min, max, greedy))
    requires AtomReady(P, md, cc, t, atom, NeedCheck(atom))
    ensures Yields(P, At(a, m, stk, bt), SemTerm(P.env, md, cc, Quant(t, min, max, greedy), m),
                   a + SizeAll(EmitQuant(atom, cc, NumCaps(t), min, max, greedy)), stk, bt)
  {
    hide Stands, SizeAll, Implements, Is, Yields, Repeat, Sound, SimpleCount, NeedCheck, AlwaysMoves, NumCaps,
         OptionalCode, MinCode, RestCode, ResetCode, Reset;
    var check := NeedCheck(atom);
    var end := a + SizeAll(EmitQuant(atom, cc, NumCaps(t), min, max, greedy));
    if min == 0 {
      var x, y := ResetCode(cc, NumCaps(t)), OptionalCode(atom, check, max, greedy);
      StandsSplit(P, a, x, y);
      OptionalCodeYields(P, md, cc, t, atom, check, max, greedy, a + SizeAll(x));
      ResetSound(P.env, m, cc, NumCaps(t));
      ResetYields(P, cc, NumCaps(t), a, m, stk, bt,
                  Repeat(P.env, md, cc, t, min, max, greedy, Reset(m, cc, NumCaps(t))), end);
    } else if min == 1 && max == INT32_MAX && !check {
      StandsLast(P, a, atom, Split(greedy, -(SizeAll(atom) + 5)));
      PlusYields(P, md, cc, t, greedy, a, a + SizeAll(atom), m, stk, bt);
    } else {
      var x, y := MinCode(atom, min), RestCode(atom, check, min, max, greedy);
      StandsSplit(P, a, x, y);
      RestCodeYields(P, md, cc, t, atom, check, min, max, greedy, a + SizeAll(x));
      MinCodeYields(P, md, cc, t, atom, min, max, greedy, a, end, m, stk, bt);
    }
  }

  /** Every sort of term. `Ready` collects what compilation guarantees. */
  ghost predicate Ready(P: Prog, cc: nat, ncaps: nat) {
    ValidEnv(P.env) && cc + ncaps <= P.env.ncap
  }

  lemma TermYields(P: Prog, md: Mode, cc: nat, t: Term, a: int, m: M, stk: seq<int>, bt: seq<Entry>)
    requires Ready(P, cc, NumCaps(t)) && Valid(t) && Sound(P.env, m)
    requires Stands(P, a, EmitTerm(P.env.canon, md, cc, t))
    ensures Yields(P, At(a, m, stk, bt), SemTerm(P.env, md, cc, t, m), a + SizeAll(EmitTerm(P.env.canon, md, cc, t)),
                   stk, bt)
    decreases t, 1
  {
    hide Stands, SizeAll, Yields, Sound, EmitAlts, SemAlts, EmitQuant, Repeat, SetCaps, ValidAlts;
    match t
    case Group(alts) => AltsYields(P, md, cc, alts, a, m, stk, bt);
    case Modified(add, remove, alts) =>
      AltsYields(P, md.(flags := Update(md.flags, add, remove)), cc, alts, a, m, stk, bt);
    case Capture(alts) => CaptureYields(P, md, cc, alts, a, m, stk, bt);
    case Look(behind, neg, alts) => LookYields(P, md, cc, behind, neg, alts, a, m, stk, bt);
    case Quant(atom, min, max, greedy) => QuantYields(P, md, cc, atom, min, max, greedy, a, m, stk, bt);
    case BackRef(n) => BackRefYields(P, md, cc, n, a, m, stk, bt);
    case LineStart => AssertYields(P, md, cc, t, a, m, stk, bt);
    case LineEnd => AssertYields(P, md, cc, t, a, m, stk, bt);
    case WordBoundary(_) => AssertYields(P, md, cc, t, a, m, stk, bt);
    case Char(_) => CharYields(P, md, cc, t, a, m, stk, bt);
    case Dot => CharYields(P, md, cc, t, a, m, stk, bt);
    case Class(_) => CharYields(P, md, cc, t, a, m, stk, bt);
  }

  lemma TermImplements(P: Prog, md: Mode, cc: nat, t: Term)
    requires Ready(P, cc, NumCaps(t)) && Valid(t)
    ensures Relocatable(P, md, cc, t, EmitTerm(P.env.canon, md, cc, t))
    decreases t, 2
  {
    hide Stands, SizeAll, Yields, Sound, EmitTerm, SemTerm;
    forall x, m, stk, bt | Stands(P, x, EmitTerm(P.env.canon, md, cc, t)) && Sound(P.env, m)
      ensures Yields(P, At(x, m, stk, bt), SemTerm(P.env, md, cc, t, m), x + SizeAll(EmitTerm(P.env.canon, md, cc, t)),
                     stk, bt)
    {
      TermYields(P, md, cc, t, x, m, stk, bt);
    }
  }

  lemma QuantYields(P: Prog, md: Mode, cc: nat, t: Term, min: int, max: int, greedy: bool, a: int, m: M, stk: seq<int>,
                    bt: seq<Entry>)
    requires Ready(P, cc, NumCaps(t)) && Valid(Quant(t, min, max, greedy)) && Sound(P.env, m)
    requires Stands(P, a, EmitQuant(EmitTerm(P.env.canon, md, cc, t), cc, NumCaps(t), min, max, greedy))
    ensures Yields(P, At(a, m, stk, bt), SemTerm(P.env, md, cc, Quant(t, min, max, greedy), m),
                   a + SizeAll(EmitQuant(EmitTerm(P.env.canon, md, cc, t), cc, NumCaps(t), min, max, greedy)), stk, bt)
    decreases t, 3
  {
    hide Stands, SizeAll, Yields, Sound, EmitTerm, Repeat, SimpleCount, NeedCheck, AlwaysMoves, Relocatable, NumCaps,
         Reset;
    var atom := EmitTerm(P.env.canon, md, cc, t);
    if greedy && max > 0 && SimpleCount(atom) > 0 {
      SimpleNoCaps(P.env.canon, md, cc, t);
      ResetNothing(m, cc);
      SimpleCodeYields(P, md, cc, t, min, max, a, m, stk, bt);
    } else {
      TermImplements(P, md, cc, t);
      if !NeedCheck(atom) {
        Advance.AlwaysMovesTerm(P.env, md, cc, t);
      }
      GeneralCodeYields(P, md, cc, t, atom, min, max, greedy, a, m, stk, bt);
    }
  }

  lemma CharYields(P: Prog, md: Mode, cc: nat, t: Term, a: int, m: M, stk: seq<int>, bt: seq<Entry>)
    requires ValidEnv(P.env) && Valid(t) && Sound(P.env, m) && (t.Char? || t.Dot? || t.Class?)
    requires Stands(P, a, EmitTerm(P.env.canon, md, cc, t))
    ensures Yields(P, At(a, m, stk, bt), SemTerm(P.env, md, cc, t, m), a + SizeAll(EmitTerm(P.env.canon, md, cc, t)),
                   stk, bt)
  {
    hide Stands, SizeAll, Yields, Sound, ValidEnv, Reach, CharTest, Accepts, Test, Next, Is, EmitTerm, SemTerm,
         CharOutcome, ReadsChar, Valid;
    var i := CharTest(P.env.canon, md.flags, t);
    assert EmitTerm(P.env.canon, md, cc, t) == Around(md.back, i) by { CharEmits(P.env.canon, md, cc, t); }
    CharOuts(P.env, md, cc, t, m);
    if md.back {
      assert Around(true, i) == [Prev] + ([i] + [Prev]);
      StandsFirst(P, a, Prev, [i] + [Prev]);
      StandsFirst(P, a + 1, i, [Prev]);
      StandsOne(P, a + 1 + Size(i), Prev);
      BackCharYields(P, i, a, m, stk, bt, SemTerm(P.env, md, cc, t, m));
    } else {
      StandsOne(P, a, i);
      ReadYields(P, i, a, m, stk, bt, SemTerm(P.env, md, cc, t, m));
    }
  }

  lemma CharEmits(canon: int -> int, md: Mode, cc: nat, t: Term)
    requires t.Char? || t.Dot? || t.Class?
    ensures EmitTerm(canon, md, cc, t) == Around(md.back, CharTest(canon, md.flags, t))
  {
  }

  /** The outcomes of an instruction that reads one character in the given direction. */
  ghost predicate CharOutcome(e: Env, back: bool, i: Instr, m: M, outs: seq<M>) {
    match Next(e, back, m.pos)
    case None => outs == []
    case Some((c, q)) => outs == If(Test(e, i, c), m.(pos := q))
  }

  lemma CharOuts(e: Env, md: Mode, cc: nat, t: Term, m: M)
    requires ValidEnv(e) && Valid(t) && (t.Char? || t.Dot? || t.Class?)
    ensures ReadsChar(CharTest(e.canon, md.flags, t))
    ensures CharOutcome(e, md.back, CharTest(e.canon, md.flags, t), m, SemTerm(e, md, cc, t, m))
  {
    hide ValidEnv, Test, Accepts, CharTest, Next;
    if Next(e, md.back, m.pos).Some? {
      NextInRange(e, md.back, m.pos);
      CharTestAgrees(e, md.flags, t, Next(e, md.back, m.pos).value.0);
    } else {
      CharTestAgrees(e, md.flags, t, 0);
    }
  }

  lemma ReadYields(P: Prog, i: Instr, a: int, m: M, stk: seq<int>, bt: seq<Entry>, outs: seq<M>)
    requires ReadsChar(i) && Is(P, a, i) && CharOutcome(P.env, false, i, m, outs)
    ensures Yields(P, At(a, m, stk, bt), outs, a + Size(i), stk, bt)
  {
    hide Yields, Reach, Test, Next;
    var s := At(a, m, stk, bt);
    if outs == [] {
      assert Step(P, s) == Fail(bt);
      YieldsNone(P, a + Size(i), stk, bt);
    } else {
      assert Step(P, s) == At(a + Size(i), outs[0], stk, bt);
      YieldsOne(P, outs[0], a + Size(i), stk, bt);
    }
    YieldsStep(P, s, outs, a + Size(i), stk, bt);
  }

  /** Step back, read forward, step back: one character read backward. */
  lemma BackCharYields(P: Prog, i: Instr, a: int, m: M, stk: seq<int>, bt: seq<Entry>, outs: seq<M>)
    requires Sound(P.env, m) && ReadsChar(i) && CharOutcome(P.env, true, i, m, outs)
    requires Is(P, a, Prev) && Is(P, a + 1, i) && Is(P, a + 1 + Size(i), Prev)
    ensures Yields(P, At(a, m, stk, bt), outs, a + 2 + Size(i), stk, bt)
  {
    hide Yields, Reach, Test, FromSurrogate, ReadsChar, IsAssertion;
    var s := At(a, m, stk, bt);
    var end := a + 2 + Size(i);
    if m.pos == 0 {
      assert Step(P, s) == Fail(bt);
      YieldsNone(P, end, stk, bt);
    } else {
      GetUndoesPrev(P.env.subject, m.pos);
      var (c, q) := GetPrevChar(P.env.subject, m.pos);
      var m1 := m.(pos := q);
      var s2 := At(a + 1 + Size(i), m, stk, bt);
      assert Step(P, s) == At(a + 1, m1, stk, bt);
      assert CharOutcome(P.env, false, i, m1, If(Test(P.env, i, c), m));
      ReadYields(P, i, a + 1, m1, stk, bt, If(Test(P.env, i, c), m));
      PrevYields(P, a + 1 + Size(i), m, q, stk, bt, At(a + 1, m1, stk, bt), If(Test(P.env, i, c), m), outs);
    }
    YieldsStep(P, s, outs, end, stk, bt);
  }

  lemma PrevYields(P: Prog, b: int, m: M, q: nat, stk: seq<int>, bt: seq<Entry>, s: State, before: seq<M>,
                   after: seq<M>)
    requires Is(P, b, Prev) && 0 < m.pos <= |P.env.subject.units| && GetPrevChar(P.env.subject, m.pos).1 == q
    requires Yields(P, s, before, b, stk, bt)
    requires (before == [] && after == []) || (before == [m] && after == [m.(pos := q)])
    ensures Yields(P, s, after, b + 1, stk, bt)
  {
    hide Yields, Reach;
    var lists := seq(|before|, i requires 0 <= i < |before| => after);
    forall i, bt' | 0 <= i < |before| && Extends(bt', bt)
      ensures Yields(P, At(b, before[i], stk, bt'), lists[i], b + 1, stk, bt')
    {
      YieldsOne(P, m.(pos := q), b + 1, stk, bt');
      YieldsStep(P, At(b, m, stk, bt'), after, b + 1, stk, bt');
    }
    YieldsBind(P, s, before, lists, b, stk, b + 1, stk, bt);
    if before != [] {
      assert lists == [after] && lists[1..] == [];
      assert after + Concat([]) == after;
    }
  }

  lemma AssertYields(P: Prog, md: Mode, cc: nat, t: Term, a: int, m: M, stk: seq<int>, bt: seq<Entry>)
    requires t.LineStart? || t.LineEnd? || t.WordBoundary?
    requires Stands(P, a, EmitTerm(P.env.canon, md, cc, t))
    ensures Yields(P, At(a, m, stk, bt), SemTerm(P.env, md, cc, t, m), a + SizeAll(EmitTerm(P.env.canon, md, cc, t)),
                   stk, bt)
  {
    hide Stands, SizeAll, Yields, Reach, LineEdge, WordAt;
    var i := EmitTerm(P.env.canon, md, cc, t)[0];
    assert EmitTerm(P.env.canon, md, cc, t) == [i];
    StandsOne(P, a, i);
    assert Size(i) == 1;
    var s := At(a, m, stk, bt);
    var outs := SemTerm(P.env, md, cc, t, m);
    assert outs == If(Holds(P.env, i, m.pos), m);
    if outs == [] {
      assert Step(P, s) == Fail(bt);
      YieldsNone(P, a + 1, stk, bt);
    } else {
      assert Step(P, s) == At(a + 1, m, stk, bt);
      YieldsOne(P, m, a + 1, stk, bt);
    }
    YieldsStep(P, s, outs, a + 1, stk, bt);
  }

  lemma RefAgrees(e: Env, md: Mode, n: nat, m: M)
    requires Sound(e, m) && n < e.ncap && m.caps[2 * n].Some? && m.caps[2 * n + 1].Some?
    ensures Captured(e, m, n).Some?
    ensures var p, q := m.caps[2 * n].value, m.caps[2 * n + 1].value;
            MatchText(e, md.back, md.flags.icase, Captured(e, m, n).value, m.pos)
            == if md.back then RefBackward(e, md.flags.icase, p, q, m.pos)
               else RefForward(e, md.flags.icase, p, q, m.pos)
  {
    hide MatchText, RefBackward, RefForward, Chars;
    var p, q := m.caps[2 * n].value, m.caps[2 * n + 1].value;
    RefForwardIs(e, md.flags.icase, p, q, m.pos);
    RefBackwardIs(e, md.flags.icase, p, q, m.pos);
  }

  lemma BackRefYields(P: Prog, md: Mode, cc: nat, n: int, a: int, m: M, stk: seq<int>, bt: seq<Entry>)
    requires Valid(Term.BackRef(n)) && Sound(P.env, m)
    requires Stands(P, a, EmitTerm(P.env.canon, md, cc, Term.BackRef(n)))
    ensures Yields(P, At(a, m, stk, bt), SemTerm(P.env, md, cc, Term.BackRef(n), m),
                   a + SizeAll(EmitTerm(P.env.canon, md, cc, Term.BackRef(n))), stk, bt)
  {
    hide Stands, SizeAll, Yields, Reach, MatchText, RefBackward, RefForward, Chars, StepRef;
    var i := Instr.BackRef(md.back, md.flags.icase, n);
    StandsOne(P, a, i);
    var s := At(a, m, stk, bt);
    var outs := SemTerm(P.env, md, cc, Term.BackRef(n), m);
    assert Step(P, s) == StepRef(P.env, i, s);
    BackRefStep(P.env, md, cc, n, i, s, outs);
    if outs == [] {
      YieldsNone(P, a + 2, stk, bt);
    } else {
      YieldsOne(P, outs[0], a + 2, stk, bt);
    }
    YieldsStep(P, s, outs, a + 2, stk, bt);
  }

  lemma BackRefStep(e: Env, md: Mode, cc: nat, n: int, i: Instr, s: State, outs: seq<M>)
    requires s.Run? && Sound(e, Here(s)) && 0 <= n && i == Instr.BackRef(md.back, md.flags.icase, n)
    requires outs == SemTerm(e, md, cc, Term.BackRef(n), Here(s))
    ensures outs == [] ==> StepRef(e, i, s) == Fail(s.bt)
    ensures outs != [] ==> outs == [outs[0]] && StepRef(e, i, s) == At(s.pc + 2, outs[0], s.stk, s.bt)
  {
    hide MatchText, RefBackward, RefForward, Chars;
    var m := Here(s);
    if n < e.ncap && m.caps[2 * n].Some? && m.caps[2 * n + 1].Some? {
      RefAgrees(e, md, n, m);
    }
  }

  lemma SaveStep(P: Prog, a: int, end: bool, n: nat, m: M, stk: seq<int>, bt: seq<Entry>)
    requires Is(P, a, Save(end, n)) && 2 * n + 1 < |m.caps|
    ensures Step(P, At(a, m, stk, bt)) == At(a + 2, SetCap(m, 2 * n + Bit(end)), stk, bt)
  {
  }

  /** Saving a position after each outcome. */
  lemma SaveYields(P: Prog, s: State, ms: seq<M>, b: int, end: bool, n: nat, stk: seq<int>, bt: seq<Entry>)
    requires Yields(P, s, ms, b, stk, bt) && Is(P, b, Save(end, n))
    requires forall i :: 0 <= i < |ms| ==> 2 * n + 1 < |ms[i].caps|
    ensures Yields(P, s, SetCaps(ms, 2 * n + Bit(end)), b + 2, stk, bt)
  {
    hide Yields, Reach, Step, Is, SetCap;
    var k := 2 * n + Bit(end);
    var lists := Singles(SetCaps(ms, k));
    forall i, bt' | 0 <= i < |ms| && Extends(bt', bt)
      ensures Yields(P, At(b, ms[i], stk, bt'), lists[i], b + 2, stk, bt')
    {
      SaveStep(P, b, end, n, ms[i], stk, bt');
      YieldsOne(P, SetCap(ms[i], k), b + 2, stk, bt');
      YieldsStep(P, At(b, ms[i], stk, bt'), lists[i], b + 2, stk, bt');
    }
    YieldsBind(P, s, ms, lists, b, stk, b + 2, stk, bt);
    ConcatSingles(SetCaps(ms, k));
  }

  ghost function Singles(ms: seq<M>): (r: seq<seq<M>>)
    ensures |r| == |ms|
    ensures forall i :: 0 <= i < |r| ==> r[i] == [ms[i]]
  {
    seq(|ms|, i requires 0 <= i < |ms| => [ms[i]])
  }

  lemma {:induction false} ConcatSingles(ms: seq<M>)
    ensures Concat(Singles(ms)) == ms
  {
    if ms != [] {
      assert Singles(ms)[1..] == Singles(ms[1..]);
      ConcatSingles(ms[1..]);
    }
  }

  lemma CaptureYields(P: Prog, md: Mode, cc: nat, alts: seq<Alt>, a: int, m: M, stk: seq<int>, bt: seq<Entry>)
    requires Ready(P, cc, 1 + NumCapsAlts(alts)) && ValidAlts(alts) && Sound(P.env, m)
    requires Stands(P, a, EmitTerm(P.env.canon, md, cc, Capture(alts)))
    ensures Yields(P, At(a, m, stk, bt), SemTerm(P.env, md, cc, Capture(alts), m),
                   a + SizeAll(EmitTerm(P.env.canon, md, cc, Capture(alts))), stk, bt)
    decreases alts, 1
  {
    hide Stands, SizeAll, Yields, Reach, EmitAlts, SemAlts, Step, SetCap, ValidAlts, Is, SetCaps, Left;
    var e := P.env;
    var body := EmitAlts(e.canon, md, cc + 1, alts);
    var k := 2 * cc + Bit(md.back);
    var m1 := SetCap(m, k);
    StandsLast(P, a, [Save(md.back, cc)] + body, Save(!md.back, cc));
    StandsFirst(P, a, Save(md.back, cc), body);
    SaveStep(P, a, md.back, cc, m, stk, bt);
    SetCapSound(e, m, k);
    AltsYields(P, md, cc + 1, alts, a + 2, m1, stk, bt);
    var ms := SemAlts(e, md, cc + 1, alts, m1);
    YieldsStep(P, At(a, m, stk, bt), ms, a + 2 + SizeAll(body), stk, bt);
    SemAltsSound(e, md, cc + 1, alts, m1);
    forall i | 0 <= i < |ms| ensures 2 * cc + 1 < |ms[i].caps| {
      assert Onward(e, md.back, m1, ms[i]);
    }
    SaveYields(P, At(a, m, stk, bt), ms, a + 2 + SizeAll(body), !md.back, cc, stk, bt);
  }

  /** After `match`, the choices above the innermost pending lookaround are discarded. */
  lemma {:induction false} SucceedPops(P: Prog, caps: seq<Option<nat>>, bt': seq<Entry>, bt: seq<Entry>)
    requires Extends(bt', bt)
    ensures Reach(P, Succeed(caps, bt'), Succeed(caps, bt))
    decreases |bt'|
  {
    hide Reach;
    if |bt'| == |bt| {
      assert bt' == bt;
      ReachRefl(P, Succeed(caps, bt));
    } else {
      var n := |bt'| - 1;
      assert !bt'[n].Ahead?;
      assert Step(P, Succeed(caps, bt')) == Succeed(caps, bt'[..n]);
      assert bt'[..n][..|bt|] == bt'[..|bt|];
      SucceedPops(P, caps, bt'[..n], bt);
      ReachStep(P, Succeed(caps, bt'));
      ReachTrans(P, Succeed(caps, bt'), Succeed(caps, bt'[..n]), Succeed(caps, bt));
    }
  }

  /** A lookaround whose body has run: resolved by the first outcome, or by there being none. */
  lemma LookResolves(P: Prog, neg: bool, end: int, s: State, outs: seq<M>, b: int, m: M, stk: seq<int>, bt: seq<Entry>)
    requires Is(P, b, Match)
    requires Yields(P, s, outs, b, stk, bt + [Ahead(neg, end, m.pos, m.caps, stk)])
    ensures outs == [] ==> Reach(P, s, if neg then At(end, m, stk, bt) else Fail(bt))
    ensures outs != [] ==> Reach(P, s, if neg then Fail(bt) else At(end, M(m.pos, outs[0].caps), stk, bt))
  {
    hide Reach, Extends;
    var bt1 := bt + [Ahead(neg, end, m.pos, m.caps, stk)];
    assert bt1[..|bt1| - 1] == bt;
    if outs == [] {
      ReachStep(P, Fail(bt1));
      ReachTrans(P, s, Fail(bt1), Step(P, Fail(bt1)));
    } else {
      var bt' :| YieldsVia(P, s, outs, b, stk, bt1, bt');
      var caps := outs[0].caps;
      var s1 := At(b, outs[0], stk, bt');
      assert Step(P, s1) == Succeed(caps, bt');
      ReachStep(P, s1);
      ReachTrans(P, s, s1, Succeed(caps, bt'));
      SucceedPops(P, caps, bt', bt1);
      ReachTrans(P, s, Succeed(caps, bt'), Succeed(caps, bt1));
      ReachStep(P, Succeed(caps, bt1));
      ReachTrans(P, s, Succeed(caps, bt1), Step(P, Succeed(caps, bt1)));
    }
  }

  lemma LookYields(P: Prog, md: Mode, cc: nat, behind: bool, neg: bool, alts: seq<Alt>, a: int, m: M, stk: seq<int>,
                   bt: seq<Entry>)
    requires Ready(P, cc, NumCapsAlts(alts)) && ValidAlts(alts) && Sound(P.env, m)
    requires Stands(P, a, EmitTerm(P.env.canon, md, cc, Look(behind, neg, alts)))
    ensures Yields(P, At(a, m, stk, bt), SemTerm(P.env, md, cc, Look(behind, neg, alts), m),
                   a + SizeAll(EmitTerm(P.env.canon, md, cc, Look(behind, neg, alts))), stk, bt)
    decreases alts, 1
  {
    hide Stands, SizeAll, Yields, Reach, EmitAlts, SemAlts, ValidAlts, Sound;
    var e := P.env;
    var md' := md.(back := behind);
    var body := EmitAlts(e.canon, md', cc, alts);
    var i := Lookahead(neg, SizeAll(body) + 1);
    StandsLast(P, a, [i] + body, Match);
    StandsFirst(P, a, i, body);
    var end := a + 6 + SizeAll(body);
    var s := At(a, m, stk, bt);
    var bt1 := bt + [Ahead(neg, end, m.pos, m.caps, stk)];
    assert Step(P, s) == At(a + 5, m, stk, bt1);
    AltsYields(P, md', cc, alts, a + 5, m, stk, bt1);
    var outs := SemAlts(e, md', cc, alts, m);
    LookResolves(P, neg, end, Step(P, s), outs, a + 5 + SizeAll(body), m, stk, bt);
    var result := SemTerm(e, md, cc, Look(behind, neg, alts), m);
    if result == [] {
      YieldsNone(P, end, stk, bt);
      YieldsPrefix(P, Step(P, s), Fail(bt), result, end, stk, bt);
    } else {
      YieldsOne(P, result[0], end, stk, bt);
      YieldsPrefix(P, Step(P, s), At(end, result[0], stk, bt), result, end, stk, bt);
    }
    YieldsStep(P, s, result, end, stk, bt);
  }

  ghost function TermLists(e: Env, md: Mode, cc: nat, t: Term, ms: seq<M>): (r: seq<seq<M>>)
    ensures |r| == |ms|
    ensures forall i :: 0 <= i < |r| ==> r[i] == SemTerm(e, md, cc, t, ms[i])
  {
    seq(|ms|, i requires 0 <= i < |ms| => SemTerm(e, md, cc, t, ms[i]))
  }

  lemma {:induction false} TermAllConcat(e: Env, md: Mode, cc: nat, t: Term, ms: seq<M>)
    ensures TermAll(e, md, cc, t, ms) == Concat(TermLists(e, md, cc, t, ms))
  {
    hide SemTerm;
    if ms != [] {
      assert TermLists(e, md, cc, t, ms)[1..] == TermLists(e, md, cc, t, ms[1..]);
      TermAllConcat(e, md, cc, t, ms[1..]);
    }
  }

  ghost function SeqLists(e: Env, md: Mode, cc: nat, ts: seq<Term>, ms: seq<M>): (r: seq<seq<M>>)
    ensures |r| == |ms|
    ensures forall i :: 0 <= i < |r| ==> r[i] == SemSeq(e, md, cc, ts, ms[i])
  {
    seq(|ms|, i requires 0 <= i < |ms| => SemSeq(e, md, cc, ts, ms[i]))
  }

  lemma {:induction false} SeqAllConcat(e: Env, md: Mode, cc: nat, ts: seq<Term>, ms: seq<M>)
    ensures SeqAll(e, md, cc, ts, ms) == Concat(SeqLists(e, md, cc, ts, ms))
  {
    hide SemSeq;
    if ms != [] {
      assert SeqLists(e, md, cc, ts, ms)[1..] == SeqLists(e, md, cc, ts, ms[1..]);
      SeqAllConcat(e, md, cc, ts, ms[1..]);
    }
  }

  lemma SeqYields(P: Prog, md: Mode, cc: nat, ts: seq<Term>, a: int, m: M, stk: seq<int>, bt: seq<Entry>)
    requires Ready(P, cc, NumCapsSeq(ts)) && ValidSeq(ts) && Sound(P.env, m)
    requires Stands(P, a, EmitSeq(P.env.canon, md, cc, ts))
    ensures Yields(P, At(a, m, stk, bt), SemSeq(P.env, md, cc, ts, m), a + SizeAll(EmitSeq(P.env.canon, md, cc, ts)),
                   stk, bt)
    decreases ts, 0
  {
    hide Stands, SizeAll, Yields, EmitTerm, SemTerm, Sound, Valid, ValidEnv;
    if ts == [] {
      NoSize();
      YieldsOne(P, m, a, stk, bt);
    } else if md.back {
      BackSeqYields(P, md, cc, ts, a, m, stk, bt);
    } else {
      FrontSeqYields(P, md, cc, ts, a, m, stk, bt);
    }
  }

  lemma FrontSeqYields(P: Prog, md: Mode, cc: nat, ts: seq<Term>, a: int, m: M, stk: seq<int>, bt: seq<Entry>)
    requires Ready(P, cc, NumCapsSeq(ts)) && ValidSeq(ts) && Sound(P.env, m) && ts != [] && !md.back
    requires Stands(P, a, EmitSeq(P.env.canon, md, cc, ts))
    ensures Yields(P, At(a, m, stk, bt), SemSeq(P.env, md, cc, ts, m), a + SizeAll(EmitSeq(P.env.canon, md, cc, ts)),
                   stk, bt)
    decreases ts, 0, 0
  {
    hide Stands, SizeAll, Yields, EmitTerm, SemTerm, Sound, Valid, ValidEnv, Left;
    var e := P.env;
    var init, last := ts[..|ts| - 1], ts[|ts| - 1];
    var cc' := cc + NumCapsSeq(init);
    var x, y := EmitSeq(e.canon, md, cc, init), EmitTerm(e.canon, md, cc', last);
    StandsSplit(P, a, x, y);
    var mid, end := a + SizeAll(x), a + SizeAll(x) + SizeAll(y);
    SeqYields(P, md, cc, init, a, m, stk, bt);
    SemSeqSound(e, md, cc, init, m);
    var ms := SemSeq(e, md, cc, init, m);
    var lists := TermLists(e, md, cc', last, ms);
    forall i, bt' | 0 <= i < |ms| && Extends(bt', bt)
      ensures Yields(P, At(mid, ms[i], stk, bt'), lists[i], end, stk, bt')
    {
      assert Onward(e, md.back, m, ms[i]);
      TermYields(P, md, cc', last, mid, ms[i], stk, bt');
    }
    YieldsBind(P, At(a, m, stk, bt), ms, lists, mid, stk, end, stk, bt);
    TermAllConcat(e, md, cc', last, ms);
  }

  lemma BackSeqYields(P: Prog, md: Mode, cc: nat, ts: seq<Term>, a: int, m: M, stk: seq<int>, bt: seq<Entry>)
    requires Ready(P, cc, NumCapsSeq(ts)) && ValidSeq(ts) && Sound(P.env, m) && ts != [] && md.back
    requires Stands(P, a, EmitSeq(P.env.canon, md, cc, ts))
    ensures Yields(P, At(a, m, stk, bt), SemSeq(P.env, md, cc, ts, m), a + SizeAll(EmitSeq(P.env.canon, md, cc, ts)),
                   stk, bt)
    decreases ts, 0, 0
  {
    hide Stands, SizeAll, Yields, EmitTerm, SemTerm, Sound, Valid, ValidEnv, Left;
    var e := P.env;
    var init, last := ts[..|ts| - 1], ts[|ts| - 1];
    var cc' := cc + NumCapsSeq(init);
    var x, y := EmitTerm(e.canon, md, cc', last), EmitSeq(e.canon, md, cc, init);
    StandsSplit(P, a, x, y);
    var mid, end := a + SizeAll(x), a + SizeAll(x) + SizeAll(y);
    TermYields(P, md, cc', last, a, m, stk, bt);
    SemSound(e, md, cc', last, m);
    var ms := SemTerm(e, md, cc', last, m);
    var lists := SeqLists(e, md, cc, init, ms);
    forall i, bt' | 0 <= i < |ms| && Extends(bt', bt)
      ensures Yields(P, At(mid, ms[i], stk, bt'), lists[i], end, stk, bt')
    {
      assert Onward(e, md.back, m, ms[i]);
      SeqYields(P, md, cc, init, mid, ms[i], stk, bt');
    }
    YieldsBind(P, At(a, m, stk, bt), ms, lists, mid, stk, end, stk, bt);
    SeqAllConcat(e, md, cc, init, ms);
  }

  lemma GotoYields(P: Prog, s: State, ms: seq<M>, b: int, off: int, stk: seq<int>, bt: seq<Entry>)
    requires Yields(P, s, ms, b, stk, bt) && Is(P, b, Goto(off))
    ensures Yields(P, s, ms, b + 5 + off, stk, bt)
  {
    hide Yields, Reach;
    var lists := Singles(ms);
    forall i, bt' | 0 <= i < |ms| && Extends(bt', bt)
      ensures Yields(P, At(b, ms[i], stk, bt'), lists[i], b + 5 + off, stk, bt')
    {
      YieldsOne(P, ms[i], b + 5 + off, stk, bt');
      YieldsStep(P, At(b, ms[i], stk, bt'), lists[i], b + 5 + off, stk, bt');
    }
    YieldsBind(P, s, ms, lists, b, stk, b + 5 + off, stk, bt);
    ConcatSingles(ms);
  }

  lemma AltsYields(P: Prog, md: Mode, cc: nat, alts: seq<Alt>, a: int, m: M, stk: seq<int>, bt: seq<Entry>)
    requires Ready(P, cc, NumCapsAlts(alts)) && ValidAlts(alts) && Sound(P.env, m)
    requires Stands(P, a, EmitAlts(P.env.canon, md, cc, alts))
    ensures Yields(P, At(a, m, stk, bt), SemAlts(P.env, md, cc, alts, m),
                   a + SizeAll(EmitAlts(P.env.canon, md, cc, alts)), stk, bt)
    decreases alts, 0
  {
    hide Stands, SizeAll, Yields, EmitSeq, SemSeq, Sound, ValidSeq, ValidEnv, Is;
    var e := P.env;
    var init := alts[..|alts| - 1];
    var cc' := cc + NumCapsAlts(init);
    var right := EmitSeq(e.canon, md, cc', alts[|alts| - 1].terms);
    var second := SemSeq(e, md, cc', alts[|alts| - 1].terms, m);
    if init == [] {
      assert SemAlts(e, md, cc, init, m) + second == second;
      SeqYields(P, md, cc', alts[|alts| - 1].terms, a, m, stk, bt);
    } else {
      var left := EmitAlts(e.canon, md, cc, init);
      var first := SemAlts(e, md, cc, init, m);
      AltCodeStands(P, left, right, a);
      var b := a + 5 + SizeAll(left);
      var start, target, end := a + 5, b + 5, b + 5 + SizeAll(right);
      forall bt0 ensures Yields(P, At(start, m, stk, bt0), first, end, stk, bt0) {
        AltsYields(P, md, cc, init, start, m, stk, bt0);
        GotoYields(P, At(start, m, stk, bt0), first, b, SizeAll(right), stk, bt0);
      }
      forall bt0 ensures Yields(P, At(target, m, stk, bt0), second, end, stk, bt0) {
        SeqYields(P, md, cc', alts[|alts| - 1].terms, target, m, stk, bt0);
      }
      ChoiceYields(P, a, false, SizeAll(left) + 5, m, stk, bt, first, second, end, stk);
    }
  }

  lemma AltCodeStands(P: Prog, left: seq<Instr>, right: seq<Instr>, a: int)
    requires Stands(P, a, AltCode(left, right))
    ensures var b := a + 5 + SizeAll(left);
            && Is(P, a, Split(false, SizeAll(left) + 5))
            && Stands(P, a + 5, left)
            && Is(P, b, Goto(SizeAll(right)))
            && Stands(P, b + 5, right)
            && a + SizeAll(AltCode(left, right)) == b + 5 + SizeAll(right)
  {
    hide Stands, SizeAll, Is;
    var split, jump := Split(false, SizeAll(left) + 5), Goto(SizeAll(right));
    StandsSplit(P, a, [split] + left + [jump], right);
    StandsLast(P, a, [split] + left, jump);
    StandsFirst(P, a, split, left);
  }
}
