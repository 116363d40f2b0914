/** Emitted code, standing anywhere in a program, yields the outcomes of the pattern it was
    emitted for. */
module Fragments {
  import opened Bytes
  import opened Opcodes
  import opened Syntax
  import opened Emission
  import opened Semantics
  import opened Machine
  import opened Traces
  import opened Loops
  import opened SimpleQuant

  /** The instructions stand, encoded without loss, at offset `a` of the program. */
  ghost predicate Stands(P: Prog, a: int, ins: seq<Instr>) {
    && a >= 0
    && Has(P.code, a, EncodeAll(ins))
    && forall k :: 0 <= k < |ins| ==> Fits(ins[k])
  }

  lemma StandsSplit(P: Prog, a: int, x: seq<Instr>, y: seq<Instr>)
    requires Stands(P, a, x + y)
    ensures Stands(P, a, x) && Stands(P, a + SizeAll(x), y)
    ensures SizeAll(x + y) == SizeAll(x) + SizeAll(y)
  {
    hide Fits, EncodeAll, SizeAll, Has;
    EncodeAllAppend(x, y);
    HasSplit(P.code, a, EncodeAll(x), EncodeAll(y));
    forall k | 0 <= k < |x| ensures Fits(x[k]) {
      assert (x + y)[k] == x[k];
    }
    forall k | 0 <= k < |y| ensures Fits(y[k]) {
      assert (x + y)[|x| + k] == y[k];
    }
  }

  lemma StandsOne(P: Prog, a: int, i: Instr)
    requires Stands(P, a, [i])
    ensures Is(P, a, i)
    ensures SizeAll([i]) == Size(i)
  {
    hide Fits, EncodeAll, SizeAll, Has, Decode, Encode;
    EncodeOne(i);
    assert [i][0] == i;
    DecodeEncode(P.code, a, i);
  }

  /** Code with an instruction in front. */
  lemma StandsFirst(P: Prog, a: int, i: Instr, x: seq<Instr>)
    requires Stands(P, a, [i] + x)
    ensures Is(P, a, i) && Stands(P, a + Size(i), x)
    ensures SizeAll([i] + x) == Size(i) + SizeAll(x)
  {
    hide Stands, SizeAll, Is;
    StandsSplit(P, a, [i], x);
    StandsOne(P, a, i);
  }

  /** Code with an instruction behind. */
  lemma StandsLast(P: Prog, a: int, x: seq<Instr>, i: Instr)
    requires Stands(P, a, x + [i])
    ensures Stands(P, a, x) && Is(P, a + SizeAll(x), i)
    ensures SizeAll(x + [i]) == SizeAll(x) + Size(i)
  {
    hide Stands, SizeAll, Is;
    StandsSplit(P, a, x, [i]);
    StandsOne(P, a + SizeAll(x), i);
  }

  /** The body of a simple quantifier is executed by the nested call as straight-line code. */
  lemma {:induction false} BodyRuns(P: Prog, pc: int, ins: seq<Instr>, pos: nat)
    requires Stands(P, pc, ins + [Match])
    requires forall k :: 0 <= k < |ins| ==> ReadsChar(ins[k]) || IsAssertion(ins[k])
    ensures RunNested(P, pc, pos) ==
            match RunList(P.env, ins, pos)
            case None => NoMatch
            case Some(q) => Matched(q)
    decreases |ins|
  {
    hide Stands, SizeAll, ReadsChar, IsAssertion, Simple, Decode;
    if ins == [] {
      assert ins + [Match] == [Match];
      StandsOne(P, pc, Match);
    } else {
      assert ins + [Match] == [ins[0]] + (ins[1..] + [Match]);
      StandsFirst(P, pc, ins[0], ins[1..] + [Match]);
      assert !ins[0].Match? by { assert ReadsChar(ins[0]) || IsAssertion(ins[0]); NotMatch(ins[0]); }
      match Simple(P.env, ins[0], pos)
      case None =>
      case Some(q) => BodyRuns(P, pc + Size(ins[0]), ins[1..], q);
    }
  }

  lemma NotMatch(i: Instr)
    requires ReadsChar(i) || IsAssertion(i)
    ensures !i.Match?
  {
  }

  /** Wherever the atom's code stands, it implements the atom. */
  ghost predicate Relocatable(P: Prog, md: Mode, cc: nat, t: Term, atom: seq<Instr>) {
    forall x :: Stands(P, x, atom) ==> Implements(P, md, cc, t, x, x + SizeAll(atom))
  }

  ghost predicate AtomReady(P: Prog, md: Mode, cc: nat, t: Term, atom: seq<Instr>, check: bool) {
    Relocatable(P, md, cc, t, atom) && (!check ==> AlwaysMoves(P.env, md, cc, t))
  }

  lemma CheckedSize(atom: seq<Instr>, check: bool)
    ensures SizeAll(CheckedAtom(atom, check)) == SizeAll(atom) + 2 * Bit(check)
  {
    hide SizeAll;
    if check {
      EncodeAllAppend([PushCharPos] + atom, [CheckAdvance]);
      EncodeAllAppend([PushCharPos], atom);
      EncodeOne(PushCharPos);
      EncodeOne(CheckAdvance);
    }
  }

  lemma IterationStands(P: Prog, md: Mode, cc: nat, t: Term, atom: seq<Instr>, check: bool, start: int)
    requires Stands(P, start, CheckedAtom(atom, check)) && AtomReady(P, md, cc, t, atom, check)
    ensures Iteration(P, md, cc, t, check, start, start + SizeAll(atom) + 2 * Bit(check))
  {
    hide Stands, SizeAll, Implements, Is, AlwaysMoves;
    if check {
      StandsLast(P, start, [PushCharPos] + atom, CheckAdvance);
      StandsFirst(P, start, PushCharPos, atom);
    }
  }

  lemma StarCodeYields(P: Prog, md: Mode, cc: nat, t: Term, atom: seq<Instr>, check: bool, greedy: bool, a: int)
    requires Stands(P, a, StarCode(atom, check, greedy)) && AtomReady(P, md, cc, t, atom, check)
    ensures Rest(P, md, cc, t, INT32_MAX, greedy, a, a + SizeAll(StarCode(atom, check, greedy)))
  {
    hide Stands, SizeAll, Implements, Is, Iteration, AtomReady, Yields, Repeat, Sound, CheckedAtom;
    var len := SizeAll(atom) + 2 * Bit(check);
    var body := CheckedAtom(atom, check);
    CheckedSize(atom, check);
    StandsLast(P, a, [Split(!greedy, len + 5)] + body, Goto(-(len + 10)));
    StandsFirst(P, a, Split(!greedy, len + 5), body);
    IterationStands(P, md, cc, t, atom, check, a + 5);
    var end := a + len + 10;
    forall m, stk, bt | Sound(P.env, m)
      ensures Yields(P, At(a, m, stk, bt), Repeat(P.env, md, cc, t, 0, INT32_MAX, greedy, m), end, stk, bt)
    {
      StarYields(P, md, cc, t, check, greedy, a, end, m, stk, bt);
    }
  }

  lemma PushYields(P: Prog, a: int, v: int, m: M, stk: seq<int>, bt: seq<Entry>, outs: seq<M>, end: int)
    requires Is(P, a, PushI32(v))
    requires Yields(P, At(a + 5, m, stk + [v], bt), outs, end, stk, bt)
    ensures Yields(P, At(a, m, stk, bt), outs, end, stk, bt)
  {
    hide Yields, Reach;
    YieldsStep(P, At(a, m, stk, bt), outs, end, stk, bt);
  }

  lemma CountedCodeYields(P: Prog, md: Mode, cc: nat, t: Term, atom: seq<Instr>, check: bool, n: int, greedy: bool,
                          a: int)
    requires 1 <= n < INT32_MAX
    requires Stands(P, a, CountedCode(atom, check, n, greedy)) && AtomReady(P, md, cc, t, atom, check)
    ensures Rest(P, md, cc, t, n, greedy, a, a + SizeAll(CountedCode(atom, check, n, greedy)))
  {
    hide Stands, SizeAll, Implements, Is, Iteration, AtomReady, Yields, Repeat, Sound, CheckedAtom;
    var len := SizeAll(atom) + 2 * Bit(check);
    var body := CheckedAtom(atom, check);
    CheckedSize(atom, check);
    var split, loop := Split(!greedy, len + 5), Loop(-(len + 10));
    assert CountedCode(atom, check, n, greedy) == [PushI32(n)] + ([split] + (body + [loop] + [Drop]));
    StandsFirst(P, a, PushI32(n), [split] + (body + [loop] + [Drop]));
    StandsFirst(P, a + 5, split, body + [loop] + [Drop]);
    StandsLast(P, a + 10, body + [loop], Drop);
    StandsLast(P, a + 10, body, loop);
    IterationStands(P, md, cc, t, atom, check, a + 10);
    var foot := a + 10 + len;
    var end := foot + 6;
    forall m, stk, bt | Sound(P.env, m)
      ensures Yields(P, At(a, m, stk, bt), Repeat(P.env, md, cc, t, 0, n, greedy, m), end, stk, bt)
    {
      CountedYields(P, md, cc, t, check, greedy, a + 5, foot, n, m, stk, bt);
      PushYields(P, a, n, m, stk, bt, Repeat(P.env, md, cc, t, 0, n, greedy, m), end);
    }
  }

  lemma NoRest(P: Prog, md: Mode, cc: nat, t: Term, greedy: bool, a: int)
    ensures Rest(P, md, cc, t, 0, greedy, a, a)
  {
    hide Yields;
    forall m, stk, bt | Sound(P.env, m)
      ensures Yields(P, At(a, m, stk, bt), Repeat(P.env, md, cc, t, 0, 0, greedy, m), a, stk, bt)
    {
      YieldsOne(P, m, a, stk, bt);
    }
  }

  lemma OptionalCodeYields(P: Prog, md: Mode, cc: nat, t: Term, atom: seq<Instr>, check: bool, max: int, greedy: bool,
                           a: int)
    requires 0 <= max <= INT32_MAX
    requires Stands(P, a, OptionalCode(atom, check, max, greedy)) && AtomReady(P, md, cc, t, atom, check)
    ensures Rest(P, md, cc, t, max, greedy, a, a + SizeAll(OptionalCode(atom, check, max, greedy)))
  {
    hide Stands, Is, Iteration, AtomReady, Yields, Repeat, Sound, CheckedAtom, StarCode, CountedCode;
    if max == 0 {
      NoRest(P, md, cc, t, greedy, a);
    } else if max == 1 {
      var len := SizeAll(atom) + 2 * Bit(check);
      var body := CheckedAtom(atom, check);
      CheckedSize(atom, check);
      StandsFirst(P, a, Split(!greedy, len), body);
      IterationStands(P, md, cc, t, atom, check, a + 5);
      var end := a + 5 + len;
      forall m, stk, bt | Sound(P.env, m)
        ensures Yields(P, At(a, m, stk, bt), Repeat(P.env, md, cc, t, 0, 1, greedy, m), end, stk, bt)
      {
        OptionalYields(P, md, cc, t, check, greedy, a, end, m, stk, bt);
      }
    } else if max == INT32_MAX {
      StarCodeYields(P, md, cc, t, atom, check, greedy, a);
    } else {
      CountedCodeYields(P, md, cc, t, atom, check, max, greedy, a);
    }
  }

  lemma RestCodeYields(P: Prog, md: Mode, cc: nat, t: Term, atom: seq<Instr>, check: bool, min: int, max: int,
                       greedy: bool, a: int)
    requires 1 <= min <= max <= INT32_MAX
    requires Stands(P, a, RestCode(atom, check, min, max, greedy)) && AtomReady(P, md, cc, t, atom, check)
    ensures Rest(P, md, cc, t, Minus(max, min), greedy, a, a + SizeAll(RestCode(atom, check, min, max, greedy)))
  {
    hide Stands, Is, Iteration, AtomReady, Yields, Repeat, Sound, CheckedAtom, StarCode, CountedCode, Rest;
    if max == INT32_MAX {
      StarCodeYields(P, md, cc, t, atom, check, greedy, a);
    } else if max > min {
      CountedCodeYields(P, md, cc, t, atom, check, max - min, greedy, a);
    } else {
      NoRest(P, md, cc, t, greedy, a);
    }
  }
}
