/** Atoms accepted by re_is_simple_quantifier have at most one outcome: the one reached by
    running their instructions in a straight line. */
module Determinism {
  import opened Options
  import opened Opcodes
  import opened Syntax
  import opened Emission
  import opened Semantics
  import opened Soundness
  import opened Machine
  import opened Atoms
  import opened SimpleQuant
  import Advance

  /** `t` behaves, from `m`, like the straight-line code `ins`. */
  ghost predicate Straight(e: Env, outs: seq<M>, ins: seq<Instr>, m: M) {
    outs == RunOutcome(m, RunList(e, ins, m.pos))
  }

  lemma {:induction false} SimplePredictable(x: seq<Instr>)
    requires SimpleCount(x) >= 0
    ensures forall k :: 0 <= k < |x| ==> ReadsChar(x[k]) || IsAssertion(x[k])
    decreases |x|
  {
    if x != [] {
      SimplePredictable(x[..|x| - 1]);
    }
  }

  lemma SimpleTerm(e: Env, md: Mode, cc: nat, t: Term, m: M)
    requires ValidEnv(e) && Valid(t) && Sound(e, m) && SimpleCount(EmitTerm(e.canon, md, cc, t)) >= 0
    ensures Straight(e, SemTerm(e, md, cc, t, m), EmitTerm(e.canon, md, cc, t), m)
    decreases t, 1
  {
    hide Sound, Left, EmitAlts, SemAlts, EmitQuant, Repeat, SetCaps, SimpleCount, ReadsChar, IsAssertion, RunList,
         Simple, ValidEnv, Test, Accepts, CharTest;
    var ins := EmitTerm(e.canon, md, cc, t);
    SimplePredictable(ins);
    match t
    case Group(alts) => SimpleAlts(e, md, cc, alts, m);
    case Modified(add, remove, alts) =>
      SimpleAlts(e, md.(flags := Update(md.flags, add, remove)), cc, alts, m);
    case Quant(atom, min, max, greedy) => SimpleRepeat(e, md, cc, atom, min, max, greedy, m);
    case _ => SimpleOne(e, md, cc, t, m);
  }

  lemma SimpleOne(e: Env, md: Mode, cc: nat, t: Term, m: M)
    requires ValidEnv(e) && Valid(t) && SimpleCount(EmitTerm(e.canon, md, cc, t)) >= 0
    requires !t.Group? && !t.Modified? && !t.Quant?
    ensures Straight(e, SemTerm(e, md, cc, t, m), EmitTerm(e.canon, md, cc, t), m)
  {
    hide EmitAlts, SemAlts, SetCaps, SimpleCount, ValidEnv, Test, Accepts;
    var ins := EmitTerm(e.canon, md, cc, t);
    SimplePredictable(ins);
    assert ReadsChar(ins[0]) || IsAssertion(ins[0]);
    assert ins == [ins[0]];
    RunListOne(e, ins[0], m.pos);
    if t.Char? || t.Dot? || t.Class? {
      assert ins[0] == CharTest(e.canon, md.flags, t);
      if Next(e, false, m.pos).Some? {
        NextInRange(e, false, m.pos);
        CharTestAgrees(e, md.flags, t, Next(e, false, m.pos).value.0);
      }
    }
  }

  lemma SimpleRepeat(e: Env, md: Mode, cc: nat, t: Term, min: int, max: int, greedy: bool, m: M)
    requires ValidEnv(e) && Valid(Quant(t, min, max, greedy)) && Sound(e, m)
    requires SimpleCount(EmitQuant(EmitTerm(e.canon, md, cc, t), cc, NumCaps(t), min, max, greedy)) >= 0
    ensures Straight(e, SemTerm(e, md, cc, Quant(t, min, max, greedy), m),
                     EmitQuant(EmitTerm(e.canon, md, cc, t), cc, NumCaps(t), min, max, greedy), m)
    decreases t, 2
  {
    hide Sound, Left, EmitTerm, NumCaps, Repeat, EmitQuant, SimpleCount;
    var atom := EmitTerm(e.canon, md, cc, t);
    var c := EmitQuant(atom, cc, NumCaps(t), min, max, greedy);
    QuantShape(atom, cc, NumCaps(t), min, max, greedy);
    SimplePredictable(c);
    assert AllPredictable(c);
    var reset := ResetCode(cc, NumCaps(t));
    assert reset != [] ==> reset[0].SaveReset?;
    if max == 0 {
      assert Reset(m, cc, 0) == m by { assert Reset(m, cc, 0).caps == m.caps; }
      RepeatNone(e, md, cc, t, greedy, m);
    } else {
      SimpleTerm(e, md, cc, t, m);
      Advance.RepeatJustOnce(e, md, cc, t, greedy, m);
    }
  }

  lemma RepeatNone(e: Env, md: Mode, cc: nat, t: Term, greedy: bool, m: M)
    ensures Repeat(e, md, cc, t, 0, 0, greedy, m) == [m]
  {
  }

  lemma SimpleSeq(e: Env, md: Mode, cc: nat, ts: seq<Term>, m: M)
    requires ValidEnv(e) && ValidSeq(ts) && Sound(e, m) && SimpleCount(EmitSeq(e.canon, md, cc, ts)) >= 0
    ensures Straight(e, SemSeq(e, md, cc, ts, m), EmitSeq(e.canon, md, cc, ts), m)
    decreases ts, 0
  {
    hide Sound, Left, SemTerm, EmitTerm, RunList, SimpleCount, ValidEnv;
    if ts == [] {
      RunNothing(e, m.pos);
    } else {
      var init, last := ts[..|ts| - 1], ts[|ts| - 1];
      var cc' := cc + NumCapsSeq(init);
      var x, y := EmitSeq(e.canon, md, cc, init), EmitTerm(e.canon, md, cc', last);
      SimpleCountAppend(x, y);
      SimpleCountAppend(y, x);
      RunListAppend(e, x, y, m.pos);
      RunListAppend(e, y, x, m.pos);
      if md.back {
        SemSound(e, md, cc', last, m);
        SimpleTerm(e, md, cc', last, m);
        var ms := SemTerm(e, md, cc', last, m);
        if ms != [] {
          assert Onward(e, md.back, m, ms[0]);
          SimpleSeq(e, md, cc, init, ms[0]);
          SeqAllOne(e, md, cc, init, ms[0]);
        }
      } else {
        SemSeqSound(e, md, cc, init, m);
        SimpleSeq(e, md, cc, init, m);
        var ms := SemSeq(e, md, cc, init, m);
        if ms != [] {
          assert Onward(e, md.back, m, ms[0]);
          SimpleTerm(e, md, cc', last, ms[0]);
          TermAllOne(e, md, cc', last, ms[0]);
        }
      }
    }
  }

  lemma RunNothing(e: Env, pos: nat)
    ensures RunList(e, [], pos) == Some(pos)
  {
  }

  lemma SeqAllOne(e: Env, md: Mode, cc: nat, ts: seq<Term>, m: M)
    ensures SeqAll(e, md, cc, ts, [m]) == SemSeq(e, md, cc, ts, m)
  {
    hide SemSeq;
    assert [m][1..] == [];
    assert SeqAll(e, md, cc, ts, []) == [];
  }

  lemma TermAllOne(e: Env, md: Mode, cc: nat, t: Term, m: M)
    ensures TermAll(e, md, cc, t, [m]) == SemTerm(e, md, cc, t, m)
  {
    hide SemTerm;
    assert [m][1..] == [];
    assert TermAll(e, md, cc, t, []) == [];
  }

  lemma SimpleAlts(e: Env, md: Mode, cc: nat, alts: seq<Alt>, m: M)
    requires ValidEnv(e) && ValidAlts(alts) && Sound(e, m) && SimpleCount(EmitAlts(e.canon, md, cc, alts)) >= 0
    ensures Straight(e, SemAlts(e, md, cc, alts, m), EmitAlts(e.canon, md, cc, alts), m)
    decreases alts, 0
  {
    hide Sound, Left, SemSeq, EmitSeq, SimpleCount, ValidEnv;
    var init := alts[..|alts| - 1];
    var ins := EmitAlts(e.canon, md, cc, alts);
    SimplePredictable(ins);
    if init == [] {
      SimpleSeq(e, md, cc + NumCapsAlts(init), alts[|alts| - 1].terms, m);
      var last := SemSeq(e, md, cc + NumCapsAlts(init), alts[|alts| - 1].terms, m);
      assert SemAlts(e, md, cc, init, m) + last == last;
    }
  }

  lemma SimpleDeterministic(e: Env, md: Mode, cc: nat, t: Term)
    requires ValidEnv(e) && Valid(t) && SimpleCount(EmitTerm(e.canon, md, cc, t)) >= 0
    ensures Deterministic(e, md, cc, t, EmitTerm(e.canon, md, cc, t))
  {
    hide SemTerm, EmitTerm, Sound, RunList, SimpleCount;
    forall m | Sound(e, m)
      ensures SemTerm(e, md, cc, t, m) == RunOutcome(m, RunList(e, EmitTerm(e.canon, md, cc, t), m.pos))
    {
      SimpleTerm(e, md, cc, t, m);
    }
  }
}
