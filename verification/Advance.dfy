/** re_need_check_advance is right: code it calls advancing always moves the position, so the
    check it omits could never fail. */
module Advance {
  import opened Opcodes
  import opened Syntax
  import opened Emission
  import opened Semantics
  import opened Soundness
  import opened Loops

  ghost predicate AllMoved(e: Env, back: bool, m: M, ms: seq<M>) {
    forall i :: 0 <= i < |ms| ==> Left(e, back, ms[i].pos) < Left(e, back, m.pos)
  }

  lemma PredictableAppend(x: seq<Instr>, y: seq<Instr>)
    ensures AllPredictable(x + y) <==> AllPredictable(x) && AllPredictable(y)
    ensures SomeRead(x + y) <==> SomeRead(x) || SomeRead(y)
  {
    hide Predictable, ReadsChar;
    var z := x + y;
    assert forall k :: 0 <= k < |x| ==> z[k] == x[k];
    assert forall k :: 0 <= k < |y| ==> z[|x| + k] == y[k];
  }

  lemma Unpredictable(x: seq<Instr>, k: nat)
    requires k < |x| && !Predictable(x[k])
    ensures NeedCheck(x)
  {
  }

  lemma MovesTerm(e: Env, md: Mode, cc: nat, t: Term, m: M)
    requires Sound(e, m) && Valid(t) && !NeedCheck(EmitTerm(e.canon, md, cc, t))
    ensures AllMoved(e, md.back, m, SemTerm(e, md, cc, t, m))
    decreases t, 1
  {
    hide Sound, Left, EmitAlts, SemAlts, EmitQuant, Repeat, SetCaps;
    match t
    case Group(alts) => MovesAlts(e, md, cc, alts, m);
    case Modified(add, remove, alts) =>
      MovesAlts(e, md.(flags := Update(md.flags, add, remove)), cc, alts, m);
    case Capture(alts) => MovesCapture(e, md, cc, alts, m);
    case Quant(atom, min, max, greedy) => MovesQuant(e, md, cc, atom, min, max, greedy, m);
    case Look(behind, neg, alts) =>
      Unpredictable(EmitTerm(e.canon, md, cc, t), 0);
    case Char(_) => NextSound(e, md.back, m);
    case Dot => NextSound(e, md.back, m);
    case Class(_) => NextSound(e, md.back, m);
    case _ =>
  }

  lemma MovesCapture(e: Env, md: Mode, cc: nat, alts: seq<Alt>, m: M)
    requires Sound(e, m) && ValidAlts(alts) && !NeedCheck(EmitTerm(e.canon, md, cc, Capture(alts)))
    ensures AllMoved(e, md.back, m, SemTerm(e, md, cc, Capture(alts), m))
    decreases alts, 1
  {
    hide Sound, Left, EmitAlts, SemAlts;
    var body := EmitAlts(e.canon, md, cc + 1, alts);
    PredictableAppend([Save(md.back, cc)] + body, [Save(!md.back, cc)]);
    PredictableAppend([Save(md.back, cc)], body);
    var m' := SetCap(m, 2 * cc + Bit(md.back));
    SetCapSound(e, m, 2 * cc + Bit(md.back));
    MovesAlts(e, md, cc + 1, alts, m');
  }

  lemma MovesQuant(e: Env, md: Mode, cc: nat, t: Term, min: int, max: int, greedy: bool, m: M)
    requires Sound(e, m) && Valid(Quant(t, min, max, greedy))
    requires !NeedCheck(EmitQuant(EmitTerm(e.canon, md, cc, t), cc, NumCaps(t), min, max, greedy))
    ensures AllMoved(e, md.back, m, SemTerm(e, md, cc, Quant(t, min, max, greedy), m))
    decreases t, 2
  {
    hide Sound, Left, EmitTerm, NumCaps, Reset, Repeat, EmitQuant;
    var atom := EmitTerm(e.canon, md, cc, t);
    QuantShape(atom, cc, NumCaps(t), min, max, greedy);
    if max != 0 {
      MovesTerm(e, md, cc, t, m);
      RepeatJustOnce(e, md, cc, t, greedy, m);
    }
  }

  lemma RepeatJustOnce(e: Env, md: Mode, cc: nat, t: Term, greedy: bool, m: M)
    ensures Repeat(e, md, cc, t, 1, 1, greedy, m) == SemTerm(e, md, cc, t, m)
  {
    var ms := SemTerm(e, md, cc, t, m);
    RepeatAllIdentity(e, md, cc, t, greedy, ms);
  }

  lemma {:induction false} RepeatAllIdentity(e: Env, md: Mode, cc: nat, t: Term, greedy: bool, ms: seq<M>)
    ensures RepeatAll(e, md, cc, t, 1, 1, greedy, ms) == ms
  {
    if ms != [] {
      RepeatAllIdentity(e, md, cc, t, greedy, ms[1..]);
    }
  }

  lemma MovesSeq(e: Env, md: Mode, cc: nat, ts: seq<Term>, m: M)
    requires Sound(e, m) && ValidSeq(ts) && !NeedCheck(EmitSeq(e.canon, md, cc, ts))
    ensures AllMoved(e, md.back, m, SemSeq(e, md, cc, ts, m))
    decreases ts, 0
  {
    hide Sound, Left, SemTerm, EmitTerm;
    if ts != [] {
      var init, last := ts[..|ts| - 1], ts[|ts| - 1];
      var cc' := cc + NumCapsSeq(init);
      var x, y := EmitSeq(e.canon, md, cc, init), EmitTerm(e.canon, md, cc', last);
      PredictableAppend(x, y);
      PredictableAppend(y, x);
      if md.back {
        SemSound(e, md, cc', last, m);
        if SomeRead(y) { MovesTerm(e, md, cc', last, m); }
        MovesSeqAll(e, md, cc, init, m, SemTerm(e, md, cc', last, m), SomeRead(y));
      } else {
        SemSeqSound(e, md, cc, init, m);
        if SomeRead(x) { MovesSeq(e, md, cc, init, m); }
        MovesTermAll(e, md, cc', last, m, SemSeq(e, md, cc, init, m), SomeRead(x));
      }
    }
  }

  lemma MovesTermAll(e: Env, md: Mode, cc: nat, t: Term, m: M, ms: seq<M>, moved: bool)
    requires AllOnward(e, md.back, m, ms) && Valid(t)
    requires if moved then AllMoved(e, md.back, m, ms) else !NeedCheck(EmitTerm(e.canon, md, cc, t))
    ensures AllMoved(e, md.back, m, TermAll(e, md, cc, t, ms))
    decreases t, 2, |ms|
  {
    hide Sound, Left, SemTerm, EmitTerm, NeedCheck;
    if ms != [] {
      assert Onward(e, md.back, m, ms[0]);
      SemSound(e, md, cc, t, ms[0]);
      if !moved { MovesTerm(e, md, cc, t, ms[0]); }
      MovesTermAll(e, md, cc, t, m, ms[1..], moved);
    }
  }

  lemma MovesSeqAll(e: Env, md: Mode, cc: nat, ts: seq<Term>, m: M, ms: seq<M>, moved: bool)
    requires AllOnward(e, md.back, m, ms) && ValidSeq(ts)
    requires if moved then AllMoved(e, md.back, m, ms) else !NeedCheck(EmitSeq(e.canon, md, cc, ts))
    ensures AllMoved(e, md.back, m, SeqAll(e, md, cc, ts, ms))
    decreases ts, 1, |ms|
  {
    hide Sound, Left, SemSeq, EmitSeq, NeedCheck;
    if ms != [] {
      assert Onward(e, md.back, m, ms[0]);
      SemSeqSound(e, md, cc, ts, ms[0]);
      if !moved { MovesSeq(e, md, cc, ts, ms[0]); }
      MovesSeqAll(e, md, cc, ts, m, ms[1..], moved);
    }
  }

  lemma MovesAlts(e: Env, md: Mode, cc: nat, alts: seq<Alt>, m: M)
    requires Sound(e, m) && ValidAlts(alts) && !NeedCheck(EmitAlts(e.canon, md, cc, alts))
    ensures AllMoved(e, md.back, m, SemAlts(e, md, cc, alts, m))
    decreases alts, 0
  {
    hide Sound, Left, SemSeq, EmitSeq;
    if alts != [] {
      var init := alts[..|alts| - 1];
      if init == [] {
        MovesSeq(e, md, cc + NumCapsAlts(init), alts[|alts| - 1].terms, m);
        assert SemAlts(e, md, cc, init, m) == [];
      } else {
        Unpredictable(EmitAlts(e.canon, md, cc, alts), 0);
      }
    }
  }

  lemma AlwaysMovesTerm(e: Env, md: Mode, cc: nat, t: Term)
    requires Valid(t) && !NeedCheck(EmitTerm(e.canon, md, cc, t))
    ensures AlwaysMoves(e, md, cc, t)
  {
    hide SemTerm, EmitTerm, Sound, Left, NeedCheck;
    forall m | Sound(e, m)
      ensures AllMoved(e, md.back, m, SemTerm(e, md, cc, t, m))
    {
      MovesTerm(e, md, cc, t, m);
    }
  }
}
