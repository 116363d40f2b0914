/** Every outcome of the reference semantics keeps its positions off the middle of surrogate
    pairs, and never moves against the direction of matching. */
module Soundness {
  import opened Opcodes
  import opened Text
  import opened Syntax
  import opened Semantics

  /** `o` is a possible later state of `m`. */
  ghost predicate Onward(e: Env, back: bool, m: M, o: M) {
    Sound(e, o) && Left(e, back, o.pos) <= Left(e, back, m.pos)
  }

  ghost predicate AllOnward(e: Env, back: bool, m: M, ms: seq<M>) {
    forall i :: 0 <= i < |ms| ==> Onward(e, back, m, ms[i])
  }

  lemma NextSound(e: Env, back: bool, m: M)
    requires Sound(e, m)
    ensures Next(e, back, m.pos).Some? ==>
              var q := Next(e, back, m.pos).value.1;
              Sound(e, m.(pos := q)) && Left(e, back, q) < Left(e, back, m.pos)
  {
    if Next(e, back, m.pos).Some? {
      if back { GetUndoesPrev(e.subject, m.pos); } else { PrevUndoesGet(e.subject, m.pos); }
    }
  }

  lemma {:induction false} MatchTextSound(e: Env, back: bool, icase: bool, text: seq<int>, m: M)
    requires Sound(e, m)
    ensures MatchText(e, back, icase, text, m.pos).Some? ==>
              Onward(e, back, m, m.(pos := MatchText(e, back, icase, text, m.pos).value))
    decreases |text|
  {
    if text != [] && Next(e, back, m.pos).Some? {
      NextSound(e, back, m);
      var m' := m.(pos := Next(e, back, m.pos).value.1);
      MatchTextSound(e, back, icase, if back then text[..|text| - 1] else text[1..], m');
    }
  }

  lemma SetCapSound(e: Env, m: M, k: nat)
    requires Sound(e, m)
    ensures Sound(e, SetCap(m, k)) && SetCap(m, k).pos == m.pos
  {
  }

  lemma ResetSound(e: Env, m: M, first: nat, ncaps: nat)
    requires Sound(e, m)
    ensures Sound(e, Reset(m, first, ncaps)) && Reset(m, first, ncaps).pos == m.pos
  {
  }

  lemma SetCapsOnward(e: Env, back: bool, m: M, ms: seq<M>, k: nat)
    requires AllOnward(e, back, m, ms)
    ensures AllOnward(e, back, m, SetCaps(ms, k))
  {
    forall i | 0 <= i < |ms|
      ensures Onward(e, back, m, SetCaps(ms, k)[i])
    {
      SetCapSound(e, ms[i], k);
    }
  }

  lemma SemSound(e: Env, md: Mode, cc: nat, t: Term, m: M)
    requires Sound(e, m)
    ensures AllOnward(e, md.back, m, SemTerm(e, md, cc, t, m))
    decreases t, 1, 0, 0, 0
  {
    hide Sound, Left, SemAlts, Repeat, MatchText, Captured, SetCap, SetCaps, Reset, LineEdge, WordAt, Accepts, Next;
    match t
    case BackRef(n) =>
      if Captured(e, m, n).Some? {
        MatchTextSound(e, md.back, md.flags.icase, Captured(e, m, n).value, m);
      }
    case Group(alts) => SemAltsSound(e, md, cc, alts, m);
    case Modified(add, remove, alts) =>
      SemAltsSound(e, md.(flags := Update(md.flags, add, remove)), cc, alts, m);
    case Capture(alts) =>
      SetCapSound(e, m, 2 * cc + Bit(md.back));
      SemAltsSound(e, md, cc + 1, alts, SetCap(m, 2 * cc + Bit(md.back)));
      SetCapsOnward(e, md.back, m, SemAlts(e, md, cc + 1, alts, SetCap(m, 2 * cc + Bit(md.back))),
                    2 * cc + Bit(!md.back));
    case Look(behind, neg, alts) =>
      SemAltsSound(e, md.(back := behind), cc, alts, m);
      LookSound(e, md.(back := behind), m, SemAlts(e, md.(back := behind), cc, alts, m));
    case Quant(atom, min, max, greedy) =>
      ResetSound(e, m, cc, NumCaps(atom));
      RepeatSound(e, md, cc, atom, min, max, greedy, if min == 0 then Reset(m, cc, NumCaps(atom)) else m);
    case Char(_) => NextSound(e, md.back, m);
    case Dot => NextSound(e, md.back, m);
    case Class(_) => NextSound(e, md.back, m);
    case _ =>
  }

  lemma LookSound(e: Env, md: Mode, m: M, outs: seq<M>)
    requires Sound(e, m) && AllOnward(e, md.back, m, outs)
    ensures outs != [] ==> Sound(e, M(m.pos, outs[0].caps))
  {
    if outs != [] {
      assert Onward(e, md.back, m, outs[0]);
    }
  }

  lemma SemSeqSound(e: Env, md: Mode, cc: nat, ts: seq<Term>, m: M)
    requires Sound(e, m)
    ensures AllOnward(e, md.back, m, SemSeq(e, md, cc, ts, m))
    decreases ts, 0, 0, 0, 0
  {
    hide Sound, Left;
    if ts != [] {
      var init, last := ts[..|ts| - 1], ts[|ts| - 1];
      var cc' := cc + NumCapsSeq(init);
      if md.back {
        SemSound(e, md, cc', last, m);
        SeqAllSound(e, md, cc, init, m, SemTerm(e, md, cc', last, m));
      } else {
        SemSeqSound(e, md, cc, init, m);
        TermAllSound(e, md, cc', last, m, SemSeq(e, md, cc, init, m));
      }
    }
  }

  lemma TermAllSound(e: Env, md: Mode, cc: nat, t: Term, m: M, ms: seq<M>)
    requires AllOnward(e, md.back, m, ms)
    ensures AllOnward(e, md.back, m, TermAll(e, md, cc, t, ms))
    decreases t, 2, 0, 0, |ms|
  {
    hide Sound, Left, SemTerm;
    if ms != [] {
      assert Onward(e, md.back, m, ms[0]);
      SemSound(e, md, cc, t, ms[0]);
      TermAllSound(e, md, cc, t, m, ms[1..]);
    }
  }

  lemma SeqAllSound(e: Env, md: Mode, cc: nat, ts: seq<Term>, m: M, ms: seq<M>)
    requires AllOnward(e, md.back, m, ms)
    ensures AllOnward(e, md.back, m, SeqAll(e, md, cc, ts, ms))
    decreases ts, 1, 0, 0, |ms|
  {
    hide Sound, Left, SemSeq;
    if ms != [] {
      assert Onward(e, md.back, m, ms[0]);
      SemSeqSound(e, md, cc, ts, ms[0]);
      SeqAllSound(e, md, cc, ts, m, ms[1..]);
    }
  }

  lemma SemAltsSound(e: Env, md: Mode, cc: nat, alts: seq<Alt>, m: M)
    requires Sound(e, m)
    ensures AllOnward(e, md.back, m, SemAlts(e, md, cc, alts, m))
    decreases alts, 0, 0, 0, 0
  {
    hide Sound, Left, SemSeq;
    if alts != [] {
      var init := alts[..|alts| - 1];
      SemAltsSound(e, md, cc, init, m);
      SemSeqSound(e, md, cc + NumCapsAlts(init), alts[|alts| - 1].terms, m);
    }
  }

  lemma RepeatSound(e: Env, md: Mode, cc: nat, t: Term, min: int, max: int, greedy: bool, m: M)
    requires Sound(e, m)
    ensures AllOnward(e, md.back, m, Repeat(e, md, cc, t, min, max, greedy, m))
    decreases t, 3, if min > 0 then min else 0, Left(e, md.back, m.pos)
  {
    hide Sound, SemTerm, RepeatAll, IterateAll;
    if max > 0 {
      SemSound(e, md, cc, t, m);
      if min > 0 {
        RepeatAllSound(e, md, cc, t, min, max, greedy, m, SemTerm(e, md, cc, t, m));
      } else {
        IterateAllSound(e, md, cc, t, max, greedy, m, SemTerm(e, md, cc, t, m));
      }
    }
  }

  lemma RepeatAllSound(e: Env, md: Mode, cc: nat, t: Term, min: int, max: int, greedy: bool, m: M, ms: seq<M>)
    requires min > 0 && AllOnward(e, md.back, m, ms)
    ensures AllOnward(e, md.back, m, RepeatAll(e, md, cc, t, min, max, greedy, ms))
    decreases t, 3, min - 1, |e.subject.units| + 1, |ms|
  {
    hide Sound, Repeat, SemTerm;
    if ms != [] {
      assert Onward(e, md.back, m, ms[0]);
      RepeatSound(e, md, cc, t, min - 1, Less(max), greedy, ms[0]);
      RepeatAllSound(e, md, cc, t, min, max, greedy, m, ms[1..]);
    }
  }

  lemma IterateAllSound(e: Env, md: Mode, cc: nat, t: Term, max: int, greedy: bool, m: M, ms: seq<M>)
    requires AllOnward(e, md.back, m, ms)
    ensures AllOnward(e, md.back, m, IterateAll(e, md, cc, t, max, greedy, m, ms))
    decreases t, 3, 0, Left(e, md.back, m.pos), |ms|
  {
    hide Sound, Repeat, SemTerm;
    if ms != [] {
      assert Onward(e, md.back, m, ms[0]);
      if Left(e, md.back, ms[0].pos) < Left(e, md.back, m.pos) {
        RepeatSound(e, md, cc, t, 0, Less(max), greedy, ms[0]);
      }
      IterateAllSound(e, md, cc, t, max, greedy, m, ms[1..]);
    }
  }
}
