/** The standard example of a capture that outlives its iteration: by the code group 1 of the pattern
    (?:(a)|b)* is still set when "ab" has been matched, by the standard it is not. */
module CaptureExample {
  import opened Options
  import opened Bytes
  import opened Text
  import opened Syntax
  import opened Semantics
  import opened Program
  import opened Standard
  import opened Leftovers
  import opened Iterations

  const PLAIN := Flags(false, false, false)
  const FORWARD := Mode(false, PLAIN)
  const LETTER_A: int := 97
  const LETTER_B: int := 98

  function Id(c: int): int { c }

  /** The subject "ab", for patterns with one group. */
  function AB(): Env {
    Env(Subject([97, 98], false), Id, 2)
  }

  /** The pattern (?:(a)|b)*, whose capture group is group 1. */
  const CHOICE_A: Alt := Alt([Term.Capture([Alt([Term.Char(LETTER_A)])])])
  const CHOICE_B: Alt := Alt([Term.Char(LETTER_B)])
  const ATOM: Term := Term.Group([CHOICE_A, CHOICE_B])
  const PATTERN: Term := Term.Quant(ATOM, 0, INT32_MAX, true)

  lemma OneValid(t: Term)
    requires Valid(t) && SmallClasses(t)
    ensures ValidSeq([t]) && SmallClassesSeq([t])
    ensures ValidAlts([Alt([t])]) && SmallClassesAlts([Alt([t])])
  {
    assert [t][..0] == [] && [Alt([t])][..0] == [];
    assert SmallClassesSeq([]) && SmallClassesAlts([]);
  }

  /** The pattern is one of those that the results are about. */
  lemma PatternValid()
    ensures Valid(PATTERN) && SmallClasses(PATTERN)
  {
    var a, b := Term.Char(LETTER_A), Term.Char(LETTER_B);
    assert Valid(a) && Valid(b) && SmallClasses(a) && SmallClasses(b);
    OneValid(a);
    OneValid(b);
    var group := Term.Capture([Alt([a])]);
    assert Valid(group) && SmallClasses(group);
    OneValid(group);
    var alts := [CHOICE_A, CHOICE_B];
    assert alts[..1] == [CHOICE_A];
    assert ValidAlts(alts) && SmallClassesAlts(alts);
  }

  /** Reading one letter at a position. */
  lemma ReadsLetter(cc: nat, c: int, m: M)
    ensures SemTerm(AB(), FORWARD, cc, Term.Char(c), m) ==
            if m.pos < 2 && AB().subject.units[m.pos] == c then [m.(pos := m.pos + 1)] else []
  {
  }

  lemma OneTerm(cc: nat, t: Term, m: M)
    ensures SemSeq(AB(), FORWARD, cc, [t], m) == SemTerm(AB(), FORWARD, cc, t, m)
  {
    var e := AB();
    assert [t][..0] == [];
    assert SemSeq(e, FORWARD, cc, [], m) == [m];
    assert NumCapsSeq([]) == 0;
    assert TermAll(e, FORWARD, cc, t, [m]) == SemTerm(e, FORWARD, cc, t, m) + TermAll(e, FORWARD, cc, t, [m][1..]);
  }

  lemma OneAlt(cc: nat, t: Term, m: M)
    ensures SemAlts(AB(), FORWARD, cc, [Alt([t])], m) == SemTerm(AB(), FORWARD, cc, t, m)
  {
    assert [Alt([t])][..0] == [];
    assert SemAlts(AB(), FORWARD, cc, [], m) == [] && NumCapsAlts([]) == 0;
    OneTerm(cc, t, m);
  }

  /** The one outcome, if any, of an iteration. */
  function IterationOf(m: M): seq<M> {
    if m.pos >= 2 || |m.caps| != 4 then []
    else if m.pos == 0 then [M(1, m.caps[2 := Some(0)][3 := Some(1)])]
    else [M(2, m.caps)]
  }

  lemma CaptureA(m: M)
    requires |m.caps| == 4
    ensures SemTerm(AB(), FORWARD, 1, CHOICE_A.terms[0], m) == if m.pos == 0 then IterationOf(m) else []
  {
    var m1 := SetCap(m, 2);
    OneAlt(2, Term.Char(LETTER_A), m1);
    ReadsLetter(2, LETTER_A, m1);
    var outs := SemAlts(AB(), FORWARD, 2, [Alt([Term.Char(LETTER_A)])], m1);
    assert SemTerm(AB(), FORWARD, 1, CHOICE_A.terms[0], m) == SetCaps(outs, 3);
  }

  lemma Iterates(m: M)
    requires |m.caps| == 4
    ensures SemTerm(AB(), FORWARD, 1, ATOM, m) == IterationOf(m)
  {
    var alts := [CHOICE_A, CHOICE_B];
    assert alts[..1] == [CHOICE_A];
    OneAlt(1, CHOICE_A.terms[0], m);
    CaptureA(m);
    var cc := 1 + NumCapsAlts([CHOICE_A]);
    OneTerm(cc, Term.Char(LETTER_B), m);
    ReadsLetter(cc, LETTER_B, m);
    assert SemAlts(AB(), FORWARD, 1, alts, m) ==
           SemAlts(AB(), FORWARD, 1, [CHOICE_A], m) + SemSeq(AB(), FORWARD, cc, CHOICE_B.terms, m);
  }

  /** All iterations from a position, the longest first. */
  lemma {:induction false} Repeats(m: M)
    requires |m.caps| == 4 && m.pos <= 2
    ensures Repeat(AB(), FORWARD, 1, ATOM, 0, INT32_MAX, true, m) ==
            if m.pos == 2 then [m] else Repeat(AB(), FORWARD, 1, ATOM, 0, INT32_MAX, true, IterationOf(m)[0]) + [m]
    decreases 2 - m.pos
  {
    var e := AB();
    Iterates(m);
    var ms := IterationOf(m);
    assert Repeat(e, FORWARD, 1, ATOM, 0, INT32_MAX, true, m) ==
           IterateAll(e, FORWARD, 1, ATOM, INT32_MAX, true, m, ms) + [m];
    if m.pos < 2 {
      assert IterateAll(e, FORWARD, 1, ATOM, INT32_MAX, true, m, ms) ==
             Repeat(e, FORWARD, 1, ATOM, 0, INT32_MAX, true, ms[0])
               + IterateAll(e, FORWARD, 1, ATOM, INT32_MAX, true, m, ms[1..]);
    }
  }

  lemma OneSteady(cc: nat, t: Term)
    ensures UnreadSeq(false, cc, [t], {}) == Unread(false, cc, t, {})
    ensures StaleSeq(false, cc, [t], {}) == Stale(false, cc, t, {})
    ensures NumCapsSeq([t]) == NumCaps(t)
  {
    hide Stale, Unread, NumCaps;
    assert [t][..0] == [] && NumCapsSeq([]) == 0;
  }

  lemma AltsSteady(cc: nat, init: seq<Alt>, last: Alt)
    ensures var alts := init + [last];
            var cc' := cc + NumCapsAlts(init);
            && (UnreadAlts(false, cc, alts, {}) <==>
                UnreadAlts(false, cc, init, {}) && UnreadSeq(false, cc', last.terms, {}))
            && StaleAlts(false, cc, alts, {}) == StaleAlts(false, cc, init, {}) + StaleSeq(false, cc', last.terms, {})
            && NumCapsAlts(alts) == NumCapsAlts(init) + NumCapsSeq(last.terms)
  {
    hide StaleSeq, UnreadSeq, NumCapsSeq, Slots;
    assert (init + [last])[..|init|] == init;
  }

  /** One iteration of the atom leaves nothing over, if it is entered clear. */
  lemma AtomSteady()
    ensures Unread(false, 1, ATOM, {}) && Stale(false, 1, ATOM, {}) == {} && NumCaps(ATOM) == 1
  {
    hide StaleAlts, UnreadAlts, NumCapsAlts, StaleSeq, UnreadSeq, NumCapsSeq;
    NoAlts(1);
    NoAlts(2);
    var a := Term.Char(LETTER_A);
    OneSteady(2, a);
    AltsSteady(2, [], Alt([a]));
    assert [] + [Alt([a])] == [Alt([a])];
    CaptureSteady([Alt([a])]);
    OneSteady(1, CHOICE_A.terms[0]);
    AltsSteady(1, [], CHOICE_A);
    assert [] + [CHOICE_A] == [CHOICE_A];
    OneSteady(2, Term.Char(LETTER_B));
    AltsSteady(1, [CHOICE_A], CHOICE_B);
    assert [CHOICE_A] + [CHOICE_B] == [CHOICE_A, CHOICE_B];
  }

  lemma NoAlts(cc: nat)
    ensures UnreadAlts(false, cc, [], {}) && StaleAlts(false, cc, [], {}) == {} && NumCapsAlts([]) == 0
  {
  }

  lemma CaptureSteady(body: seq<Alt>)
    requires UnreadAlts(false, 2, body, {}) && StaleAlts(false, 2, body, {}) == {} && NumCapsAlts(body) == 0
    ensures var t := Term.Capture(body);
            Unread(false, 1, t, {}) && Stale(false, 1, t, {}) == {} && NumCaps(t) == 1
  {
    hide StaleAlts, UnreadAlts, NumCapsAlts;
    var none: set<int> := {};
    assert none - {2} == none;
  }

  /** The same with a reset in front of each iteration. */
  lemma {:induction false} StdRepeats(m: M)
    requires |m.caps| == 4 && m.pos <= 2
    ensures StdRepeat(AB(), FORWARD, 1, ATOM, 0, INT32_MAX, true, m) ==
            if m.pos == 2 then [m]
            else StdRepeat(AB(), FORWARD, 1, ATOM, 0, INT32_MAX, true, IterationOf(Reset(m, 1, 1))[0]) + [m]
    decreases 2 - m.pos
  {
    var e := AB();
    var m0 := Reset(m, 1, NumCaps(ATOM));
    AtomSteady();
    ResetFresh(m, 1, NumCaps(ATOM));
    FreshConforms(e, FORWARD, 1, ATOM, m0);
    Iterates(m0);
    var ms := IterationOf(m0);
    assert StdRepeat(e, FORWARD, 1, ATOM, 0, INT32_MAX, true, m) ==
           StdIterateAll(e, FORWARD, 1, ATOM, INT32_MAX, true, m, ms) + [m];
    if m.pos < 2 {
      assert StdIterateAll(e, FORWARD, 1, ATOM, INT32_MAX, true, m, ms) ==
             StdRepeat(e, FORWARD, 1, ATOM, 0, INT32_MAX, true, ms[0])
             + StdIterateAll(e, FORWARD, 1, ATOM, INT32_MAX, true, m, ms[1..]);
    }
  }

  /** On "ab" the pattern (?:(a)|b)* ends with group 1 still set by the first iteration. */
  lemma CaptureOutlivesIteration()
    ensures var outs := SemTerm(AB(), FORWARD, 1, PATTERN, M(0, NoCaps(2)));
            outs != [] && outs[0].pos == 2 && |outs[0].caps| == 4 && outs[0].caps[2..] == [Some(0), Some(1)]
  {
    var m0 := Reset(M(0, NoCaps(2)), 1, NumCaps(ATOM));
    var m1 := IterationOf(m0)[0];
    var m2 := IterationOf(m1)[0];
    Repeats(m0);
    Repeats(m1);
    Repeats(m2);
    assert Repeat(AB(), FORWARD, 1, ATOM, 0, INT32_MAX, true, m0) == [m2] + [m1] + [m0];
  }

  /** By the standard group 1 is undefined there. */
  lemma StandardClearsCapture()
    ensures var outs := StdTerm(AB(), FORWARD, 1, PATTERN, M(0, NoCaps(2)));
            outs != [] && outs[0].pos == 2 && |outs[0].caps| == 4 && outs[0].caps[2..] == [None, None]
  {
    var m0 := M(0, NoCaps(2));
    var m1 := IterationOf(Reset(m0, 1, 1))[0];
    var m2 := IterationOf(Reset(m1, 1, 1))[0];
    StdRepeats(m0);
    StdRepeats(m1);
    StdRepeats(m2);
    assert StdRepeat(AB(), FORWARD, 1, ATOM, 0, INT32_MAX, true, m0) == [m2] + [m1] + [m0];
  }
}
