/** Whole programs: the search prefix, capture group 0 and the final match, as lre_compile lays
    them out behind the header, and the theorem about running them. */
module Program {
  import opened Options
  import opened Opcodes
  import opened Text
  import opened Syntax
  import opened Emission
  import opened Semantics
  import opened Machine
  import opened Traces
  import opened Loops
  import opened Fragments
  import opened Correctness

  const RE_HEADER_LEN: nat := 8

  function SearchPrefix(sticky: bool): seq<Instr> {
    if sticky then [] else [Split(true, 6), Any, Goto(-11)]
  }

  function ProgramCode(canon: int -> int, flags: Flags, sticky: bool, alts: seq<Alt>): seq<Instr> {
    SearchPrefix(sticky) + (EmitTerm(canon, Mode(false, flags), 0, Capture(alts)) + [Match])
  }

  function NoCaps(n: nat): (r: seq<Option<nat>>)
    ensures |r| == 2 * n
    ensures forall k :: 0 <= k < |r| ==> r[k] == None
  {
    seq(2 * n, k => None)
  }

  /** All outcomes of the pattern at one position; the whole match is capture group 0. */
  ghost function MatchesAt(e: Env, flags: Flags, alts: seq<Alt>, pos: nat): seq<M> {
    SemTerm(e, Mode(false, flags), 0, Capture(alts), M(pos, NoCaps(e.ncap)))
  }

  /** The result the reference prescribes: the best outcome at the first position that has one;
      a sticky pattern looks at its start position only. */
  ghost function FirstMatch(e: Env, flags: Flags, sticky: bool, alts: seq<Alt>, pos: nat): Option<M>
    decreases |e.subject.units| - pos
  {
    var outs := MatchesAt(e, flags, alts, pos);
    if outs != [] then Some(outs[0])
    else if sticky || pos >= |e.subject.units| then None
    else FirstMatch(e, flags, sticky, alts, GetChar(e.subject, pos).1)
  }

  ghost function CapsOf(r: Option<M>): Option<seq<Option<nat>>> {
    match r
    case None => None
    case Some(m) => Some(m.caps)
  }

  function Start(pc: int, pos: nat, ncap: nat, bt: seq<Entry>): State {
    Run(pc, pos, NoCaps(ncap), [], bt)
  }

  /** At the final match the machine halts with the captures of that outcome; if there is no
      outcome it is back at whatever choice was below. */
  lemma BodyResult(P: Prog, flags: Flags, alts: seq<Alt>, a: int, pos: nat, bt: seq<Entry>)
    requires Ready(P, 0, 1 + NumCapsAlts(alts)) && ValidAlts(alts) && Aligned(P.env.subject, pos)
    requires Stands(P, a, EmitTerm(P.env.canon, Mode(false, flags), 0, Capture(alts)) + [Match])
    requires Extends(bt, [])
    ensures var outs := MatchesAt(P.env, flags, alts, pos);
            Reach(P, Start(a, pos, P.env.ncap, bt), if outs == [] then Fail(bt) else Halt(Some(outs[0].caps)))
  {
    hide Stands, SizeAll, EmitTerm, SemTerm, Reach, ValidAlts, Is;
    var e := P.env;
    var md := Mode(false, flags);
    var body := EmitTerm(e.canon, md, 0, Capture(alts));
    var m := M(pos, NoCaps(e.ncap));
    StandsLast(P, a, body, Match);
    TermYields(P, md, 0, Capture(alts), a, m, [], bt);
    var outs := MatchesAt(e, flags, alts, pos);
    var s := Start(a, pos, e.ncap, bt);
    if outs != [] {
      var b := a + SizeAll(body);
      var bt' :| YieldsVia(P, s, outs, b, [], bt, bt');
      MatchHalts(P, b, outs[0], bt');
      ExtendsTrans(bt', bt, []);
      SucceedPops(P, outs[0].caps, bt', []);
      ReachTrans(P, s, At(b, outs[0], [], bt'), Succeed(outs[0].caps, bt'));
      ReachTrans(P, s, Succeed(outs[0].caps, bt'), Succeed(outs[0].caps, []));
      ReachStep(P, Succeed(outs[0].caps, []));
      ReachTrans(P, s, Succeed(outs[0].caps, []), Halt(Some(outs[0].caps)));
    }
  }

  lemma MatchHalts(P: Prog, b: int, m: M, bt: seq<Entry>)
    requires Is(P, b, Match)
    ensures Reach(P, At(b, m, [], bt), Succeed(m.caps, bt))
  {
    hide Reach;
    ReachStep(P, At(b, m, [], bt));
  }

  /** The machine, started on a compiled program, halts with exactly the result of the reference. */
  lemma {:induction false} ProgramCorrect(P: Prog, flags: Flags, sticky: bool, alts: seq<Alt>, a: int, pos: nat)
    requires Ready(P, 0, 1 + NumCapsAlts(alts)) && ValidAlts(alts) && Aligned(P.env.subject, pos)
    requires Stands(P, a, ProgramCode(P.env.canon, flags, sticky, alts))
    ensures Reach(P, Start(a, pos, P.env.ncap, []), Halt(CapsOf(FirstMatch(P.env, flags, sticky, alts, pos))))
    decreases |P.env.subject.units| - pos
  {
    hide Stands, SizeAll, EmitTerm, MatchesAt, Reach, ValidAlts, Is, Step, ValidEnv;
    var e := P.env;
    var body := EmitTerm(e.canon, Mode(false, flags), 0, Capture(alts)) + [Match];
    var s := Start(a, pos, e.ncap, []);
    var outs := MatchesAt(e, flags, alts, pos);
    ExtendsRefl([]);
    if sticky {
      assert ProgramCode(e.canon, flags, sticky, alts) == body;
      BodyResult(P, flags, alts, a, pos, []);
      if outs == [] {
        ReachStep(P, Fail([]));
        EmptyFails(P);
        ReachTrans(P, s, Fail([]), Halt(None));
      }
    } else {
      PrefixStands(P, flags, alts, a, body);
      var entry := Choice(a + 5, pos, NoCaps(e.ncap), []);
      PrefixSteps(P, a, pos);
      ExtendsPush([], entry);
      assert [] + [entry] == [entry];
      BodyResult(P, flags, alts, a + 11, pos, [entry]);
      ReachStep(P, s);
      if outs != [] {
        ReachTrans(P, s, Step(P, s), Halt(Some(outs[0].caps)));
      } else {
        ReachTrans(P, s, Step(P, s), Fail([entry]));
        Retry(P, a, pos);
        if pos < |e.subject.units| {
          var next := GetChar(e.subject, pos).1;
          PrevUndoesGet(e.subject, pos);
          ProgramCorrect(P, flags, sticky, alts, a, next);
          ReachTrans(P, s, Fail([entry]), Start(a, next, e.ncap, []));
          ReachTrans(P, s, Start(a, next, e.ncap, []), Halt(CapsOf(FirstMatch(e, flags, sticky, alts, next))));
        } else {
          ReachTrans(P, s, Fail([entry]), Halt(None));
        }
      }
    }
  }

  lemma EmptyFails(P: Prog)
    ensures Step(P, Fail([])) == Halt(None)
  {
  }

  lemma PrefixStands(P: Prog, flags: Flags, alts: seq<Alt>, a: int, body: seq<Instr>)
    requires body == EmitTerm(P.env.canon, Mode(false, flags), 0, Capture(alts)) + [Match]
    requires Stands(P, a, ProgramCode(P.env.canon, flags, false, alts))
    ensures Is(P, a, Split(true, 6)) && Is(P, a + 5, Any) && Is(P, a + 6, Goto(-11)) && Stands(P, a + 11, body)
  {
    hide Stands, SizeAll, EmitTerm, Is;
    assert ProgramCode(P.env.canon, flags, false, alts) == [Split(true, 6)] + ([Any] + ([Goto(-11)] + body));
    StandsFirst(P, a, Split(true, 6), [Any] + ([Goto(-11)] + body));
    StandsFirst(P, a + 5, Any, [Goto(-11)] + body);
    StandsFirst(P, a + 6, Goto(-11), body);
  }

  lemma PrefixSteps(P: Prog, a: int, pos: nat)
    requires Is(P, a, Split(true, 6))
    ensures Step(P, Start(a, pos, P.env.ncap, [])) ==
            Start(a + 11, pos, P.env.ncap, [Choice(a + 5, pos, NoCaps(P.env.ncap), [])])
  {
    var entry := Choice(a + 5, pos, NoCaps(P.env.ncap), []);
    assert [] + [entry] == [entry];
  }

  /** No match at `pos`: the search moves on by one character, or fails at the end. */
  lemma Retry(P: Prog, a: int, pos: nat)
    requires Is(P, a + 5, Any) && Is(P, a + 6, Goto(-11))
    ensures var entry := Choice(a + 5, pos, NoCaps(P.env.ncap), []);
            Reach(P, Fail([entry]),
                  if pos < |P.env.subject.units| then Start(a, GetChar(P.env.subject, pos).1, P.env.ncap, [])
                  else Halt(None))
  {
    hide Reach;
    var entry := Choice(a + 5, pos, NoCaps(P.env.ncap), []);
    var s0, s1 := Fail([entry]), Start(a + 5, pos, P.env.ncap, []);
    assert [entry][..0] == [];
    assert Step(P, s0) == s1;
    ReachStep(P, s0);
    ReachStep(P, s1);
    ReachTrans(P, s0, s1, Step(P, s1));
    var s2 := Step(P, s1);
    ReachStep(P, s2);
    ReachTrans(P, s0, s2, Step(P, s2));
  }
}
