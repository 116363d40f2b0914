/** The outcomes that section 22.2.2 of ECMA-262 prescribes. It is Semantics but for quantifiers:
    RepeatMatcher, section 22.2.2.3.1, clears the groups inside its atom in front of every
    iteration, the mandatory ones included, and goes on without an iteration from the state it
    was entered in. */
module Standard {
  import opened Options
  import opened Opcodes
  import opened Syntax
  import opened Semantics
  import opened Program
  import opened Text

  ghost function StdTerm(e: Env, md: Mode, cc: nat, t: Term, m: M): seq<M>
    decreases t, 1, 0, 0, 0
  {
    match t
    case Group(alts) => StdAlts(e, md, cc, alts, m)
    case Modified(add, remove, alts) => StdAlts(e, md.(flags := Update(md.flags, add, remove)), cc, alts, m)
    case Capture(alts) =>
      SetCaps(StdAlts(e, md, cc + 1, alts, SetCap(m, 2 * cc + Bit(md.back))), 2 * cc + Bit(!md.back))
    case Look(behind, neg, alts) =>
      var outs := StdAlts(e, md.(back := behind), cc, alts, m);
      if neg then If(outs == [], m)
      else if outs == [] then [] else [M(m.pos, outs[0].caps)]
    case Quant(atom, min, max, greedy) => StdRepeat(e, md, cc, atom, min, max, greedy, m)
    case _ => SemTerm(e, md, cc, t, m)
  }

  ghost function StdSeq(e: Env, md: Mode, cc: nat, ts: seq<Term>, m: M): seq<M>
    decreases ts, 0, 0, 0, 0
  {
    if ts == [] then [m]
    else
      var init, last := ts[..|ts| - 1], ts[|ts| - 1];
      var cc' := cc + NumCapsSeq(init);
      if md.back then StdSeqAll(e, md, cc, init, StdTerm(e, md, cc', last, m))
      else StdTermAll(e, md, cc', last, StdSeq(e, md, cc, init, m))
  }

  ghost function StdTermAll(e: Env, md: Mode, cc: nat, t: Term, ms: seq<M>): seq<M>
    decreases t, 2, 0, 0, |ms|
  {
    if ms == [] then [] else StdTerm(e, md, cc, t, ms[0]) + StdTermAll(e, md, cc, t, ms[1..])
  }

  ghost function StdSeqAll(e: Env, md: Mode, cc: nat, ts: seq<Term>, ms: seq<M>): seq<M>
    decreases ts, 1, 0, 0, |ms|
  {
    if ms == [] then [] else StdSeq(e, md, cc, ts, ms[0]) + StdSeqAll(e, md, cc, ts, ms[1..])
  }

  ghost function StdAlts(e: Env, md: Mode, cc: nat, alts: seq<Alt>, m: M): seq<M>
    decreases alts, 0, 0, 0, 0
  {
    if alts == [] then []
    else
      var init := alts[..|alts| - 1];
      StdAlts(e, md, cc, init, m) + StdSeq(e, md, cc + NumCapsAlts(init), alts[|alts| - 1].terms, m)
  }

  ghost function StdRepeat(e: Env, md: Mode, cc: nat, t: Term, min: int, max: int, greedy: bool, m: M): seq<M>
    decreases t, 3, if min > 0 then min else 0, Left(e, md.back, m.pos)
  {
    if max <= 0 then [m]
    else
      var outs := StdTerm(e, md, cc, t, Reset(m, cc, NumCaps(t)));
      if min > 0 then StdRepeatAll(e, md, cc, t, min, max, greedy, outs)
      else
        var more := StdIterateAll(e, md, cc, t, max, greedy, m, outs);
        if greedy then more + [m] else [m] + more
  }

  ghost function StdRepeatAll(e: Env, md: Mode, cc: nat, t: Term, min: int, max: int, greedy: bool, ms: seq<M>): seq<M>
    requires min > 0
    decreases t, 3, min - 1, |e.subject.units| + 1, |ms|
  {
    if ms == [] then []
    else
      StdRepeat(e, md, cc, t, min - 1, Less(max), greedy, ms[0])
      + StdRepeatAll(e, md, cc, t, min, max, greedy, ms[1..])
  }

  ghost function StdIterateAll(e: Env, md: Mode, cc: nat, t: Term, max: int, greedy: bool, m: M, ms: seq<M>): seq<M>
    decreases t, 3, 0, Left(e, md.back, m.pos), |ms|
  {
    if ms == [] then []
    else
      (if Left(e, md.back, ms[0].pos) < Left(e, md.back, m.pos)
       then StdRepeat(e, md, cc, t, 0, Less(max), greedy, ms[0]) else [])
      + StdIterateAll(e, md, cc, t, max, greedy, m, ms[1..])
  }

  /** The match that the standard prescribes for a whole pattern: see Program.FirstMatch. */
  ghost function StdFirstMatch(e: Env, flags: Flags, sticky: bool, alts: seq<Alt>, pos: nat): Option<M>
    decreases |e.subject.units| - pos
  {
    var outs := StdTerm(e, Mode(false, flags), 0, Capture(alts), M(pos, NoCaps(e.ncap)));
    if outs != [] then Some(outs[0])
    else if sticky || pos >= |e.subject.units| then None
    else StdFirstMatch(e, flags, sticky, alts, GetChar(e.subject, pos).1)
  }
}
