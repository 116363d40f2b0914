/** What modifier groups do. Under a group that takes the flag i away, with no group inside giving it
    back, neither the code nor the outcomes depend on case folding at all. And what the dot, the
    line assertions and a single character do under each way to set a flag, stated by flag. */
module Modifiers {
  import opened Opcodes
  import opened Syntax
  import opened Text
  import opened Semantics
  import opened Emission
  import opened Edges

  /** No modifier group inside turns case folding on. */
  predicate NeverFolds(t: Term)
    decreases t, 1
  {
    match t
    case Group(alts) => NeverFoldsAlts(alts)
    case Modified(add, remove, alts) => (add.icase ==> remove.icase) && NeverFoldsAlts(alts)
    case Capture(alts) => NeverFoldsAlts(alts)
    case Look(_, _, alts) => NeverFoldsAlts(alts)
    case Quant(atom, _, _, _) => NeverFolds(atom)
    case _ => true
  }

  predicate NeverFoldsSeq(ts: seq<Term>)
    decreases ts, 0
  {
    ts != [] ==> NeverFoldsSeq(ts[..|ts| - 1]) && NeverFolds(ts[|ts| - 1])
  }

  predicate NeverFoldsAlts(alts: seq<Alt>)
    decreases alts, 0
  {
    alts != [] ==> NeverFoldsAlts(alts[..|alts| - 1]) && NeverFoldsSeq(alts[|alts| - 1].terms)
  }

  /** The same setting with another folding. */
  function With(e: Env, canon: int -> int): (r: Env)
    ensures r.subject == e.subject && r.ncap == e.ncap
  {
    e.(canon := canon)
  }

  lemma TextUnfolded(e: Env, canon: int -> int, back: bool, text: seq<int>, pos: nat)
    ensures MatchText(With(e, canon), back, false, text, pos) == MatchText(e, back, false, text, pos)
    decreases |text|
  {
    if text != [] && Next(e, back, pos).Some? {
      TextUnfolded(e, canon, back, if back then text[..|text| - 1] else text[1..], Next(e, back, pos).value.1);
    }
  }

  lemma TermUnfolded(e: Env, canon: int -> int, md: Mode, cc: nat, t: Term, m: M)
    requires NeverFolds(t) && !md.flags.icase
    ensures SemTerm(With(e, canon), md, cc, t, m) == SemTerm(e, md, cc, t, m)
    decreases t, 1, 0, 0, 0
  {
    hide SemAlts, Repeat, MatchText, NeverFoldsAlts, Next, Chars, Reset, SetCap, SetCaps;
    match t
    case BackRef(n) =>
      if Captured(e, m, n).Some? {
        TextUnfolded(e, canon, md.back, Captured(e, m, n).value, m.pos);
      }
    case Group(alts) => AltsUnfolded(e, canon, md, cc, alts, m);
    case Modified(add, remove, alts) =>
      AltsUnfolded(e, canon, md.(flags := Update(md.flags, add, remove)), cc, alts, m);
    case Capture(alts) => AltsUnfolded(e, canon, md, cc + 1, alts, SetCap(m, 2 * cc + Bit(md.back)));
    case Look(behind, neg, alts) => AltsUnfolded(e, canon, md.(back := behind), cc, alts, m);
    case Quant(atom, min, max, greedy) =>
      RepeatUnfolded(e, canon, md, cc, atom, min, max, greedy, if min == 0 then Reset(m, cc, NumCaps(atom)) else m);
    case _ => LeafUnfolded(e, canon, md, cc, t, m);
  }

  lemma LeafUnfolded(e: Env, canon: int -> int, md: Mode, cc: nat, t: Term, m: M)
    requires !md.flags.icase
    requires t.Char? || t.Dot? || t.Class? || t.LineStart? || t.LineEnd? || t.WordBoundary?
    ensures SemTerm(With(e, canon), md, cc, t, m) == SemTerm(e, md, cc, t, m)
  {
    hide IsWordChar, IsLineTerminator;
  }

  lemma SeqUnfolded(e: Env, canon: int -> int, md: Mode, cc: nat, ts: seq<Term>, m: M)
    requires NeverFoldsSeq(ts) && !md.flags.icase
    ensures SemSeq(With(e, canon), md, cc, ts, m) == SemSeq(e, md, cc, ts, m)
    decreases ts, 0, 0, 0, 0
  {
    hide SemTerm, NeverFolds, With;
    if ts != [] {
      var init, last := ts[..|ts| - 1], ts[|ts| - 1];
      var cc' := cc + NumCapsSeq(init);
      if md.back {
        TermUnfolded(e, canon, md, cc', last, m);
        SeqAllUnfolded(e, canon, md, cc, init, SemTerm(e, md, cc', last, m));
      } else {
        SeqUnfolded(e, canon, md, cc, init, m);
        TermAllUnfolded(e, canon, md, cc', last, SemSeq(e, md, cc, init, m));
      }
    }
  }

  lemma TermAllUnfolded(e: Env, canon: int -> int, md: Mode, cc: nat, t: Term, ms: seq<M>)
    requires NeverFolds(t) && !md.flags.icase
    ensures TermAll(With(e, canon), md, cc, t, ms) == TermAll(e, md, cc, t, ms)
    decreases t, 2, 0, 0, |ms|
  {
    hide SemTerm, NeverFolds, With;
    if ms != [] {
      TermUnfolded(e, canon, md, cc, t, ms[0]);
      TermAllUnfolded(e, canon, md, cc, t, ms[1..]);
    }
  }

  lemma SeqAllUnfolded(e: Env, canon: int -> int, md: Mode, cc: nat, ts: seq<Term>, ms: seq<M>)
    requires NeverFoldsSeq(ts) && !md.flags.icase
    ensures SeqAll(With(e, canon), md, cc, ts, ms) == SeqAll(e, md, cc, ts, ms)
    decreases ts, 1, 0, 0, |ms|
  {
    hide SemSeq, NeverFoldsSeq, With;
    if ms != [] {
      SeqUnfolded(e, canon, md, cc, ts, ms[0]);
      SeqAllUnfolded(e, canon, md, cc, ts, ms[1..]);
    }
  }

  lemma AltsUnfolded(e: Env, canon: int -> int, md: Mode, cc: nat, alts: seq<Alt>, m: M)
    requires NeverFoldsAlts(alts) && !md.flags.icase
    ensures SemAlts(With(e, canon), md, cc, alts, m) == SemAlts(e, md, cc, alts, m)
    decreases alts, 0, 0, 0, 0
  {
    hide SemSeq, NeverFoldsSeq, With;
    if alts != [] {
      var init := alts[..|alts| - 1];
      AltsUnfolded(e, canon, md, cc, init, m);
      SeqUnfolded(e, canon, md, cc + NumCapsAlts(init), alts[|alts| - 1].terms, m);
    }
  }

  lemma RepeatUnfolded(e: Env, canon: int -> int, md: Mode, cc: nat, t: Term, min: int, max: int, greedy: bool, m: M)
    requires NeverFolds(t) && !md.flags.icase
    ensures Repeat(With(e, canon), md, cc, t, min, max, greedy, m) == Repeat(e, md, cc, t, min, max, greedy, m)
    decreases t, 3, if min > 0 then min else 0, Left(e, md.back, m.pos)
  {
    hide SemTerm, NeverFolds, RepeatAll, IterateAll, With;
    if max > 0 {
      TermUnfolded(e, canon, md, cc, t, m);
      if min > 0 {
        RepeatAllUnfolded(e, canon, md, cc, t, min, max, greedy, SemTerm(e, md, cc, t, m));
      } else {
        IterateAllUnfolded(e, canon, md, cc, t, max, greedy, m, SemTerm(e, md, cc, t, m));
      }
    }
  }

  lemma RepeatAllUnfolded(e: Env, canon: int -> int, md: Mode, cc: nat, t: Term, min: int, max: int, greedy: bool,
                          ms: seq<M>)
    requires min > 0 && NeverFolds(t) && !md.flags.icase
    ensures RepeatAll(With(e, canon), md, cc, t, min, max, greedy, ms) == RepeatAll(e, md, cc, t, min, max, greedy, ms)
    decreases t, 3, min - 1, |e.subject.units| + 1, |ms|
  {
    hide Repeat, SemTerm, NeverFolds, With;
    if ms != [] {
      RepeatUnfolded(e, canon, md, cc, t, min - 1, Less(max), greedy, ms[0]);
      RepeatAllUnfolded(e, canon, md, cc, t, min, max, greedy, ms[1..]);
    }
  }

  lemma IterateAllUnfolded(e: Env, canon: int -> int, md: Mode, cc: nat, t: Term, max: int, greedy: bool,
                           m: M, ms: seq<M>)
    requires NeverFolds(t) && !md.flags.icase
    ensures IterateAll(With(e, canon), md, cc, t, max, greedy, m, ms) == IterateAll(e, md, cc, t, max, greedy, m, ms)
    decreases t, 3, 0, Left(e, md.back, m.pos), |ms|
  {
    hide Repeat, SemTerm, NeverFolds, With;
    SameLeft(e, canon, md.back);
    if ms != [] {
      if Left(e, md.back, ms[0].pos) < Left(e, md.back, m.pos) {
        RepeatUnfolded(e, canon, md, cc, t, 0, Less(max), greedy, ms[0]);
      }
      IterateAllUnfolded(e, canon, md, cc, t, max, greedy, m, ms[1..]);
    }
  }

  lemma SameLeft(e: Env, canon: int -> int, back: bool)
    ensures forall p: nat :: Left(With(e, canon), back, p) == Left(e, back, p)
  {
  }

  lemma EmitUnfolded(canon: int -> int, canon': int -> int, md: Mode, cc: nat, t: Term)
    requires NeverFolds(t) && !md.flags.icase
    ensures EmitTerm(canon, md, cc, t) == EmitTerm(canon', md, cc, t)
    decreases t, 1
  {
    hide EmitAlts, EmitQuant, NeverFoldsAlts;
    match t
    case Group(alts) => EmitAltsUnfolded(canon, canon', md, cc, alts);
    case Modified(add, remove, alts) =>
      EmitAltsUnfolded(canon, canon', md.(flags := Update(md.flags, add, remove)), cc, alts);
    case Capture(alts) => EmitAltsUnfolded(canon, canon', md, cc + 1, alts);
    case Look(behind, _, alts) => EmitAltsUnfolded(canon, canon', md.(back := behind), cc, alts);
    case Quant(atom, _, _, _) => EmitUnfolded(canon, canon', md, cc, atom);
    case _ =>
  }

  lemma EmitSeqUnfolded(canon: int -> int, canon': int -> int, md: Mode, cc: nat, ts: seq<Term>)
    requires NeverFoldsSeq(ts) && !md.flags.icase
    ensures EmitSeq(canon, md, cc, ts) == EmitSeq(canon', md, cc, ts)
    decreases ts, 0
  {
    hide EmitTerm, NeverFolds;
    if ts != [] {
      var init := ts[..|ts| - 1];
      EmitSeqUnfolded(canon, canon', md, cc, init);
      EmitUnfolded(canon, canon', md, cc + NumCapsSeq(init), ts[|ts| - 1]);
    }
  }

  lemma EmitAltsUnfolded(canon: int -> int, canon': int -> int, md: Mode, cc: nat, alts: seq<Alt>)
    requires NeverFoldsAlts(alts) && !md.flags.icase
    ensures EmitAlts(canon, md, cc, alts) == EmitAlts(canon', md, cc, alts)
    decreases alts, 0
  {
    hide EmitSeq, NeverFoldsSeq, AltCode;
    if alts != [] {
      var init := alts[..|alts| - 1];
      EmitAltsUnfolded(canon, canon', md, cc, init);
      EmitSeqUnfolded(canon, canon', md, cc + NumCapsAlts(init), alts[|alts| - 1].terms);
    }
  }

  /** A group that takes i away: whatever flags stand outside, the folding plays no part inside,
      neither in the code nor in the outcomes. */
  lemma CaseCounts(e: Env, canon: int -> int, md: Mode, cc: nat, add: Flags, remove: Flags, alts: seq<Alt>, m: M)
    requires remove.icase && NeverFoldsAlts(alts)
    ensures var t := Modified(add, remove, alts);
            && SemTerm(With(e, canon), md, cc, t, m) == SemTerm(e, md, cc, t, m)
            && EmitTerm(canon, md, cc, t) == EmitTerm(e.canon, md, cc, t)
  {
    hide SemAlts, EmitAlts, NeverFoldsAlts;
    var md' := md.(flags := Update(md.flags, add, remove));
    AltsUnfolded(e, canon, md', cc, alts, m);
    EmitAltsUnfolded(canon, e.canon, md', cc, alts);
  }

  lemma OnlyTerm(e: Env, md: Mode, cc: nat, t: Term, m: M)
    ensures SemAlts(e, md, cc, [Alt([t])], m) == SemTerm(e, md, cc, t, m)
  {
    hide SemTerm;
    var ts, alts := [t], [Alt([t])];
    assert ts[..0] == [] && alts[..0] == [];
    assert SemAlts(e, md, cc, [], m) == [] && NumCapsAlts([]) == 0 && NumCapsSeq([]) == 0;
    assert SemSeq(e, md, cc, [], m) == [m];
    if md.back {
      AllOfNothing(e, md, cc, SemTerm(e, md, cc, t, m));
    } else {
      assert TermAll(e, md, cc, t, [m]) == SemTerm(e, md, cc, t, m) + TermAll(e, md, cc, t, [m][1..]);
    }
  }

  lemma {:induction false} AllOfNothing(e: Env, md: Mode, cc: nat, ms: seq<M>)
    ensures SeqAll(e, md, cc, [], ms) == ms
  {
    if ms != [] {
      AllOfNothing(e, md, cc, ms[1..]);
    }
  }

  /** The dot in a group of its own: with s taken away it stops at line breaks, with s given it
      reads everything, and otherwise what stands outside decides. */
  lemma DotUnder(e: Env, md: Mode, cc: nat, add: Flags, remove: Flags, m: M)
    requires !md.back && m.pos <= |e.subject.units|
    ensures var outs := SemTerm(e, md, cc, Modified(add, remove, [Alt([Term.Dot])]), m);
            && (m.pos == |e.subject.units| ==> outs == [])
            && (m.pos < |e.subject.units| && !BreakUnit(e.subject, m.pos) ==> |outs| == 1)
            && (BreakUnit(e.subject, m.pos) && remove.dotall ==> outs == [])
            && (BreakUnit(e.subject, m.pos) && !remove.dotall && add.dotall ==> outs == [m.(pos := m.pos + 1)])
            && (BreakUnit(e.subject, m.pos) && !remove.dotall && !add.dotall ==>
                  outs == SemTerm(e, md, cc, Term.Dot, m))
  {
    var md' := md.(flags := Update(md.flags, add, remove));
    OnlyTerm(e, md', cc, Term.Dot, m);
    Dots(e, md', cc, m);
    Dots(e, md, cc, m);
    hide SemAlts, SemTerm;
  }

  /** The line assertions in a group of their own: at a line break inside the subject they hold
      when m is given, not when it is taken away, and otherwise as outside. */
  lemma LineUnder(e: Env, md: Mode, cc: nat, add: Flags, remove: Flags, m: M)
    requires 0 < m.pos < |e.subject.units|
    ensures var outs := SemTerm(e, md, cc, Modified(add, remove, [Alt([Term.LineStart])]), m);
            var broken := BreakUnit(e.subject, m.pos - 1);
            outs == if broken && (if remove.multi then false else add.multi || md.flags.multi) then [m] else []
    ensures var outs := SemTerm(e, md, cc, Modified(add, remove, [Alt([Term.LineEnd])]), m);
            var breaks := BreakUnit(e.subject, m.pos);
            outs == if breaks && (if remove.multi then false else add.multi || md.flags.multi) then [m] else []
  {
    var md' := md.(flags := Update(md.flags, add, remove));
    OnlyTerm(e, md', cc, Term.LineStart, m);
    OnlyTerm(e, md', cc, Term.LineEnd, m);
    LineStarts(e, md', cc, m);
    LineEnds(e, md', cc, m);
    hide SemAlts, LineEdge;
  }

  /** One character in a group of its own, on a subject without pairs: compared as it is when i is
      taken away, folded on both sides when i is given, and otherwise as outside. */
  lemma CharUnder(e: Env, md: Mode, cc: nat, add: Flags, remove: Flags, x: int, m: M)
    requires !md.back && !e.subject.utf16 && m.pos < |e.subject.units|
    ensures var u := e.subject.units[m.pos];
            var same := if remove.icase then u == x
                        else if add.icase || md.flags.icase then e.canon(u) == e.canon(x)
                        else u == x;
            SemTerm(e, md, cc, Modified(add, remove, [Alt([Term.Char(x)])]), m) ==
            if same then [m.(pos := m.pos + 1)] else []
  {
    var md' := md.(flags := Update(md.flags, add, remove));
    OnlyTerm(e, md', cc, Term.Char(x), m);
    hide SemAlts;
  }
}
