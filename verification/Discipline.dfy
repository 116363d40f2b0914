/** Emitted code obeys the static discipline of Typing, and the machine, run on it, stays in
    states that the discipline describes: jumps land on instruction boundaries, the operand
    stack has the scanned depth, and as many lookarounds are pending as enclose the code. */
module Discipline {
  import opened Bytes
  import opened Opcodes
  import opened Syntax
  import opened Emission
  import opened Typing
  import opened Fragments
  import opened Program

  lemma TypedAround(back: bool, i: Instr)
    requires Plain(i)
    ensures WellTyped(Around(back, i))
  {
    hide WellTyped, Plain;
    TypedPlain(i);
    if back {
      assert Plain(Prev) by { PrevPlain(); }
      TypedPlain(Prev);
      TypedAppend([Prev], [i]);
      TypedAppend([Prev] + [i], [Prev]);
      assert Around(true, i) == [Prev] + [i] + [Prev];
    }
  }

  lemma PrevPlain()
    ensures Plain(Prev)
  {
  }

  lemma TypedTerm(canon: int -> int, md: Mode, cc: nat, t: Term)
    requires Valid(t)
    ensures WellTyped(EmitTerm(canon, md, cc, t))
    decreases t, 1
  {
    hide WellTyped, EmitAlts, EmitQuant, Around, ClosedBounds, HighBound;
    match t
    case Group(alts) => TypedAlts(canon, md, cc, alts);
    case Modified(add, remove, alts) => TypedAlts(canon, md.(flags := Update(md.flags, add, remove)), cc, alts);
    case Capture(alts) =>
      TypedAlts(canon, md, cc + 1, alts);
      TypedPlain(Save(md.back, cc));
      TypedPlain(Save(!md.back, cc));
      TypedAppend([Save(md.back, cc)], EmitAlts(canon, md, cc + 1, alts));
      TypedAppend([Save(md.back, cc)] + EmitAlts(canon, md, cc + 1, alts), [Save(!md.back, cc)]);
    case Look(behind, neg, alts) =>
      var body := EmitAlts(canon, md.(back := behind), cc, alts);
      TypedAlts(canon, md.(back := behind), cc, alts);
      TypedNested(Lookahead(neg, SizeAll(body) + 1), body);
    case Quant(atom, min, max, greedy) =>
      TypedTerm(canon, md, cc, atom);
      TypedQuant(EmitTerm(canon, md, cc, atom), cc, NumCaps(atom), min, max, greedy);
    case Char(_) => TypedAround(md.back, CharInstr(md.flags.icase, if md.flags.icase then canon(t.c) else t.c));
    case Dot => TypedAround(md.back, if md.flags.dotall then Instr.Any else Instr.Dot);
    case Class(points) => TypedAround(md.back, ClassInstr(md.flags.icase, points));
    case LineStart => TypedPlain(Instr.LineStart(md.flags.multi));
    case LineEnd => TypedPlain(Instr.LineEnd(md.flags.multi));
    case WordBoundary(neg) => TypedPlain(Instr.WordBoundary(neg, md.flags.icase));
    case BackRef(n) => TypedPlain(Instr.BackRef(md.back, md.flags.icase, n));
  }

  lemma TypedQuant(atom: seq<Instr>, first: nat, ncaps: nat, min: int, max: int, greedy: bool)
    requires WellTyped(atom) && 0 <= min <= max
    ensures WellTyped(EmitQuant(atom, first, ncaps, min, max, greedy))
  {
    hide WellTyped, SizeAll, SimpleCount, NeedCheck, OptionalCode, MinCode, RestCode;
    var check := NeedCheck(atom);
    if greedy && max > 0 && SimpleCount(atom) > 0 {
      TypedNested(SimpleGreedyQuant(SizeAll(atom) + 1, min, max, SimpleCount(atom)), atom);
    } else if min == 0 {
      TypedOptionalCode(atom, check, max, greedy);
      if ncaps > 0 {
        TypedPlain(SaveReset(first, first + ncaps - 1));
      } else {
        TypedNothing();
      }
      TypedAppend(ResetCode(first, ncaps), OptionalCode(atom, check, max, greedy));
    } else if min == 1 && max == INT32_MAX && !check {
      TypedPlus(atom, greedy);
    } else {
      TypedMinCode(atom, min);
      TypedRestCode(atom, check, min, max, greedy);
      TypedAppend(MinCode(atom, min), RestCode(atom, check, min, max, greedy));
    }
  }

  lemma TypedStarCode(atom: seq<Instr>, check: bool, greedy: bool)
    requires WellTyped(atom)
    ensures WellTyped(StarCode(atom, check, greedy))
  {
    hide WellTyped, SizeAll, CheckedAtom;
    CheckedSize(atom, check);
    TypedChecked(atom, check);
    TypedStar(CheckedAtom(atom, check), greedy);
  }

  lemma TypedCountedCode(atom: seq<Instr>, check: bool, n: int, greedy: bool)
    requires WellTyped(atom)
    ensures WellTyped(CountedCode(atom, check, n, greedy))
  {
    hide WellTyped, SizeAll, CheckedAtom;
    CheckedSize(atom, check);
    TypedChecked(atom, check);
    TypedCounted(n, CheckedAtom(atom, check), greedy);
  }

  lemma TypedOptionalCode(atom: seq<Instr>, check: bool, max: int, greedy: bool)
    requires WellTyped(atom)
    ensures WellTyped(OptionalCode(atom, check, max, greedy))
  {
    hide WellTyped, SizeAll, CheckedAtom, StarCode, CountedCode;
    if max == 0 {
      TypedNothing();
    } else if max == 1 {
      CheckedSize(atom, check);
      TypedChecked(atom, check);
      TypedOptional(CheckedAtom(atom, check), greedy);
    } else if max == INT32_MAX {
      TypedStarCode(atom, check, greedy);
    } else {
      TypedCountedCode(atom, check, max, greedy);
    }
  }

  lemma TypedMinCode(atom: seq<Instr>, min: int)
    requires WellTyped(atom)
    ensures WellTyped(MinCode(atom, min))
  {
    hide WellTyped, SizeAll;
    if min != 1 {
      TypedMin(min, atom);
    }
  }

  lemma TypedRestCode(atom: seq<Instr>, check: bool, min: int, max: int, greedy: bool)
    requires WellTyped(atom)
    ensures WellTyped(RestCode(atom, check, min, max, greedy))
  {
    hide WellTyped, StarCode, CountedCode;
    TypedNothing();
    TypedStarCode(atom, check, greedy);
    TypedCountedCode(atom, check, max - min, greedy);
  }

  lemma TypedSeq(canon: int -> int, md: Mode, cc: nat, ts: seq<Term>)
    requires ValidSeq(ts)
    ensures WellTyped(EmitSeq(canon, md, cc, ts))
    decreases ts, 0
  {
    hide WellTyped, EmitTerm;
    if ts == [] {
      TypedNothing();
    } else {
      var init, last := ts[..|ts| - 1], ts[|ts| - 1];
      var x, y := EmitSeq(canon, md, cc, init), EmitTerm(canon, md, cc + NumCapsSeq(init), last);
      TypedSeq(canon, md, cc, init);
      TypedTerm(canon, md, cc + NumCapsSeq(init), last);
      TypedAppend(x, y);
      TypedAppend(y, x);
    }
  }

  lemma TypedAlts(canon: int -> int, md: Mode, cc: nat, alts: seq<Alt>)
    requires ValidAlts(alts)
    ensures WellTyped(EmitAlts(canon, md, cc, alts))
    decreases alts, 0
  {
    hide WellTyped, EmitSeq, AltCode;
    var init := alts[..|alts| - 1];
    TypedSeq(canon, md, cc + NumCapsAlts(init), alts[|alts| - 1].terms);
    if init != [] {
      TypedAlts(canon, md, cc, init);
      TypedAlt(EmitAlts(canon, md, cc, init), EmitSeq(canon, md, cc + NumCapsAlts(init), alts[|alts| - 1].terms));
    }
  }

  /** A whole program is a well-typed fragment and the final match. */
  ghost function Fragment(canon: int -> int, flags: Flags, sticky: bool, alts: seq<Alt>): seq<Instr> {
    SearchPrefix(sticky) + EmitTerm(canon, Mode(false, flags), 0, Capture(alts))
  }

  lemma TypedProgram(canon: int -> int, flags: Flags, sticky: bool, alts: seq<Alt>)
    requires ValidAlts(alts)
    ensures WellTyped(Fragment(canon, flags, sticky, alts))
    ensures ProgramCode(canon, flags, sticky, alts) == Fragment(canon, flags, sticky, alts) + [Match]
  {
    hide WellTyped, EmitTerm, SizeAll, ValidAlts;
    var body := EmitTerm(canon, Mode(false, flags), 0, Capture(alts));
    assert Valid(Capture(alts));
    TypedTerm(canon, Mode(false, flags), 0, Capture(alts));
    if sticky {
      TypedNothing();
    } else {
      assert Plain(Any) && SizeAll([Any]) == 1 by { AnyPlain(); }
      TypedPlain(Any);
      TypedStar([Any], false);
      assert SearchPrefix(false) == [Split(true, 6)] + [Any] + [Goto(-11)];
    }
    TypedAppend(SearchPrefix(sticky), body);
    assert SearchPrefix(sticky) + (body + [Match]) == SearchPrefix(sticky) + body + [Match];
  }

  lemma AnyPlain()
    ensures Plain(Any) && SizeAll([Any]) == 1
  {
    EncodeOne(Any);
  }
}
