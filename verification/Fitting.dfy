/** Every operand of the emitted code fits its field, provided the code stays within the size
    that the compiler's allocator allows. */
module Fitting {
  import opened Bytes
  import opened Opcodes
  import opened Points
  import opened Syntax
  import opened Emission
  import opened Semantics
  import opened Fragments
  import opened Program

  const CODE_MAX: int := INT32_MAX / 2

  ghost predicate AllFit(ins: seq<Instr>) {
    forall k :: 0 <= k < |ins| ==> Fits(ins[k])
  }

  lemma FitAppend(x: seq<Instr>, y: seq<Instr>)
    requires AllFit(x) && AllFit(y)
    ensures AllFit(x + y)
  {
    hide Fits;
  }

  lemma FitOne(i: Instr)
    requires Fits(i)
    ensures AllFit([i])
  {
    hide Fits;
  }

  lemma SizesAppend(x: seq<Instr>, y: seq<Instr>)
    ensures SizeAll(x + y) == SizeAll(x) + SizeAll(y)
  {
    EncodeAllAppend(x, y);
  }

  lemma {:induction false} CountBelowSize(ins: seq<Instr>)
    ensures SimpleCount(ins) <= SizeAll(ins)
  {
    hide ReadsChar, IsAssertion, Size;
    if ins != [] {
      CountBelowSize(ins[..|ins| - 1]);
    }
  }

  lemma ClassFits(icase: bool, points: seq<int>)
    requires Canonical(points) && |points| / 2 < 65535
    ensures Fits(ClassInstr(icase, points))
  {
    if |points| >= 2 {
      var wide := HighBound(points) > 0xffff;
      ClassOperands(wide, points);
      ClassSorted(wide, points);
    }
  }

  lemma ClassOperands(wide: bool, points: seq<int>)
    requires Canonical(points) && |points| >= 2 && (!wide ==> HighBound(points) <= 0xffff)
    ensures forall k :: 0 <= k < |ClosedBounds(wide, points)| ==>
              0 <= ClosedBounds(wide, points)[k] < (if wide then TWO32 else 0x10000)
  {
    var bounds := ClosedBounds(wide, points);
    forall k | 0 <= k < |bounds|
      ensures 0 <= bounds[k] < (if wide then TWO32 else 0x10000)
    {
      if k % 2 == 1 {
        assert points[k - 1] < points[k];
      }
      if !wide {
        assert k < |points| - 1 ==> points[k] < points[|points| - 1];
        assert k < |points| - 2 ==> points[k] < points[|points| - 2];
      }
    }
  }

  lemma ClassSorted(wide: bool, points: seq<int>)
    requires Canonical(points) && |points| >= 2 && (!wide ==> HighBound(points) <= 0xffff)
    ensures SortedBounds(ClosedBounds(wide, points))
  {
    var bounds := ClosedBounds(wide, points);
    var n := |points| / 2;
    forall k | 0 <= k < n
      ensures Lo(bounds, k) <= Hi(bounds, k)
    {
      assert points[2 * k] < points[2 * k + 1];
      assert 2 * k + 1 < |points| - 1 ==> points[2 * k + 1] < points[|points| - 1];
    }
    forall j, k | 0 <= j < k < n
      ensures Hi(bounds, j) < Lo(bounds, k)
    {
      assert points[2 * j + 1] < points[2 * k] < points[2 * k + 1];
    }
  }

  lemma AroundFits(back: bool, i: Instr)
    requires Fits(i)
    ensures AllFit(Around(back, i))
  {
  }

  lemma TermFits(canon: int -> int, md: Mode, cc: nat, t: Term)
    requires Folds(canon) && Valid(t) && SmallClasses(t) && cc + NumCaps(t) <= CAPTURE_COUNT_MAX
    requires SizeAll(EmitTerm(canon, md, cc, t)) <= CODE_MAX
    ensures AllFit(EmitTerm(canon, md, cc, t))
    decreases t, 1
  {
    hide AllFit, EmitAlts, EmitQuant, SizeAll, ValidAlts, SmallClassesAlts, NumCapsAlts, Around, ClassInstr,
         Canonical;
    match t
    case Group(alts) => AltsFit(canon, md, cc, alts);
    case Modified(add, remove, alts) => AltsFit(canon, md.(flags := Update(md.flags, add, remove)), cc, alts);
    case Capture(alts) =>
      var body := EmitAlts(canon, md, cc + 1, alts);
      SizesAppend([Save(md.back, cc)] + body, [Save(!md.back, cc)]);
      SizesAppend([Save(md.back, cc)], body);
      AltsFit(canon, md, cc + 1, alts);
      FitOne(Save(md.back, cc));
      FitOne(Save(!md.back, cc));
      FitAppend([Save(md.back, cc)], body);
      FitAppend([Save(md.back, cc)] + body, [Save(!md.back, cc)]);
    case Look(behind, neg, alts) =>
      var body := EmitAlts(canon, md.(back := behind), cc, alts);
      var i := Lookahead(neg, SizeAll(body) + 1);
      SizesAppend([i] + body, [Match]);
      SizesAppend([i], body);
      AltsFit(canon, md.(back := behind), cc, alts);
      FitOne(i);
      FitOne(Match);
      FitAppend([i], body);
      FitAppend([i] + body, [Match]);
    case Quant(atom, min, max, greedy) =>
      var body := EmitTerm(canon, md, cc, atom);
      QuantSize(body, cc, NumCaps(atom), min, max, greedy);
      if max != 0 {
        TermFits(canon, md, cc, atom);
      }
      QuantFits(body, cc, NumCaps(atom), min, max, greedy);
    case Char(c) => AroundFits(md.back, CharInstr(md.flags.icase, if md.flags.icase then canon(c) else c));
    case Dot => AroundFits(md.back, if md.flags.dotall then Instr.Any else Instr.Dot);
    case Class(points) =>
      ClassFits(md.flags.icase, points);
      AroundFits(md.back, ClassInstr(md.flags.icase, points));
    case LineStart => FitOne(Instr.LineStart(md.flags.multi));
    case LineEnd => FitOne(Instr.LineEnd(md.flags.multi));
    case WordBoundary(neg) => FitOne(Instr.WordBoundary(neg, md.flags.icase));
    case BackRef(n) => FitOne(Instr.BackRef(md.back, md.flags.icase, n));
  }

  /** Unless it is dropped, the atom is part of the quantifier's code. */
  lemma QuantSize(atom: seq<Instr>, first: nat, ncaps: nat, min: int, max: int, greedy: bool)
    requires 0 <= min <= max
    ensures max != 0 ==> SizeAll(EmitQuant(atom, first, ncaps, min, max, greedy)) >= SizeAll(atom)
  {
    hide SizeAll, SimpleCount, NeedCheck;
    var c := EmitQuant(atom, first, ncaps, min, max, greedy);
    var check := NeedCheck(atom);
    if max == 0 {
    } else if greedy && SimpleCount(atom) > 0 {
      var i := SimpleGreedyQuant(SizeAll(atom) + 1, min, max, SimpleCount(atom));
      SizesAppend([i] + atom, [Match]);
      SizesAppend([i], atom);
    } else if min == 0 {
      SizesAppend(ResetCode(first, ncaps), OptionalCode(atom, check, max, greedy));
      OptionalSize(atom, check, max, greedy);
    } else if min == 1 && max == INT32_MAX && !check {
      SizesAppend(atom, [Split(greedy, -(SizeAll(atom) + 5))]);
    } else {
      SizesAppend(MinCode(atom, min), RestCode(atom, check, min, max, greedy));
      MinSize(atom, min);
    }
  }

  lemma OptionalSize(atom: seq<Instr>, check: bool, max: int, greedy: bool)
    requires max > 0
    ensures SizeAll(OptionalCode(atom, check, max, greedy)) >= SizeAll(atom)
  {
    hide SizeAll, CheckedAtom;
    var body := CheckedAtom(atom, check);
    var len := SizeAll(atom) + 2 * Bit(check);
    CheckedSize(atom, check);
    SizesAppend([Split(!greedy, len)], body);
    SizesAppend([Split(!greedy, len + 5)] + body, [Goto(-(len + 10))]);
    SizesAppend([Split(!greedy, len + 5)], body);
    SizesAppend([PushI32(max), Split(!greedy, len + 5)] + body, [Loop(-(len + 10)), Drop]);
    SizesAppend([PushI32(max), Split(!greedy, len + 5)], body);
  }

  lemma MinSize(atom: seq<Instr>, min: int)
    ensures SizeAll(MinCode(atom, min)) >= SizeAll(atom)
  {
    hide SizeAll;
    SizesAppend([PushI32(min)] + atom, [Loop(-(SizeAll(atom) + 5)), Drop]);
    SizesAppend([PushI32(min)], atom);
  }

  lemma QuantFits(atom: seq<Instr>, first: nat, ncaps: nat, min: int, max: int, greedy: bool)
    requires 0 <= min <= max <= INT32_MAX && first + ncaps <= CAPTURE_COUNT_MAX
    requires max != 0 ==> AllFit(atom) && SizeAll(atom) <= CODE_MAX
    ensures AllFit(EmitQuant(atom, first, ncaps, min, max, greedy))
  {
    hide AllFit, SizeAll, SimpleCount, NeedCheck, OptionalCode, MinCode, RestCode;
    var check := NeedCheck(atom);
    FitNothing();
    if greedy && max > 0 && SimpleCount(atom) > 0 {
      CountBelowSize(atom);
      var i := SimpleGreedyQuant(SizeAll(atom) + 1, min, max, SimpleCount(atom));
      FitOne(i);
      FitOne(Match);
      FitAppend([i], atom);
      FitAppend([i] + atom, [Match]);
    } else if min == 0 {
      if ncaps > 0 { FitOne(SaveReset(first, first + ncaps - 1)); }
      OptionalFits(atom, check, max, greedy);
      FitAppend(ResetCode(first, ncaps), OptionalCode(atom, check, max, greedy));
    } else if min == 1 && max == INT32_MAX && !check {
      FitOne(Split(greedy, -(SizeAll(atom) + 5)));
      FitAppend(atom, [Split(greedy, -(SizeAll(atom) + 5))]);
    } else {
      MinFits(atom, min);
      RestFits(atom, check, min, max, greedy);
      FitAppend(MinCode(atom, min), RestCode(atom, check, min, max, greedy));
    }
  }

  lemma FitNothing()
    ensures AllFit([])
  {
  }

  lemma CheckedFits(atom: seq<Instr>, check: bool)
    requires AllFit(atom)
    ensures AllFit(CheckedAtom(atom, check))
  {
    hide AllFit;
    if check {
      FitOne(PushCharPos);
      FitOne(CheckAdvance);
      FitAppend([PushCharPos], atom);
      FitAppend([PushCharPos] + atom, [CheckAdvance]);
    }
  }

  lemma StarFits(atom: seq<Instr>, check: bool, greedy: bool)
    requires AllFit(atom) && SizeAll(atom) <= CODE_MAX
    ensures AllFit(StarCode(atom, check, greedy))
  {
    hide AllFit, SizeAll, CheckedAtom;
    var body := CheckedAtom(atom, check);
    var len := SizeAll(atom) + 2 * Bit(check);
    CheckedFits(atom, check);
    FitOne(Split(!greedy, len + 5));
    FitOne(Goto(-(len + 10)));
    FitAppend([Split(!greedy, len + 5)], body);
    FitAppend([Split(!greedy, len + 5)] + body, [Goto(-(len + 10))]);
  }

  lemma CountedFits(atom: seq<Instr>, check: bool, n: int, greedy: bool)
    requires AllFit(atom) && SizeAll(atom) <= CODE_MAX && 0 <= n <= INT32_MAX
    ensures AllFit(CountedCode(atom, check, n, greedy))
  {
    hide AllFit, SizeAll, CheckedAtom;
    var body := CheckedAtom(atom, check);
    var len := SizeAll(atom) + 2 * Bit(check);
    CheckedFits(atom, check);
    var pre, post := [PushI32(n), Split(!greedy, len + 5)], [Loop(-(len + 10)), Drop];
    assert AllFit(pre) && AllFit(post) by {
      TwoFit(PushI32(n), Split(!greedy, len + 5));
      TwoFit(Loop(-(len + 10)), Drop);
    }
    FitAppend(pre, body);
    FitAppend(pre + body, post);
  }

  lemma TwoFit(i: Instr, j: Instr)
    requires Fits(i) && Fits(j)
    ensures AllFit([i, j])
  {
    hide Fits;
  }

  lemma OptionalFits(atom: seq<Instr>, check: bool, max: int, greedy: bool)
    requires 0 <= max <= INT32_MAX && (max != 0 ==> AllFit(atom) && SizeAll(atom) <= CODE_MAX)
    ensures AllFit(OptionalCode(atom, check, max, greedy))
  {
    hide AllFit, SizeAll, CheckedAtom, StarCode, CountedCode;
    FitNothing();
    if max != 0 {
      CheckedFits(atom, check);
      FitOne(Split(!greedy, SizeAll(atom) + 2 * Bit(check)));
      FitAppend([Split(!greedy, SizeAll(atom) + 2 * Bit(check))], CheckedAtom(atom, check));
      StarFits(atom, check, greedy);
      CountedFits(atom, check, max, greedy);
    }
  }

  lemma MinFits(atom: seq<Instr>, min: int)
    requires AllFit(atom) && SizeAll(atom) <= CODE_MAX && 0 <= min <= INT32_MAX
    ensures AllFit(MinCode(atom, min))
  {
    hide AllFit, SizeAll;
    var loop := Loop(-(SizeAll(atom) + 5));
    FitOne(PushI32(min));
    TwoFit(loop, Drop);
    FitAppend([PushI32(min)], atom);
    FitAppend([PushI32(min)] + atom, [loop, Drop]);
  }

  lemma RestFits(atom: seq<Instr>, check: bool, min: int, max: int, greedy: bool)
    requires AllFit(atom) && SizeAll(atom) <= CODE_MAX && 0 <= min <= max <= INT32_MAX
    ensures AllFit(RestCode(atom, check, min, max, greedy))
  {
    hide AllFit, SizeAll, StarCode, CountedCode;
    FitNothing();
    StarFits(atom, check, greedy);
    CountedFits(atom, check, max - min, greedy);
  }

  lemma SeqFits(canon: int -> int, md: Mode, cc: nat, ts: seq<Term>)
    requires Folds(canon) && ValidSeq(ts) && SmallClassesSeq(ts) && cc + NumCapsSeq(ts) <= CAPTURE_COUNT_MAX
    requires SizeAll(EmitSeq(canon, md, cc, ts)) <= CODE_MAX
    ensures AllFit(EmitSeq(canon, md, cc, ts))
    decreases ts, 0
  {
    hide AllFit, EmitTerm, SizeAll, Valid, SmallClasses, NumCaps;
    FitNothing();
    if ts != [] {
      var init, last := ts[..|ts| - 1], ts[|ts| - 1];
      var x, y := EmitSeq(canon, md, cc, init), EmitTerm(canon, md, cc + NumCapsSeq(init), last);
      SizesAppend(x, y);
      SizesAppend(y, x);
      SeqFits(canon, md, cc, init);
      TermFits(canon, md, cc + NumCapsSeq(init), last);
      FitAppend(x, y);
      FitAppend(y, x);
    }
  }

  lemma AltsFit(canon: int -> int, md: Mode, cc: nat, alts: seq<Alt>)
    requires Folds(canon) && ValidAlts(alts) && SmallClassesAlts(alts) && cc + NumCapsAlts(alts) <= CAPTURE_COUNT_MAX
    requires SizeAll(EmitAlts(canon, md, cc, alts)) <= CODE_MAX
    ensures AllFit(EmitAlts(canon, md, cc, alts))
    decreases alts, 0
  {
    hide AllFit, EmitSeq, SizeAll, ValidSeq, SmallClassesSeq, NumCapsSeq;
    var init := alts[..|alts| - 1];
    var right := EmitSeq(canon, md, cc + NumCapsAlts(init), alts[|alts| - 1].terms);
    if init == [] {
      SeqFits(canon, md, cc + NumCapsAlts(init), alts[|alts| - 1].terms);
    } else {
      var left := EmitAlts(canon, md, cc, init);
      var split, jump := Split(false, SizeAll(left) + 5), Goto(SizeAll(right));
      SizesAppend([split] + left + [jump], right);
      SizesAppend([split] + left, [jump]);
      SizesAppend([split], left);
      AltsFit(canon, md, cc, init);
      SeqFits(canon, md, cc + NumCapsAlts(init), alts[|alts| - 1].terms);
      FitOne(split);
      FitOne(jump);
      FitAppend([split], left);
      FitAppend([split] + left, [jump]);
      FitAppend([split] + left + [jump], right);
    }
  }

  lemma ProgramFits(canon: int -> int, flags: Flags, sticky: bool, alts: seq<Alt>)
    requires Folds(canon) && ValidAlts(alts) && SmallClassesAlts(alts) && 1 + NumCapsAlts(alts) <= CAPTURE_COUNT_MAX
    requires SizeAll(ProgramCode(canon, flags, sticky, alts)) <= CODE_MAX
    ensures AllFit(ProgramCode(canon, flags, sticky, alts))
  {
    hide EmitTerm, SizeAll, ValidAlts, SmallClassesAlts, NumCapsAlts;
    var body := EmitTerm(canon, Mode(false, flags), 0, Capture(alts));
    SizesAppend(SearchPrefix(sticky), body + [Match]);
    SizesAppend(body, [Match]);
    TermFits(canon, Mode(false, flags), 0, Capture(alts));
    FitAppend(body, [Match]);
    FitAppend(SearchPrefix(sticky), body + [Match]);
  }
}
