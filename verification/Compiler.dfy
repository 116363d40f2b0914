/** The one-pass compiler, re_parse_term and its callers, working on the byte buffer in place:
    appending code, inserting headers in front of code already there, copying atoms, reversing
    terms for lookbehind, patching displacements. Every method is proved to leave exactly the
    bytes that Emission prescribes. */
module Compiler {
  import opened Options
  import opened Bytes
  import opened Opcodes
  import opened Syntax
  import opened Emission
  import opened Typing
  import opened Discipline
  import opened Reachable
  import opened Scans
  import opened Program
  import opened Fitting

  lemma SizedAppend(x: seq<Instr>, y: seq<Instr>)
    ensures AllSized(x + y) <==> AllSized(x) && AllSized(y)
  {
    hide Sized;
    assert forall k :: 0 <= k < |x| ==> (x + y)[k] == x[k];
    assert forall k :: 0 <= k < |y| ==> (x + y)[|x| + k] == y[k];
  }

  lemma SizedOne(i: Instr)
    requires !i.Range?
    ensures AllSized([i])
  {
  }

  lemma CheckedSized(atom: seq<Instr>, check: bool)
    requires AllSized(atom)
    ensures AllSized(CheckedAtom(atom, check))
  {
    hide AllSized;
    if check {
      SizedOne(PushCharPos);
      SizedOne(CheckAdvance);
      SizedAppend([PushCharPos], atom);
      SizedAppend([PushCharPos] + atom, [CheckAdvance]);
    }
  }

  lemma LoopsSized(atom: seq<Instr>, check: bool, n: int, greedy: bool)
    requires AllSized(atom)
    ensures AllSized(StarCode(atom, check, greedy)) && AllSized(CountedCode(atom, check, n, greedy))
    ensures AllSized(OptionalCode(atom, check, n, greedy)) && AllSized(MinCode(atom, n))
  {
    hide AllSized, SizeAll, CheckedAtom;
    var body := CheckedAtom(atom, check);
    var len := SizeAll(atom) + 2 * Bit(check);
    CheckedSized(atom, check);
    NothingSized();
    SizedOne(Split(!greedy, len));
    SizedAppend([Split(!greedy, len)], body);
    SizedOne(Split(!greedy, len + 5));
    SizedOne(Goto(-(len + 10)));
    SizedAppend([Split(!greedy, len + 5)], body);
    SizedAppend([Split(!greedy, len + 5)] + body, [Goto(-(len + 10))]);
    SizedTwo(PushI32(n), Split(!greedy, len + 5));
    SizedTwo(Loop(-(len + 10)), Drop);
    SizedAppend([PushI32(n), Split(!greedy, len + 5)], body);
    SizedAppend([PushI32(n), Split(!greedy, len + 5)] + body, [Loop(-(len + 10)), Drop]);
    SizedOne(PushI32(n));
    SizedTwo(Loop(-(SizeAll(atom) + 5)), Drop);
    SizedAppend([PushI32(n)], atom);
    SizedAppend([PushI32(n)] + atom, [Loop(-(SizeAll(atom) + 5)), Drop]);
  }

  lemma SizedTwo(i: Instr, j: Instr)
    requires !i.Range? && !j.Range?
    ensures AllSized([i, j])
  {
  }

  lemma QuantSized(atom: seq<Instr>, first: nat, ncaps: nat, min: int, max: int, greedy: bool)
    requires AllSized(atom)
    ensures AllSized(EmitQuant(atom, first, ncaps, min, max, greedy))
  {
    hide AllSized, SizeAll, SimpleCount, NeedCheck, StarCode, CountedCode, OptionalCode, MinCode;
    var check := NeedCheck(atom);
    NothingSized();
    SizedOne(SimpleGreedyQuant(SizeAll(atom) + 1, min, max, SimpleCount(atom)));
    SizedOne(Match);
    SizedAppend([SimpleGreedyQuant(SizeAll(atom) + 1, min, max, SimpleCount(atom))], atom);
    SizedAppend([SimpleGreedyQuant(SizeAll(atom) + 1, min, max, SimpleCount(atom))] + atom, [Match]);
    if ncaps > 0 { SizedOne(SaveReset(first, first + ncaps - 1)); }
    LoopsSized(atom, check, max, greedy);
    LoopsSized(atom, check, min, greedy);
    LoopsSized(atom, check, max - min, greedy);
    SizedAppend(ResetCode(first, ncaps), OptionalCode(atom, check, max, greedy));
    SizedOne(Split(greedy, -(SizeAll(atom) + 5)));
    SizedAppend(atom, [Split(greedy, -(SizeAll(atom) + 5))]);
    SizedAppend(MinCode(atom, min), RestCode(atom, check, min, max, greedy));
  }

  lemma TermSized(canon: int -> int, md: Mode, cc: nat, t: Term)
    requires SmallClasses(t)
    ensures AllSized(EmitTerm(canon, md, cc, t))
    decreases t, 1
  {
    hide AllSized, EmitAlts, EmitQuant, SizeAll, SmallClassesAlts, NumCapsAlts;
    match t
    case Group(alts) => AltsSized(canon, md, cc, alts);
    case Modified(add, remove, alts) => AltsSized(canon, md.(flags := Update(md.flags, add, remove)), cc, alts);
    case Capture(alts) =>
      var body := EmitAlts(canon, md, cc + 1, alts);
      AltsSized(canon, md, cc + 1, alts);
      SizedOne(Save(md.back, cc));
      SizedOne(Save(!md.back, cc));
      SizedAppend([Save(md.back, cc)], body);
      SizedAppend([Save(md.back, cc)] + body, [Save(!md.back, cc)]);
    case Look(behind, neg, alts) =>
      var body := EmitAlts(canon, md.(back := behind), cc, alts);
      AltsSized(canon, md.(back := behind), cc, alts);
      SizedOne(Lookahead(neg, SizeAll(body) + 1));
      SizedOne(Match);
      SizedAppend([Lookahead(neg, SizeAll(body) + 1)], body);
      SizedAppend([Lookahead(neg, SizeAll(body) + 1)] + body, [Match]);
    case Quant(atom, min, max, greedy) =>
      TermSized(canon, md, cc, atom);
      QuantSized(EmitTerm(canon, md, cc, atom), cc, NumCaps(atom), min, max, greedy);
    case _ => OneSized(canon, md, cc, t);
  }

  lemma OneSized(canon: int -> int, md: Mode, cc: nat, t: Term)
    requires SmallClasses(t) && !t.Group? && !t.Modified? && !t.Capture? && !t.Look? && !t.Quant?
    ensures AllSized(EmitTerm(canon, md, cc, t))
  {
    hide ClosedBounds, HighBound;
  }

  lemma SeqSized(canon: int -> int, md: Mode, cc: nat, ts: seq<Term>)
    requires SmallClassesSeq(ts)
    ensures AllSized(EmitSeq(canon, md, cc, ts))
    decreases ts, 0
  {
    hide AllSized, EmitTerm, SmallClasses;
    if ts == [] {
      NothingSized();
    } else {
      var init, last := ts[..|ts| - 1], ts[|ts| - 1];
      SeqSized(canon, md, cc, init);
      TermSized(canon, md, cc + NumCapsSeq(init), last);
      SizedAppend(EmitSeq(canon, md, cc, init), EmitTerm(canon, md, cc + NumCapsSeq(init), last));
      SizedAppend(EmitTerm(canon, md, cc + NumCapsSeq(init), last), EmitSeq(canon, md, cc, init));
    }
  }

  lemma NothingSized()
    ensures AllSized([])
  {
  }

  lemma AltsSized(canon: int -> int, md: Mode, cc: nat, alts: seq<Alt>)
    requires SmallClassesAlts(alts)
    ensures AllSized(EmitAlts(canon, md, cc, alts))
    decreases alts, 0
  {
    hide AllSized, EmitSeq, SmallClassesSeq, SizeAll;
    if alts == [] {
      NothingSized();
    } else {
      var init := alts[..|alts| - 1];
      var right := EmitSeq(canon, md, cc + NumCapsAlts(init), alts[|alts| - 1].terms);
      SeqSized(canon, md, cc + NumCapsAlts(init), alts[|alts| - 1].terms);
      if init != [] {
        var left := EmitAlts(canon, md, cc, init);
        var split, jump := Split(false, SizeAll(left) + 5), Goto(SizeAll(right));
        AltsSized(canon, md, cc, init);
        SizedOne(split);
        SizedOne(jump);
        SizedAppend([split], left);
        SizedAppend([split] + left, [jump]);
        SizedAppend([split] + left + [jump], right);
      }
    }
  }

  /** Bytes of one instruction followed by the bytes of the rest, and the like. */
  lemma Joined(x: seq<Instr>, y: seq<Instr>, z: seq<Instr>)
    ensures EncodeAll(x + y + z) == EncodeAll(x) + EncodeAll(y) + EncodeAll(z)
    ensures SizeAll(x + y + z) == SizeAll(x) + SizeAll(y) + SizeAll(z)
  {
    hide EncodeAll, SizeAll;
    EncodeAllAppend(x + y, z);
    EncodeAllAppend(x, y);
  }

  class REParseState {
    var byteCode: seq<byte>
    var captureCount: nat
    var flags: Flags
    const canon: int -> int

    constructor (canon: int -> int, flags: Flags)
      ensures this.canon == canon && this.flags == flags && byteCode == [] && captureCount == 1
    {
      this.canon := canon;
      this.flags := flags;
      byteCode := [];
      captureCount := 1;
    }

    /** dbuf_insert: opens a gap of `len` bytes, whose contents are unspecified. */
    method Insert(pos: nat, len: nat)
      requires pos <= |byteCode|
      modifies this`byteCode
      ensures |byteCode| == old(|byteCode|) + len
      ensures byteCode[..pos] == old(byteCode[..pos])
      ensures byteCode[pos + len..] == old(byteCode[pos..])
    {
      var gap := seq(len, i => 0);
      byteCode := byteCode[..pos] + gap + byteCode[pos..];
    }

    /** Overwrite the bytes at `pos` (put_u32 and assignments to single bytes). */
    method Put(pos: nat, bytes: seq<byte>)
      requires pos + |bytes| <= |byteCode|
      modifies this`byteCode
      ensures byteCode == old(byteCode[..pos]) + bytes + old(byteCode[pos + |bytes|..])
    {
      byteCode := byteCode[..pos] + bytes + byteCode[pos + |bytes|..];
    }

    method EmitOp(op: byte)
      modifies this`byteCode
      ensures byteCode == old(byteCode) + [op]
    {
      byteCode := byteCode + [op];
    }

    /** Emits an opcode and a 32-bit operand; returns the offset of the operand. */
    method EmitOpU32(op: byte, val: int) returns (pos: nat)
      modifies this`byteCode
      ensures byteCode == old(byteCode) + ([op] + PutU32(val)) && pos == old(|byteCode|) + 1
    {
      byteCode := byteCode + [op];
      pos := |byteCode|;
      byteCode := byteCode + PutU32(val);
    }

    /** Emits a jump to the absolute offset `target`. */
    method EmitGoto(op: byte, target: nat)
      modifies this`byteCode
      ensures byteCode == old(byteCode) + ([op] + PutU32(target - (old(|byteCode|) + 5)))
    {
      byteCode := byteCode + [op];
      var pos := |byteCode|;
      byteCode := byteCode + PutU32(target - (pos + 4));
    }

    /** Any other instruction. */
    method EmitInstr(i: Instr)
      modifies this`byteCode
      ensures byteCode == old(byteCode) + Encode(i)
    {
      byteCode := byteCode + Encode(i);
    }

    /** re_emit_range, with its limit on the number of ranges. */
    method EmitRange(points: seq<int>) returns (ok: bool)
      requires |points| % 2 == 0
      modifies this`byteCode
      ensures ok <==> |points| / 2 < 65535
      ensures byteCode == old(byteCode) + if ok then Encode(ClassInstr(flags.icase, points)) else []
    {
      hide PutU16, PutU32, Encode, Opcode, ClosedBounds, EncodeBounds, ClassInstr;
      var len := |points| / 2;
      if len >= 65535 {
        return false;
      }
      if len == 0 {
        var _ := EmitOpU32(REOP_CHAR32, -1);
        NoClassBytes(flags.icase);
      } else {
        var high := points[|points| - 1];
        if high == TWO32 - 1 {
          high := points[|points| - 2];
        }
        var wide := high > 0xffff;
        EmitOp((if wide then REOP_RANGE32 else REOP_RANGE) + Bit(flags.icase));
        byteCode := byteCode + PutU16(len);
        EmitBounds(wide, points);
        ClassBytes(flags.icase, points);
      }
      return true;
    }

    /** The bounds of the range from `lo` up to, but not including, `end`. */
    method EmitPair(wide: bool, lo: int, end: int)
      modifies this`byteCode
      ensures byteCode == old(byteCode)
        + (PutBound(wide, lo) + PutBound(wide, if !wide && end == TWO32 - 1 then 0xffff else end - 1))
    {
      hide PutU16, PutU32;
      if wide {
        byteCode := byteCode + PutU32(lo);
        byteCode := byteCode + PutU32(end - 1);
      } else {
        byteCode := byteCode + PutU16(lo);
        var high := end - 1;
        if high == TWO32 - 2 {
          high := 0xffff;
        }
        byteCode := byteCode + PutU16(high);
      }
    }

    /** The closed bounds of every range, in one width or the other. */
    method EmitBounds(wide: bool, points: seq<int>)
      requires |points| % 2 == 0
      modifies this`byteCode
      ensures byteCode == old(byteCode) + EncodeBounds(wide, ClosedBounds(wide, points))
    {
      hide PutBound, EncodeBounds;
      ghost var bounds := ClosedBounds(wide, points);
      ghost var start := byteCode;
      var i := 0;
      NoBounds(wide, bounds);
      while i < |points|
        invariant 0 <= i <= |points| && i % 2 == 0
        invariant byteCode == start + EncodeBounds(wide, bounds[..i])
      {
        EmitPair(wide, points[i], points[i + 1]);
        TwoBounds(wide, bounds, i);
        assert byteCode == start + EncodeBounds(wide, bounds[..i])
               + (PutBound(wide, bounds[i]) + PutBound(wide, bounds[i + 1]));
        i := i + 2;
      }
      assert bounds[..i] == bounds;
    }

    /** A single-character test, between two steps back when the direction is backward. */
    method EmitAround(back: bool, i: Instr)
      modifies this`byteCode
      ensures byteCode == old(byteCode) + EncodeAll(Around(back, i))
    {
      hide Encode, EncodeAll, Around;
      if back {
        EmitOp(REOP_PREV);
      }
      EmitInstr(i);
      if back {
        EmitOp(REOP_PREV);
      }
      AroundBytes(back, i);
    }

    /** An insertion filled with `header`. */
    method InsertHeader(pos: nat, header: seq<byte>, ghost pre: seq<byte>, ghost rest: seq<byte>)
      requires byteCode == pre + rest && pos == |pre|
      modifies this`byteCode
      ensures byteCode == pre + (header + rest)
    {
      Insert(pos, |header|);
      Put(pos, header);
      assert byteCode[..pos] == pre && byteCode[pos + |header|..] == rest;
    }

    /** A greedy quantifier on a straight-line atom. */
    method QuantifySimple(start: nat, min: int, max: int, count: int, ghost pre: seq<byte>, ghost atom: seq<Instr>)
      requires byteCode == pre + EncodeAll(atom) && start == |pre| && count == SimpleCount(atom)
      modifies this`byteCode
      ensures byteCode == pre + EncodeAll(SimpleQuantCode(atom, min, max))
    {
      hide EncodeAll, PutU32, SimpleCount;
      EmitOp(REOP_MATCH);
      var next := |byteCode| - start;
      InsertHeader(start, [REOP_SIMPLE_GREEDY_QUANT] + PutU32(next) + PutU32(min) + PutU32(max) + PutU32(count),
                   pre, EncodeAll(atom) + [REOP_MATCH]);
      SimpleBytes(atom, min, max);
    }

    /** `?` and `*`. */
    method QuantifyOptional(start: nat, check: bool, max: int, greedy: bool, ghost pre: seq<byte>,
                            ghost atom: seq<Instr>)
      requires byteCode == pre + EncodeAll(atom) && start == |pre| && (max == 1 || max == INT32_MAX)
      modifies this`byteCode
      ensures byteCode == pre + EncodeAll(OptionalCode(atom, check, max, greedy))
    {
      hide EncodeAll, PutU32;
      var len := |byteCode| - start;
      var hasGoto := max == INT32_MAX;
      var split := [REOP_SPLIT_GOTO_FIRST + Bit(greedy)] + PutU32(len + 5 * Bit(hasGoto) + 2 * Bit(check));
      InsertHeader(start, split + Opt(check, REOP_PUSH_CHAR_POS), pre, EncodeAll(atom));
      if check {
        EmitOp(REOP_CHECK_ADVANCE);
      }
      Regroup(pre, split, Opt(check, REOP_PUSH_CHAR_POS), EncodeAll(atom), Opt(check, REOP_CHECK_ADVANCE));
      ghost var body := Opt(check, REOP_PUSH_CHAR_POS) + EncodeAll(atom) + Opt(check, REOP_CHECK_ADVANCE);
      assert byteCode == pre + (split + body);
      if hasGoto {
        StarBytes(atom, check, greedy);
        EmitGoto(REOP_GOTO, start);
        Behind(pre, split + body, [REOP_GOTO] + PutU32(-(len + 2 * Bit(check) + 10)));
      } else {
        OnceBytes(atom, check, greedy);
      }
    }

    /** A bounded number of optional iterations, from none. */
    method QuantifyUpTo(start: nat, check: bool, max: int, greedy: bool, ghost pre: seq<byte>, ghost atom: seq<Instr>)
      requires byteCode == pre + EncodeAll(atom) && start == |pre|
      modifies this`byteCode
      ensures byteCode == pre + EncodeAll(CountedCode(atom, check, max, greedy))
    {
      hide EncodeAll, PutU32;
      var len := |byteCode| - start;
      InsertHeader(start, [REOP_PUSH_I32] + PutU32(max)
                          + ([REOP_SPLIT_GOTO_FIRST + Bit(greedy)] + PutU32(len + 5 + 2 * Bit(check)))
                          + Opt(check, REOP_PUSH_CHAR_POS), pre, EncodeAll(atom));
      if check {
        EmitOp(REOP_CHECK_ADVANCE);
      }
      EmitGoto(REOP_LOOP, start + 5);
      EmitOp(REOP_DROP);
      CountedBytes(atom, check, max, greedy);
    }

    /** The loop over the mandatory iterations; returns where the atom now starts. */
    method QuantifyAtLeast(start: nat, min: int, ghost pre: seq<byte>, ghost atom: seq<Instr>) returns (start': nat)
      requires byteCode == pre + EncodeAll(atom) && start == |pre| && min >= 1
      modifies this`byteCode
      ensures byteCode == pre + EncodeAll(MinCode(atom, min))
      ensures start' + SizeAll(atom) <= |byteCode| && byteCode[start'..start' + SizeAll(atom)] == EncodeAll(atom)
    {
      hide EncodeAll, SizeAll, PutU32, MinCode;
      start' := start;
      if min != 1 {
        ghost var push := [REOP_PUSH_I32] + PutU32(min);
        InsertHeader(start, [REOP_PUSH_I32] + PutU32(min), pre, EncodeAll(atom));
        start' := start + 5;
        EmitGoto(REOP_LOOP, start');
        EmitOp(REOP_DROP);
        MinBytes(atom, min);
        ghost var foot := [REOP_LOOP] + PutU32(-(SizeAll(atom) + 5)) + [REOP_DROP];
        assert byteCode == pre + (push + EncodeAll(atom) + foot);
        Middle(pre + push, EncodeAll(atom), foot);
        assert byteCode == pre + push + EncodeAll(atom) + foot;
      } else {
        OnceMin(atom);
        Middle(pre, EncodeAll(atom), []);
        assert byteCode == pre + EncodeAll(atom) + [];
      }
    }

    /** The optional iterations after the mandatory ones, on a copy of the atom (dbuf_put_self). */
    method QuantifyRest(start: nat, len: nat, check: bool, min: int, max: int, greedy: bool,
                        ghost pre: seq<byte>, ghost atom: seq<Instr>)
      requires byteCode == pre && len == SizeAll(atom) && 1 <= min <= max
      requires start + len <= |byteCode| && byteCode[start..start + len] == EncodeAll(atom)
      modifies this`byteCode
      ensures byteCode == pre + EncodeAll(RestCode(atom, check, min, max, greedy))
    {
      hide EncodeAll, SizeAll, PutU32, StarCode, CountedCode;
      if max == INT32_MAX {
        CopyStar(start, len, check, greedy, pre, atom);
      } else if max > min {
        CopyCounted(start, len, check, max - min, greedy, pre, atom);
      } else {
        NoBytes();
      }
    }

    method CopyStar(start: nat, len: nat, check: bool, greedy: bool, ghost pre: seq<byte>, ghost atom: seq<Instr>)
      requires byteCode == pre && len == SizeAll(atom)
      requires start + len <= |byteCode| && byteCode[start..start + len] == EncodeAll(atom)
      modifies this`byteCode
      ensures byteCode == pre + EncodeAll(StarCode(atom, check, greedy))
    {
      hide EncodeAll, SizeAll, PutU32, StarCode;
      var pos := |byteCode|;
      var _ := EmitOpU32(REOP_SPLIT_GOTO_FIRST + Bit(greedy), len + 5 + 2 * Bit(check));
      CopyAtom(start, len, check, pre, atom);
      EmitGoto(REOP_GOTO, pos);
      StarBytes(atom, check, greedy);
    }

    method CopyCounted(start: nat, len: nat, check: bool, n: int, greedy: bool, ghost pre: seq<byte>,
                       ghost atom: seq<Instr>)
      requires byteCode == pre && len == SizeAll(atom)
      requires start + len <= |byteCode| && byteCode[start..start + len] == EncodeAll(atom)
      modifies this`byteCode
      ensures byteCode == pre + EncodeAll(CountedCode(atom, check, n, greedy))
    {
      hide EncodeAll, SizeAll, PutU32, CountedCode;
      var _ := EmitOpU32(REOP_PUSH_I32, n);
      var pos := |byteCode|;
      var _ := EmitOpU32(REOP_SPLIT_GOTO_FIRST + Bit(greedy), len + 5 + 2 * Bit(check));
      CopyAtom(start, len, check, pre, atom);
      EmitGoto(REOP_LOOP, pos);
      EmitOp(REOP_DROP);
      CountedBytes(atom, check, n, greedy);
    }

    method CopyAtom(start: nat, len: nat, check: bool, ghost pre: seq<byte>, ghost atom: seq<Instr>)
      requires pre <= byteCode && start + len <= |pre| && pre[start..start + len] == EncodeAll(atom)
      modifies this`byteCode
      ensures byteCode == old(byteCode) + Opt(check, REOP_PUSH_CHAR_POS) + EncodeAll(atom)
              + Opt(check, REOP_CHECK_ADVANCE)
    {
      hide EncodeAll;
      if check {
        EmitOp(REOP_PUSH_CHAR_POS);
      }
      assert byteCode[start..start + len] == pre[start..start + len];
      byteCode := byteCode + byteCode[start..start + len];
      if check {
        EmitOp(REOP_CHECK_ADVANCE);
      }
    }

    /** The quantifier half of re_parse_term: rewrites the atom's code, which starts at `start0`. */
    method Quantify(start0: nat, lastCaptureCount: nat, min: int, max: int, greedy: bool,
                    ghost pre: seq<byte>, ghost atom: seq<Instr>)
      requires byteCode == pre + EncodeAll(atom) && start0 == |pre| && AllSized(atom)
      requires lastCaptureCount <= captureCount && 0 <= min <= max
      modifies this`byteCode
      ensures byteCode == pre + EncodeAll(EmitQuant(atom, lastCaptureCount, captureCount - lastCaptureCount,
                                                    min, max, greedy))
    {
      hide EncodeAll, SizeAll, AllSized, SimpleCount, NeedCheck, OptionalCode, CountedCode, MinCode, RestCode, PutU32;
      assert byteCode[start0..] == EncodeAll(atom);
      if greedy && max > 0 {
        var count := ReIsSimpleQuantifier(byteCode[start0..], atom);
        if count > 0 {
          QuantifySimple(start0, min, max, count, pre, atom);
          return;
        }
      }
      var check := ReNeedCheckAdvance(byteCode[start0..], atom);
      var len := |byteCode| - start0;
      if min == 0 {
        QuantifyFromZero(start0, lastCaptureCount, check, max, greedy, pre, atom);
      } else if min == 1 && max == INT32_MAX && !check {
        EmitGoto(REOP_SPLIT_NEXT_FIRST - Bit(greedy), start0);
        PlusBytes(atom, greedy);
      } else {
        var start := QuantifyAtLeast(start0, min, pre, atom);
        QuantifyRest(start, len, check, min, max, greedy, byteCode, atom);
        EncodeAllAppend(MinCode(atom, min), RestCode(atom, check, min, max, greedy));
      }
    }

    /** A minimum of zero: the captures of the atom are cleared first. */
    method QuantifyFromZero(start0: nat, lastCaptureCount: nat, check: bool, max: int, greedy: bool,
                            ghost pre: seq<byte>, ghost atom: seq<Instr>)
      requires byteCode == pre + EncodeAll(atom) && start0 == |pre|
      requires lastCaptureCount <= captureCount && max >= 0
      modifies this`byteCode
      ensures byteCode == pre + EncodeAll(ResetCode(lastCaptureCount, captureCount - lastCaptureCount)
                                          + OptionalCode(atom, check, max, greedy))
    {
      hide EncodeAll, SizeAll, OptionalCode, PutU32;
      var start := start0;
      ghost var reset := ResetCode(lastCaptureCount, captureCount - lastCaptureCount);
      NoBytes();
      if lastCaptureCount != captureCount {
        InsertHeader(start, [REOP_SAVE_RESET, lastCaptureCount % 256, (captureCount - 1) % 256], pre, EncodeAll(atom));
        start := start + 3;
        ResetBytes(lastCaptureCount, captureCount - 1);
      }
      ghost var pre' := pre + EncodeAll(reset);
      assert byteCode == pre' + EncodeAll(atom);
      QuantifyOptionally(start, check, max, greedy, pre', atom);
      EncodeAllAppend(reset, OptionalCode(atom, check, max, greedy));
    }

    /** The atom dropped, or optional, or in a loop. */
    method QuantifyOptionally(start: nat, check: bool, max: int, greedy: bool, ghost pre: seq<byte>,
                              ghost atom: seq<Instr>)
      requires byteCode == pre + EncodeAll(atom) && start == |pre| && max >= 0
      modifies this`byteCode
      ensures byteCode == pre + EncodeAll(OptionalCode(atom, check, max, greedy))
    {
      hide EncodeAll, SizeAll, CountedCode, PutU32;
      if max == 0 {
        NoBytes();
        byteCode := byteCode[..start];
        assert byteCode == pre + [];
      } else if max == 1 || max == INT32_MAX {
        QuantifyOptional(start, check, max, greedy, pre, atom);
      } else {
        QuantifyUpTo(start, check, max, greedy, pre, atom);
      }
    }

    /** What a parsing method promises: it succeeds when the pattern stays within the limits on
        ranges and captures, and then it has appended the pattern's code. */
    twostate predicate Parsed(ok: bool, within: bool, ncaps: nat, ins: seq<Instr>)
      reads this
    {
      && (ok <==> within && old(captureCount) + ncaps <= CAPTURE_COUNT_MAX)
      && (ok ==>
            && byteCode == old(byteCode) + EncodeAll(ins)
            && captureCount == old(captureCount) + ncaps
            && flags == old(flags))
    }

    /** re_parse_term. */
    method ParseTerm(t: Term, back: bool) returns (ok: bool)
      requires Valid(t) && captureCount <= CAPTURE_COUNT_MAX
      modifies this
      ensures Parsed(ok, SmallClasses(t), NumCaps(t), EmitTerm(canon, Mode(back, old(flags)), old(captureCount), t))
      decreases t, 1
    {
      hide EncodeAll, Encode, SizeAll, ClassInstr, EmitAlts, EmitQuant, Around, CharInstr, SmallClassesAlts,
           NumCapsAlts, ValidAlts;
      match t
      case Group(alts) =>
        ok := ParseDisjunction(alts, back);
      case Modified(add, remove, alts) =>
        var saved := flags;
        flags := Update(saved, add, remove);
        ok := ParseDisjunction(alts, back);
        flags := saved;
      case Capture(alts) =>
        ok := ParseCapture(alts, back);
      case Look(behind, neg, alts) =>
        ok := ParseLook(behind, neg, alts);
      case Quant(atom, min, max, greedy) =>
        ok := ParseQuant(atom, min, max, greedy, back);
      case _ =>
        ok := ParseAtom(t, back);
    }

    /** The terms that are a single instruction, or one between steps back. */
    method ParseAtom(t: Term, back: bool) returns (ok: bool)
      requires Valid(t) && captureCount <= CAPTURE_COUNT_MAX
      requires !t.Group? && !t.Modified? && !t.Capture? && !t.Look? && !t.Quant?
      modifies this`byteCode
      ensures Parsed(ok, SmallClasses(t), NumCaps(t), EmitTerm(canon, Mode(back, old(flags)), old(captureCount), t))
    {
      hide EncodeAll, Encode, ClassInstr, Around, CharInstr;
      ok := true;
      match t
      case Char(c) =>
        EmitAround(back, CharInstr(flags.icase, if flags.icase then canon(c) else c));
      case Dot =>
        EmitAround(back, if flags.dotall then Instr.Any else Instr.Dot);
      case Class(points) =>
        ok := ParseClass(points, back);
      case LineStart =>
        EmitOne(Instr.LineStart(flags.multi));
      case LineEnd =>
        EmitOne(Instr.LineEnd(flags.multi));
      case WordBoundary(neg) =>
        EmitOne(Instr.WordBoundary(neg, flags.icase));
      case BackRef(n) =>
        EmitOne(Instr.BackRef(back, flags.icase, n));
    }

    method EmitOne(i: Instr)
      modifies this`byteCode
      ensures byteCode == old(byteCode) + EncodeAll([i])
    {
      EncodeOne(i);
      EmitInstr(i);
    }

    method ParseClass(points: seq<int>, back: bool) returns (ok: bool)
      requires |points| % 2 == 0
      modifies this`byteCode
      ensures ok <==> |points| / 2 < 65535
      ensures ok ==> byteCode == old(byteCode) + EncodeAll(Around(back, ClassInstr(flags.icase, points)))
    {
      hide EncodeAll, Encode, ClassInstr, Around;
      if back {
        EmitOp(REOP_PREV);
      }
      ok := EmitRange(points);
      if back {
        EmitOp(REOP_PREV);
      }
      AroundBytes(back, ClassInstr(flags.icase, points));
    }

    method ParseCapture(alts: seq<Alt>, back: bool) returns (ok: bool)
      requires ValidAlts(alts) && captureCount <= CAPTURE_COUNT_MAX
      modifies this
      ensures Parsed(ok, SmallClassesAlts(alts), 1 + NumCapsAlts(alts),
                     EmitTerm(canon, Mode(back, old(flags)), old(captureCount), Capture(alts)))
      decreases alts, 1
    {
      CaptureCode(canon, Mode(back, flags), captureCount, alts);
      hide EncodeAll, EmitTerm, EmitAlts, SmallClassesAlts, NumCapsAlts, ValidAlts, Encode;
      if captureCount >= CAPTURE_COUNT_MAX {
        return false;
      }
      var index := captureCount;
      captureCount := captureCount + 1;
      EmitOne(Save(back, index));
      ok := ParseDisjunction(alts, back);
      EmitOne(Save(!back, index));
      Joined([Save(back, index)], EmitAlts(canon, Mode(back, old(flags)), index + 1, alts), [Save(!back, index)]);
    }

    method ParseLook(behind: bool, neg: bool, alts: seq<Alt>) returns (ok: bool)
      requires ValidAlts(alts) && captureCount <= CAPTURE_COUNT_MAX
      modifies this
      ensures Parsed(ok, SmallClassesAlts(alts), NumCapsAlts(alts),
                     LookCode(neg, EmitAlts(canon, Mode(behind, old(flags)), old(captureCount), alts)))
      decreases alts, 1
    {
      hide EncodeAll, SizeAll, EmitAlts, SmallClassesAlts, NumCapsAlts, ValidAlts, PutU32;
      ghost var pre := byteCode;
      ghost var body := EmitAlts(canon, Mode(behind, flags), captureCount, alts);
      var pos := EmitOpU32(REOP_LOOKAHEAD + Bit(neg), 0);
      ok := ParseDisjunction(alts, behind);
      if !ok {
        return;
      }
      EmitOp(REOP_MATCH);
      assert byteCode == pre + [REOP_LOOKAHEAD + Bit(neg)] + PutU32(0) + (EncodeAll(body) + [REOP_MATCH]);
      PatchAt(pos, |byteCode| - (pos + 4), pre + [REOP_LOOKAHEAD + Bit(neg)], PutU32(0),
              EncodeAll(body) + [REOP_MATCH]);
      LookBytes(neg, body);
    }

    /** put_u32 at a displacement that was emitted with a provisional value. */
    method PatchAt(pos: nat, val: int, ghost pre: seq<byte>, ghost was: seq<byte>, ghost rest: seq<byte>)
      requires byteCode == pre + was + rest && pos == |pre| && |was| == 4
      modifies this`byteCode
      ensures byteCode == pre + PutU32(val) + rest
    {
      hide PutU32;
      Put(pos, PutU32(val));
    }

    method ParseQuant(t: Term, min: int, max: int, greedy: bool, back: bool) returns (ok: bool)
      requires Valid(Quant(t, min, max, greedy)) && captureCount <= CAPTURE_COUNT_MAX
      modifies this
      ensures Parsed(ok, SmallClasses(t), NumCaps(t),
                     EmitQuant(EmitTerm(canon, Mode(back, old(flags)), old(captureCount), t), old(captureCount),
                               NumCaps(t), min, max, greedy))
      decreases t, 2
    {
      hide EncodeAll, EmitTerm, EmitQuant, SmallClasses, NumCaps, AllSized;
      ghost var pre := byteCode;
      ghost var atom := EmitTerm(canon, Mode(back, flags), captureCount, t);
      var start := |byteCode|;
      var lastCaptureCount := captureCount;
      ok := ParseTerm(t, back);
      if ok {
        TermSized(canon, Mode(back, flags), lastCaptureCount, t);
        Quantify(start, lastCaptureCount, min, max, greedy, pre, atom);
      }
    }

    /** re_parse_alternative: in lookbehind each new term is moved in front of those before it. */
    method ParseAlternative(ts: seq<Term>, back: bool) returns (ok: bool)
      requires ValidSeq(ts) && captureCount <= CAPTURE_COUNT_MAX
      modifies this
      ensures Parsed(ok, SmallClassesSeq(ts), NumCapsSeq(ts),
                     EmitSeq(canon, Mode(back, old(flags)), old(captureCount), ts))
      decreases ts, 0
    {
      hide EncodeAll, EmitTerm, EmitSeq, SmallClasses, SmallClassesSeq, NumCaps, NumCapsSeq, Valid, ValidSeq;
      var start := |byteCode|;
      ghost var pre, cc, md := byteCode, captureCount, Mode(back, flags);
      ghost var done: seq<Instr> := [];
      NoBytes();
      SeqStart(canon, md, cc, ts);
      var i := 0;
      while i < |ts|
        invariant 0 <= i <= |ts| && SmallClassesSeq(ts[..i])
        invariant captureCount == cc + NumCapsSeq(ts[..i]) <= CAPTURE_COUNT_MAX && flags == md.flags
        invariant done == EmitSeq(canon, md, cc, ts[..i])
        invariant byteCode == pre + EncodeAll(done)
      {
        var termStart := |byteCode|;
        SeqStep(canon, md, cc, ts, i);
        ok := ParseTerm(ts[i], back);
        if !ok {
          return;
        }
        ghost var term := EmitTerm(canon, md, cc + NumCapsSeq(ts[..i]), ts[i]);
        if back {
          MoveToFront(start, termStart, pre, EncodeAll(done), EncodeAll(term));
          EncodeAllAppend(term, done);
          done := term + done;
        } else {
          EncodeAllAppend(done, term);
          done := done + term;
        }
        i := i + 1;
      }
      assert ts[..i] == ts;
      ok := true;
    }

    /** The block move that reverses terms: shift everything from `start` up by the size of the
        last term, then copy that term, now beyond the end, into the gap. */
    method MoveToFront(start: nat, termStart: nat, ghost pre: seq<byte>, ghost done: seq<byte>, ghost term: seq<byte>)
      requires byteCode == pre + done + term && start == |pre| && termStart == |pre| + |done|
      modifies this`byteCode
      ensures byteCode == pre + (term + done)
    {
      var end := |byteCode|;
      var termSize := end - termStart;
      var claimed := byteCode + seq(termSize, i => 0);
      assert byteCode[start..end] == done + term;
      ghost var kept := claimed[..start + termSize];
      claimed := claimed[..start + termSize] + byteCode[start..end];
      assert claimed == kept + done + term;
      Middle(kept + done, term, []);
      assert kept + done + term + [] == claimed;
      Middle(kept, done, term);
      byteCode := claimed[..start] + claimed[end..end + termSize] + claimed[start + termSize..end];
    }

    /** re_parse_disjunction: for every further alternative, a split goes in front of all the
        code so far and a jump over the new alternative behind it. */
    method ParseDisjunction(alts: seq<Alt>, back: bool) returns (ok: bool)
      requires ValidAlts(alts) && captureCount <= CAPTURE_COUNT_MAX
      modifies this
      ensures Parsed(ok, SmallClassesAlts(alts), NumCapsAlts(alts),
                     EmitAlts(canon, Mode(back, old(flags)), old(captureCount), alts))
      decreases alts, 0
    {
      hide EncodeAll, SizeAll, EmitAlts, EmitSeq, SmallClassesAlts, SmallClassesSeq, NumCapsAlts, NumCapsSeq,
           ValidAlts, ValidSeq, AltCode, PutU32;
      var start := |byteCode|;
      ghost var pre, cc, md := byteCode, captureCount, Mode(back, flags);
      AltsStart(canon, md, cc, alts);
      ok := ParseAlternative(alts[0].terms, back);
      if !ok {
        return;
      }
      ghost var done := EmitAlts(canon, md, cc, alts[..1]);
      var i := 1;
      while i < |alts|
        invariant 1 <= i <= |alts| && SmallClassesAlts(alts[..i])
        invariant captureCount == cc + NumCapsAlts(alts[..i]) <= CAPTURE_COUNT_MAX && flags == md.flags
        invariant done == EmitAlts(canon, md, cc, alts[..i])
        invariant byteCode == pre + EncodeAll(done)
      {
        AltsStep(canon, md, cc, alts, i);
        var len := |byteCode| - start;
        InsertHeader(start, [REOP_SPLIT_NEXT_FIRST] + PutU32(len + 5), pre, EncodeAll(done));
        ghost var left := [REOP_SPLIT_NEXT_FIRST] + PutU32(len + 5) + EncodeAll(done);
        assert byteCode == pre + left;
        var pos := EmitOpU32(REOP_GOTO, 0);
        ok := ParseAlternative(alts[i].terms, back);
        if !ok {
          return;
        }
        ghost var right := EmitSeq(canon, md, cc + NumCapsAlts(alts[..i]), alts[i].terms);
        assert byteCode == pre + left + [REOP_GOTO] + PutU32(0) + EncodeAll(right);
        PatchAt(pos, |byteCode| - (pos + 4), pre + left + [REOP_GOTO], PutU32(0), EncodeAll(right));
        AltBytes(done, right);
        assert byteCode == pre + (left + [REOP_GOTO] + PutU32(SizeAll(right)) + EncodeAll(right));
        done := AltCode(done, right);
        i := i + 1;
      }
      assert alts[..i] == alts;
    }

    /** compute_stack_size applied to a finished program. */
    method StackSize(ghost ins: seq<Instr>) returns (size: int)
      requires |byteCode| >= RE_HEADER_LEN && byteCode[RE_HEADER_LEN..] == EncodeAll(ins) && AllSized(ins)
      requires ins != [] && ins[|ins| - 1] == Match && WellTyped(ins[..|ins| - 1])
      ensures size == if MaxDepth(ins) > STACK_SIZE_MAX then -1 else MaxDepth(ins)
    {
      hide EncodeAll, AllSized, MaxDepth, WellTyped, Depth;
      forall k | 0 <= k < |ins| && DepthStep(ins[k]) == -1
        ensures Depth(ins[..k]) > 0
      {
        PopsFit(ins, k);
      }
      size := ComputeStackSize(byteCode[RE_HEADER_LEN..], ins);
    }

    /** Unless the pattern is sticky, the code first steps through all start positions. */
    method EmitPrefix(sticky: bool)
      modifies this`byteCode
      ensures byteCode == old(byteCode) + EncodeAll(SearchPrefix(sticky))
    {
      hide EncodeAll, PutU32;
      if !sticky {
        var _ := EmitOpU32(REOP_SPLIT_GOTO_FIRST, 1 + 5);
        EmitOp(REOP_ANY);
        var _ := EmitOpU32(REOP_GOTO, -(5 + 1 + 5));
      }
      PrefixBytes(sticky);
    }

    /** lre_compile: flags, header, search prefix, capture group 0, final match; then the header is
        completed. Fails on too many ranges, captures or nested quantifiers, and when the code
        exceeds the allocator's limit. */
    method Compile(reFlags: int, alts: seq<Alt>) returns (r: Option<seq<byte>>)
      requires ValidAlts(alts)
      modifies this
      ensures r.Some? <==> Compilable(canon, FlagsOf(reFlags), Sticky(reFlags), alts)
      ensures r.Some? ==> CompiledTo(r.value, canon, FlagsOf(reFlags), Sticky(reFlags), alts)
      ensures r.Some? ==> GetU16(r.value, RE_HEADER_FLAGS) == reFlags % 0x10000
    {
      hide EncodeAll, SizeAll, EmitAlts, SmallClassesAlts, NumCapsAlts, ValidAlts, PutU16, PutU32, AllSized, MaxDepth,
           WellTyped, Encode, SearchPrefix;
      flags := FlagsOf(reFlags);
      captureCount := 1;
      var sticky := Sticky(reFlags);
      ghost var parsed := flags;
      ghost var code := ProgramCode(canon, flags, sticky, alts);
      byteCode := PutU16(reFlags) + [0, 0] + PutU32(0);
      ghost var header := byteCode;
      EmitPrefix(sticky);
      EmitOne(Save(false, 0));
      var ok := ParseDisjunction(alts, false);
      if !ok {
        return None;
      }
      EmitOne(Save(true, 0));
      EmitOne(Match);
      ProgramBytes(canon, parsed, sticky, alts);
      assert byteCode == header + EncodeAll(code);
      if |byteCode| > CODE_MAX {
        return None;
      }
      TypedProgram(canon, parsed, sticky, alts);
      ProgramSized(canon, parsed, sticky, alts);
      var size := StackSize(code);
      if size < 0 {
        return None;
      }
      FinishHeader(size, header, EncodeAll(code));
      FlagsInHeader(byteCode, reFlags, header);
      return Some(byteCode);
    }

    /** Capture count, stack size and code length go into the header. */
    method FinishHeader(size: int, ghost header: seq<byte>, ghost code: seq<byte>)
      requires byteCode == header + code && |header| == RE_HEADER_LEN
      requires 0 <= size <= STACK_SIZE_MAX && captureCount <= CAPTURE_COUNT_MAX && |byteCode| <= CODE_MAX
      modifies this`byteCode
      ensures |byteCode| == RE_HEADER_LEN + |code| && byteCode[RE_HEADER_LEN..] == code
      ensures byteCode[..RE_HEADER_CAPTURE_COUNT] == header[..RE_HEADER_CAPTURE_COUNT]
      ensures GetU32(byteCode, RE_HEADER_BYTECODE_LEN) == |code|
      ensures byteCode[RE_HEADER_CAPTURE_COUNT] == captureCount && byteCode[RE_HEADER_STACK_SIZE] == size
    {
      hide PutU32;
      Put(RE_HEADER_CAPTURE_COUNT, [captureCount]);
      assert byteCode == header[..2] + [captureCount] + header[3..] + code;
      Put(RE_HEADER_STACK_SIZE, [size]);
      assert byteCode == header[..2] + [captureCount, size] + header[4..] + code;
      Put(RE_HEADER_BYTECODE_LEN, PutU32(|byteCode| - RE_HEADER_LEN));
      assert byteCode == header[..2] + [captureCount, size] + PutU32(|code|) + code;
      assert Has(byteCode, RE_HEADER_BYTECODE_LEN, PutU32(|code|));
      GetPutU32(byteCode, RE_HEADER_BYTECODE_LEN, |code|);
    }
  }

  const RE_HEADER_FLAGS: nat := 0
  const RE_HEADER_CAPTURE_COUNT: nat := 2
  const RE_HEADER_STACK_SIZE: nat := 3
  const RE_HEADER_BYTECODE_LEN: nat := 4

  lemma CaptureCode(canon: int -> int, md: Mode, cc: nat, alts: seq<Alt>)
    ensures EmitTerm(canon, md, cc, Capture(alts)) ==
            [Save(md.back, cc)] + EmitAlts(canon, md, cc + 1, alts) + [Save(!md.back, cc)]
  {
    hide EmitAlts;
  }

  /** The limits under which lre_compile succeeds. */
  ghost predicate Compilable(canon: int -> int, flags: Flags, sticky: bool, alts: seq<Alt>) {
    && SmallClassesAlts(alts)
    && 1 + NumCapsAlts(alts) <= CAPTURE_COUNT_MAX
    && RE_HEADER_LEN + SizeAll(ProgramCode(canon, flags, sticky, alts)) <= CODE_MAX
    && MaxDepth(ProgramCode(canon, flags, sticky, alts)) <= STACK_SIZE_MAX
  }

  /** The shape of the result: the header fields, then exactly the program's code. */
  ghost predicate CompiledTo(bc: seq<byte>, canon: int -> int, flags: Flags, sticky: bool, alts: seq<Alt>) {
    && Compilable(canon, flags, sticky, alts)
    && |bc| >= RE_HEADER_LEN
    && bc[RE_HEADER_CAPTURE_COUNT] == 1 + NumCapsAlts(alts)
    && bc[RE_HEADER_STACK_SIZE] == MaxDepth(ProgramCode(canon, flags, sticky, alts))
    && GetU32(bc, RE_HEADER_BYTECODE_LEN) == |bc| - RE_HEADER_LEN
    && bc[RE_HEADER_LEN..] == EncodeAll(ProgramCode(canon, flags, sticky, alts))
  }

  const LRE_FLAG_IGNORECASE: int := 2
  const LRE_FLAG_MULTILINE: int := 4
  const LRE_FLAG_DOTALL: int := 8
  const LRE_FLAG_STICKY: int := 32

  /** The flags are tested bit by bit. */
  predicate Flagged(reFlags: int, flag: int)
    requires flag > 0
  {
    reFlags / flag % 2 == 1
  }

  function FlagsOf(reFlags: int): Flags {
    Flags(Flagged(reFlags, LRE_FLAG_IGNORECASE), Flagged(reFlags, LRE_FLAG_MULTILINE),
          Flagged(reFlags, LRE_FLAG_DOTALL))
  }

  predicate Sticky(reFlags: int) {
    Flagged(reFlags, LRE_FLAG_STICKY)
  }

  /** lre_get_flags of the result gives back the low half of the flags. */
  lemma FlagsInHeader(bc: seq<byte>, reFlags: int, header: seq<byte>)
    requires header == PutU16(reFlags) + [0, 0] + PutU32(0)
    requires |bc| >= RE_HEADER_LEN && bc[..RE_HEADER_CAPTURE_COUNT] == header[..RE_HEADER_CAPTURE_COUNT]
    ensures GetU16(bc, RE_HEADER_FLAGS) == reFlags % 0x10000
  {
    hide PutU16, PutU32;
    assert header[..2] == PutU16(reFlags);
    assert Has(bc, RE_HEADER_FLAGS, PutU16(reFlags));
    GetPutU16(bc, RE_HEADER_FLAGS, reFlags);
  }

  lemma PopsFit(ins: seq<Instr>, k: nat)
    requires ins != [] && ins[|ins| - 1] == Match && WellTyped(ins[..|ins| - 1])
    requires k < |ins| && DepthStep(ins[k]) == -1
    ensures Depth(ins[..k]) > 0
  {
    hide Depth, SizeAll, Nest;
    var frag := ins[..|ins| - 1];
    assert frag[k] == ins[k] && frag[..k] == ins[..k];
    assert OkAt(frag, k);
  }

  lemma PrefixBytes(sticky: bool)
    ensures EncodeAll(SearchPrefix(sticky)) ==
            if sticky then []
            else [REOP_SPLIT_GOTO_FIRST] + PutU32(6) + [REOP_ANY] + ([REOP_GOTO] + PutU32(-11))
  {
    hide EncodeAll, PutU32;
    if sticky {
      NoBytes();
    } else {
      assert SearchPrefix(false) == [Split(true, 6)] + [Any] + [Goto(-11)];
      Joined([Split(true, 6)], [Any], [Goto(-11)]);
      WordBytes(Split(true, 6));
      WordBytes(Goto(-11));
      EncodeOne(Any);
      assert Encode(Any) == [REOP_ANY];
    }
  }

  lemma ProgramBytes(canon: int -> int, flags: Flags, sticky: bool, alts: seq<Alt>)
    ensures EncodeAll(ProgramCode(canon, flags, sticky, alts)) ==
            EncodeAll(SearchPrefix(sticky)) + EncodeAll([Save(false, 0)])
            + EncodeAll(EmitAlts(canon, Mode(false, flags), 1, alts)) + EncodeAll([Save(true, 0)]) + EncodeAll([Match])
  {
    hide EncodeAll, EmitAlts, SearchPrefix;
    var body := EmitAlts(canon, Mode(false, flags), 1, alts);
    assert EmitTerm(canon, Mode(false, flags), 0, Capture(alts)) == [Save(false, 0)] + body + [Save(true, 0)];
    Joined([Save(false, 0)], body, [Save(true, 0)]);
    EncodeAllAppend([Save(false, 0)] + body + [Save(true, 0)], [Match]);
    EncodeAllAppend(SearchPrefix(sticky), [Save(false, 0)] + body + [Save(true, 0)] + [Match]);
  }

  lemma ProgramSized(canon: int -> int, flags: Flags, sticky: bool, alts: seq<Alt>)
    requires SmallClassesAlts(alts)
    ensures AllSized(ProgramCode(canon, flags, sticky, alts))
  {
    hide EmitTerm, SmallClassesAlts;
    var body := EmitTerm(canon, Mode(false, flags), 0, Capture(alts));
    TermSized(canon, Mode(false, flags), 0, Capture(alts));
    SizedAppend(body, [Match]);
    SizedAppend(SearchPrefix(sticky), body + [Match]);
  }

  lemma LookBytes(neg: bool, body: seq<Instr>)
    ensures EncodeAll(LookCode(neg, body)) ==
            [REOP_LOOKAHEAD + Bit(neg)] + PutU32(SizeAll(body) + 1) + (EncodeAll(body) + [REOP_MATCH])
  {
    hide EncodeAll, SizeAll, PutU32;
    var i := Lookahead(neg, SizeAll(body) + 1);
    Joined([i], body, [Match]);
    EncodeOne(i);
    EncodeOne(Match);
    assert Encode(Match) == [REOP_MATCH];
  }

  lemma AltBytes(left: seq<Instr>, right: seq<Instr>)
    ensures EncodeAll(AltCode(left, right)) ==
            [REOP_SPLIT_NEXT_FIRST] + PutU32(SizeAll(left) + 5) + EncodeAll(left)
            + [REOP_GOTO] + PutU32(SizeAll(right)) + EncodeAll(right)
  {
    hide EncodeAll, SizeAll, PutU32;
    var split, jump := Split(false, SizeAll(left) + 5), Goto(SizeAll(right));
    Joined([split], left, [jump]);
    EncodeAllAppend([split] + left + [jump], right);
    WordBytes(split);
    WordBytes(jump);
  }

  lemma SeqStart(canon: int -> int, md: Mode, cc: nat, ts: seq<Term>)
    ensures SmallClassesSeq(ts[..0]) && NumCapsSeq(ts[..0]) == 0 && EmitSeq(canon, md, cc, ts[..0]) == []
  {
  }

  /** One more term, and what it means for the whole. */
  lemma SeqStep(canon: int -> int, md: Mode, cc: nat, ts: seq<Term>, i: nat)
    requires i < |ts| && ValidSeq(ts)
    ensures Valid(ts[i])
    ensures SmallClassesSeq(ts[..i + 1]) <==> SmallClassesSeq(ts[..i]) && SmallClasses(ts[i])
    ensures NumCapsSeq(ts[..i + 1]) == NumCapsSeq(ts[..i]) + NumCaps(ts[i]) <= NumCapsSeq(ts)
    ensures SmallClassesSeq(ts) ==> SmallClassesSeq(ts[..i + 1])
    ensures EmitSeq(canon, md, cc, ts[..i + 1]) ==
            var term := EmitTerm(canon, md, cc + NumCapsSeq(ts[..i]), ts[i]);
            if md.back then term + EmitSeq(canon, md, cc, ts[..i]) else EmitSeq(canon, md, cc, ts[..i]) + term
  {
    hide Valid, SmallClasses, NumCaps, EmitTerm;
    var y := ts[..i + 1];
    assert y[..|y| - 1] == ts[..i];
    SeqPrefix(ts, i + 1);
  }

  lemma {:induction false} SeqPrefix(ts: seq<Term>, i: nat)
    requires i <= |ts|
    ensures ValidSeq(ts) ==> ValidSeq(ts[..i])
    ensures SmallClassesSeq(ts) ==> SmallClassesSeq(ts[..i])
    ensures NumCapsSeq(ts[..i]) <= NumCapsSeq(ts)
    decreases |ts|
  {
    hide Valid, SmallClasses, NumCaps;
    if i == |ts| {
      assert ts[..i] == ts;
    } else {
      SeqPrefix(ts[..|ts| - 1], i);
      assert ts[..|ts| - 1][..i] == ts[..i];
    }
  }

  lemma AltsStart(canon: int -> int, md: Mode, cc: nat, alts: seq<Alt>)
    requires ValidAlts(alts)
    ensures alts != [] && ValidSeq(alts[0].terms)
    ensures SmallClassesAlts(alts[..1]) <==> SmallClassesSeq(alts[0].terms)
    ensures NumCapsAlts(alts[..1]) == NumCapsSeq(alts[0].terms) <= NumCapsAlts(alts)
    ensures SmallClassesAlts(alts) ==> SmallClassesAlts(alts[..1])
    ensures EmitAlts(canon, md, cc, alts[..1]) == EmitSeq(canon, md, cc, alts[0].terms)
  {
    hide ValidSeq, SmallClassesSeq, NumCapsSeq, EmitSeq;
    var y := alts[..1];
    assert y[..|y| - 1] == [];
    AltsPrefix(alts, 1);
  }

  lemma AltsStep(canon: int -> int, md: Mode, cc: nat, alts: seq<Alt>, i: nat)
    requires 1 <= i < |alts| && ValidAlts(alts)
    ensures ValidSeq(alts[i].terms)
    ensures SmallClassesAlts(alts[..i + 1]) <==> SmallClassesAlts(alts[..i]) && SmallClassesSeq(alts[i].terms)
    ensures NumCapsAlts(alts[..i + 1]) == NumCapsAlts(alts[..i]) + NumCapsSeq(alts[i].terms) <= NumCapsAlts(alts)
    ensures SmallClassesAlts(alts) ==> SmallClassesAlts(alts[..i + 1])
    ensures EmitAlts(canon, md, cc, alts[..i + 1]) ==
            AltCode(EmitAlts(canon, md, cc, alts[..i]), EmitSeq(canon, md, cc + NumCapsAlts(alts[..i]), alts[i].terms))
  {
    hide ValidSeq, SmallClassesSeq, NumCapsSeq, EmitSeq, AltCode;
    var y := alts[..i + 1];
    assert y[..|y| - 1] == alts[..i];
    AltsPrefix(alts, i + 1);
  }

  lemma {:induction false} AltsPrefix(alts: seq<Alt>, i: nat)
    requires 1 <= i <= |alts|
    ensures ValidAlts(alts) ==> ValidAlts(alts[..i])
    ensures SmallClassesAlts(alts) ==> SmallClassesAlts(alts[..i])
    ensures NumCapsAlts(alts[..i]) <= NumCapsAlts(alts)
    decreases |alts|
  {
    hide ValidSeq, SmallClassesSeq, NumCapsSeq;
    if i == |alts| {
      assert alts[..i] == alts;
    } else {
      AltsPrefix(alts[..|alts| - 1], i);
      assert alts[..|alts| - 1][..i] == alts[..i];
    }
  }

  /** An optional single-byte instruction. */
  function Opt(present: bool, op: byte): seq<byte> {
    if present then [op] else []
  }

  lemma Regroup(pre: seq<byte>, split: seq<byte>, push: seq<byte>, atom: seq<byte>, check: seq<byte>)
    ensures pre + (split + push + atom) + check == pre + (split + (push + atom + check))
  {
  }

  lemma Behind(pre: seq<byte>, x: seq<byte>, y: seq<byte>)
    ensures pre + x + y == pre + (x + y)
  {
  }

  lemma Middle(x: seq<byte>, y: seq<byte>, z: seq<byte>)
    ensures (x + y + z)[|x|..|x| + |y|] == y
  {
  }

  lemma OnceMin(atom: seq<Instr>)
    ensures MinCode(atom, 1) == atom
  {
  }

  lemma NoBytes()
    ensures EncodeAll([]) == []
  {
  }

  lemma CheckedBytes(atom: seq<Instr>, check: bool)
    ensures EncodeAll(CheckedAtom(atom, check))
         == Opt(check, REOP_PUSH_CHAR_POS) + EncodeAll(atom) + Opt(check, REOP_CHECK_ADVANCE)
  {
    hide EncodeAll;
    if check {
      Joined([PushCharPos], atom, [CheckAdvance]);
      EncodeOne(PushCharPos);
      EncodeOne(CheckAdvance);
      assert Encode(PushCharPos) == [REOP_PUSH_CHAR_POS] && Encode(CheckAdvance) == [REOP_CHECK_ADVANCE];
    }
  }

  lemma SimpleBytes(atom: seq<Instr>, min: int, max: int)
    ensures EncodeAll(SimpleQuantCode(atom, min, max)) ==
            [REOP_SIMPLE_GREEDY_QUANT] + PutU32(SizeAll(atom) + 1) + PutU32(min) + PutU32(max)
            + PutU32(SimpleCount(atom))
            + (EncodeAll(atom) + [REOP_MATCH])
  {
    hide EncodeAll, SizeAll, SimpleCount, PutU32;
    var i := SimpleGreedyQuant(SizeAll(atom) + 1, min, max, SimpleCount(atom));
    Joined([i], atom, [Match]);
    EncodeOne(i);
    EncodeOne(Match);
    assert Encode(Match) == [REOP_MATCH];
    assert Encode(i) == [REOP_SIMPLE_GREEDY_QUANT]
      + (PutU32(SizeAll(atom) + 1) + PutU32(min) + PutU32(max) + PutU32(SimpleCount(atom)));
  }

  lemma WordBytes(i: Instr)
    requires i.Goto? || i.Split? || i.Loop? || i.PushI32?
    ensures EncodeAll([i]) == [Opcode(i)] + PutU32(WordOperand(i))
  {
    hide EncodeAll, PutU32;
    EncodeOne(i);
  }

  lemma StarBytes(atom: seq<Instr>, check: bool, greedy: bool)
    ensures var len := SizeAll(atom) + 2 * Bit(check);
            EncodeAll(StarCode(atom, check, greedy)) ==
            [REOP_SPLIT_GOTO_FIRST + Bit(greedy)] + PutU32(len + 5)
            + (Opt(check, REOP_PUSH_CHAR_POS) + EncodeAll(atom) + Opt(check, REOP_CHECK_ADVANCE))
            + ([REOP_GOTO] + PutU32(-(len + 10)))
  {
    hide EncodeAll, SizeAll, PutU32, CheckedAtom;
    var len := SizeAll(atom) + 2 * Bit(check);
    CheckedBytes(atom, check);
    Joined([Split(!greedy, len + 5)], CheckedAtom(atom, check), [Goto(-(len + 10))]);
    WordBytes(Split(!greedy, len + 5));
    WordBytes(Goto(-(len + 10)));
  }

  lemma OnceBytes(atom: seq<Instr>, check: bool, greedy: bool)
    ensures EncodeAll(OptionalCode(atom, check, 1, greedy)) ==
            [REOP_SPLIT_GOTO_FIRST + Bit(greedy)] + PutU32(SizeAll(atom) + 2 * Bit(check))
            + (Opt(check, REOP_PUSH_CHAR_POS) + EncodeAll(atom) + Opt(check, REOP_CHECK_ADVANCE))
  {
    hide EncodeAll, SizeAll, PutU32, CheckedAtom;
    var split := Split(!greedy, SizeAll(atom) + 2 * Bit(check));
    CheckedBytes(atom, check);
    EncodeAllAppend([split], CheckedAtom(atom, check));
    WordBytes(split);
  }

  lemma CountedBytes(atom: seq<Instr>, check: bool, n: int, greedy: bool)
    ensures var len := SizeAll(atom) + 2 * Bit(check);
            EncodeAll(CountedCode(atom, check, n, greedy)) ==
            [REOP_PUSH_I32] + PutU32(n) + ([REOP_SPLIT_GOTO_FIRST + Bit(greedy)] + PutU32(len + 5))
            + (Opt(check, REOP_PUSH_CHAR_POS) + EncodeAll(atom) + Opt(check, REOP_CHECK_ADVANCE))
            + ([REOP_LOOP] + PutU32(-(len + 10)) + [REOP_DROP])
  {
    hide EncodeAll, SizeAll, PutU32, CheckedAtom;
    var len := SizeAll(atom) + 2 * Bit(check);
    var push, split, loop := PushI32(n), Split(!greedy, len + 5), Loop(-(len + 10));
    CheckedBytes(atom, check);
    Joined([push, split], CheckedAtom(atom, check), [loop, Drop]);
    PairBytes(push, split);
    PairBytes(loop, Drop);
    WordBytes(push);
    WordBytes(split);
    WordBytes(loop);
    EncodeOne(Drop);
    assert Encode(Drop) == [REOP_DROP];
  }

  lemma PairBytes(i: Instr, j: Instr)
    ensures EncodeAll([i, j]) == EncodeAll([i]) + EncodeAll([j])
  {
    hide EncodeAll;
    assert [i, j] == [i] + [j];
    EncodeAllAppend([i], [j]);
  }

  lemma MinBytes(atom: seq<Instr>, min: int)
    requires min != 1
    ensures EncodeAll(MinCode(atom, min)) ==
            [REOP_PUSH_I32] + PutU32(min) + EncodeAll(atom) + ([REOP_LOOP] + PutU32(-(SizeAll(atom) + 5)) + [REOP_DROP])
  {
    hide EncodeAll, SizeAll, PutU32;
    var push, loop := PushI32(min), Loop(-(SizeAll(atom) + 5));
    Joined([push], atom, [loop, Drop]);
    PairBytes(loop, Drop);
    WordBytes(push);
    WordBytes(loop);
    EncodeOne(Drop);
    assert Encode(Drop) == [REOP_DROP];
  }

  lemma PlusBytes(atom: seq<Instr>, greedy: bool)
    ensures EncodeAll(atom + [Split(greedy, -(SizeAll(atom) + 5))]) ==
            EncodeAll(atom) + ([REOP_SPLIT_NEXT_FIRST - Bit(greedy)] + PutU32(-(SizeAll(atom) + 5)))
  {
    hide EncodeAll, SizeAll, PutU32;
    EncodeAllAppend(atom, [Split(greedy, -(SizeAll(atom) + 5))]);
    WordBytes(Split(greedy, -(SizeAll(atom) + 5)));
  }

  lemma ResetBytes(first: nat, last: int)
    requires last >= 0
    ensures EncodeAll([SaveReset(first, last)]) == [REOP_SAVE_RESET, first % 256, last % 256]
  {
    hide EncodeAll;
    EncodeOne(SaveReset(first, last));
  }

  lemma NoBounds(wide: bool, bounds: seq<int>)
    ensures EncodeBounds(wide, bounds[..0]) == []
  {
  }

  lemma TwoBounds(wide: bool, bounds: seq<int>, i: nat)
    requires i + 2 <= |bounds|
    ensures EncodeBounds(wide, bounds[..i + 2])
         == EncodeBounds(wide, bounds[..i]) + (PutBound(wide, bounds[i]) + PutBound(wide, bounds[i + 1]))
  {
    hide PutBound;
    assert bounds[..i + 2][..i + 1] == bounds[..i + 1];
    assert bounds[..i + 1][..i] == bounds[..i];
  }

  lemma NoClassBytes(icase: bool)
    ensures [REOP_CHAR32] + PutU32(-1) == Encode(ClassInstr(icase, []))
  {
  }

  lemma ClassBytes(icase: bool, points: seq<int>)
    requires |points| >= 2
    ensures var wide := HighBound(points) > 0xffff;
            Encode(ClassInstr(icase, points)) ==
            [(if wide then REOP_RANGE32 else REOP_RANGE) + Bit(icase)] + PutU16(|points| / 2)
            + EncodeBounds(wide, ClosedBounds(wide, points))
  {
    hide PutU16, EncodeBounds, HighBound;
  }

  lemma AroundBytes(back: bool, i: Instr)
    ensures EncodeAll(Around(back, i))
            == (if back then [REOP_PREV] else []) + Encode(i) + (if back then [REOP_PREV] else [])
  {
    hide EncodeAll;
    EncodeOne(i);
    if back {
      EncodeOne(Prev);
      assert Encode(Prev) == [REOP_PREV];
      assert Around(true, i) == [Prev] + [i] + [Prev];
      Joined([Prev], [i], [Prev]);
    } else {
      assert [] + Encode(i) + [] == Encode(i);
    }
  }
}
