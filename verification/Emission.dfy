/** The code that the one-pass compiler leaves behind for each construct, as a list of
    instructions. The class in Compiler.dfy is proved to produce exactly these bytes. */
module Emission {
  import opened Bytes
  import opened Opcodes
  import opened Syntax

  /** The encoded form of a list of instructions. */
  function EncodeAll(ins: seq<Instr>): (r: seq<byte>)
    ensures |r| == SizeAll(ins)
  {
    if ins == [] then [] else EncodeAll(ins[..|ins| - 1]) + Encode(ins[|ins| - 1])
  }

  function SizeAll(ins: seq<Instr>): nat {
    if ins == [] then 0 else SizeAll(ins[..|ins| - 1]) + Size(ins[|ins| - 1])
  }

  lemma {:induction false} EncodeAllAppend(x: seq<Instr>, y: seq<Instr>)
    ensures EncodeAll(x + y) == EncodeAll(x) + EncodeAll(y)
    ensures SizeAll(x + y) == SizeAll(x) + SizeAll(y)
  {
    hide Encode, Size;
    if y == [] {
      assert x + y == x;
    } else {
      var z := x + y;
      assert z[..|z| - 1] == x + y[..|y| - 1];
      EncodeAllAppend(x, y[..|y| - 1]);
      assert EncodeAll(z) == EncodeAll(x) + (EncodeAll(y[..|y| - 1]) + Encode(y[|y| - 1]));
    }
  }

  lemma EncodeOne(i: Instr)
    ensures EncodeAll([i]) == Encode(i) && SizeAll([i]) == Size(i)
  {
    assert [i][..0] == [];
    assert EncodeAll([]) + Encode(i) == Encode(i);
  }

  /** What a scan of an atom's code can conclude (re_is_simple_quantifier): the number of
      characters the code reads when all of it is characters and assertions, or -1. */
  function SimpleCount(ins: seq<Instr>): (r: int)
    ensures r >= -1
  {
    if ins == [] then 0
    else
      var n := SimpleCount(ins[..|ins| - 1]);
      var i := ins[|ins| - 1];
      if n < 0 || !(ReadsChar(i) || IsAssertion(i)) then -1
      else if ReadsChar(i) then n + 1 else n
  }

  /** The instructions whose effect re_need_check_advance can predict. */
  predicate Predictable(i: Instr) {
    || ReadsChar(i) || IsAssertion(i) || i.PushI32? || i.PushCharPos? || i.Drop?
    || i.Prev? || i.Save? || i.SaveReset? || i.BackRef?
  }

  /** re_need_check_advance: false when the code certainly moves the position. */
  predicate NeedCheck(ins: seq<Instr>) {
    !(AllPredictable(ins) && SomeRead(ins))
  }

  predicate AllPredictable(ins: seq<Instr>) {
    forall k :: 0 <= k < |ins| ==> Predictable(ins[k])
  }

  predicate SomeRead(ins: seq<Instr>) {
    exists k :: 0 <= k < |ins| && ReadsChar(ins[k])
  }

  function CharInstr(icase: bool, c: int): Instr {
    Instr.Char(c > 0xffff, icase, c)
  }

  /** The short form is taken for every character that fits it. */
  lemma CharSize(icase: bool, c: nat)
    ensures Size(CharInstr(icase, c)) == if c < 0x10000 then 3 else 5
  {
  }

  function HighBound(points: seq<int>): int
    requires |points| >= 2
  {
    if points[|points| - 1] == TWO32 - 1 then points[|points| - 2] else points[|points| - 1]
  }

  function ClosedBounds(wide: bool, points: seq<int>): (r: seq<int>)
    ensures |r| == |points| / 2 * 2
  {
    seq(|points| / 2 * 2, i requires 0 <= i < |points| / 2 * 2 =>
      if i % 2 == 0 then points[i]
      else if !wide && points[i] == TWO32 - 1 then 0xffff
      else points[i] - 1)
  }

  /** re_emit_range: 16-bit bounds when they suffice, with 0xffff for infinity. */
  function ClassInstr(icase: bool, points: seq<int>): Instr {
    if |points| < 2 then Instr.Char(true, false, TWO32 - 1)
    else
      var wide := HighBound(points) > 0xffff;
      Instr.Range(wide, icase, ClosedBounds(wide, points))
  }

  /** In lookbehind a single-character test is wrapped between two steps back. */
  function Around(back: bool, i: Instr): seq<Instr> {
    if back then [Instr.Prev, i, Instr.Prev] else [i]
  }

  function EmitTerm(canon: int -> int, md: Mode, cc: nat, t: Term): seq<Instr>
    decreases t, 1
  {
    match t
    case Char(c) => Around(md.back, CharInstr(md.flags.icase, if md.flags.icase then canon(c) else c))
    case Dot => Around(md.back, if md.flags.dotall then Instr.Any else Instr.Dot)
    case Class(points) => Around(md.back, ClassInstr(md.flags.icase, points))
    case LineStart => [Instr.LineStart(md.flags.multi)]
    case LineEnd => [Instr.LineEnd(md.flags.multi)]
    case WordBoundary(neg) => [Instr.WordBoundary(neg, md.flags.icase)]
    case BackRef(n) => [Instr.BackRef(md.back, md.flags.icase, n)]
    case Group(alts) => EmitAlts(canon, md, cc, alts)
    case Modified(add, remove, alts) => EmitAlts(canon, md.(flags := Update(md.flags, add, remove)), cc, alts)
    case Capture(alts) => [Save(md.back, cc)] + EmitAlts(canon, md, cc + 1, alts) + [Save(!md.back, cc)]
    case Look(behind, neg, alts) => LookCode(neg, EmitAlts(canon, md.(back := behind), cc, alts))
    case Quant(atom, min, max, greedy) =>
      EmitQuant(EmitTerm(canon, md, cc, atom), cc, NumCaps(atom), min, max, greedy)
  }

  /** Terms stand in order, or in reverse order for lookbehind. */
  function EmitSeq(canon: int -> int, md: Mode, cc: nat, ts: seq<Term>): seq<Instr>
    decreases ts, 0
  {
    if ts == [] then []
    else
      var init := ts[..|ts| - 1];
      var last := EmitTerm(canon, md, cc + NumCapsSeq(init), ts[|ts| - 1]);
      if md.back then last + EmitSeq(canon, md, cc, init) else EmitSeq(canon, md, cc, init) + last
  }

  function EmitAlts(canon: int -> int, md: Mode, cc: nat, alts: seq<Alt>): seq<Instr>
    decreases alts, 0
  {
    if alts == [] then []
    else
      var init := alts[..|alts| - 1];
      var last := EmitSeq(canon, md, cc + NumCapsAlts(init), alts[|alts| - 1].terms);
      if init == [] then last else AltCode(EmitAlts(canon, md, cc, init), last)
  }

  function AltCode(left: seq<Instr>, right: seq<Instr>): seq<Instr> {
    [Split(false, SizeAll(left) + 5)] + left + [Goto(SizeAll(right))] + right
  }

  function LookCode(neg: bool, body: seq<Instr>): seq<Instr> {
    [Lookahead(neg, SizeAll(body) + 1)] + body + [Match]
  }

  /** The quantifier half of re_parse_term, applied to the code of the atom. `first` and `ncaps`
      give the captures opened inside the atom. */
  function EmitQuant(atom: seq<Instr>, first: nat, ncaps: nat, min: int, max: int, greedy: bool): seq<Instr> {
    if greedy && max > 0 && SimpleCount(atom) > 0 then SimpleQuantCode(atom, min, max)
    else
      var check := NeedCheck(atom);
      if min == 0 then ResetCode(first, ncaps) + OptionalCode(atom, check, max, greedy)
      else if min == 1 && max == INT32_MAX && !check then atom + [Split(greedy, -(SizeAll(atom) + 5))]
      else MinCode(atom, min) + RestCode(atom, check, min, max, greedy)
  }

  function SimpleQuantCode(atom: seq<Instr>, min: int, max: int): seq<Instr> {
    [SimpleGreedyQuant(SizeAll(atom) + 1, min, max, SimpleCount(atom))] + atom + [Match]
  }

  function ResetCode(first: nat, ncaps: nat): seq<Instr> {
    if ncaps == 0 then [] else [SaveReset(first, first + ncaps - 1)]
  }

  function CheckedAtom(atom: seq<Instr>, check: bool): seq<Instr> {
    if check then [PushCharPos] + atom + [CheckAdvance] else atom
  }

  function OptionalCode(atom: seq<Instr>, check: bool, max: int, greedy: bool): seq<Instr> {
    if max == 0 then []
    else if max == 1 then [Split(!greedy, SizeAll(atom) + 2 * Bit(check))] + CheckedAtom(atom, check)
    else if max == INT32_MAX then StarCode(atom, check, greedy)
    else CountedCode(atom, check, max, greedy)
  }

  function StarCode(atom: seq<Instr>, check: bool, greedy: bool): seq<Instr> {
    var len := SizeAll(atom) + 2 * Bit(check);
    [Split(!greedy, len + 5)] + CheckedAtom(atom, check) + [Goto(-(len + 10))]
  }

  function CountedCode(atom: seq<Instr>, check: bool, n: int, greedy: bool): seq<Instr> {
    var len := SizeAll(atom) + 2 * Bit(check);
    [PushI32(n), Split(!greedy, len + 5)] + CheckedAtom(atom, check) + [Loop(-(len + 10)), Drop]
  }

  function MinCode(atom: seq<Instr>, min: int): seq<Instr> {
    if min == 1 then atom else [PushI32(min)] + atom + [Loop(-(SizeAll(atom) + 5)), Drop]
  }

  function RestCode(atom: seq<Instr>, check: bool, min: int, max: int, greedy: bool): seq<Instr> {
    if max == INT32_MAX then StarCode(atom, check, greedy)
    else if max > min then CountedCode(atom, check, max - min, greedy)
    else []
  }

  /** A quantifier leaves the atom's code as it is, or drops it, or adds an instruction whose
      effect cannot be predicted. */
  lemma QuantShape(atom: seq<Instr>, first: nat, ncaps: nat, min: int, max: int, greedy: bool)
    requires 0 <= min <= max
    ensures var c := EmitQuant(atom, first, ncaps, min, max, greedy);
            || (min == 1 && max == 1 && c == atom)
            || (max == 0 && c == ResetCode(first, ncaps))
            || !AllPredictable(c)
  {
    hide SimpleCount, NeedCheck, SizeAll;
    var c := EmitQuant(atom, first, ncaps, min, max, greedy);
    var check := NeedCheck(atom);
    if greedy && max > 0 && SimpleCount(atom) > 0 {
      assert c[0].SimpleGreedyQuant?;
    } else if min == 0 {
      var n := |ResetCode(first, ncaps)|;
      if max == 1 || max == INT32_MAX {
        assert c[n].Split?;
      } else if max > 0 {
        assert c[n + 1].Split?;
      }
    } else if min == 1 && max == INT32_MAX && !check {
      assert c[|atom|].Split?;
    } else if min > 1 {
      assert c[1 + |atom|].Loop?;
    } else if max == INT32_MAX {
      assert c[|atom|].Split?;
    } else if max > 1 {
      assert c[|atom| + 1].Split?;
    }
  }
}
