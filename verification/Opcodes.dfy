/** The instruction set of the matcher: opcode numbers and sizes follow the order of
    libregexp-opcode.h, operands the layout read by the interpreter loop. */
module Opcodes {
  import opened Options
  import opened Bytes

  const REOP_CHAR: byte := 1
  const REOP_CHAR32: byte := 3
  const REOP_DOT: byte := 5
  const REOP_ANY: byte := 6
  const REOP_LINE_START: byte := 7
  const REOP_LINE_END: byte := 9
  const REOP_GOTO: byte := 11
  const REOP_SPLIT_GOTO_FIRST: byte := 12
  const REOP_SPLIT_NEXT_FIRST: byte := 13
  const REOP_MATCH: byte := 14
  const REOP_SAVE_START: byte := 15
  const REOP_SAVE_END: byte := 16
  const REOP_SAVE_RESET: byte := 17
  const REOP_LOOP: byte := 18
  const REOP_PUSH_I32: byte := 19
  const REOP_DROP: byte := 20
  const REOP_WORD_BOUNDARY: byte := 21
  const REOP_NOT_WORD_BOUNDARY: byte := 23
  const REOP_BACK_REFERENCE: byte := 25
  const REOP_RANGE: byte := 29
  const REOP_RANGE32: byte := 31
  const REOP_LOOKAHEAD: byte := 33
  const REOP_NEGATIVE_LOOKAHEAD: byte := 34
  const REOP_PUSH_CHAR_POS: byte := 35
  const REOP_CHECK_ADVANCE: byte := 36
  const REOP_PREV: byte := 37
  const REOP_SIMPLE_GREEDY_QUANT: byte := 38

  /** A decoded instruction. Displacements are relative to the end of their own 32-bit field,
      except for SimpleGreedyQuant, whose `next` counts from the end of the instruction. */
  datatype Instr =
    | Char(wide: bool, icase: bool, c: int)
    | Dot
    | Any
    | LineStart(multi: bool)
    | LineEnd(multi: bool)
    | Goto(off: int)
    | Split(gotoFirst: bool, off: int)
    | Match
    | Save(end: bool, n: int)
    | SaveReset(first: int, last: int)
    | Loop(off: int)
    | PushI32(v: int)
    | Drop
    | WordBoundary(neg: bool, icase: bool)
    | BackRef(backward: bool, icase: bool, n: int)
    | Range(wide: bool, icase: bool, bounds: seq<int>)
    | Lookahead(neg: bool, off: int)
    | PushCharPos
    | CheckAdvance
    | Prev
    | SimpleGreedyQuant(next: int, min: int, max: int, count: int)

  predicate ReadsChar(i: Instr) {
    i.Char? || i.Dot? || i.Any? || i.Range?
  }

  predicate IsAssertion(i: Instr) {
    i.LineStart? || i.LineEnd? || i.WordBoundary?
  }

  function Bit(b: bool): (r: int)
    ensures 0 <= r <= 1
  {
    if b then 1 else 0
  }

  function Size(i: Instr): (r: nat)
    ensures 0 < r
  {
    match i
    case Char(wide, _, _) => if wide then 5 else 3
    case Goto(_) => 5
    case Split(_, _) => 5
    case Save(_, _) => 2
    case SaveReset(_, _) => 3
    case Loop(_) => 5
    case PushI32(_) => 5
    case BackRef(_, _, _) => 2
    case Range(wide, _, bounds) => 3 + (if wide then 4 * |bounds| else 2 * |bounds|)
    case Lookahead(_, _) => 5
    case SimpleGreedyQuant(_, _, _, _) => 17
    case _ => 1
  }

  function EncodeBounds(wide: bool, bounds: seq<int>): (r: seq<byte>)
    ensures |r| == if wide then 4 * |bounds| else 2 * |bounds|
  {
    if bounds == [] then []
    else
      EncodeBounds(wide, bounds[..|bounds| - 1]) + PutBound(wide, bounds[|bounds| - 1])
  }

  function Encode(i: Instr): (r: seq<byte>)
    ensures |r| == Size(i)
    ensures r[0] == Opcode(i)
  {
    [Opcode(i)] +
    match i
    case Char(wide, _, c) => if wide then PutU32(c) else PutU16(c)
    case Goto(off) => PutU32(off)
    case Split(_, off) => PutU32(off)
    case Save(_, n) => [n % 256]
    case SaveReset(first, last) => [first % 256, last % 256]
    case Loop(off) => PutU32(off)
    case PushI32(v) => PutU32(v)
    case BackRef(_, _, n) => [n % 256]
    case Range(wide, _, bounds) => PutU16(|bounds| / 2) + EncodeBounds(wide, bounds)
    case Lookahead(_, off) => PutU32(off)
    case SimpleGreedyQuant(next, min, max, count) => PutU32(next) + PutU32(min) + PutU32(max) + PutU32(count)
    case _ => []
  }

  function Opcode(i: Instr): byte {
    match i
    case Char(wide, icase, _) => (if wide then REOP_CHAR32 else REOP_CHAR) + Bit(icase)
    case Dot => REOP_DOT
    case Any => REOP_ANY
    case LineStart(multi) => REOP_LINE_START + Bit(multi)
    case LineEnd(multi) => REOP_LINE_END + Bit(multi)
    case Goto(_) => REOP_GOTO
    case Split(gotoFirst, _) => if gotoFirst then REOP_SPLIT_GOTO_FIRST else REOP_SPLIT_NEXT_FIRST
    case Match => REOP_MATCH
    case Save(end, _) => REOP_SAVE_START + Bit(end)
    case SaveReset(_, _) => REOP_SAVE_RESET
    case Loop(_) => REOP_LOOP
    case PushI32(_) => REOP_PUSH_I32
    case Drop => REOP_DROP
    case WordBoundary(neg, icase) => (if neg then REOP_NOT_WORD_BOUNDARY else REOP_WORD_BOUNDARY) + Bit(icase)
    case BackRef(backward, icase, _) => REOP_BACK_REFERENCE + 2 * Bit(backward) + Bit(icase)
    case Range(wide, icase, _) => (if wide then REOP_RANGE32 else REOP_RANGE) + Bit(icase)
    case Lookahead(neg, _) => REOP_LOOKAHEAD + Bit(neg)
    case PushCharPos => REOP_PUSH_CHAR_POS
    case CheckAdvance => REOP_CHECK_ADVANCE
    case Prev => REOP_PREV
    case SimpleGreedyQuant(_, _, _, _) => REOP_SIMPLE_GREEDY_QUANT
  }

  function DecodeBounds(code: seq<byte>, p: nat, wide: bool, n: nat): (r: seq<int>)
    requires p + (if wide then 4 * n else 2 * n) <= |code|
    ensures |r| == n
  {
    if n == 0 then []
    else
      DecodeBounds(code, p, wide, n - 1) + [GetBound(code, p, wide, n - 1)]
  }

  /** The size of an instruction without the bounds that follow a range, or 0 for a byte that
      is no opcode the compiler emits. */
  function FixedSize(op: byte): nat {
    if op == 0 || op > REOP_SIMPLE_GREEDY_QUANT then 0
    else if op < REOP_CHAR32 then 3
    else if op < REOP_DOT then 5
    else if op < REOP_GOTO then 1
    else if op < REOP_MATCH then 5
    else if op == REOP_MATCH then 1
    else if op < REOP_SAVE_RESET then 2
    else if op == REOP_SAVE_RESET then 3
    else if op < REOP_DROP then 5
    else if op < REOP_BACK_REFERENCE then 1
    else if op < REOP_RANGE then 2
    else if op < REOP_LOOKAHEAD then 3
    else if op < REOP_PUSH_CHAR_POS then 5
    else if op < REOP_SIMPLE_GREEDY_QUANT then 1
    else 17
  }

  /** What the interpreter reads at `pc`; None when no complete instruction stands there. */
  function Decode(code: seq<byte>, pc: nat): (r: Option<Instr>)
    ensures r.Some? ==> pc < |code|
  {
    if pc >= |code| then None
    else
      var op := code[pc];
      var size := FixedSize(op);
      if size == 0 || pc + size > |code| then None
      else if size == 1 then Some(DecodeShort(op))
      else if size == 5 then Some(DecodeWord(op, GetU32(code, pc + 1)))
      else if op == REOP_CHAR || op == REOP_CHAR + 1 then
        Some(Char(false, op == REOP_CHAR + 1, GetU16(code, pc + 1)))
      else if op == REOP_SAVE_START || op == REOP_SAVE_END then
        Some(Save(op == REOP_SAVE_END, code[pc + 1]))
      else if op == REOP_SAVE_RESET then Some(SaveReset(code[pc + 1], code[pc + 2]))
      else if op < REOP_RANGE then
        Some(BackRef(op >= REOP_BACK_REFERENCE + 2, (op - REOP_BACK_REFERENCE) % 2 == 1, code[pc + 1]))
      else if op < REOP_LOOKAHEAD then DecodeRange(code, pc, op)
      else Some(SimpleGreedyQuant(Signed(GetU32(code, pc + 1)), GetU32(code, pc + 5),
                                  GetU32(code, pc + 9), GetU32(code, pc + 13)))
  }

  function DecodeShort(op: byte): Instr {
    if op == REOP_DOT then Dot
    else if op == REOP_ANY then Any
    else if op == REOP_LINE_START || op == REOP_LINE_START + 1 then LineStart(op == REOP_LINE_START + 1)
    else if op == REOP_LINE_END || op == REOP_LINE_END + 1 then LineEnd(op == REOP_LINE_END + 1)
    else if op == REOP_MATCH then Match
    else if op == REOP_DROP then Drop
    else if op == REOP_PUSH_CHAR_POS then PushCharPos
    else if op == REOP_CHECK_ADVANCE then CheckAdvance
    else if op == REOP_PREV then Prev
    else WordBoundary(op >= REOP_NOT_WORD_BOUNDARY, (op - REOP_WORD_BOUNDARY) % 2 == 1)
  }

  function DecodeWord(op: byte, val: int): Instr {
    if op == REOP_CHAR32 || op == REOP_CHAR32 + 1 then Char(true, op == REOP_CHAR32 + 1, val)
    else if op == REOP_GOTO then Goto(Signed(val))
    else if op == REOP_SPLIT_GOTO_FIRST || op == REOP_SPLIT_NEXT_FIRST then
      Split(op == REOP_SPLIT_GOTO_FIRST, Signed(val))
    else if op == REOP_LOOP then Loop(Signed(val))
    else if op == REOP_PUSH_I32 then PushI32(val)
    else Lookahead(op == REOP_NEGATIVE_LOOKAHEAD, Signed(val))
  }

  function DecodeRange(code: seq<byte>, pc: nat, op: byte): Option<Instr>
    requires pc + 3 <= |code|
  {
    var wide := op >= REOP_RANGE32;
    var n := 2 * GetU16(code, pc + 1);
    if pc + 3 + (if wide then 4 * n else 2 * n) > |code| then None
    else Some(Range(wide, (op - REOP_RANGE) % 2 == 1, DecodeBounds(code, pc + 3, wide, n)))
  }

  function Lo(bounds: seq<int>, k: nat): int
    requires 2 * k + 1 < |bounds|
  {
    bounds[2 * k]
  }

  function Hi(bounds: seq<int>, k: nat): int
    requires 2 * k + 1 < |bounds|
  {
    bounds[2 * k + 1]
  }

  /** Closed ranges in increasing order, none overlapping the next. */
  ghost predicate SortedBounds(bounds: seq<int>) {
    && |bounds| >= 2
    && (forall k :: 0 <= k < |bounds| / 2 ==> Lo(bounds, k) <= Hi(bounds, k))
    && (forall j, k :: 0 <= j < k < |bounds| / 2 ==> Hi(bounds, j) < Lo(bounds, k))
  }

  /** The operands fit the fields that hold them. */
  ghost predicate Fits(i: Instr) {
    match i
    case Char(wide, _, c) => 0 <= c < (if wide then TWO32 else 0x10000)
    case Goto(off) => -INT32_MAX <= off <= INT32_MAX
    case Split(_, off) => -INT32_MAX <= off <= INT32_MAX
    case Save(_, n) => 0 <= n < 256
    case SaveReset(first, last) => 0 <= first < 256 && 0 <= last < 256
    case Loop(off) => -INT32_MAX <= off <= INT32_MAX
    case PushI32(v) => 0 <= v < TWO32
    case BackRef(_, _, n) => 0 <= n < 256
    case Range(wide, _, bounds) =>
      && |bounds| % 2 == 0 && |bounds| / 2 < 0x10000
      && (forall k :: 0 <= k < |bounds| ==> 0 <= bounds[k] < (if wide then TWO32 else 0x10000))
      && SortedBounds(bounds)
    case Lookahead(_, off) => -INT32_MAX <= off <= INT32_MAX
    case SimpleGreedyQuant(next, min, max, count) =>
      && -INT32_MAX <= next <= INT32_MAX
      && 0 <= min <= INT32_MAX && 0 <= max <= INT32_MAX && 0 <= count < TWO32
    case _ => true
  }

  function PutBound(wide: bool, v: int): (r: seq<byte>)
    ensures |r| == if wide then 4 else 2
  {
    if wide then PutU32(v) else PutU16(v)
  }

  function GetBound(code: seq<byte>, p: nat, wide: bool, k: nat): int
    requires p + (if wide then 4 * k + 4 else 2 * k + 2) <= |code|
  {
    if wide then GetU32(code, p + 4 * k) else GetU16(code, p + 2 * k)
  }

  lemma GetPutBound(code: seq<byte>, p: nat, wide: bool, k: nat, v: int)
    requires Has(code, p + (if wide then 4 * k else 2 * k), PutBound(wide, v))
    requires 0 <= v < (if wide then TWO32 else 0x10000)
    ensures p + (if wide then 4 * k + 4 else 2 * k + 2) <= |code| && GetBound(code, p, wide, k) == v
  {
    hide PutU16, PutU32, GetU16, GetU32;
    if wide {
      GetPutU32(code, p + 4 * k, v);
    } else {
      GetPutU16(code, p + 2 * k, v);
    }
  }

  lemma {:induction false} DecodeEncodeBounds(code: seq<byte>, p: nat, wide: bool, bounds: seq<int>)
    requires Has(code, p, EncodeBounds(wide, bounds))
    requires forall k :: 0 <= k < |bounds| ==> 0 <= bounds[k] < (if wide then TWO32 else 0x10000)
    ensures DecodeBounds(code, p, wide, |bounds|) == bounds
  {
    hide PutBound, GetBound, Has;
    if bounds != [] {
      var n := |bounds| - 1;
      HasSplit(code, p, EncodeBounds(wide, bounds[..n]), PutBound(wide, bounds[n]));
      DecodeEncodeBounds(code, p, wide, bounds[..n]);
      GetPutBound(code, p, wide, n, bounds[n]);
    }
  }

  lemma DecodeEncodeRange(code: seq<byte>, pc: nat, i: Instr)
    requires i.Range? && Fits(i) && Has(code, pc, Encode(i))
    ensures pc + 3 <= |code| && DecodeRange(code, pc, Opcode(i)) == Some(i)
  {
    hide PutU16, PutU32, GetU16, GetU32, EncodeBounds, DecodeBounds;
    var n := |i.bounds| / 2;
    var head, tail := [Opcode(i)], EncodeBounds(i.wide, i.bounds);
    assert Encode(i) == head + (PutU16(n) + tail);
    HasSplit(code, pc, head, PutU16(n) + tail);
    HasSplit(code, pc + 1, PutU16(n), tail);
    GetPutU16(code, pc + 1, n);
    DecodeEncodeBounds(code, pc + 3, i.wide, i.bounds);
  }

  lemma DecodeEncodeQuant(code: seq<byte>, pc: nat, i: Instr)
    requires i.SimpleGreedyQuant? && Fits(i) && Has(code, pc, Encode(i))
    ensures Decode(code, pc) == Some(i)
  {
    hide PutU32, GetU32;
    HasAt(code, pc, Encode(i), 0);
    var rest := PutU32(i.next) + PutU32(i.min) + PutU32(i.max) + PutU32(i.count);
    assert Encode(i) == [Opcode(i)] + rest;
    HasSplit(code, pc, [Opcode(i)], rest);
    HasSplit(code, pc + 1, PutU32(i.next) + PutU32(i.min) + PutU32(i.max), PutU32(i.count));
    HasSplit(code, pc + 1, PutU32(i.next) + PutU32(i.min), PutU32(i.max));
    HasSplit(code, pc + 1, PutU32(i.next), PutU32(i.min));
    GetPutU32(code, pc + 1, i.next);
    GetPutU32(code, pc + 5, i.min);
    GetPutU32(code, pc + 9, i.max);
    GetPutU32(code, pc + 13, i.count);
  }

  /** The 32-bit operand of a five-byte instruction. */
  function WordOperand(i: Instr): int {
    match i
    case Char(_, _, c) => c
    case PushI32(v) => v
    case Goto(off) => off
    case Split(_, off) => off
    case Loop(off) => off
    case Lookahead(_, off) => off
    case _ => 0
  }

  lemma DecodeEncodeWord(code: seq<byte>, pc: nat, i: Instr)
    requires Size(i) == 5 && !i.Range? && Fits(i) && Has(code, pc, Encode(i))
    ensures Decode(code, pc) == Some(i)
  {
    hide PutU16, PutU32, GetU16, GetU32, EncodeBounds, DecodeRange;
    var val := WordOperand(i);
    assert Encode(i) == [Opcode(i)] + PutU32(val);
    HasAt(code, pc, Encode(i), 0);
    HasSplit(code, pc, [Opcode(i)], PutU32(val));
    GetPutU32(code, pc + 1, val);
  }

  lemma DecodeEncodeBytes(code: seq<byte>, pc: nat, i: Instr)
    requires i.Save? || i.SaveReset? || i.BackRef?
    requires Fits(i) && Has(code, pc, Encode(i))
    ensures Decode(code, pc) == Some(i)
  {
    hide GetU16, GetU32, DecodeRange, DecodeWord, DecodeShort;
    HasAt(code, pc, Encode(i), 0);
    HasAt(code, pc, Encode(i), 1);
    HasAt(code, pc, Encode(i), Size(i) - 1);
  }

  /** Whatever instruction is written, the interpreter reads back the same one. */
  lemma DecodeEncode(code: seq<byte>, pc: nat, i: Instr)
    requires Fits(i) && Has(code, pc, Encode(i))
    ensures Decode(code, pc) == Some(i)
  {
    hide PutU16, PutU32, GetU16, GetU32, EncodeBounds, DecodeRange, DecodeWord;
    if i.Range? {
      HasAt(code, pc, Encode(i), 0);
      DecodeEncodeRange(code, pc, i);
    } else if i.SimpleGreedyQuant? {
      DecodeEncodeQuant(code, pc, i);
    } else if i.Save? || i.SaveReset? || i.BackRef? {
      DecodeEncodeBytes(code, pc, i);
    } else if Size(i) == 5 {
      DecodeEncodeWord(code, pc, i);
    } else if i.Char? {
      HasAt(code, pc, Encode(i), 0);
      assert Encode(i) == [Opcode(i)] + PutU16(i.c);
      HasSplit(code, pc, [Opcode(i)], PutU16(i.c));
      GetPutU16(code, pc + 1, i.c);
    } else {
      HasAt(code, pc, Encode(i), 0);
    }
  }
}
