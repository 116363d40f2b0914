/** The linear scans over emitted bytes: re_is_simple_quantifier, re_need_check_advance and
    compute_stack_size, each proved to compute its function of the instruction list. */
module Scans {
  import opened Bytes
  import opened Opcodes
  import opened Emission
  import opened Typing
  import opened Reachable

  /** A range instruction's count fits its 16-bit field. */
  predicate Sized(i: Instr) {
    i.Range? ==> |i.bounds| % 2 == 0 && |i.bounds| / 2 < 0x10000
  }

  ghost predicate AllSized(ins: seq<Instr>) {
    forall k :: 0 <= k < |ins| ==> Sized(ins[k])
  }

  predicate OpReads(op: byte) {
    REOP_CHAR <= op < REOP_LINE_START || REOP_RANGE <= op < REOP_LOOKAHEAD
  }

  predicate OpAsserts(op: byte) {
    REOP_LINE_START <= op < REOP_GOTO || REOP_WORD_BOUNDARY <= op < REOP_BACK_REFERENCE
  }

  /** The opcodes listed, apart from those that read, as having a predictable effect. */
  predicate OpQuiet(op: byte) {
    || OpAsserts(op) || op == REOP_PUSH_I32 || op == REOP_PUSH_CHAR_POS || op == REOP_DROP || op == REOP_PREV
    || REOP_SAVE_START <= op <= REOP_SAVE_RESET || REOP_BACK_REFERENCE <= op < REOP_RANGE
  }

  lemma OpClasses(i: Instr)
    ensures OpReads(Opcode(i)) <==> ReadsChar(i)
    ensures OpAsserts(Opcode(i)) <==> IsAssertion(i)
    ensures OpReads(Opcode(i)) || OpQuiet(Opcode(i)) <==> Predictable(i)
    ensures Opcode(i) == REOP_PUSH_I32 || Opcode(i) == REOP_PUSH_CHAR_POS <==> DepthStep(i) == 1
    ensures Opcode(i) == REOP_DROP || Opcode(i) == REOP_CHECK_ADVANCE <==> DepthStep(i) == -1
  {
  }

  /** The opcode-table size, plus the bounds of a range. */
  method InstrLength(bc: seq<byte>, pos: nat, ghost ins: seq<Instr>, ghost k: nat) returns (len: nat)
    requires AllSized(ins) && bc == EncodeAll(ins) && k < |ins| && pos == SizeAll(ins[..k])
    ensures pos < |bc| && bc[pos] == Opcode(ins[k])
    ensures len == Size(ins[k]) && pos + len == SizeAll(ins[..k + 1]) <= |bc|
  {
    BytesAt(bc, ins, k);
    var op := bc[pos];
    len := FixedSize(op);
    if REOP_RANGE <= op < REOP_LOOKAHEAD {
      var val := GetU16(bc, pos + 1);
      if op < REOP_RANGE32 {
        len := len + val * 4;
      } else {
        len := len + val * 8;
      }
    }
  }

  lemma BytesAt(bc: seq<byte>, ins: seq<Instr>, k: nat)
    requires AllSized(ins) && bc == EncodeAll(ins) && k < |ins|
    ensures var pos, i := SizeAll(ins[..k]), ins[k];
            && pos + Size(i) == SizeAll(ins[..k + 1]) <= |bc|
            && bc[pos] == Opcode(i)
            && FixedSize(Opcode(i)) == (if i.Range? then 3 else Size(i))
            && (i.Range? ==> GetU16(bc, pos + 1) == |i.bounds| / 2)
  {
    hide PutU16, PutU32, GetU16, EncodeBounds, EncodeAll, Fits, SizeAll, Encode, Opcode, Size, FixedSize;
    var pos, i := SizeAll(ins[..k]), ins[k];
    assert ins == ins[..k] + ([i] + ins[k + 1..]);
    EncodeAllAppend(ins[..k], [i] + ins[k + 1..]);
    EncodeAllAppend([i], ins[k + 1..]);
    EncodeOne(i);
    assert ins[..k + 1] == ins[..k] + [i];
    EncodeAllAppend(ins[..k], [i]);
    assert bc == EncodeAll(ins[..k]) + Encode(i) + EncodeAll(ins[k + 1..]);
    assert Has(bc, pos, Encode(i));
    HasAt(bc, pos, Encode(i), 0);
    assert FixedSize(Opcode(i)) == (if i.Range? then 3 else Size(i)) by { TableSize(i); }
    if i.Range? {
      RangeCount(bc, pos, i);
    }
  }

  lemma TableSize(i: Instr)
    ensures FixedSize(Opcode(i)) == (if i.Range? then 3 else Size(i))
  {
  }

  lemma RangeCount(bc: seq<byte>, pos: nat, i: Instr)
    requires i.Range? && Sized(i) && Has(bc, pos, Encode(i))
    ensures GetU16(bc, pos + 1) == |i.bounds| / 2
  {
    hide PutU16, GetU16, EncodeBounds, Has;
    var head, count, tail := [Opcode(i)], PutU16(|i.bounds| / 2), EncodeBounds(i.wide, i.bounds);
    assert Encode(i) == head + (count + tail);
    HasSplit(bc, pos, head, count + tail);
    HasSplit(bc, pos + 1, count, tail);
    GetPutU16(bc, pos + 1, |i.bounds| / 2);
  }

  lemma ScanNext(ins: seq<Instr>, k: nat)
    requires k < |ins|
    ensures ins[..k + 1] == ins[..k] + [ins[k]]
    ensures SimpleCount(ins[..k + 1]) ==
            if SimpleCount(ins[..k]) < 0 || !(ReadsChar(ins[k]) || IsAssertion(ins[k])) then -1
            else SimpleCount(ins[..k]) + (if ReadsChar(ins[k]) then 1 else 0)
    ensures Depth(ins[..k + 1]) == Depth(ins[..k]) + DepthStep(ins[k])
    ensures MaxDepth(ins[..k + 1]) ==
            if Depth(ins[..k + 1]) > MaxDepth(ins[..k]) then Depth(ins[..k + 1]) else MaxDepth(ins[..k])
  {
    var y := ins[..k + 1];
    assert y[..|y| - 1] == ins[..k];
  }

  lemma ScanEnd(ins: seq<Instr>, k: nat)
    requires k <= |ins| && SizeAll(ins[..k]) >= SizeAll(ins)
    ensures k == |ins|
  {
    hide SizeAll;
    if k < |ins| {
      assert ins == ins[..k] + ([ins[k]] + ins[k + 1..]);
      EncodeAllAppend(ins[..k], [ins[k]] + ins[k + 1..]);
      EncodeAllAppend([ins[k]], ins[k + 1..]);
      EncodeOne(ins[k]);
    }
  }

  lemma {:induction false} SimpleStops(ins: seq<Instr>, k: nat)
    requires k <= |ins| && SimpleCount(ins[..k]) < 0
    ensures SimpleCount(ins) < 0
    decreases |ins| - k
  {
    if k == |ins| {
      assert ins[..k] == ins;
    } else {
      ScanNext(ins, k);
      SimpleStops(ins, k + 1);
    }
  }

  /** re_is_simple_quantifier. */
  method ReIsSimpleQuantifier(bc: seq<byte>, ghost ins: seq<Instr>) returns (count: int)
    requires AllSized(ins) && bc == EncodeAll(ins)
    ensures count == SimpleCount(ins)
  {
    hide EncodeAll, SizeAll, SimpleCount, OpReads, OpAsserts, AllSized, Depth, MaxDepth;
    count := 0;
    var pos := 0;
    ghost var k := 0;
    ScanStart(ins);
    while pos < |bc|
      invariant k <= |ins| && pos == SizeAll(ins[..k])
      invariant count == SimpleCount(ins[..k]) >= 0
      decreases |ins| - k
    {
      ScanInside(ins, k);
      var len := InstrLength(bc, pos, ins, k);
      var op := bc[pos];
      OpClasses(ins[k]);
      ScanNext(ins, k);
      if OpReads(op) {
        count := count + 1;
      } else if !OpAsserts(op) {
        SimpleStops(ins, k + 1);
        return -1;
      }
      pos := pos + len;
      k := k + 1;
    }
    ScanEnd(ins, k);
    assert ins[..k] == ins;
  }

  lemma ScanStart(ins: seq<Instr>)
    ensures SizeAll(ins[..0]) == 0 && SimpleCount(ins[..0]) == 0 && Depth(ins[..0]) == 0 && MaxDepth(ins[..0]) == 0
  {
  }

  lemma ScanInside(ins: seq<Instr>, k: nat)
    requires k <= |ins| && SizeAll(ins[..k]) < SizeAll(ins)
    ensures k < |ins|
  {
    assert ins[..|ins|] == ins;
  }

  /** re_need_check_advance. */
  method ReNeedCheckAdvance(bc: seq<byte>, ghost ins: seq<Instr>) returns (ret: bool)
    requires AllSized(ins) && bc == EncodeAll(ins)
    ensures ret == NeedCheck(ins)
  {
    hide EncodeAll, SizeAll, OpReads, OpQuiet, AllSized, Predictable, ReadsChar;
    ret := true;
    var pos := 0;
    ghost var k := 0;
    ScanStart(ins);
    while pos < |bc|
      invariant k <= |ins| && pos == SizeAll(ins[..k])
      invariant forall j :: 0 <= j < k ==> Predictable(ins[j])
      invariant ret <==> forall j :: 0 <= j < k ==> !ReadsChar(ins[j])
      decreases |ins| - k
    {
      ScanInside(ins, k);
      var len := InstrLength(bc, pos, ins, k);
      var op := bc[pos];
      OpClasses(ins[k]);
      if OpReads(op) {
        ret := false;
      } else if !OpQuiet(op) {
        return true;
      }
      pos := pos + len;
      k := k + 1;
    }
    ScanEnd(ins, k);
  }

  const STACK_SIZE_MAX: int := 255

  lemma {:induction false} MaxGrows(ins: seq<Instr>, k: nat)
    requires k <= |ins|
    ensures MaxDepth(ins[..k]) <= MaxDepth(ins)
    decreases |ins| - k
  {
    hide MaxDepth, Depth;
    if k == |ins| {
      assert ins[..k] == ins;
    } else {
      ScanNext(ins, k);
      MaxGrows(ins, k + 1);
    }
  }

  /** compute_stack_size: the largest depth, or -1 when it exceeds what a byte can record. The
      C code, too, asserts that a stack it pops is not empty. */
  method ComputeStackSize(bc: seq<byte>, ghost ins: seq<Instr>) returns (max: int)
    requires AllSized(ins) && bc == EncodeAll(ins)
    requires forall k :: 0 <= k < |ins| && DepthStep(ins[k]) == -1 ==> Depth(ins[..k]) > 0
    ensures max == if MaxDepth(ins) > STACK_SIZE_MAX then -1 else MaxDepth(ins)
  {
    hide EncodeAll, SizeAll, AllSized, Depth, MaxDepth, DepthStep;
    var stackSize := 0;
    max := 0;
    var pos := 0;
    ghost var k := 0;
    ScanStart(ins);
    while pos < |bc|
      invariant k <= |ins| && pos == SizeAll(ins[..k])
      invariant stackSize == Depth(ins[..k]) && max == MaxDepth(ins[..k]) <= STACK_SIZE_MAX
      decreases |ins| - k
    {
      ScanInside(ins, k);
      var len := InstrLength(bc, pos, ins, k);
      var op := bc[pos];
      OpClasses(ins[k]);
      ScanNext(ins, k);
      MaxGrows(ins, k + 1);
      StepRange(ins[k]);
      if op == REOP_PUSH_I32 || op == REOP_PUSH_CHAR_POS {
        stackSize := stackSize + 1;
        if stackSize > max {
          if stackSize > STACK_SIZE_MAX {
            return -1;
          }
          max := stackSize;
        }
      } else if op == REOP_DROP || op == REOP_CHECK_ADVANCE {
        assert stackSize > 0;
        DepthWithin(ins, k);
        stackSize := stackSize - 1;
      } else {
        DepthWithin(ins, k);
      }
      pos := pos + len;
      k := k + 1;
    }
    ScanEnd(ins, k);
    assert ins[..k] == ins;
  }

  lemma StepRange(i: Instr)
    ensures -1 <= DepthStep(i) <= 1
  {
  }

  lemma DepthWithin(ins: seq<Instr>, k: nat)
    requires k <= |ins|
    ensures Depth(ins[..k]) <= MaxDepth(ins[..k])
  {
    assert ins[..k][..k] == ins[..k];
  }
}
