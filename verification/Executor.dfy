/** lre_exec and lre_exec_backtrack, working on the capture array, the operand stack and the
    backtrack stack in place. One turn of the loop is one step of Machine; what the loop as a
    whole computes is what Program prescribes. */
module Executor {
  import opened Options
  import opened Bytes
  import opened Opcodes
  import opened Text
  import opened Emission
  import opened Semantics
  import opened Machine
  import opened BacktrackStack
  import opened Typing
  import opened Fragments
  import opened Reachable
  import opened Positions

  /** The binary search of the range opcodes. `idxMax - 1` is only computed for a character at
      or above the first bound, so the unsigned subtraction cannot wrap. */
  method RangeSearch(wide: bool, bounds: seq<int>, c: int) returns (found: bool)
    requires |bounds| % 2 == 0 && SortedBounds(bounds)
    ensures found <==> InBounds(wide, bounds, c)
  {
    var n := |bounds| / 2;
    var idxMin := 0;
    var low := bounds[0];
    if c < low {
      BelowAll(wide, bounds, c);
      return false;
    }
    var idxMax := n - 1;
    var high := bounds[2 * idxMax + 1];
    if !wide && c >= 0xffff && high == 0xffff {
      return true;
    }
    if c > high {
      AboveAll(wide, bounds, c);
      return false;
    }
    while idxMin <= idxMax
      invariant 0 <= idxMin <= n && -1 <= idxMax < n
      invariant forall k :: 0 <= k < idxMin ==> Hi(bounds, k) < c
      invariant forall k :: idxMax < k < n ==> c < Lo(bounds, k)
      decreases idxMax - idxMin
    {
      var idx := (idxMin + idxMax) / 2;
      low := bounds[2 * idx];
      high := bounds[2 * idx + 1];
      assert low == Lo(bounds, idx) && high == Hi(bounds, idx);
      if c < low {
        assert idx > 0 by { assert bounds[0] == Lo(bounds, 0); }
        forall k | idx - 1 < k < n ensures c < Lo(bounds, k) {
          assert k > idx ==> Hi(bounds, idx) < Lo(bounds, k);
        }
        idxMax := idx - 1;
      } else if c > high {
        forall k | 0 <= k < idx + 1 ensures Hi(bounds, k) < c {
          assert k < idx ==> Hi(bounds, k) < Lo(bounds, idx);
        }
        idxMin := idx + 1;
      } else {
        return true;
      }
    }
    Outside(wide, bounds, c, idxMin, idxMax);
    return false;
  }

  lemma BelowAll(wide: bool, bounds: seq<int>, c: int)
    requires |bounds| % 2 == 0 && SortedBounds(bounds) && c < bounds[0]
    ensures !InBounds(wide, bounds, c)
  {
    var n := |bounds| / 2;
    assert bounds[0] == Lo(bounds, 0) && bounds[|bounds| - 1] == Hi(bounds, n - 1);
    forall k | 0 <= k < n
      ensures c < Lo(bounds, k) == bounds[2 * k] <= Hi(bounds, k)
    {
      assert k > 0 ==> Hi(bounds, 0) < Lo(bounds, k);
    }
    assert Hi(bounds, n - 1) > c;
  }

  lemma AboveAll(wide: bool, bounds: seq<int>, c: int)
    requires |bounds| % 2 == 0 && SortedBounds(bounds)
    requires c > bounds[|bounds| - 1] && (wide || c < 0xffff || bounds[|bounds| - 1] != 0xffff)
    ensures !InBounds(wide, bounds, c)
  {
    var n := |bounds| / 2;
    assert bounds[|bounds| - 1] == Hi(bounds, n - 1);
    forall k | 0 <= k < n
      ensures Hi(bounds, k) == bounds[2 * k + 1] < c
    {
      assert k < n - 1 ==> Hi(bounds, k) < Lo(bounds, n - 1) <= Hi(bounds, n - 1);
    }
  }

  lemma Outside(wide: bool, bounds: seq<int>, c: int, idxMin: int, idxMax: int)
    requires |bounds| % 2 == 0 && SortedBounds(bounds)
    requires 0 <= idxMin <= |bounds| / 2 && -1 <= idxMax < idxMin
    requires wide || c < 0xffff || bounds[|bounds| - 1] != 0xffff
    requires forall k :: 0 <= k < idxMin ==> Hi(bounds, k) < c
    requires forall k :: idxMax < k < |bounds| / 2 ==> c < Lo(bounds, k)
    ensures !InBounds(wide, bounds, c)
  {
    forall k | 0 <= k < |bounds| / 2
      ensures !(bounds[2 * k] <= c <= bounds[2 * k + 1])
    {
      if k < idxMin {
        assert Hi(bounds, k) == bounds[2 * k + 1];
      } else {
        assert Lo(bounds, k) == bounds[2 * k];
      }
    }
  }

  /** The character tests. */
  method TestChar(e: Env, i: Instr, c: int) returns (ok: bool)
    requires Fits(i) && ReadsChar(i)
    ensures ok == Test(e, i, c)
  {
    hide InBounds, SortedBounds;
    match i
    case Char(_, icase, x) => ok := Fold(e, icase, c) == x;
    case Dot => ok := !IsLineTerminator(c);
    case Any => ok := true;
    case Range(wide, icase, bounds) => ok := RangeSearch(wide, bounds, Fold(e, icase, c));
  }

  /** Instructions that read one character or test the position. */
  method ExecSimple(e: Env, i: Instr, cptr: nat) returns (r: Option<nat>)
    requires Fits(i) && (ReadsChar(i) || IsAssertion(i)) && cptr <= |e.subject.units|
    ensures r == Simple(e, i, cptr)
  {
    hide Test, Fits, GetChar, GetPrevChar;
    if ReadsChar(i) {
      if cptr >= |e.subject.units| {
        return None;
      }
      var (c, q) := GetChar(e.subject, cptr);
      var ok := TestChar(e, i, c);
      return if ok then Some(q) else None;
    }
    var ok := Holds(e, i, cptr);
    return if ok then Some(cptr) else None;
  }

  /** The forward comparison loop of a back reference. */
  method CompareForward(e: Env, icase: bool, start: nat, end: nat, cptr0: nat) returns (r: Option<nat>)
    requires end <= |e.subject.units| && cptr0 <= |e.subject.units|
    ensures r == RefForward(e, icase, start, end, cptr0)
  {
    hide PairAt, FromSurrogate;
    var cptr1: nat, cptr: nat := start, cptr0;
    while cptr1 < end
      invariant cptr <= |e.subject.units|
      invariant RefForward(e, icase, start, end, cptr0) == RefForward(e, icase, cptr1, end, cptr)
      decreases |e.subject.units| - cptr1
    {
      if cptr >= |e.subject.units| {
        return None;
      }
      var (c1, p1) := GetCharBefore(e.subject, cptr1, end);
      var (c2, p2) := GetChar(e.subject, cptr);
      if Fold(e, icase, c1) != Fold(e, icase, c2) {
        return None;
      }
      cptr1, cptr := p1, p2;
    }
    return Some(cptr);
  }

  /** The backward comparison loop of a back reference. */
  method CompareBackward(e: Env, icase: bool, start: nat, end: nat, cptr0: nat) returns (r: Option<nat>)
    requires end <= |e.subject.units| && cptr0 <= |e.subject.units|
    ensures r == RefBackward(e, icase, start, end, cptr0)
  {
    hide PairAt, FromSurrogate;
    var cptr1: nat, cptr: nat := end, cptr0;
    while cptr1 > start
      invariant cptr <= |e.subject.units| && cptr1 <= |e.subject.units|
      invariant RefBackward(e, icase, start, end, cptr0) == RefBackward(e, icase, start, cptr1, cptr)
      decreases cptr1
    {
      if cptr == 0 {
        return None;
      }
      var (c1, p1) := GetPrevCharFrom(e.subject, cptr1, start);
      var (c2, p2) := GetPrevChar(e.subject, cptr);
      if Fold(e, icase, c1) != Fold(e, icase, c2) {
        return None;
      }
      cptr1, cptr := p1, p2;
    }
    return Some(cptr);
  }

  /** `count` times PREV_CHAR. */
  method StepBack(e: Env, pos: nat, count: nat) returns (cptr: nat)
    requires pos <= |e.subject.units|
    ensures cptr == Back(e, pos, count)
  {
    hide PairAt, FromSurrogate;
    cptr := pos;
    var i := 0;
    while i < count
      invariant 0 <= i <= count && cptr <= |e.subject.units|
      invariant Back(e, pos, count) == Back(e, cptr, count - i)
    {
      cptr := if 0 < cptr then GetPrevChar(e.subject, cptr).1 else 0;
      i := i + 1;
    }
  }

  datatype Outcome = Continue | Matches | Fails

  class REExecContext {
    const P: Prog
    ghost const ins: seq<Instr>
    ghost const base: nat
    const capture: array<Option<nat>>
    const stack: array<int>
    var stackLen: nat
    var pc: nat
    var cptr: nat
    const states: StateStack
    /** The entries that `states` holds. */
    ghost var stateStack: seq<Entry>

    constructor (P: Prog, ghost ins: seq<Instr>, base: nat, capture: array<Option<nat>>, stackSize: nat, cptr: nat)
      requires stackSize < 256
      ensures this.P == P && this.ins == ins && this.base == base && this.capture == capture
      ensures stack.Length == stackSize && fresh(stack)
      ensures stackLen == 0 && pc == base && this.cptr == cptr && stateStack == []
      ensures Held() && fresh(states) && fresh(states.block)
    {
      this.P := P;
      this.ins := ins;
      this.base := base;
      this.capture := capture;
      stack := new int[stackSize](_ => 0);
      stackLen := 0;
      pc := base;
      this.cptr := cptr;
      states := new StateStack(capture.Length, stackSize);
      stateStack := [];
    }

    /** The block of records holds the entries, and is neither of the arrays. */
    ghost predicate Held()
      reads this`stateStack, states, states.block
    {
      && states.Valid() && states.Contents() == stateStack
      && states.captures == capture.Length && states.depth == stack.Length
      && states.block as object != capture && states.block as object != stack
    }

    /** The machine state that the fields represent. */
    ghost function Running(): State
      requires stackLen <= stack.Length
      reads this, capture, stack
    {
      Run(pc, cptr, capture[..], stack[..stackLen], stateStack)
    }

    /** The program is a compiled one, the stack array has the recorded size, and there are two
        capture slots for every group. */
    ghost predicate Setting()
      reads this
    {
      && Compiled(P, base, ins)
      && stack.Length == MaxDepth(ins)
      && capture.Length == 2 * P.env.ncap
      && capture as object != stack
    }

    ghost predicate Valid()
      reads this, capture, stack, states, states.block
    {
      && Setting()
      && Held()
      && stackLen <= stack.Length
      && StateOk(ins, base, Running())
      && SoundState(P.env, Running())
    }

    lemma BlockApart()
      requires Held()
      ensures states.block as object != capture && states.block as object != stack
    {
    }

    /** push_state, with the captures and operands of now. */
    method PushState(pc1: int, pos: nat, kind: int, count: nat)
      requires Held() && stackLen <= stack.Length
      requires SPLIT <= kind <= GREEDY_QUANT && (kind == GREEDY_QUANT ==> count > 0)
      modifies this`stateStack, states, states.block
      ensures Held() && (states.block == old(states.block) || fresh(states.block))
      ensures stateStack == old(stateStack) + [EntryOf(kind, pc1, pos, capture[..], stack[..stackLen], count)]
    {
      hide EntryOf, StateStack.Valid, StateStack.Contents;
      states.Push(capture, stack, stackLen, pc1, pos, kind, count);
      stateStack := states.Contents();
    }

    /** The effect of an instruction handler: the fields now represent the next state. */
    twostate predicate Did(i: Instr, outcome: Outcome)
      requires old(stackLen) <= stack.Length
      reads this, capture, stack
    {
      && stackLen <= stack.Length
      && match outcome
         case Continue => Running() == StepRun(P, i, old(Running()))
         case Matches => StepRun(P, i, old(Running())) == Succeed(capture[..], stateStack)
         case Fails => StepRun(P, i, old(Running())) == Fail(stateStack)
    }

    method ExecReadOrAssert(i: Instr) returns (outcome: Outcome)
      requires stackLen <= stack.Length && cptr <= |P.env.subject.units|
      requires Fits(i) && (ReadsChar(i) || IsAssertion(i))
      modifies this`pc, this`cptr
      ensures Did(i, outcome)
    {
      hide Simple, Fits, StepStack, StepRef, StepGreedy;
      var r := ExecSimple(P.env, i, cptr);
      match r
      case None => return Fails;
      case Some(q) =>
        pc := pc + Size(i);
        cptr := q;
        return Continue;
    }

    method ExecPrev() returns (outcome: Outcome)
      requires stackLen <= stack.Length && cptr <= |P.env.subject.units|
      modifies this`pc, this`cptr
      ensures Did(Prev, outcome)
    {
      hide PairAt, FromSurrogate;
      if cptr == 0 {
        return Fails;
      }
      pc := pc + 1;
      cptr := GetPrevChar(P.env.subject, cptr).1;
      return Continue;
    }

    method ExecSplit(i: Instr) returns (outcome: Outcome)
      requires i.Split? && stackLen <= stack.Length && pc + 5 + i.off >= 0 && Held()
      modifies this`pc, this`stateStack, states, states.block
      ensures Did(i, outcome) && Held() && (states.block == old(states.block) || fresh(states.block))
    {
      hide REExecContext.Held;
      pc := pc + 5;
      var pc1 := pc;
      if i.gotoFirst {
        pc := pc + i.off;
      } else {
        pc1 := pc + i.off;
      }
      PushState(pc1, cptr, SPLIT, 0);
      return Continue;
    }

    method ExecLookahead(i: Instr) returns (outcome: Outcome)
      requires i.Lookahead? && stackLen <= stack.Length && Held()
      modifies this`pc, this`stateStack, states, states.block
      ensures Did(i, outcome) && Held() && (states.block == old(states.block) || fresh(states.block))
    {
      hide REExecContext.Held;
      pc := pc + 5;
      PushState(pc + i.off, cptr, LOOKAHEAD + Bit(i.neg), 0);
      return Continue;
    }

    method ExecGoto(i: Instr) returns (outcome: Outcome)
      requires i.Goto? && stackLen <= stack.Length && pc + 5 + i.off >= 0
      modifies this`pc
      ensures Did(i, outcome)
    {
      pc := pc + 5 + i.off;
      return Continue;
    }

    method ExecSave(i: Instr) returns (outcome: Outcome)
      requires i.Save? && stackLen <= stack.Length && capture as object != stack
      requires 0 <= i.n && 2 * i.n + 1 < capture.Length
      modifies this`pc, capture
      ensures Did(i, outcome)
    {
      pc := pc + 2;
      capture[2 * i.n + Bit(i.end)] := Some(cptr);
      assert capture[..] == old(capture[..])[2 * i.n + Bit(i.end) := Some(cptr)];
      return Continue;
    }

    method ExecSaveReset(i: Instr) returns (outcome: Outcome)
      requires i.SaveReset? && stackLen <= stack.Length && capture as object != stack
      requires 0 <= i.first <= i.last + 1 && 2 * i.last + 1 < capture.Length
      modifies this`pc, capture
      ensures Did(i, outcome)
    {
      var val := i.first;
      while val <= i.last
        invariant i.first <= val <= i.last + 1
        invariant forall k :: 0 <= k < capture.Length ==>
          capture[k] == if 2 * i.first <= k < 2 * val then None else old(capture[k])
        invariant unchanged(this) && unchanged(stack)
      {
        capture[2 * val] := None;
        capture[2 * val + 1] := None;
        val := val + 1;
      }
      pc := pc + 3;
      ghost var m := M(cptr, old(capture[..]));
      assert capture[..] == Reset(m, i.first, i.last + 1 - i.first).caps;
      assert m == Here(old(Running()));
      assert StepRun(P, i, old(Running())) == Run(pc, cptr, capture[..], stack[..stackLen], stateStack);
      return Continue;
    }

    method ExecPush(i: Instr) returns (outcome: Outcome)
      requires (i.PushI32? || i.PushCharPos?) && stackLen < stack.Length && capture as object != stack
      modifies this`pc, this`stackLen, stack
      ensures Did(i, outcome)
    {
      pc := pc + Size(i);
      stack[stackLen] := if i.PushI32? then i.v else cptr;
      stackLen := stackLen + 1;
      assert stack[..stackLen] == old(stack[..stackLen]) + [if i.PushI32? then i.v else cptr];
      return Continue;
    }

    method ExecPop(i: Instr) returns (outcome: Outcome)
      requires (i.Drop? || i.CheckAdvance?) && 0 < stackLen <= stack.Length
      modifies this`pc, this`stackLen
      ensures Did(i, outcome)
    {
      if i.CheckAdvance? && stack[stackLen - 1] == cptr {
        return Fails;
      }
      pc := pc + 1;
      stackLen := stackLen - 1;
      assert stack[..stackLen] == old(stack[..stackLen])[..old(stackLen) - 1];
      return Continue;
    }

    method ExecLoop(i: Instr) returns (outcome: Outcome)
      requires i.Loop? && 0 < stackLen <= stack.Length && pc + 5 + i.off >= 0 && capture as object != stack
      modifies this`pc, stack
      ensures Did(i, outcome)
    {
      pc := pc + 5;
      stack[stackLen - 1] := (stack[stackLen - 1] - 1) % UINTPTR_MOD;
      assert stack[..stackLen] == old(stack[..stackLen])[stackLen - 1 := stack[stackLen - 1]];
      if stack[stackLen - 1] != 0 {
        pc := pc + i.off;
      }
      return Continue;
    }

    method ExecBackRef(i: Instr) returns (outcome: Outcome)
      requires i.BackRef? && 0 <= i.n && stackLen <= stack.Length && cptr <= |P.env.subject.units|
      requires capture.Length == 2 * P.env.ncap
      requires forall k :: 0 <= k < capture.Length && capture[k].Some? ==> capture[k].value <= |P.env.subject.units|
      modifies this`pc, this`cptr
      ensures Did(i, outcome)
    {
      hide RefForward, RefBackward;
      if i.n >= P.env.ncap {
        return Fails;
      }
      var start, end := capture[2 * i.n], capture[2 * i.n + 1];
      if start.None? || end.None? {
        pc := pc + 2;
        return Continue;
      }
      var r;
      if i.backward {
        r := CompareBackward(P.env, i.icase, start.value, end.value, cptr);
      } else {
        r := CompareForward(P.env, i.icase, start.value, end.value, cptr);
      }
      match r
      case None => return Fails;
      case Some(q) =>
        pc := pc + 2;
        cptr := q;
        return Continue;
    }

    /** The nested call (no_recurse) on the body of a simple quantifier, which starts at the
        instruction with index `k`. */
    method ExecNested(pc1: nat, cptr1: nat, ghost k: nat) returns (r: Option<nat>)
      requires Setting() && cptr1 <= |P.env.subject.units|
      requires k < |ins| && pc1 == base + SizeAll(ins[..k])
      requires RunNested(P, pc1, cptr1) != Stuck
      ensures RunNested(P, pc1, cptr1) == match r case None => NoMatch case Some(q) => Matched(q)
      ensures r.Some? ==> r.value <= |P.env.subject.units|
    {
      hide Decode, Simple, Fits, SizeAll, Stands, WellTyped, MaxDepth;
      var at: nat, pos: nat := pc1, cptr1;
      ghost var j := k;
      while true
        invariant pos <= |P.env.subject.units|
        invariant j < |ins| && at == base + SizeAll(ins[..j])
        invariant RunNested(P, at, pos) == RunNested(P, pc1, cptr1) != Stuck
        decreases |ins| - j
      {
        InstrAt(P, base, ins, j);
        StandsFits(P, base, ins, j);
        var i := Decode(P.code, at).value;
        if i.Match? {
          return Some(pos);
        }
        KeepsLast(P, base, ins, j);
        OffsetNext(ins, j);
        var q := ExecSimple(P.env, i, pos);
        match q
        case None => return None;
        case Some(next) =>
          SimpleWithin(P.env, i, pos);
          at, pos := at + Size(i), next;
          j := j + 1;
      }
    }

    /** The counting loop of simple_greedy_quant and the push of its backtrack entry. */
    method ExecGreedy(i: Instr, ghost k: nat) returns (outcome: Outcome)
      requires i.SimpleGreedyQuant? && i.max <= INT32_MAX && stackLen <= stack.Length && cptr <= |P.env.subject.units|
      requires Setting() && k < |ins| - 1 && pc == base + SizeAll(ins[..k]) && ins[k] == i
      requires StepRun(P, i, Running()) != Abort && pc + 17 + i.next >= 0 && Held()
      modifies this`pc, this`cptr, this`stateStack, states, states.block
      ensures Did(i, outcome) && Held() && (states.block == old(states.block) || fresh(states.block))
    {
      hide RunNested, Decode, SizeAll, Stands, WellTyped, MaxDepth, RunGreedy, ReadsChar, IsAssertion,
           REExecContext.Held;
      var pc1 := pc + 17;
      OffsetNext(ins, k);
      var pos, q := CountGreedy(pc1, i, k + 1);
      if q < i.min {
        return Fails;
      }
      if q > i.min {
        PushState(pc + 1, pos, GREEDY_QUANT, q - i.min);
      }
      pc := pc1 + i.next;
      cptr := pos;
      return Continue;
    }

    method CountGreedy(pc1: nat, i: Instr, ghost k: nat) returns (pos: nat, q: nat)
      requires i.SimpleGreedyQuant? && i.max <= INT32_MAX && cptr <= |P.env.subject.units|
      requires Setting() && k < |ins| && pc1 == base + SizeAll(ins[..k])
      requires RunGreedy(P, pc1, cptr, i.max, 0).Some?
      ensures RunGreedy(P, pc1, cptr, i.max, 0) == Some((pos, q))
    {
      hide RunNested, Setting;
      pos, q := cptr, 0;
      ghost var room := i.max;
      while true
        invariant pos <= |P.env.subject.units|
        invariant room == if i.max == INT32_MAX then i.max else i.max - q
        invariant RunGreedy(P, pc1, cptr, i.max, 0) == RunGreedy(P, pc1, pos, room, q)
        decreases |P.env.subject.units| - pos
      {
        var r := ExecNested(pc1, pos, k);
        if r.None? {
          return;
        }
        pos, q := r.value, q + 1;
        if q >= i.max && i.max != INT32_MAX {
          return;
        }
        room := Less(room);
      }
    }

    /** One turn of the instruction loop. */
    method ExecOne(i: Instr, ghost k: nat) returns (outcome: Outcome)
      requires Valid() && BoundaryAt(ins, base, pc, stackLen, Pending(stateStack), k) && ins[k] == i
      requires StepRun(P, i, Running()) != Abort
      modifies this`pc, this`cptr, this`stackLen, this`stateStack, capture, stack, states, states.block
      ensures stackLen <= stack.Length && Did(i, outcome)
      ensures Held() && (states.block == old(states.block) || fresh(states.block))
    {
      hide SizeAll, Stands, WellTyped, MaxDepth, RunGreedy, StepStack, StepRef, StepGreedy, StateOk,
           REExecContext.Held;
      BlockApart();
      StandsFits(P, base, ins, k);
      Room(P, base, ins, Running(), k);
      Inside(P.env, Here(Running()));
      if Needs(i) {
        NotEmpty(P, i, Running());
      }
      match i
      case Match =>
        outcome := Matches;
      case Split(_, _) => outcome := ExecSplit(i);
      case Lookahead(_, _) => outcome := ExecLookahead(i);
      case Goto(_) => outcome := ExecGoto(i);
      case Save(_, _) => outcome := ExecSave(i);
      case SaveReset(_, _) => outcome := ExecSaveReset(i);
      case BackRef(_, _, _) => outcome := ExecBackRef(i);
      case SimpleGreedyQuant(_, _, _, _) => outcome := ExecGreedy(i, k);
      case Prev => outcome := ExecPrev();
      case PushI32(_) => outcome := ExecPush(i);
      case PushCharPos => outcome := ExecPush(i);
      case Drop => outcome := ExecPop(i);
      case CheckAdvance => outcome := ExecPop(i);
      case Loop(_) => outcome := ExecLoop(i);
      case _ => outcome := ExecReadOrAssert(i);
    }

    /** The machine state while the backtrack stack is being popped. */
    ghost function Unwinding(ret: bool): State
      reads this, capture
    {
      if ret then Succeed(capture[..], stateStack) else Fail(stateStack)
    }

    /** The top entry is that of the last record. */
    lemma TopEntry()
      requires Held() && stateStack != []
      ensures states.len > 0 && stateStack[|stateStack| - 1] == states.Top()
    {
      hide StateStack.Valid;
      states.TopFields();
    }

    /** The fields, captures and operands saved in the last record. */
    method Reload(keepCaptures: bool)
      requires Setting() && Held() && stateStack != [] && stateStack[|stateStack| - 1].pc >= 0
      modifies this`pc, this`cptr, this`stackLen, capture, stack
      ensures stackLen <= stack.Length && Held()
      ensures var e := stateStack[|stateStack| - 1];
              && pc == e.pc && cptr == e.pos && stack[..stackLen] == e.stk
              && capture[..] == if keepCaptures then old(capture[..]) else e.caps
    {
      hide StateStack.Valid, StateStack.Top, StateStack.Contents, Compiled;
      TopEntry();
      states.TopFields();
      if !keepCaptures {
        states.RestoreCapture(capture);
      }
      pc := states.Field(PC);
      cptr := states.Field(CPTR);
      stackLen := states.RestoreStack(stack);
    }

    /** Back to the state saved in the last record (pop_state; pop_state1 keeps the captures). */
    method Resume(keepCaptures: bool)
      requires Setting() && Held() && stateStack != [] && stateStack[|stateStack| - 1].pc >= 0
      modifies this`pc, this`cptr, this`stackLen, this`stateStack, capture, stack, states`len
      ensures stackLen <= stack.Length && Held()
      ensures var e := old(stateStack[|stateStack| - 1]);
              Running() == Run(e.pc, e.pos, if keepCaptures then old(capture[..]) else e.caps, e.stk,
                               old(stateStack[..|stateStack| - 1]))
    {
      hide StateStack.Valid, StateStack.Top, StateStack.Contents, REExecContext.Setting;
      Reload(keepCaptures);
      DropLast();
    }

    /** The last record is given up. */
    method DropLast()
      requires Held() && stateStack != []
      modifies this`stateStack, states`len
      ensures Held() && stateStack == old(stateStack[..|stateStack| - 1])
    {
      hide StateStack.Valid, StateStack.Top, StateStack.Contents;
      TopEntry();
      states.Pop();
      stateStack := states.Contents();
    }

    /** Resuming a greedy record: one iteration fewer, as many characters back; the record stays
        while there is more to give up. */
    method ResumeGreedy()
      requires Setting() && Held() && stateStack != [] && stateStack[|stateStack| - 1].Greedy?
      requires stateStack[|stateStack| - 1].pos <= |P.env.subject.units|
      requires StepFail(P, stateStack).Run? && StepFail(P, stateStack).pc >= 0
      modifies this`pc, this`cptr, this`stackLen, this`stateStack, capture, stack, states`len, states.block
      ensures stackLen <= stack.Length && Held() && states.block == old(states.block)
      ensures Running() == StepFail(P, old(stateStack))
    {
      hide Decode, Back, StepFail, Compiled, StateStack.Valid, StateStack.Top, StateStack.Contents;
      TopEntry();
      states.TopFields();
      GreedyEntry(P, stateStack);
      var at := states.Field(PC);
      var i := Decode(P.code, at - 1).value;
      states.RestoreCapture(capture);
      stackLen := states.RestoreStack(stack);
      var pos := StepBack(P.env, states.Field(CPTR), i.count);
      pc := at + 16 + i.next;
      cptr := pos;
      states.Retry(pos);
      stateStack := states.Contents();
    }

    /** One turn of the `recurse` loop: the last record either resumes the match or is dropped. */
    method UnwindOne(ret: bool) returns (resumed: bool, ret': bool)
      requires Setting() && Held() && stateStack != []
      requires StateOk(ins, base, Unwinding(ret)) && SoundState(P.env, Unwinding(ret))
      requires Step(P, Unwinding(ret)) != Abort
      modifies this`pc, this`cptr, this`stackLen, this`stateStack, capture, stack, states`len, states.block
      ensures Held() && states.block == old(states.block)
      ensures resumed ==> stackLen <= stack.Length && Running() == Step(P, old(Unwinding(ret)))
      ensures !resumed ==> Unwinding(ret') == Step(P, old(Unwinding(ret))) && |stateStack| < old(|stateStack|)
    {
      hide StateOk, SoundState, Compiled, Decode, Back, StateStack.Valid, StateStack.Top, StateStack.Contents;
      EntryFacts(P, base, ins, Unwinding(ret), stateStack);
      TopEntry();
      states.TopFields();
      var kind := states.Field(TYPE);
      ret' := ret;
      if kind == SPLIT {
        if !ret {
          Resume(false);
          return true, ret;
        }
      } else if kind == GREEDY_QUANT {
        if !ret {
          ResumeGreedy();
          return true, ret;
        }
      } else {
        ret' := (kind == LOOKAHEAD && ret) || (kind == NEGATIVE_LOOKAHEAD && !ret);
        if ret' {
          Resume(kind == LOOKAHEAD);
          return true, ret';
        }
      }
      DropLast();
      return false, ret';
    }

    /** The `recurse` loop: pop entries until one resumes the match or none is left. `n` is the
        number of machine steps that remain. */
    method Unwind(ret0: bool, ghost result: Option<seq<Option<nat>>>, ghost n0: nat)
      returns (resumed: bool, ret: bool, ghost n: nat)
      requires Setting() && Held()
      requires StateOk(ins, base, Unwinding(ret0)) && SoundState(P.env, Unwinding(ret0))
      requires Steps(P, Unwinding(ret0), n0) == Halt(result)
      modifies this`pc, this`cptr, this`stackLen, this`stateStack, capture, stack, states`len, states.block
      ensures states.block == old(states.block)
      ensures resumed ==> Valid() && Steps(P, Running(), n) == Halt(result) && n <= n0
      ensures !resumed ==> result == if ret then Some(capture[..]) else None
    {
      hide StateOk, SoundState, Step, Compiled;
      ret := ret0;
      n := n0;
      while true
        invariant Held() && states.block == old(states.block)
        invariant StateOk(ins, base, Unwinding(ret)) && SoundState(P.env, Unwinding(ret))
        invariant Steps(P, Unwinding(ret), n) == Halt(result) && n <= n0
        decreases |stateStack|
      {
        ghost var s := Unwinding(ret);
        OneStep(P, s, n, result);
        n := n - 1;
        if states.len == 0 {
          EmptyHalts(P, s);
          return false, ret, n;
        }
        StepOk(P, base, ins, s);
        StepSound(P, s);
        resumed, ret := UnwindOne(ret);
        if resumed {
          return true, ret, n;
        }
      }
    }

    /** lre_exec_backtrack with no_recurse false: runs until the program matches or fails. */
    method ExecBacktrack(ghost result: Option<seq<Option<nat>>>, ghost n0: nat) returns (ret: bool)
      requires Valid() && Steps(P, Running(), n0) == Halt(result)
      modifies this`pc, this`cptr, this`stackLen, this`stateStack, capture, stack, states, states.block
      ensures result == if ret then Some(capture[..]) else None
    {
      hide StateOk, SoundState, Step, StepRun, Decode, Compiled, REExecContext.Held;
      ghost var n := n0;
      while true
        invariant Valid() && Steps(P, Running(), n) == Halt(result)
        invariant states.block == old(states.block) || fresh(states.block)
        decreases n
      {
        ghost var s := Running();
        OneStep(P, s, n, result);
        n := n - 1;
        ghost var k := IndexAt(P, base, ins, s);
        var i := Decode(P.code, pc).value;
        StepOk(P, base, ins, s);
        StepSound(P, s);
        var outcome := ExecOne(i, k);
        if !outcome.Continue? {
          var resumed;
          resumed, ret, n := Unwind(outcome.Matches?, result, n);
          if !resumed {
            return ret;
          }
        }
      }
    }
  }

  lemma EmptyHalts(P: Prog, s: State)
    requires (s.Fail? || s.Succeed?) && s.bt == []
    ensures Step(P, s) == Halt(if s.Succeed? then Some(s.caps) else None)
  {
  }

  lemma GreedyEntry(P: Prog, bt: seq<Entry>)
    requires bt != [] && bt[|bt| - 1].Greedy? && StepFail(P, bt).Run?
    ensures var rest, e := bt[..|bt| - 1], bt[|bt| - 1];
            && e.pc >= 1 && Decode(P.code, e.pc - 1).Some?
            && var i := Decode(P.code, e.pc - 1).value;
               && i.SimpleGreedyQuant? && i.count >= 0
               && var pos := Back(P.env, e.pos, i.count);
                  StepFail(P, bt) == Run(e.pc + 16 + i.next, pos, e.caps, e.stk,
                                         if e.count <= 1 then rest else rest + [e.(pos := pos, count := e.count - 1)])
  {
    hide Decode, Back;
  }

  /** A state that has not halted takes a step, and is not lost. */
  lemma OneStep(P: Prog, s: State, n: nat, result: Option<seq<Option<nat>>>)
    requires Steps(P, s, n) == Halt(result) && !s.Halt?
    ensures n > 0 && Steps(P, Step(P, s), n - 1) == Halt(result)
    ensures Step(P, s) != Abort
    ensures Step(P, s).Halt? ==> Step(P, s) == Halt(result)
  {
    hide Step;
    HaltStays(P, Step(P, s), n - 1);
  }

  lemma {:induction false} HaltStays(P: Prog, s: State, n: nat)
    ensures s.Halt? || s.Abort? ==> Steps(P, s, n) == s
    decreases n
  {
    if n > 0 && (s.Halt? || s.Abort?) {
      HaltStays(P, s, n - 1);
    }
  }

  lemma IndexAt(P: Prog, base: int, ins: seq<Instr>, s: State) returns (k: nat)
    requires Compiled(P, base, ins) && s.Run? && StateOk(ins, base, s) && s.pc >= 0
    ensures BoundaryAt(ins, base, s.pc, |s.stk|, Pending(s.bt), k)
    ensures Decode(P.code, s.pc) == Some(ins[k]) && Step(P, s) == StepRun(P, ins[k], s)
  {
    hide StepRun, Stands, StackOk, WellTyped, SizeAll, Depth, Nest, Decode;
    k :| BoundaryAt(ins, base, s.pc, |s.stk|, Pending(s.bt), k);
    InstrAt(P, base, ins, k);
  }

  /** What is known of the top entry while unwinding, and where its resumption leads. */
  lemma EntryFacts(P: Prog, base: nat, ins: seq<Instr>, s: State, bt: seq<Entry>)
    requires Compiled(P, base, ins) && bt != [] && (s == Fail(bt) || (s.Succeed? && s.bt == bt))
    requires StateOk(ins, base, s) && SoundState(P.env, s)
    requires Step(P, s) != Abort
    ensures var e := bt[|bt| - 1];
            && |e.stk| <= MaxDepth(ins) && |e.caps| == 2 * P.env.ncap && e.pos <= |P.env.subject.units|
            && (!e.Greedy? ==> e.pc >= 0)
            && (e.Greedy? && s.Fail? ==> StepFail(P, bt).Run? && StepFail(P, bt).pc >= 0)
  {
    hide MaxDepth, Stands, WellTyped, Sound, StepRun, Decode, Back, SizeAll, Depth, Nest;
    var rest, e := bt[..|bt| - 1], bt[|bt| - 1];
    StackPop(ins, base, bt);
    Inside(P.env, EntryState(e));
    if e.Greedy? {
      var k :| BoundaryAt(ins, base, e.pc - 1, |e.stk|, Pending(rest), k) && ins[k].SimpleGreedyQuant?;
      InstrAt(P, base, ins, k);
      Room(P, base, ins, Run(e.pc - 1, e.pos, e.caps, e.stk, rest), k);
      DepthAt(ins, k);
    } else {
      var k :| BoundaryAt(ins, base, e.pc, |e.stk|, Pending(rest), k);
      DepthAt(ins, k);
    }
  }

  lemma DepthAt(ins: seq<Instr>, k: nat)
    requires k <= |ins|
    ensures Typing.PlaceOf(ins[..k]).depth <= MaxDepth(ins) && Typing.PlaceOf(ins[..k]).offset >= 0
  {
    hide MaxDepth, Depth, SizeAll;
  }

  lemma StandsFits(P: Prog, base: int, ins: seq<Instr>, k: nat)
    requires Stands(P, base, ins) && k < |ins|
    ensures Fits(ins[k])
  {
  }

  /** What the static discipline grants an instruction: space to push, and targets in the code. */
  lemma Room(P: Prog, base: nat, ins: seq<Instr>, s: State, k: nat)
    requires Compiled(P, base, ins) && s.Run? && BoundaryAt(ins, base, s.pc, |s.stk|, Pending(s.bt), k)
    ensures s.pc == base + SizeAll(ins[..k])
    ensures !ins[k].Match? ==> k < |ins| - 1
    ensures ins[k].PushI32? || ins[k].PushCharPos? ==> |s.stk| < MaxDepth(ins)
    ensures Jump(ins[k]).Some? ==> s.pc + Size(ins[k]) + Jump(ins[k]).value >= 0
  {
    hide SizeAll, Depth, Nest, Size, Stands, WellTyped, MaxDepth;
    AtNext(ins, k);
    if Jump(ins[k]).Some? {
      JumpBoundary(P, base, ins, k);
    }
  }

  lemma NotEmpty(P: Prog, i: Instr, s: State)
    requires s.Run? && Needs(i) && StepRun(P, i, s) != Abort
    ensures s.stk != []
  {
  }

  lemma Inside(e: Env, m: M)
    requires Sound(e, m)
    ensures m.pos <= |e.subject.units| && |m.caps| == 2 * e.ncap
    ensures forall k :: 0 <= k < |m.caps| && m.caps[k].Some? ==> m.caps[k].value <= |e.subject.units|
  {
  }

  lemma OffsetNext(ins: seq<Instr>, k: nat)
    requires k < |ins|
    ensures SizeAll(ins[..k + 1]) == SizeAll(ins[..k]) + Size(ins[k])
  {
    assert ins[..k + 1][..k] == ins[..k];
  }

  lemma SimpleWithin(e: Env, i: Instr, pos: nat)
    requires pos <= |e.subject.units| && Simple(e, i, pos).Some?
    ensures Simple(e, i, pos).value <= |e.subject.units|
  {
  }
}
