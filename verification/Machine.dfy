/** The interpreter loop of lre_exec_backtrack, one instruction or one backtracking move at a
    time. Stacks grow at the end, as in the arrays they model. */
module Machine {
  import opened Options
  import opened Bytes
  import opened Opcodes
  import opened Text
  import opened Semantics

  /** A compiled program, byte for byte, and the setting it runs in. */
  datatype Prog = Prog(code: seq<byte>, env: Env)

  /** REExecState. `pc` of a Greedy entry points at the operands of its instruction. */
  datatype Entry =
    | Choice(pc: int, pos: nat, caps: seq<Option<nat>>, stk: seq<int>)
    | Ahead(neg: bool, pc: int, pos: nat, caps: seq<Option<nat>>, stk: seq<int>)
    | Greedy(pc: int, pos: nat, caps: seq<Option<nat>>, stk: seq<int>, count: nat)

  /** Run: about to execute at `pc`. Succeed and Fail: unwinding the backtrack stack with
      `ret` 1 or 0. Halt: the result of the call, with the captures of a match. Abort: an
      instruction that no compiled program reaches. */
  datatype State =
    | Run(pc: int, pos: nat, caps: seq<Option<nat>>, stk: seq<int>, bt: seq<Entry>)
    | Succeed(caps: seq<Option<nat>>, bt: seq<Entry>)
    | Fail(bt: seq<Entry>)
    | Halt(result: Option<seq<Option<nat>>>)
    | Abort

  const UINTPTR_MOD: int := 0x1_0000_0000_0000_0000

  /** The bounds of a range instruction contain `c`; a last 16-bit bound of 0xffff is infinite. */
  predicate InBounds(wide: bool, bounds: seq<int>, c: int) {
    || (!wide && c >= 0xffff && |bounds| > 0 && bounds[|bounds| - 1] == 0xffff)
    || exists k :: 0 <= k < |bounds| / 2 && bounds[2 * k] <= c <= bounds[2 * k + 1]
  }

  /** The test of an instruction that reads a character. */
  predicate Test(e: Env, i: Instr, c: int) {
    match i
    case Char(_, icase, x) => Fold(e, icase, c) == x
    case Dot => !IsLineTerminator(c)
    case Any => true
    case Range(wide, icase, bounds) => InBounds(wide, bounds, Fold(e, icase, c))
    case _ => false
  }

  predicate Holds(e: Env, i: Instr, pos: nat) {
    match i
    case LineStart(multi) => LineEdge(e, true, multi, pos)
    case LineEnd(multi) => LineEdge(e, false, multi, pos)
    case WordBoundary(neg, icase) => (WordAt(e, icase, true, pos) == WordAt(e, icase, false, pos)) == neg
    case _ => false
  }

  /** Where an instruction that only reads or tests leaves the position, if it succeeds. */
  function Simple(e: Env, i: Instr, pos: nat): Option<nat> {
    if ReadsChar(i) then
      match Next(e, false, pos)
      case None => None
      case Some((c, q)) => if Test(e, i, c) then Some(q) else None
    else if Holds(e, i, pos) then Some(pos) else None
  }

  /** The nested call made by simple_greedy_quant (no_recurse): it returns the position at
      `match`, or None for no match. A body with any other instruction is Stuck. */
  datatype Nested = Matched(pos: nat) | NoMatch | Stuck

  function RunNested(P: Prog, pc: int, pos: nat): Nested
    decreases |P.code| - pc
  {
    if pc < 0 then Stuck else
    match Decode(P.code, pc)
    case None => Stuck
    case Some(i) =>
      if i.Match? then Matched(pos)
      else if !(ReadsChar(i) || IsAssertion(i)) then Stuck
      else
        match Simple(P.env, i, pos)
        case None => NoMatch
        case Some(q) => RunNested(P, pc + Size(i), q)
  }

  /** The counting loop of simple_greedy_quant: how far and how often the body at `pc` matches,
      when `room` more iterations are allowed. None if an iteration does not move, which would
      not terminate. */
  function RunGreedy(P: Prog, pc: int, pos: nat, room: int, q: nat): Option<(nat, nat)>
    decreases |P.env.subject.units| - pos
  {
    match RunNested(P, pc, pos)
    case Stuck => None
    case NoMatch => Some((pos, q))
    case Matched(pos') =>
      if room <= 1 then Some((pos', q + 1))
      else if pos < pos' <= |P.env.subject.units| then RunGreedy(P, pc, pos', Less(room), q + 1)
      else None
  }

  /** `n` steps back (PREV_CHAR). */
  function Back(e: Env, pos: nat, n: nat): nat {
    if n == 0 then pos
    else if 0 < pos <= |e.subject.units| then Back(e, GetPrevChar(e.subject, pos).1, n - 1)
    else Back(e, 0, n - 1)
  }

  /** Forward comparison with the captured span [p, end). */
  function RefForward(e: Env, icase: bool, p: nat, end: nat, pos: nat): Option<nat>
    decreases |e.subject.units| - p
  {
    if p >= end || p >= |e.subject.units| then Some(pos)
    else if pos >= |e.subject.units| then None
    else
      var (c1, p') := GetCharBefore(e.subject, p, end);
      var (c2, pos') := GetChar(e.subject, pos);
      if Fold(e, icase, c1) != Fold(e, icase, c2) then None else RefForward(e, icase, p', end, pos')
  }

  /** Backward comparison with the captured span [start, p). */
  function RefBackward(e: Env, icase: bool, start: nat, p: nat, pos: nat): Option<nat> {
    if p <= start || p > |e.subject.units| then Some(pos)
    else if pos == 0 || pos > |e.subject.units| then None
    else
      var (c1, p') := GetPrevCharFrom(e.subject, p, start);
      var (c2, pos') := GetPrevChar(e.subject, pos);
      if Fold(e, icase, c1) != Fold(e, icase, c2) then None else RefBackward(e, icase, start, p', pos')
  }

  function Here(s: State): M
    requires s.Run?
  {
    M(s.pos, s.caps)
  }

  function StepRef(e: Env, i: Instr, s: State): State
    requires i.BackRef? && s.Run?
  {
    var next := s.(pc := s.pc + 2);
    if i.n < 0 || |s.caps| != 2 * e.ncap then Abort
    else if i.n >= e.ncap then Fail(s.bt)
    else
      var a, b := s.caps[2 * i.n], s.caps[2 * i.n + 1];
      if a.None? || b.None? then next
      else
        match (if i.backward then RefBackward(e, i.icase, a.value, b.value, s.pos)
               else RefForward(e, i.icase, a.value, b.value, s.pos))
        case None => Fail(s.bt)
        case Some(q) => next.(pos := q)
  }

  function StepGreedy(P: Prog, i: Instr, s: State): State
    requires i.SimpleGreedyQuant? && s.Run?
  {
    match RunGreedy(P, s.pc + 17, s.pos, i.max, 0)
    case None => Abort
    case Some((pos, q)) =>
      if q < i.min then Fail(s.bt)
      else
        var next := s.(pc := s.pc + 17 + i.next, pos := pos);
        if q > i.min
        then Run(next.pc, pos, s.caps, s.stk, s.bt + [Greedy(s.pc + 1, pos, s.caps, s.stk, q - i.min)])
        else next
  }

  function StepStack(i: Instr, s: State): State
    requires s.Run?
  {
    var n := |s.stk|;
    var next := s.(pc := s.pc + Size(i));
    if i.PushI32? then next.(stk := s.stk + [i.v])
    else if i.PushCharPos? then next.(stk := s.stk + [s.pos])
    else if n == 0 then Abort
    else if i.Drop? then next.(stk := s.stk[..n - 1])
    else if i.CheckAdvance? then
      if s.stk[n - 1] == s.pos then Fail(s.bt) else next.(stk := s.stk[..n - 1])
    else if i.Loop? then
      var v := (s.stk[n - 1] - 1) % UINTPTR_MOD;
      var looped := next.(stk := s.stk[n - 1 := v]);
      if v != 0 then looped.(pc := s.pc + 5 + i.off) else looped
    else Abort
  }

  function StepRun(P: Prog, i: Instr, s: State): State
    requires s.Run?
  {
    var next := s.(pc := s.pc + Size(i));
    match i
    case Match => Succeed(s.caps, s.bt)
    case Split(gotoFirst, off) =>
      var other := if gotoFirst then s.pc + 5 else s.pc + 5 + off;
      Run(if gotoFirst then s.pc + 5 + off else s.pc + 5, s.pos, s.caps, s.stk,
          s.bt + [Choice(other, s.pos, s.caps, s.stk)])
    case Lookahead(neg, off) =>
      Run(s.pc + 5, s.pos, s.caps, s.stk, s.bt + [Ahead(neg, s.pc + 5 + off, s.pos, s.caps, s.stk)])
    case Goto(off) => s.(pc := s.pc + 5 + off)
    case Save(end, n) =>
      if 0 <= n && 2 * n + 1 < |s.caps|
      then Run(next.pc, s.pos, SetCap(Here(s), 2 * n + Bit(end)).caps, s.stk, s.bt) else Abort
    case SaveReset(first, last) =>
      if 0 <= first <= last + 1 && 2 * last + 1 < |s.caps|
      then Run(next.pc, s.pos, Reset(Here(s), first, last + 1 - first).caps, s.stk, s.bt) else Abort
    case BackRef(_, _, _) => StepRef(P.env, i, s)
    case SimpleGreedyQuant(_, _, _, _) => StepGreedy(P, i, s)
    case Prev =>
      if 0 < s.pos <= |P.env.subject.units|
      then next.(pos := GetPrevChar(P.env.subject, s.pos).1) else Fail(s.bt)
    case _ =>
      if ReadsChar(i) || IsAssertion(i) then
        match Simple(P.env, i, s.pos)
        case None => Fail(s.bt)
        case Some(q) => next.(pos := q)
      else StepStack(i, s)
  }

  /** Popping the top entry when the current path has failed. */
  function StepFail(P: Prog, bt: seq<Entry>): State {
    if bt == [] then Halt(None)
    else
      var rest, e := bt[..|bt| - 1], bt[|bt| - 1];
      match e
      case Choice(pc, pos, caps, stk) => Run(pc, pos, caps, stk, rest)
      case Ahead(neg, pc, pos, caps, stk) => if neg then Run(pc, pos, caps, stk, rest) else Fail(rest)
      case Greedy(pc, pos, caps, stk, count) =>
        if pc < 1 then Abort else
        match Decode(P.code, pc - 1)
        case Some(SimpleGreedyQuant(next, _, _, n)) =>
          if n < 0 then Abort
          else
            var pos' := Back(P.env, pos, n);
            Run(pc + 16 + next, pos', caps, stk,
                if count <= 1 then rest else rest + [Greedy(pc, pos', caps, stk, count - 1)])
        case _ => Abort
  }

  /** Popping the top entry after `match`: choices are discarded, a lookaround is resolved. */
  function StepSucceed(caps: seq<Option<nat>>, bt: seq<Entry>): State {
    if bt == [] then Halt(Some(caps))
    else
      var rest, e := bt[..|bt| - 1], bt[|bt| - 1];
      match e
      case Ahead(neg, pc, pos, _, stk) => if neg then Fail(rest) else Run(pc, pos, caps, stk, rest)
      case _ => Succeed(caps, rest)
  }

  function Step(P: Prog, s: State): State {
    match s
    case Run(pc, _, _, _, _) =>
      if pc < 0 then Abort else
      (match Decode(P.code, pc)
       case None => Abort
       case Some(i) => StepRun(P, i, s))
    case Succeed(caps, bt) => StepSucceed(caps, bt)
    case Fail(bt) => StepFail(P, bt)
    case _ => s
  }

  function Steps(P: Prog, s: State, n: nat): State
    decreases n
  {
    if n == 0 then s else Steps(P, Step(P, s), n - 1)
  }
}
