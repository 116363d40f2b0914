/** Whatever code it runs, the machine never holds a position inside a surrogate pair: not as
    the current position, not in a capture, not in a saved state. */
module Positions {
  import opened Options
  import opened Opcodes
  import opened Text
  import opened Semantics
  import opened Soundness
  import opened Machine

  function EntryState(e: Entry): M {
    M(e.pos, e.caps)
  }

  ghost predicate SoundStack(e: Env, bt: seq<Entry>) {
    forall n :: 0 <= n < |bt| ==> Sound(e, EntryState(bt[n]))
  }

  ghost predicate SoundState(e: Env, s: State) {
    match s
    case Run(_, pos, caps, _, bt) => Sound(e, M(pos, caps)) && SoundStack(e, bt)
    case Succeed(caps, bt) => Sound(e, M(0, caps)) && SoundStack(e, bt)
    case Fail(bt) => SoundStack(e, bt)
    case Halt(Some(caps)) => Sound(e, M(0, caps))
    case _ => true
  }

  lemma SoundAt(e: Env, m: M, q: nat)
    requires Sound(e, m) && Aligned(e.subject, q)
    ensures Sound(e, m.(pos := q))
  {
  }

  lemma AlignedZero(s: Subject)
    ensures Aligned(s, 0)
  {
  }

  lemma SimpleAligned(e: Env, i: Instr, pos: nat)
    requires Aligned(e.subject, pos) && Simple(e, i, pos).Some?
    ensures Aligned(e.subject, Simple(e, i, pos).value)
  {
    hide Test, Holds, FromSurrogate;
    if pos < |e.subject.units| {
      PrevUndoesGet(e.subject, pos);
    }
  }

  lemma {:induction false} NestedAligned(P: Prog, pc: int, pos: nat)
    requires Aligned(P.env.subject, pos) && RunNested(P, pc, pos).Matched?
    ensures Aligned(P.env.subject, RunNested(P, pc, pos).pos)
    decreases |P.code| - pc
  {
    hide Simple, Decode, Aligned;
    var i := Decode(P.code, pc).value;
    if !i.Match? {
      SimpleAligned(P.env, i, pos);
      NestedAligned(P, pc + Size(i), Simple(P.env, i, pos).value);
    }
  }

  lemma {:induction false} GreedyAligned(P: Prog, pc: int, pos: nat, room: int, q: nat)
    requires Aligned(P.env.subject, pos) && RunGreedy(P, pc, pos, room, q).Some?
    ensures Aligned(P.env.subject, RunGreedy(P, pc, pos, room, q).value.0)
    decreases |P.env.subject.units| - pos
  {
    hide RunNested, Aligned;
    var r := RunNested(P, pc, pos);
    if r.Matched? {
      NestedAligned(P, pc, pos);
      if !(room <= 1) {
        GreedyAligned(P, pc, r.pos, Less(room), q + 1);
      }
    }
  }

  lemma {:induction false} BackAligned(e: Env, pos: nat, n: nat)
    requires Aligned(e.subject, pos)
    ensures Aligned(e.subject, Back(e, pos, n))
    decreases n
  {
    AlignedZero(e.subject);
    if n > 0 {
      if 0 < pos {
        GetUndoesPrev(e.subject, pos);
        BackAligned(e, GetPrevChar(e.subject, pos).1, n - 1);
      } else {
        BackAligned(e, 0, n - 1);
      }
    }
  }

  lemma {:induction false} RefForwardAligned(e: Env, icase: bool, p: nat, end: nat, pos: nat)
    requires Aligned(e.subject, pos) && RefForward(e, icase, p, end, pos).Some?
    ensures Aligned(e.subject, RefForward(e, icase, p, end, pos).value)
    decreases |e.subject.units| - p
  {
    if !(p >= end || p >= |e.subject.units|) {
      PrevUndoesGet(e.subject, pos);
      RefForwardAligned(e, icase, GetCharBefore(e.subject, p, end).1, end, GetChar(e.subject, pos).1);
    }
  }

  lemma {:induction false} RefBackwardAligned(e: Env, icase: bool, start: nat, p: nat, pos: nat)
    requires Aligned(e.subject, pos) && RefBackward(e, icase, start, p, pos).Some?
    ensures Aligned(e.subject, RefBackward(e, icase, start, p, pos).value)
    decreases p
  {
    if !(p <= start || p > |e.subject.units|) {
      GetUndoesPrev(e.subject, pos);
      RefBackwardAligned(e, icase, start, GetPrevCharFrom(e.subject, p, start).1, GetPrevChar(e.subject, pos).1);
    }
  }

  lemma SoundPush(e: Env, bt: seq<Entry>, x: Entry)
    requires SoundStack(e, bt) && Sound(e, EntryState(x))
    ensures SoundStack(e, bt + [x])
  {
    hide Sound;
  }

  lemma AlignedOf(e: Env, m: M)
    requires Sound(e, m)
    ensures Aligned(e.subject, m.pos) && Sound(e, M(0, m.caps))
  {
  }

  lemma RefStepSound(e: Env, i: Instr, s: State)
    requires i.BackRef? && s.Run? && SoundState(e, s)
    ensures SoundState(e, StepRef(e, i, s))
  {
    hide Sound, RefForward, RefBackward, Aligned;
    var r := StepRef(e, i, s);
    AlignedOf(e, Here(s));
    if r.Run? && r.pos != s.pos {
      var a, b := s.caps[2 * i.n], s.caps[2 * i.n + 1];
      if i.backward {
        RefBackwardAligned(e, i.icase, a.value, b.value, s.pos);
      } else {
        RefForwardAligned(e, i.icase, a.value, b.value, s.pos);
      }
      SoundAt(e, Here(s), r.pos);
    }
  }

  lemma GreedyStepSound(P: Prog, i: Instr, s: State)
    requires i.SimpleGreedyQuant? && s.Run? && SoundState(P.env, s)
    ensures SoundState(P.env, StepGreedy(P, i, s))
  {
    hide Sound, RunGreedy, Aligned;
    var r := StepGreedy(P, i, s);
    AlignedOf(P.env, Here(s));
    if RunGreedy(P, s.pc + 17, s.pos, i.max, 0).Some? {
      GreedyAligned(P, s.pc + 17, s.pos, i.max, 0);
      var (pos, q) := RunGreedy(P, s.pc + 17, s.pos, i.max, 0).value;
      SoundAt(P.env, Here(s), pos);
      SoundPush(P.env, s.bt, Greedy(s.pc + 1, pos, s.caps, s.stk, if q > i.min then q - i.min else 0));
    }
  }

  lemma StackStepSound(e: Env, i: Instr, s: State)
    requires s.Run? && SoundState(e, s)
    ensures SoundState(e, StepStack(i, s))
  {
    hide Sound, SoundStack;
  }

  lemma RunSound(P: Prog, i: Instr, s: State)
    requires s.Run? && SoundState(P.env, s)
    ensures SoundState(P.env, StepRun(P, i, s))
  {
    hide Sound, SoundStack, StepRef, StepGreedy, StepStack, Simple, Aligned, SetCap, Reset, GetPrevChar, ReadsChar,
         IsAssertion;
    var e := P.env;
    var m := Here(s);
    AlignedOf(e, m);
    match i
    case BackRef(_, _, _) => RefStepSound(e, i, s);
    case SimpleGreedyQuant(_, _, _, _) => GreedyStepSound(P, i, s);
    case Split(gotoFirst, off) =>
      SoundPush(e, s.bt, Choice(if gotoFirst then s.pc + 5 else s.pc + 5 + off, s.pos, s.caps, s.stk));
    case Lookahead(neg, off) => SoundPush(e, s.bt, Ahead(neg, s.pc + 5 + off, s.pos, s.caps, s.stk));
    case Save(end, n) =>
      if 0 <= n { SetCapSound(e, m, 2 * n + Bit(end)); }
    case SaveReset(first, last) =>
      if 0 <= first <= last + 1 { ResetSound(e, m, first, last + 1 - first); }
    case Prev =>
      if 0 < s.pos <= |e.subject.units| {
        GetUndoesPrev(e.subject, s.pos);
        SoundAt(e, m, GetPrevChar(e.subject, s.pos).1);
      }
    case _ =>
      StackStepSound(e, i, s);
      if Simple(e, i, s.pos).Some? {
        SimpleAligned(e, i, s.pos);
        SoundAt(e, m, Simple(e, i, s.pos).value);
      }
  }

  lemma FailSound(P: Prog, bt: seq<Entry>)
    requires SoundStack(P.env, bt)
    ensures SoundState(P.env, StepFail(P, bt))
  {
    hide Sound, Back, Aligned;
    if bt != [] {
      var rest, x := bt[..|bt| - 1], bt[|bt| - 1];
      if x.Greedy? && x.pc >= 1 && Decode(P.code, x.pc - 1).Some? && Decode(P.code, x.pc - 1).value.SimpleGreedyQuant? {
        var n := Decode(P.code, x.pc - 1).value.count;
        if n >= 0 {
          AlignedOf(P.env, EntryState(x));
          BackAligned(P.env, x.pos, n);
          var pos := Back(P.env, x.pos, n);
          SoundAt(P.env, EntryState(x), pos);
          SoundPush(P.env, rest, Greedy(x.pc, pos, x.caps, x.stk, if x.count <= 1 then 0 else x.count - 1));
        }
      }
    }
  }

  lemma SucceedSound(e: Env, caps: seq<Option<nat>>, bt: seq<Entry>)
    requires Sound(e, M(0, caps)) && SoundStack(e, bt)
    ensures SoundState(e, StepSucceed(caps, bt))
  {
  }

  /** One step of the machine, on any code at all, keeps every position it holds off the middle
      of surrogate pairs. */
  lemma StepSound(P: Prog, s: State)
    requires SoundState(P.env, s)
    ensures SoundState(P.env, Step(P, s))
  {
    hide Sound, SoundStack, StepRun, StepFail, StepSucceed, Decode;
    match s
    case Run(pc, pos, caps, _, _) =>
      if pc >= 0 && Decode(P.code, pc).Some? {
        RunSound(P, Decode(P.code, pc).value, s);
      }
    case Fail(bt) => FailSound(P, bt);
    case Succeed(caps, bt) => SucceedSound(P.env, caps, bt);
    case _ =>
  }

  lemma {:induction false} StepsSound(P: Prog, s: State, n: nat)
    requires SoundState(P.env, s)
    ensures SoundState(P.env, Steps(P, s, n))
    decreases n
  {
    hide SoundState, Step;
    if n > 0 {
      StepSound(P, s);
      StepsSound(P, Step(P, s), n - 1);
    }
  }
}
