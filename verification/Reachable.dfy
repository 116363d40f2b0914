/** What holds in every state the machine reaches on a compiled program. */
module Reachable {
  import opened Options
  import opened Opcodes
  import opened Emission
  import opened Machine
  import opened Typing
  import opened Loops
  import opened Fragments

  /** The number of lookarounds whose bodies are being matched. */
  function Pending(bt: seq<Entry>): nat {
    if bt == [] then 0 else Pending(bt[..|bt| - 1]) + if bt[|bt| - 1].Ahead? then 1 else 0
  }

  lemma PendingPush(bt: seq<Entry>, e: Entry)
    ensures Pending(bt + [e]) == Pending(bt) + if e.Ahead? then 1 else 0
  {
    assert (bt + [e])[..|bt|] == bt;
  }

  /** `pc` is the boundary before an instruction; the scan's depth there is `depth`, and the
      nesting is `nest`. */
  ghost predicate Boundary(ins: seq<Instr>, base: int, pc: int, depth: int, nest: int) {
    exists k :: BoundaryAt(ins, base, pc, depth, nest, k)
  }

  ghost predicate BoundaryAt(ins: seq<Instr>, base: int, pc: int, depth: int, nest: int, k: int) {
    0 <= k < |ins| && PlaceOf(ins[..k]) == Place(pc - base, depth, nest)
  }

  /** A saved entry resumes at a boundary, with the depth and nesting of that boundary. */
  ghost predicate EntryOk(ins: seq<Instr>, base: int, e: Entry, below: seq<Entry>) {
    match e
    case Greedy(pc, _, _, stk, _) =>
      exists k :: BoundaryAt(ins, base, pc - 1, |stk|, Pending(below), k) && ins[k].SimpleGreedyQuant?
    case _ => Boundary(ins, base, e.pc, |e.stk|, Pending(below))
  }

  ghost predicate StackOk(ins: seq<Instr>, base: int, bt: seq<Entry>) {
    forall n :: 0 <= n < |bt| ==> EntryOk(ins, base, bt[n], bt[..n])
  }

  /** In every running state the operand stack has the depth scanned for `pc`, and the pending
      lookarounds are those that statically enclose `pc`; the same for every saved entry. */
  ghost predicate StateOk(ins: seq<Instr>, base: int, s: State) {
    match s
    case Run(pc, _, _, stk, bt) => Boundary(ins, base, pc, |stk|, Pending(bt)) && StackOk(ins, base, bt)
    case Succeed(_, bt) => StackOk(ins, base, bt)
    case Fail(bt) => StackOk(ins, base, bt)
    case _ => true
  }

  lemma StackPush(ins: seq<Instr>, base: int, bt: seq<Entry>, e: Entry)
    requires StackOk(ins, base, bt) && EntryOk(ins, base, e, bt)
    ensures StackOk(ins, base, bt + [e])
  {
    hide EntryOk;
    var all := bt + [e];
    forall n | 0 <= n < |all|
      ensures EntryOk(ins, base, all[n], all[..n])
    {
      if n < |bt| {
        assert all[..n] == bt[..n];
      } else {
        assert all[..n] == bt;
      }
    }
  }

  lemma StackPop(ins: seq<Instr>, base: int, bt: seq<Entry>)
    requires StackOk(ins, base, bt) && bt != []
    ensures StackOk(ins, base, bt[..|bt| - 1]) && EntryOk(ins, base, bt[|bt| - 1], bt[..|bt| - 1])
  {
    hide EntryOk;
    var rest := bt[..|bt| - 1];
    forall n | 0 <= n < |rest|
      ensures EntryOk(ins, base, rest[n], rest[..n])
    {
      assert rest[..n] == bt[..n];
    }
  }

  /** A program: a well-typed fragment and the final match, standing at `base`. */
  ghost predicate Compiled(P: Prog, base: int, ins: seq<Instr>) {
    && Stands(P, base, ins)
    && ins != [] && ins[|ins| - 1] == Match
    && WellTyped(ins[..|ins| - 1])
  }

  lemma InstrAt(P: Prog, base: int, ins: seq<Instr>, k: nat)
    requires Stands(P, base, ins) && k < |ins|
    ensures Is(P, base + SizeAll(ins[..k]), ins[k])
  {
    hide Stands, SizeAll, Is;
    assert ins == ins[..k] + ([ins[k]] + ins[k + 1..]);
    StandsSplit(P, base, ins[..k], [ins[k]] + ins[k + 1..]);
    StandsFirst(P, base + SizeAll(ins[..k]), ins[k], ins[k + 1..]);
  }

  /** Falling through to the next instruction. */
  lemma NextBoundary(P: Prog, base: int, ins: seq<Instr>, k: nat)
    requires Compiled(P, base, ins) && k < |ins| - 1
    ensures var p := PlaceOf(ins[..k]);
            Boundary(ins, base, base + p.offset + Size(ins[k]), p.depth + DepthStep(ins[k]), p.nest + NestStep(ins[k]))
  {
    hide PlaceOf, Stands, WellTyped, Size, DepthStep, NestStep;
    AtNext(ins, k);
    var p := PlaceOf(ins[..k]);
    assert BoundaryAt(ins, base, base + p.offset + Size(ins[k]), p.depth + DepthStep(ins[k]),
                      p.nest + NestStep(ins[k]), k + 1);
  }

  /** Following a jump. */
  lemma JumpBoundary(P: Prog, base: int, ins: seq<Instr>, k: nat)
    requires Compiled(P, base, ins) && k < |ins| && Jump(ins[k]).Some?
    ensures var p := PlaceOf(ins[..k]);
            Boundary(ins, base, base + p.offset + Size(ins[k]) + Jump(ins[k]).value, p.depth, p.nest)
  {
    hide PlaceOf, Stands, Size;
    var frag := ins[..|ins| - 1];
    assert k < |frag| && OkAt(frag, k) && frag[k] == ins[k];
    assert frag[..k] == ins[..k];
    var j :| 0 <= j <= |frag| && PlaceOf(frag[..j]) == Landing(frag, k);
    assert frag[..j] == ins[..j];
    var p := PlaceOf(ins[..k]);
    assert BoundaryAt(ins, base, base + p.offset + Size(ins[k]) + Jump(ins[k]).value, p.depth, p.nest, j);
  }

  lemma KeepsLast(P: Prog, base: int, ins: seq<Instr>, k: nat)
    requires Compiled(P, base, ins) && k < |ins| && !ins[k].Match?
    ensures k < |ins| - 1
  {
  }

  /** The instructions that leave the backtrack stack alone or fail. */
  predicate Local(i: Instr) {
    !i.Match? && !i.Split? && !i.Lookahead? && !i.SimpleGreedyQuant?
  }

  lemma LocalStep(P: Prog, i: Instr, s: State)
    requires s.Run? && Local(i)
    ensures var r := StepRun(P, i, s);
            || r == Abort || r == Fail(s.bt)
            || (r.Run? && r.bt == s.bt && |r.stk| == |s.stk| + DepthStep(i) && r.pc == s.pc + Size(i) && !i.Goto?)
            || (r.Run? && r.bt == s.bt && |r.stk| == |s.stk| && Jump(i).Some? && r.pc == s.pc + Size(i) + Jump(i).value)
  {
    hide Simple, RefForward, RefBackward;
  }

  lemma StepLocalOk(P: Prog, base: int, ins: seq<Instr>, s: State, k: nat)
    requires Compiled(P, base, ins) && s.Run? && StackOk(ins, base, s.bt)
    requires BoundaryAt(ins, base, s.pc, |s.stk|, Pending(s.bt), k) && Local(ins[k])
    ensures StateOk(ins, base, StepRun(P, ins[k], s))
  {
    hide PlaceOf, StackOk, StepRun, Size, Stands, WellTyped, DepthStep;
    LocalStep(P, ins[k], s);
    KeepsLast(P, base, ins, k);
    NextBoundary(P, base, ins, k);
    assert NestStep(ins[k]) == 0;
    if Jump(ins[k]).Some? {
      JumpBoundary(P, base, ins, k);
    }
  }

  lemma StepPushOk(P: Prog, base: int, ins: seq<Instr>, s: State, k: nat)
    requires Compiled(P, base, ins) && s.Run? && StackOk(ins, base, s.bt)
    requires BoundaryAt(ins, base, s.pc, |s.stk|, Pending(s.bt), k) && !Local(ins[k])
    ensures StateOk(ins, base, StepRun(P, ins[k], s))
  {
    hide PlaceOf, StackOk, RunGreedy, Stands, WellTyped;
    var i := ins[k];
    if !i.Match? {
      KeepsLast(P, base, ins, k);
      NextBoundary(P, base, ins, k);
      JumpBoundary(P, base, ins, k);
      var r := StepRun(P, i, s);
      if r.Run? && r.bt != s.bt {
        var e := r.bt[|s.bt|];
        assert r.bt == s.bt + [e];
        PendingPush(s.bt, e);
        StackPush(ins, base, s.bt, e);
      }
    }
  }

  lemma StepFailOk(P: Prog, base: int, ins: seq<Instr>, bt: seq<Entry>)
    requires Compiled(P, base, ins) && StackOk(ins, base, bt)
    ensures StateOk(ins, base, StepFail(P, bt))
  {
    hide PlaceOf, StackOk, Back, Stands, WellTyped;
    if bt != [] {
      var rest, e := bt[..|bt| - 1], bt[|bt| - 1];
      StackPop(ins, base, bt);
      if e.Greedy? {
        var k :| BoundaryAt(ins, base, e.pc - 1, |e.stk|, Pending(rest), k) && ins[k].SimpleGreedyQuant?;
        AtOffset(ins[..k]);
        InstrAt(P, base, ins, k);
        JumpBoundary(P, base, ins, k);
        var r := StepFail(P, bt);
        if r.Run? && r.bt != rest {
          var e' := r.bt[|rest|];
          assert r.bt == rest + [e'];
          PendingPush(rest, e');
          StackPush(ins, base, rest, e');
        }
      }
    }
  }

  lemma AtOffset(ins: seq<Instr>)
    ensures PlaceOf(ins).offset == SizeAll(ins)
  {
  }

  lemma StepSucceedOk(P: Prog, base: int, ins: seq<Instr>, caps: seq<Option<nat>>, bt: seq<Entry>)
    requires StackOk(ins, base, bt)
    ensures StateOk(ins, base, StepSucceed(caps, bt))
  {
    hide StackOk;
    if bt != [] {
      StackPop(ins, base, bt);
    }
  }

  /** Jump integrity, exact stack depth and lookaround nesting are invariant. */
  lemma StepOk(P: Prog, base: int, ins: seq<Instr>, s: State)
    requires Compiled(P, base, ins) && StateOk(ins, base, s)
    ensures StateOk(ins, base, Step(P, s))
  {
    hide PlaceOf, StackOk, StepRun, StepFail, StepSucceed, Stands, WellTyped, Decode;
    match s
    case Run(pc, _, _, stk, bt) =>
      var k :| BoundaryAt(ins, base, pc, |stk|, Pending(bt), k);
      AtOffset(ins[..k]);
      InstrAt(P, base, ins, k);
      if Local(ins[k]) {
        StepLocalOk(P, base, ins, s, k);
      } else {
        StepPushOk(P, base, ins, s, k);
      }
    case Fail(bt) => StepFailOk(P, base, ins, bt);
    case Succeed(caps, bt) => StepSucceedOk(P, base, ins, caps, bt);
    case _ =>
  }

  lemma {:induction false} AlwaysOk(P: Prog, base: int, ins: seq<Instr>, s: State, n: nat)
    requires Compiled(P, base, ins) && StateOk(ins, base, s)
    ensures StateOk(ins, base, Steps(P, s, n))
    decreases n
  {
    hide StateOk, Compiled, Step;
    if n > 0 {
      StepOk(P, base, ins, s);
      AlwaysOk(P, base, ins, Step(P, s), n - 1);
    }
  }

  /** The largest depth the scan meets: what compute_stack_size records. */
  function MaxDepth(ins: seq<Instr>): (r: int)
    ensures r >= 0
    ensures forall k :: 0 <= k <= |ins| ==> Depth(ins[..k]) <= r
  {
    if ins == [] then 0
    else
      var init := ins[..|ins| - 1];
      var r := MaxDepth(init);
      assert forall k :: 0 <= k <= |init| ==> ins[..k] == init[..k];
      assert ins[..|ins|] == ins;
      if Depth(ins) > r then Depth(ins) else r
  }

  /** The operand stack never grows past the recorded size, and it is not empty where the
      instruction at hand takes something from it. */
  lemma WithinStack(P: Prog, base: int, ins: seq<Instr>, s: State, n: nat)
    requires Compiled(P, base, ins) && StateOk(ins, base, s)
    requires Steps(P, s, n).Run?
    ensures var t := Steps(P, s, n);
            && |t.stk| <= MaxDepth(ins)
            && exists k :: BoundaryAt(ins, base, t.pc, |t.stk|, Pending(t.bt), k) && (Needs(ins[k]) ==> t.stk != [])
  {
    AlwaysOk(P, base, ins, s, n);
    var t := Steps(P, s, n);
    DepthBound(ins, base, t);
    var k :| BoundaryAt(ins, base, t.pc, |t.stk|, Pending(t.bt), k);
    hide Steps, MaxDepth, StackOk, PlaceOf, Stands;
    if Needs(ins[k]) { NeedsOperand(P, base, ins, k); }
  }

  /** The match that ends the program comes with no lookaround pending, and any other with one. */
  lemma MatchPends(P: Prog, base: int, ins: seq<Instr>, s: State, n: nat)
    requires Compiled(P, base, ins) && StateOk(ins, base, s)
    requires Steps(P, s, n).Run?
    ensures var t := Steps(P, s, n);
            exists k :: BoundaryAt(ins, base, t.pc, |t.stk|, Pending(t.bt), k) &&
                        (ins[k].Match? ==> (k == |ins| - 1 <==> Pending(t.bt) == 0))
  {
    AlwaysOk(P, base, ins, s, n);
    var t := Steps(P, s, n);
    var k :| BoundaryAt(ins, base, t.pc, |t.stk|, Pending(t.bt), k);
    hide Steps, StackOk, PlaceOf, Stands;
    var body := ins[..|ins| - 1];
    if k == |ins| - 1 {
      assert body == ins[..k];
    } else {
      assert OkAt(body, k);
      assert body[..k] == ins[..k];
    }
  }

  lemma NeedsOperand(P: Prog, base: int, ins: seq<Instr>, k: nat)
    requires Compiled(P, base, ins) && k < |ins| && Needs(ins[k])
    ensures PlaceOf(ins[..k]).depth >= 1
  {
    hide PlaceOf, Stands;
    var body := ins[..|ins| - 1];
    assert k < |body|;
    assert OkAt(body, k);
    assert body[..k] == ins[..k];
  }

  lemma DepthBound(ins: seq<Instr>, base: int, s: State)
    requires s.Run? && StateOk(ins, base, s)
    ensures |s.stk| <= MaxDepth(ins)
  {
    hide MaxDepth, StackOk;
    var k :| BoundaryAt(ins, base, s.pc, |s.stk|, Pending(s.bt), k);
  }
}
