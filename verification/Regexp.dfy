/** The two entry points together: a pattern compiled by lre_compile and run by lre_exec gives
    exactly the match that the reference semantics prescribes. */
module Regexp {
  import opened Options
  import opened Bytes
  import opened Opcodes
  import opened Text
  import opened Syntax
  import opened Emission
  import opened Semantics
  import opened Machine
  import opened Typing
  import opened Discipline
  import opened Fragments
  import opened Reachable
  import opened Positions
  import opened Program
  import opened Fitting
  import opened Compiler
  import opened Executor

  /** The code behind the header stands in the program, and is well typed. */
  lemma CodeStands(P: Prog, flags: Flags, sticky: bool, alts: seq<Alt>)
    requires ValidAlts(alts) && ValidEnv(P.env) && CompiledTo(P.code, P.env.canon, flags, sticky, alts)
    ensures Stands(P, RE_HEADER_LEN, ProgramCode(P.env.canon, flags, sticky, alts))
    ensures Compiled(P, RE_HEADER_LEN, ProgramCode(P.env.canon, flags, sticky, alts))
  {
    hide EncodeAll, SizeAll, EmitTerm, WellTyped, MaxDepth, ValidAlts, SmallClassesAlts, NumCapsAlts, Fits, Fragment;
    var code := ProgramCode(P.env.canon, flags, sticky, alts);
    ProgramFits(P.env.canon, flags, sticky, alts);
    TypedProgram(P.env.canon, flags, sticky, alts);
    assert P.code[RE_HEADER_LEN..RE_HEADER_LEN + |EncodeAll(code)|] == P.code[RE_HEADER_LEN..];
  }

  lemma StartOk(P: Prog, ins: seq<Instr>, base: int, pos: nat)
    requires Compiled(P, base, ins) && Aligned(P.env.subject, pos)
    ensures StateOk(ins, base, Start(base, pos, P.env.ncap, []))
    ensures SoundState(P.env, Start(base, pos, P.env.ncap, []))
  {
    hide Stands, WellTyped;
    AtNothing();
    assert ins[..0] == [];
    assert BoundaryAt(ins, base, base, 0, 0, 0);
    assert Pending([]) == 0;
  }

  /** Execution of compiled code halts, with the result of the reference. */
  lemma ProgramHalts(P: Prog, flags: Flags, sticky: bool, alts: seq<Alt>, pos: nat) returns (n: nat)
    requires ValidAlts(alts) && ValidEnv(P.env) && CompiledTo(P.code, P.env.canon, flags, sticky, alts)
    requires P.env.ncap == P.code[RE_HEADER_CAPTURE_COUNT] && Aligned(P.env.subject, pos)
    ensures Steps(P, Start(RE_HEADER_LEN, pos, P.env.ncap, []), n)
            == Halt(CapsOf(FirstMatch(P.env, flags, sticky, alts, pos)))
  {
    hide EncodeAll, SizeAll, EmitTerm, MaxDepth, ValidAlts, SmallClassesAlts, NumCapsAlts, FirstMatch, Stands,
         ProgramCode, Steps;
    CodeStands(P, flags, sticky, alts);
    ProgramCorrect(P, flags, sticky, alts, RE_HEADER_LEN, pos);
    n :| Steps(P, Start(RE_HEADER_LEN, pos, P.env.ncap, []), n)
      == Halt(CapsOf(FirstMatch(P.env, flags, sticky, alts, pos)));
  }

  /** lre_exec. `capture` has two slots for every group counted in the header. */
  method LreExec(capture: array<Option<nat>>, bc: seq<byte>, subject: Subject, canon: int -> int, cindex: nat,
                 ghost flags: Flags, ghost sticky: bool, ghost alts: seq<Alt>)
    returns (ret: bool)
    requires ValidAlts(alts) && CompiledTo(bc, canon, flags, sticky, alts)
    requires ValidEnv(Env(subject, canon, bc[RE_HEADER_CAPTURE_COUNT]))
    requires capture.Length == 2 * (bc[RE_HEADER_CAPTURE_COUNT] as int) && cindex <= |subject.units|
    modifies capture
    ensures var e := Env(subject, canon, bc[RE_HEADER_CAPTURE_COUNT]);
            CapsOf(FirstMatch(e, flags, sticky, alts, StartAt(subject, cindex)))
            == if ret then Some(capture[..]) else None
  {
    hide EncodeAll, SizeAll, EmitTerm, MaxDepth, ValidAlts, SmallClassesAlts, NumCapsAlts, FirstMatch, Stands,
         ProgramCode, StateOk, SoundState, WellTyped, Steps, ValidEnv;
    var P := Prog(bc, Env(subject, canon, bc[RE_HEADER_CAPTURE_COUNT]));
    ghost var code := ProgramCode(canon, flags, sticky, alts);
    var i := 0;
    while i < capture.Length
      invariant 0 <= i <= capture.Length && forall k :: 0 <= k < i ==> capture[k] == None
    {
      capture[i] := None;
      i := i + 1;
    }
    assert capture[..] == NoCaps(P.env.ncap);
    var cptr := StartAt(subject, cindex);
    CodeStands(P, flags, sticky, alts);
    var s := new REExecContext(P, code, RE_HEADER_LEN, capture, bc[RE_HEADER_STACK_SIZE], cptr);
    ghost var n := ProgramHalts(P, flags, sticky, alts, cptr);
    StartOk(P, code, RE_HEADER_LEN, cptr);
    assert s.Running() == Start(RE_HEADER_LEN, cptr, P.env.ncap, []);
    ret := s.ExecBacktrack(CapsOf(FirstMatch(P.env, flags, sticky, alts, cptr)), n);
  }
}
