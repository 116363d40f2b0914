/** Classes with strings, outside lookbehind: the code that re_emit_string_list lays out for a
    list of strings, a set of characters and perhaps the empty string, and what it matches. */
module ClassStrings {
  import opened Options
  import opened Opcodes
  import opened Points
  import opened Syntax
  import opened Emission
  import opened Semantics
  import opened Machine
  import opened Traces
  import opened Loops
  import opened Fragments
  import opened Correctness
  import Typing

  /** The characters of one string, already canonicalized when case is ignored. */
  function CharsCode(icase: bool, s: seq<nat>): seq<Instr> {
    if s == [] then [] else CharsCode(icase, s[..|s| - 1]) + [CharInstr(icase, s[|s| - 1])]
  }

  /** What follows the strings: the characters, if there are any, and a way around them when the
      empty string belongs to the class. */
  function TailCode(icase: bool, points: seq<int>, hasEmpty: bool): seq<Instr> {
    if points == [] then []
    else
      var range := [ClassInstr(icase, points)];
      if hasEmpty then [Split(false, SizeAll(range))] + range else range
  }

  /** The strings one after the other, each tried before what follows it. */
  function StringsCode(icase: bool, strings: seq<seq<nat>>, points: seq<int>, hasEmpty: bool): seq<Instr> {
    if strings == [] then TailCode(icase, points, hasEmpty)
    else if |strings| == 1 && points == [] && !hasEmpty then CharsCode(icase, strings[0])
    else AltCode(CharsCode(icase, strings[0]), StringsCode(icase, strings[1..], points, hasEmpty))
  }

  /** Where a string read forward from a position ends, if the subject has it there. */
  function ReadString(e: Env, icase: bool, s: seq<nat>, pos: nat): Option<nat> {
    if s == [] then Some(pos)
    else
      match ReadString(e, icase, s[..|s| - 1], pos)
      case None => None
      case Some(p) =>
        match Next(e, false, p)
        case None => None
        case Some((c, q)) => if Fold(e, icase, c) == s[|s| - 1] then Some(q) else None
  }

  function StringOutcome(e: Env, icase: bool, s: seq<nat>, m: M): seq<M> {
    match ReadString(e, icase, s, m.pos)
    case None => []
    case Some(q) => [m.(pos := q)]
  }

  ghost function CharacterOutcome(e: Env, icase: bool, points: seq<int>, m: M): seq<M> {
    match Next(e, false, m.pos)
    case None => []
    case Some((c, q)) => If(Member(points, Fold(e, icase, c)), m.(pos := q))
  }

  /** The outcomes of the class: its strings in the order given, then a character, then nothing. */
  ghost function ClassOutcomes(e: Env, icase: bool, strings: seq<seq<nat>>, points: seq<int>, hasEmpty: bool,
                               m: M): seq<M> {
    if strings != [] then
      StringOutcome(e, icase, strings[0], m) + ClassOutcomes(e, icase, strings[1..], points, hasEmpty, m)
    else CharacterOutcome(e, icase, points, m) + if hasEmpty then [m] else []
  }

  /** A continuation from the only outcome. */
  lemma ThenOne(P: Prog, s: State, m: M, outs: seq<M>, mid: int, end: int, stk: seq<int>, bt: seq<Entry>)
    requires Yields(P, s, [m], mid, stk, bt) && AlwaysYields(P, mid, m, stk, outs, end, stk)
    ensures Yields(P, s, outs, end, stk, bt)
  {
    hide Yields, Extends;
    var ms, lists := [m], [outs];
    forall i, bt' | 0 <= i < |ms| && Extends(bt', bt)
      ensures Yields(P, At(mid, ms[i], stk, bt'), lists[i], end, stk, bt')
    {
      assert ms[i] == m && lists[i] == outs;
    }
    YieldsBind(P, s, ms, lists, mid, stk, end, stk, bt);
    assert Concat(lists) == outs + Concat(lists[1..]) == outs;
  }

  lemma ThenNone(P: Prog, s: State, mid: int, end: int, stk: seq<int>, bt: seq<Entry>)
    requires Yields(P, s, [], mid, stk, bt)
    ensures Yields(P, s, [], end, stk, bt)
  {
  }

  /** One character more. */
  lemma StringStep(e: Env, icase: bool, s: seq<nat>, m: M)
    requires s != []
    ensures var ms, outs := StringOutcome(e, icase, s[..|s| - 1], m), StringOutcome(e, icase, s, m);
            if ms == [] then outs == []
            else |ms| == 1 && CharOutcome(e, false, CharInstr(icase, s[|s| - 1]), ms[0], outs)
  {
    hide Next;
  }

  /** One string, character by character. */
  lemma {:induction false} CharsYields(P: Prog, icase: bool, s: seq<nat>, a: int, m: M, stk: seq<int>, bt: seq<Entry>)
    requires Stands(P, a, CharsCode(icase, s))
    ensures Yields(P, At(a, m, stk, bt), StringOutcome(P.env, icase, s, m), a + SizeAll(CharsCode(icase, s)), stk, bt)
  {
    hide Stands, Yields, Is, CharOutcome, StringOutcome, ReadsChar;
    if s == [] {
      YieldsOne(P, m, a, stk, bt);
      NothingRead(P.env, icase, m);
    } else {
      var front, c := s[..|s| - 1], s[|s| - 1];
      var code, i := CharsCode(icase, front), CharInstr(icase, c);
      var b := a + SizeAll(code);
      StandsLast(P, a, code, i);
      CharsYields(P, icase, front, a, m, stk, bt);
      StringStep(P.env, icase, s, m);
      var ms, outs := StringOutcome(P.env, icase, front, m), StringOutcome(P.env, icase, s, m);
      if ms == [] {
        ThenNone(P, At(a, m, stk, bt), b, b + Size(i), stk, bt);
      } else {
        assert ms == [ms[0]];
        forall bt' ensures Yields(P, At(b, ms[0], stk, bt'), outs, b + Size(i), stk, bt') {
          CharReads(icase, c);
          ReadYields(P, i, b, ms[0], stk, bt', outs);
        }
        ThenOne(P, At(a, m, stk, bt), ms[0], outs, b, b + Size(i), stk, bt);
      }
    }
  }

  lemma NothingRead(e: Env, icase: bool, m: M)
    ensures StringOutcome(e, icase, [], m) == [m] && SizeAll(CharsCode(icase, [])) == 0
  {
  }

  lemma CharReads(icase: bool, c: nat)
    ensures ReadsChar(CharInstr(icase, c))
  {
  }

  /** The range instruction reads a member of the set. */
  lemma ClassYields(P: Prog, icase: bool, points: seq<int>, a: int, m: M, stk: seq<int>, bt: seq<Entry>)
    requires ValidEnv(P.env) && Canonical(points) && Is(P, a, ClassInstr(icase, points))
    ensures Yields(P, At(a, m, stk, bt), CharacterOutcome(P.env, icase, points, m), a + Size(ClassInstr(icase, points)),
                   stk, bt)
  {
    hide Yields, Is, ValidEnv, ClassInstr, Member, Canonical;
    var md, t := Mode(false, Flags(icase, false, false)), Term.Class(points);
    var outs := CharacterOutcome(P.env, icase, points, m);
    CharOuts(P.env, md, 0, t, m);
    assert outs == SemTerm(P.env, md, 0, t, m);
    ReadYields(P, ClassInstr(icase, points), a, m, stk, bt, outs);
  }

  lemma NoMember(e: Env, icase: bool, m: M)
    ensures CharacterOutcome(e, icase, [], m) == []
  {
  }

  lemma TailYields(P: Prog, icase: bool, points: seq<int>, hasEmpty: bool, a: int, m: M, stk: seq<int>, bt: seq<Entry>)
    requires ValidEnv(P.env) && Canonical(points) && (points != [] || hasEmpty)
    requires Stands(P, a, TailCode(icase, points, hasEmpty))
    ensures Yields(P, At(a, m, stk, bt), CharacterOutcome(P.env, icase, points, m) + if hasEmpty then [m] else [],
                   a + SizeAll(TailCode(icase, points, hasEmpty)), stk, bt)
  {
    hide Yields, Is, ValidEnv, ClassInstr, Canonical, CharacterOutcome, Stands;
    var i, outs := ClassInstr(icase, points), CharacterOutcome(P.env, icase, points, m);
    if points == [] {
      NoMember(P.env, icase, m);
      assert outs + [m] == [m];
      YieldsOne(P, m, a, stk, bt);
    } else if !hasEmpty {
      StandsOne(P, a, i);
      ClassYields(P, icase, points, a, m, stk, bt);
      assert outs + [] == outs;
    } else {
      var split := Split(false, SizeAll([i]));
      StandsFirst(P, a, split, [i]);
      StandsOne(P, a + 5, i);
      var start, end := a + 5, a + 5 + Size(i);
      forall bt0 ensures Yields(P, At(start, m, stk, bt0), outs, end, stk, bt0) {
        ClassYields(P, icase, points, start, m, stk, bt0);
      }
      AlwaysYieldsOne(P, m, end, stk);
      ChoiceYields(P, a, false, SizeAll([i]), m, stk, bt, outs, [m], end, stk);
    }
  }

  /** The code of a class with strings yields its outcomes: each string in turn, then a character
      of the set, then the empty string. */
  lemma {:induction false} StringsYields(P: Prog, icase: bool, strings: seq<seq<nat>>, points: seq<int>, hasEmpty: bool,
                                         a: int, m: M, stk: seq<int>, bt: seq<Entry>)
    requires ValidEnv(P.env) && Canonical(points) && (strings != [] || points != [] || hasEmpty)
    requires Stands(P, a, StringsCode(icase, strings, points, hasEmpty))
    ensures Yields(P, At(a, m, stk, bt), ClassOutcomes(P.env, icase, strings, points, hasEmpty, m),
                   a + SizeAll(StringsCode(icase, strings, points, hasEmpty)), stk, bt)
    decreases |strings|
  {
    hide Yields, Is, ValidEnv, Canonical, CharacterOutcome, StringOutcome, Stands, SizeAll, CharsCode, TailCode,
         AltCode;
    if strings == [] {
      TailYields(P, icase, points, hasEmpty, a, m, stk, bt);
    } else {
      var rest := strings[1..];
      var first, second := StringOutcome(P.env, icase, strings[0], m),
        ClassOutcomes(P.env, icase, rest, points, hasEmpty, m);
      var left := CharsCode(icase, strings[0]);
      if |strings| == 1 && points == [] && !hasEmpty {
        NoMember(P.env, icase, m);
        assert second == [] && first + second == first;
        CharsYields(P, icase, strings[0], a, m, stk, bt);
      } else {
        var right := StringsCode(icase, rest, points, hasEmpty);
        AltCodeStands(P, left, right, a);
        var b := a + 5 + SizeAll(left);
        var start, target, end := a + 5, b + 5, b + 5 + SizeAll(right);
        forall bt0 ensures Yields(P, At(start, m, stk, bt0), first, end, stk, bt0) {
          CharsYields(P, icase, strings[0], start, m, stk, bt0);
          GotoYields(P, At(start, m, stk, bt0), first, b, SizeAll(right), stk, bt0);
        }
        forall bt0 ensures Yields(P, At(target, m, stk, bt0), second, end, stk, bt0) {
          StringsYields(P, icase, rest, points, hasEmpty, target, m, stk, bt0);
        }
        ChoiceYields(P, a, false, SizeAll(left) + 5, m, stk, bt, first, second, end, stk);
      }
    }
  }

  lemma {:induction false} CharsTyped(icase: bool, s: seq<nat>)
    ensures Typing.WellTyped(CharsCode(icase, s))
  {
    hide Typing.WellTyped;
    if s == [] {
      Typing.TypedNothing();
    } else {
      CharsTyped(icase, s[..|s| - 1]);
      var i := CharInstr(icase, s[|s| - 1]);
      assert Typing.Plain(i);
      Typing.TypedPlain(i);
      Typing.TypedAppend(CharsCode(icase, s[..|s| - 1]), [i]);
    }
  }

  lemma ClassPlain(icase: bool, points: seq<int>)
    ensures Typing.Plain(ClassInstr(icase, points))
  {
  }

  /** Its jumps stay inside, on instruction boundaries, and it keeps the operand stack. */
  lemma {:induction false} StringsTyped(icase: bool, strings: seq<seq<nat>>, points: seq<int>, hasEmpty: bool)
    ensures Typing.WellTyped(StringsCode(icase, strings, points, hasEmpty))
    decreases |strings|
  {
    hide Typing.WellTyped, SizeAll, ClassInstr, CharsCode, AltCode;
    if strings == [] {
      if points == [] {
        Typing.TypedNothing();
      } else {
        ClassPlain(icase, points);
        Typing.TypedPlain(ClassInstr(icase, points));
        if hasEmpty { Typing.TypedOptional([ClassInstr(icase, points)], true); }
      }
    } else {
      CharsTyped(icase, strings[0]);
      if !(|strings| == 1 && points == [] && !hasEmpty) {
        StringsTyped(icase, strings[1..], points, hasEmpty);
        Typing.TypedAlt(CharsCode(icase, strings[0]), StringsCode(icase, strings[1..], points, hasEmpty));
      }
    }
  }
}
