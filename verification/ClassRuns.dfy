/** A class with strings from its list to its matches: the bytes that re_emit_string_list appends,
    wherever they end up in a program, take the machine to their end with the outcomes of the
    class and with nothing else. */
module ClassRuns {
  import opened Bytes
  import opened Opcodes
  import opened Points
  import opened Syntax
  import opened Emission
  import opened Semantics
  import opened Machine
  import opened Traces
  import opened Fragments
  import opened Fitting
  import opened Arrivals
  import opened ClassStrings
  import opened StringEmission

  /** The characters of strings are code points. */
  ghost predicate CodePoints(strings: seq<seq<nat>>) {
    forall i :: 0 <= i < |strings| ==> AllCodePoints(strings[i])
  }

  ghost predicate AllCodePoints(s: seq<nat>) {
    forall k :: 0 <= k < |s| ==> s[k] <= MAX_CODE_POINT
  }

  lemma {:induction false} CharsFit(icase: bool, s: seq<nat>)
    requires AllCodePoints(s)
    ensures AllFit(CharsCode(icase, s))
  {
    if s != [] {
      CharsFit(icase, s[..|s| - 1]);
      FitOne(CharInstr(icase, s[|s| - 1]));
      FitAppend(CharsCode(icase, s[..|s| - 1]), [CharInstr(icase, s[|s| - 1])]);
    }
  }

  lemma TailFits(icase: bool, points: seq<int>, hasEmpty: bool)
    requires Canonical(points) && |points| / 2 < 65535 && SizeAll(TailCode(icase, points, hasEmpty)) <= CODE_MAX
    ensures AllFit(TailCode(icase, points, hasEmpty))
  {
    hide Fits, ClassInstr, Canonical, SizeAll;
    if points != [] {
      var range := [ClassInstr(icase, points)];
      ClassFits(icase, points);
      FitOne(ClassInstr(icase, points));
      if hasEmpty {
        var split := Split(false, SizeAll(range));
        SizesAppend([split], range);
        SplitFits(SizeAll(range));
        FitAppend([split], range);
      }
    }
  }

  lemma SplitFits(off: nat)
    requires off <= INT32_MAX
    ensures AllFit([Split(false, off)]) && AllFit([Goto(off)])
  {
  }

  lemma AltFits(left: seq<Instr>, right: seq<Instr>)
    requires AllFit(left) && AllFit(right) && SizeAll(AltCode(left, right)) <= CODE_MAX
    ensures AllFit(AltCode(left, right))
  {
    hide Fits, AllFit, SizeAll;
    AltSize(left, right);
    var split, jump := Split(false, SizeAll(left) + 5), Goto(SizeAll(right));
    SplitFits(SizeAll(left) + 5);
    SplitFits(SizeAll(right));
    FitAppend([split], left);
    FitAppend([split] + left, [jump]);
    FitAppend([split] + left + [jump], right);
  }

  lemma AltSize(left: seq<Instr>, right: seq<Instr>)
    ensures SizeAll(AltCode(left, right)) == 10 + SizeAll(left) + SizeAll(right)
  {
    hide SizeAll;
    var split, jump := Split(false, SizeAll(left) + 5), Goto(SizeAll(right));
    SizesAppend([split], left);
    SizesAppend([split] + left, [jump]);
    SizesAppend([split] + left + [jump], right);
    EncodeOne(split);
    EncodeOne(jump);
  }

  lemma {:induction false} StringsFit(icase: bool, strings: seq<seq<nat>>, points: seq<int>, hasEmpty: bool)
    requires CodePoints(strings) && Canonical(points) && |points| / 2 < 65535
    requires SizeAll(StringsCode(icase, strings, points, hasEmpty)) <= CODE_MAX
    ensures AllFit(StringsCode(icase, strings, points, hasEmpty))
    decreases |strings|
  {
    hide AllFit, Canonical, SizeAll, AltCode, TailCode, CharsCode;
    if strings == [] {
      TailFits(icase, points, hasEmpty);
    } else {
      CharsFit(icase, strings[0]);
      if !(|strings| == 1 && points == [] && !hasEmpty) {
        var left, right := CharsCode(icase, strings[0]), StringsCode(icase, strings[1..], points, hasEmpty);
        AltSize(left, right);
        StringsFit(icase, strings[1..], points, hasEmpty);
        AltFits(left, right);
      }
    }
  }

  /** The code stands where its bytes are. */
  lemma ListStands(P: Prog, a: nat, icase: bool, noStrings: bool, strings: seq<seq<nat>>, points: seq<int>,
                   hasEmpty: bool)
    requires CodePoints(strings) && Canonical(points) && |points| / 2 < 65535
    requires SizeAll(ListCode(icase, noStrings, strings, points, hasEmpty)) <= CODE_MAX
    requires Has(P.code, a, EncodeAll(ListCode(icase, noStrings, strings, points, hasEmpty)))
    ensures Stands(P, a, ListCode(icase, noStrings, strings, points, hasEmpty))
  {
    hide Fits, EncodeAll, SizeAll, StringsCode, ClassInstr, Canonical;
    if noStrings {
      ClassFits(icase, points);
      FitOne(ClassInstr(icase, points));
    } else {
      StringsFit(icase, strings, points, hasEmpty);
    }
  }

  lemma OnlyCharacters(e: Env, icase: bool, points: seq<int>, m: M)
    ensures ClassOutcomes(e, icase, [], points, false, m) == CharacterOutcome(e, icase, points, m)
  {
    hide CharacterOutcome;
  }

  /** The appended bytes run as the class, exactly. `noStrings` tells that the list is a plain set
      of characters. */
  lemma ListExact(P: Prog, a: nat, icase: bool, noStrings: bool, strings: seq<seq<nat>>, points: seq<int>,
                  hasEmpty: bool, m: M, stk: seq<int>, bt: seq<Entry>, outs: seq<M>)
    requires ValidEnv(P.env) && CodePoints(strings) && Canonical(points) && |points| / 2 < 65535
    requires noStrings <==> strings == [] && !hasEmpty
    requires SizeAll(ListCode(icase, noStrings, strings, points, hasEmpty)) <= CODE_MAX
    requires Has(P.code, a, EncodeAll(ListCode(icase, noStrings, strings, points, hasEmpty)))
    ensures Arrives(P, At(a, m, stk, bt), outs,
                    a + SizeAll(ListCode(icase, noStrings, strings, points, hasEmpty)), stk, bt)
            <==> outs == ClassOutcomes(P.env, icase, strings, points, hasEmpty, m)
  {
    hide Stands, SizeAll, StringsCode, ClassInstr, Canonical, Yields, Arrives, ClassOutcomes, ValidEnv, EncodeAll,
         CodePoints;
    var code := ListCode(icase, noStrings, strings, points, hasEmpty);
    ListStands(P, a, icase, noStrings, strings, points, hasEmpty);
    StandsCut(P, a, code);
    var Q := Cut(P, a + SizeAll(code));
    if noStrings {
      StandsOne(Q, a, ClassInstr(icase, points));
      ClassYields(Q, icase, points, a, m, stk, []);
      OnlyCharacters(P.env, icase, points, m);
    } else {
      StringsYields(Q, icase, strings, points, hasEmpty, a, m, stk, []);
    }
    FragmentExact(P, a, code, m, stk, bt, ClassOutcomes(P.env, icase, strings, points, hasEmpty, m), outs);
  }
}
