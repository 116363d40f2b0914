/** Iterations of a quantified atom that find captures left over. One of them does what the
    standard has it do after a reset if and only if it sets or resets every group that still
    holds something; a quantifier, if and only if that is so of each iteration that counts. */
module Iterations {
  import opened Options
  import opened Syntax
  import opened Semantics
  import opened Soundness
  import opened Standard
  import opened Leftovers
  import opened Conformance
  import I = Independence

  /** `m` with a position outside the subject, which no instruction ever records, in every slot of
      the groups: after an iteration it shows where nothing was set or reset. */
  function Marked(e: Env, m: M, cc: nat, n: nat): M {
    m.(caps := seq(|m.caps|, k requires 0 <= k < |m.caps| =>
      if 2 * cc <= k < 2 * (cc + n) then Some(|e.subject.units| + 1) else m.caps[k]))
  }

  /** Every way the iteration can go from `m` sets or resets every slot of its groups in which `m`
      holds something. */
  ghost predicate Redefines(e: Env, md: Mode, cc: nat, t: Term, m: M) {
    NoneKept(e, cc, t, m, SemTerm(e, md, cc, t, Marked(e, m, cc, NumCaps(t))))
  }

  ghost predicate NoneKept(e: Env, cc: nat, t: Term, m: M, outs: seq<M>) {
    forall i :: 0 <= i < |outs| ==> Refreshed(e, cc, t, m, outs[i])
  }

  /** The outcome, reached from the marked state, shows no mark that stands for something. */
  ghost predicate Refreshed(e: Env, cc: nat, t: Term, m: M, o: M) {
    forall k :: 0 <= k < |o.caps| ==> NotKept(e, cc, t, m, o, k)
  }

  ghost predicate NotKept(e: Env, cc: nat, t: Term, m: M, o: M, k: int)
    requires 0 <= k < |o.caps|
  {
    Owned(t, cc, k) && k < |m.caps| && m.caps[k].Some? ==> o.caps[k] != Some(|e.subject.units| + 1)
  }

  predicate Owned(t: Term, cc: nat, k: int) {
    2 * cc <= k < 2 * (cc + NumCaps(t))
  }

  lemma TrailsNothing(ms: seq<M>, ss: seq<M>)
    requires AllTrail({}, ms, ss)
    ensures ms == ss
  {
    forall i | 0 <= i < |ms| ensures ms[i] == ss[i] {
      assert Trails({}, ms[i], ss[i]);
      assert ms[i].caps == ss[i].caps;
    }
  }

  /** Entered with its groups clear, a pattern in which nothing is left over has the outcomes of
      the standard. */
  lemma FreshConforms(e: Env, md: Mode, cc: nat, t: Term, m: M)
    requires Unread(md.back, cc, t, {}) && Stale(md.back, cc, t, {}) == {} && Fresh(m, cc, cc + NumCaps(t))
    ensures SemTerm(e, md, cc, t, m) == StdTerm(e, md, cc, t, m)
  {
    hide SemTerm, StdTerm, Unread, Stale, Fresh;
    TrailsSelf(m);
    TermTrails(e, md, cc, t, {}, m, m);
    TrailsNothing(SemTerm(e, md, cc, t, m), StdTerm(e, md, cc, t, m));
  }

  lemma SameOutside(e: Env, m: M, cc: nat, n: nat)
    ensures var own, r, k := Slots(cc, n), Reset(m, cc, n), Marked(e, m, cc, n);
            I.Same(own, m, r) && I.Same(own, m, k) && I.Same(own, r, k)
  {
  }

  /** What the three runs, from `m`, from the reset and from the marked state, say of one slot. */
  lemma SlotAgrees(e: Env, u: set<int>, m: M, r: M, mark: M, a: M, b: M, c: M, k: int)
    requires I.Alike(u, m, r, a, b) && I.Alike(u, m, mark, a, c) && I.Alike(u, r, mark, b, c)
    requires 0 <= k < |m.caps| && Inside(e, a) && Inside(e, b)
    requires k in u ==> r.caps[k] == None && mark.caps[k] == Some(|e.subject.units| + 1)
    ensures a.caps[k] == b.caps[k] <==>
            (k in u && m.caps[k].Some? ==> c.caps[k] != Some(|e.subject.units| + 1))
  {
  }

  ghost predicate Inside(e: Env, m: M) {
    forall k :: 0 <= k < |m.caps| && m.caps[k].Some? ==> m.caps[k].value <= |e.subject.units|
  }

  lemma SoundInside(e: Env, back: bool, m: M, ms: seq<M>)
    requires AllOnward(e, back, m, ms)
    ensures forall i :: 0 <= i < |ms| ==> Inside(e, ms[i])
  {
    forall i | 0 <= i < |ms| ensures Inside(e, ms[i]) {
      assert Onward(e, back, m, ms[i]);
    }
  }

  /** What the theorems below ask of an atom: no back reference reads a group of its own that an
      iteration has found captured, and inside an iteration nothing is left over. */
  predicate Tame(back: bool, cc: nat, t: Term) {
    Unread(back, cc, t, Slots(cc, NumCaps(t))) && Unread(back, cc, t, {}) && Stale(back, cc, t, {}) == {}
  }

  /** An iteration of the code, from `m`, and of the standard, after its reset: as many outcomes,
      one equal to the other exactly when it is refreshed. */
  lemma OutcomesAgree(e: Env, md: Mode, cc: nat, t: Term, m: M)
    requires Sound(e, m) && Tame(md.back, cc, t)
    ensures var r := Reset(m, cc, NumCaps(t));
            var a, b := SemTerm(e, md, cc, t, m), StdTerm(e, md, cc, t, r);
            var c := SemTerm(e, md, cc, t, Marked(e, m, cc, NumCaps(t)));
            && |a| == |b| == |c|
            && AllTrail(Slots(cc, NumCaps(t)), a, b)
            && forall i :: 0 <= i < |a| ==> Sound(e, a[i]) && (a[i] == b[i] <==> Refreshed(e, cc, t, m, c[i]))
  {
    hide SemTerm, StdTerm, Unread, Stale, Fresh, Sound, NumCaps, I.Alike, I.Same, Reset, Marked, Onward, Inside,
         Slots, Trails, Refreshed;
    var n := NumCaps(t);
    var own, r, mark := Slots(cc, n), Reset(m, cc, n), Marked(e, m, cc, n);
    var a, b, c := SemTerm(e, md, cc, t, m), SemTerm(e, md, cc, t, r), SemTerm(e, md, cc, t, mark);
    SameOutside(e, m, cc, n);
    I.TermAlike(e, md, cc, t, own, m, r);
    I.TermAlike(e, md, cc, t, own, m, mark);
    I.TermAlike(e, md, cc, t, own, r, mark);
    OwnOnly(md.back, cc, t, m, r, a, b);
    OwnOnly(md.back, cc, t, m, mark, a, c);
    OwnOnly(md.back, cc, t, r, mark, b, c);
    ResetSound(e, m, cc, n);
    SemSound(e, md, cc, t, m);
    SemSound(e, md, cc, t, r);
    SoundInside(e, md.back, m, a);
    SoundInside(e, md.back, r, b);
    ResetFresh(m, cc, n);
    FreshConforms(e, md, cc, t, r);
    ResetTrailsOwn(m, cc, n);
    TermTrails(e, md, cc, t, own, m, r);
    OwnTrail(md.back, cc, t, a, b);
    forall i | 0 <= i < |a| ensures Sound(e, a[i]) && (a[i] == b[i] <==> Refreshed(e, cc, t, m, c[i])) {
      OnwardSound(e, md.back, m, a[i]);
      OutcomeAgrees(e, cc, t, m, a[i], b[i], c[i]);
    }
  }

  lemma OnwardSound(e: Env, back: bool, m: M, o: M)
    requires Onward(e, back, m, o)
    ensures Sound(e, o)
  {
  }

  lemma ResetTrailsOwn(m: M, cc: nat, n: nat)
    ensures Trails(Slots(cc, n), m, Reset(m, cc, n))
  {
  }

  lemma OwnTrail(back: bool, cc: nat, t: Term, ms: seq<M>, ss: seq<M>)
    requires AllTrail(Stale(back, cc, t, Slots(cc, NumCaps(t))), ms, ss)
    ensures AllTrail(Slots(cc, NumCaps(t)), ms, ss)
  {
    hide Slots, Trails, AllTrail;
    var own := Slots(cc, NumCaps(t));
    assert own + own == own;
    Weaken(Stale(back, cc, t, own), own, ms, ss);
  }

  /** The iteration of the code, from whatever earlier ones left, against the iteration of the
      standard, after its reset. */
  lemma IterationConforms(e: Env, md: Mode, cc: nat, t: Term, m: M)
    requires Sound(e, m) && Tame(md.back, cc, t)
    ensures SemTerm(e, md, cc, t, m) == StdTerm(e, md, cc, t, Reset(m, cc, NumCaps(t)))
            <==> Redefines(e, md, cc, t, m)
  {
    hide SemTerm, StdTerm, Tame, Sound, NumCaps, Reset, Marked, Slots, AllTrail, Refreshed;
    OutcomesAgree(e, md, cc, t, m);
  }

  lemma OwnOnly(back: bool, cc: nat, t: Term, m: M, m': M, ms: seq<M>, ms': seq<M>)
    requires I.AllAlike(Stale(back, cc, t, Slots(cc, NumCaps(t))), m, m', ms, ms')
    ensures I.AllAlike(Slots(cc, NumCaps(t)), m, m', ms, ms')
  {
    hide Slots, I.Alike, I.AllAlike;
    var own := Slots(cc, NumCaps(t));
    assert own + own == own;
    I.Weaken(Stale(back, cc, t, own), own, m, m', ms, ms');
  }

  /** The three runs, outcome by outcome. */
  lemma OutcomeAgrees(e: Env, cc: nat, t: Term, m: M, a: M, b: M, c: M)
    requires var own, r, mark := Slots(cc, NumCaps(t)), Reset(m, cc, NumCaps(t)), Marked(e, m, cc, NumCaps(t));
             I.Alike(own, m, r, a, b) && I.Alike(own, m, mark, a, c) && I.Alike(own, r, mark, b, c)
    requires Inside(e, a) && Inside(e, b)
    ensures a == b <==> Refreshed(e, cc, t, m, c)
  {
    hide I.Alike, Inside, NumCaps;
    var own, r, mark := Slots(cc, NumCaps(t)), Reset(m, cc, NumCaps(t)), Marked(e, m, cc, NumCaps(t));
    SameSize(own, m, r, a, b);
    SameSize(own, m, mark, a, c);
    forall k | 0 <= k < |m.caps| ensures a.caps[k] == b.caps[k] <==> NotKept(e, cc, t, m, c, k) {
      SlotAgrees(e, own, m, r, mark, a, b, c, k);
    }
    if Refreshed(e, cc, t, m, c) {
      assert a.caps == b.caps;
    }
  }

  lemma SameSize(u: set<int>, m: M, m': M, o: M, o': M)
    requires I.Alike(u, m, m', o, o')
    ensures o.pos == o'.pos && |m.caps| == |m'.caps| == |o.caps| == |o'.caps|
  {
  }

  /** Whether a quantifier can be left after an iteration, `min` being the mandatory ones that
      remained before it: it must have been the last of these, or have moved. */
  predicate Counts(e: Env, back: bool, min: nat, m: M, o: M) {
    min == 1 || (min == 0 && Left(e, back, o.pos) < Left(e, back, m.pos))
  }

  predicate GoesOn(e: Env, back: bool, min: nat, m: M, o: M) {
    min > 0 || Left(e, back, o.pos) < Left(e, back, m.pos)
  }

  function Fewer(min: nat): nat {
    if min > 0 then min - 1 else 0
  }

  /** Every iteration from `m` on after which the quantifier can be left redefines what it finds
      captured. */
  ghost predicate Clean(e: Env, md: Mode, cc: nat, t: Term, min: nat, max: int, m: M)
    decreases min, Left(e, md.back, m.pos)
  {
    max > 0 ==>
      var outs := SemTerm(e, md, cc, t, m);
      var marked := SemTerm(e, md, cc, t, Marked(e, m, cc, NumCaps(t)));
      forall i :: 0 <= i < |outs| && i < |marked| && GoesOn(e, md.back, min, m, outs[i]) ==>
        && (Counts(e, md.back, min, m, outs[i]) ==> Refreshed(e, cc, t, m, marked[i]))
        && Clean(e, md, cc, t, Fewer(min), Less(max), outs[i])
  }

  /** What is to hold after one outcome of an iteration, `o` of the code and `s` of the standard. */
  ghost predicate Agrees(e: Env, md: Mode, cc: nat, t: Term, min: nat, max: int, m: M, o: M, s: M) {
    GoesOn(e, md.back, min, m, o) ==>
      (Counts(e, md.back, min, m, o) ==> o == s) && Clean(e, md, cc, t, Fewer(min), Less(max), o)
  }

  ghost predicate AllAgree(e: Env, md: Mode, cc: nat, t: Term, min: nat, max: int, m: M, ms: seq<M>, ss: seq<M>) {
    forall i :: 0 <= i < |ms| && i < |ss| ==> Agrees(e, md, cc, t, min, max, m, ms[i], ss[i])
  }

  lemma NoneAgree(e: Env, md: Mode, cc: nat, t: Term, min: nat, max: int, m: M)
    ensures AllAgree(e, md, cc, t, min, max, m, [], [])
  {
  }

  lemma AgreeCons(e: Env, md: Mode, cc: nat, t: Term, min: nat, max: int, m: M, ms: seq<M>, ss: seq<M>)
    requires ms != [] && |ms| == |ss|
    ensures AllAgree(e, md, cc, t, min, max, m, ms, ss) <==>
            Agrees(e, md, cc, t, min, max, m, ms[0], ss[0]) && AllAgree(e, md, cc, t, min, max, m, ms[1..], ss[1..])
  {
    hide Agrees;
    if Agrees(e, md, cc, t, min, max, m, ms[0], ss[0]) && AllAgree(e, md, cc, t, min, max, m, ms[1..], ss[1..]) {
      forall i | 0 <= i < |ms| ensures Agrees(e, md, cc, t, min, max, m, ms[i], ss[i]) {
        assert i > 0 ==> ms[1..][i - 1] == ms[i] && ss[1..][i - 1] == ss[i];
      }
    }
    if AllAgree(e, md, cc, t, min, max, m, ms, ss) {
      forall i | 0 <= i < |ms| - 1 ensures Agrees(e, md, cc, t, min, max, m, ms[1..][i], ss[1..][i]) {
        assert ms[1..][i] == ms[i + 1] && ss[1..][i] == ss[i + 1];
      }
    }
  }

  /** Two lists put together from pieces of equal lengths are equal when the pieces are. */
  lemma PiecesEqual(x: seq<M>, y: seq<M>, x': seq<M>, y': seq<M>)
    requires |x| == |x'|
    ensures x + y == x' + y' <==> x == x' && y == y'
  {
    if x + y == x' + y' {
      assert x == (x + y)[..|x|] && y == (x + y)[|x|..];
      assert x' == (x' + y')[..|x'|] && y' == (x' + y')[|x'|..];
    }
  }

  /** The outcomes of the iterations to come are as many as those of the standard. */
  lemma AsMany(e: Env, md: Mode, cc: nat, t: Term, min: int, max: int, greedy: bool, m: M, s: M)
    requires Tame(md.back, cc, t) && Trails(Slots(cc, NumCaps(t)), m, s)
    ensures |Repeat(e, md, cc, t, min, max, greedy, m)| == |StdRepeat(e, md, cc, t, min, max, greedy, s)|
  {
    hide Repeat, StdRepeat, Trails, Slots, Unread, Stale;
    var own := Slots(cc, NumCaps(t));
    assert own + own == own;
    ResetTrails(own, own, m, s, cc, NumCaps(t));
    RepeatTrails(e, md, cc, t, min, max, greedy, own, own, m, s);
  }

  lemma SameReset(m: M, s: M, cc: nat, n: nat)
    requires Trails(Slots(cc, n), m, s)
    ensures Reset(m, cc, n) == Reset(s, cc, n)
  {
    assert Reset(m, cc, n).caps == Reset(s, cc, n).caps;
  }

  /** After an iteration: what the code goes on with is what the standard goes on with. */
  lemma OutcomesAgreeOrNot(e: Env, md: Mode, cc: nat, t: Term, min: nat, max: int, m: M)
    requires Sound(e, m) && Tame(md.back, cc, t) && max > 0
    ensures AllAgree(e, md, cc, t, min, max, m, SemTerm(e, md, cc, t, m),
                     StdTerm(e, md, cc, t, Reset(m, cc, NumCaps(t))))
            <==> Clean(e, md, cc, t, min, max, m)
  {
    hide SemTerm, StdTerm, Tame, Sound, NumCaps, Reset, Marked, Slots, Trails, Refreshed, Left, Counts, GoesOn, Less;
    OutcomesAgree(e, md, cc, t, m);
  }

  /** Iterations, from a state of the code and one of the standard. */
  lemma RepeatConformsIff(e: Env, md: Mode, cc: nat, t: Term, min: int, max: int, greedy: bool, m: M, s: M)
    requires 0 <= min <= max
    requires Sound(e, m) && Tame(md.back, cc, t) && Trails(Slots(cc, NumCaps(t)), m, s)
    ensures Repeat(e, md, cc, t, min, max, greedy, m) == StdRepeat(e, md, cc, t, min, max, greedy, s)
            <==> (min == 0 ==> m == s) && Clean(e, md, cc, t, min, max, m)
    decreases min, Left(e, md.back, m.pos)
  {
    hide SemTerm, StdTerm, Tame, Sound, NumCaps, Reset, Marked, Slots, Trails, Refreshed, Left, IterateAll,
         StdIterateAll, RepeatAll, StdRepeatAll, Clean, AllAgree;
    if max == 0 {
      CleanAtEnd(e, md, cc, t, min, m);
    } else {
      SameReset(m, s, cc, NumCaps(t));
      var a, b := SemTerm(e, md, cc, t, m), StdTerm(e, md, cc, t, Reset(m, cc, NumCaps(t)));
      OutcomesAgree(e, md, cc, t, m);
      OutcomesAgreeOrNot(e, md, cc, t, min, max, m);
      if min > 0 {
        RepeatAllConformsIff(e, md, cc, t, min, max, greedy, m, a, b);
      } else {
        AsMany(e, md, cc, t, min, max, greedy, m, s);
        var more, more' := IterateAll(e, md, cc, t, max, greedy, m, a), StdIterateAll(e, md, cc, t, max, greedy, s, b);
        if greedy {
          assert |more| == |more'|;
          PiecesEqual(more, [m], more', [s]);
        } else {
          PiecesEqual([m], more, [s], more');
        }
        if m == s {
          IterateAllConformsIff(e, md, cc, t, max, greedy, m, a, b);
        }
      }
    }
  }

  lemma CleanAtEnd(e: Env, md: Mode, cc: nat, t: Term, min: nat, m: M)
    ensures Clean(e, md, cc, t, min, 0, m)
  {
  }

  lemma NoneTrails(u: set<int>, ss: seq<M>)
    requires AllTrail(u, [], ss)
    ensures ss == []
  {
  }

  lemma TrailsCons(u: set<int>, ms: seq<M>, ss: seq<M>)
    requires AllTrail(u, ms, ss) && ms != []
    ensures |ms| == |ss| && Trails(u, ms[0], ss[0]) && AllTrail(u, ms[1..], ss[1..])
  {
  }

  /** The mandatory iterations after each of the outcomes of one. */
  lemma RepeatAllConformsIff(e: Env, md: Mode, cc: nat, t: Term, min: int, max: int, greedy: bool,
                             m: M, ms: seq<M>, ss: seq<M>)
    requires 0 < min <= max && Tame(md.back, cc, t) && AllTrail(Slots(cc, NumCaps(t)), ms, ss)
    requires forall i :: 0 <= i < |ms| ==> Sound(e, ms[i])
    ensures RepeatAll(e, md, cc, t, min, max, greedy, ms) == StdRepeatAll(e, md, cc, t, min, max, greedy, ss) <==>
            AllAgree(e, md, cc, t, min, max, m, ms, ss)
    decreases min - 1, |e.subject.units| + 1, |ms|
  {
    hide SemTerm, StdTerm, Tame, Sound, NumCaps, Slots, Trails, Clean, Left, Repeat, StdRepeat, AllAgree, AllTrail;
    if ms == [] {
      NoneAgree(e, md, cc, t, min, max, m);
      NoneTrails(Slots(cc, NumCaps(t)), ss);
    } else {
      TrailsCons(Slots(cc, NumCaps(t)), ms, ss);
      AgreeCons(e, md, cc, t, min, max, m, ms, ss);
      AsMany(e, md, cc, t, min - 1, Less(max), greedy, ms[0], ss[0]);
      RepeatConformsIff(e, md, cc, t, min - 1, Less(max), greedy, ms[0], ss[0]);
      RepeatAllConformsIff(e, md, cc, t, min, max, greedy, m, ms[1..], ss[1..]);
      PiecesEqual(Repeat(e, md, cc, t, min - 1, Less(max), greedy, ms[0]),
                  RepeatAll(e, md, cc, t, min, max, greedy, ms[1..]),
                  StdRepeat(e, md, cc, t, min - 1, Less(max), greedy, ss[0]),
                  StdRepeatAll(e, md, cc, t, min, max, greedy, ss[1..]));
    }
  }

  /** The optional iterations after each of the outcomes of one. */
  lemma IterateAllConformsIff(e: Env, md: Mode, cc: nat, t: Term, max: int, greedy: bool, m: M, ms: seq<M>, ss: seq<M>)
    requires max > 0 && Tame(md.back, cc, t) && AllTrail(Slots(cc, NumCaps(t)), ms, ss)
    requires forall i :: 0 <= i < |ms| ==> Sound(e, ms[i])
    ensures IterateAll(e, md, cc, t, max, greedy, m, ms) == StdIterateAll(e, md, cc, t, max, greedy, m, ss) <==>
            AllAgree(e, md, cc, t, 0, max, m, ms, ss)
    decreases 0, Left(e, md.back, m.pos), |ms|
  {
    hide SemTerm, StdTerm, Tame, Sound, NumCaps, Slots, Trails, Clean, Left, Repeat, StdRepeat, Less, AllAgree,
         AllTrail;
    if ms == [] {
      NoneAgree(e, md, cc, t, 0, max, m);
      NoneTrails(Slots(cc, NumCaps(t)), ss);
    } else {
      TrailsCons(Slots(cc, NumCaps(t)), ms, ss);
      AgreeCons(e, md, cc, t, 0, max, m, ms, ss);
      IterateAllConformsIff(e, md, cc, t, max, greedy, m, ms[1..], ss[1..]);
      hide IterateAll, StdIterateAll;
      FirstConformsIff(e, md, cc, t, max, greedy, m, ms, ss);
    }
  }

  /** The iterations after the first of the outcomes. */
  lemma FirstConformsIff(e: Env, md: Mode, cc: nat, t: Term, max: int, greedy: bool, m: M, ms: seq<M>, ss: seq<M>)
    requires ms != [] && ss != [] && max > 0 && Tame(md.back, cc, t) && Sound(e, ms[0])
    requires Trails(Slots(cc, NumCaps(t)), ms[0], ss[0])
    ensures IterateAll(e, md, cc, t, max, greedy, m, ms) == StdIterateAll(e, md, cc, t, max, greedy, m, ss) <==>
            && Agrees(e, md, cc, t, 0, max, m, ms[0], ss[0])
            && IterateAll(e, md, cc, t, max, greedy, m, ms[1..]) == StdIterateAll(e, md, cc, t, max, greedy, m, ss[1..])
    decreases 0, Left(e, md.back, m.pos), 0
  {
    hide SemTerm, StdTerm, Tame, Sound, NumCaps, Slots, Trails, Clean, Left, Repeat, StdRepeat;
    var o, o' := ms[0], ss[0];
    var rest := IterateAll(e, md, cc, t, max, greedy, m, ms[1..]);
    var rest' := StdIterateAll(e, md, cc, t, max, greedy, m, ss[1..]);
    SamePos(Slots(cc, NumCaps(t)), o, o');
    if Left(e, md.back, o.pos) < Left(e, md.back, m.pos) {
      AsMany(e, md, cc, t, 0, Less(max), greedy, o, o');
      RepeatConformsIff(e, md, cc, t, 0, Less(max), greedy, o, o');
      PiecesEqual(Repeat(e, md, cc, t, 0, Less(max), greedy, o), rest,
                  StdRepeat(e, md, cc, t, 0, Less(max), greedy, o'), rest');
    } else {
      PiecesEqual([], rest, [], rest');
    }
  }

  lemma TrailsSame(u: set<int>, m: M)
    ensures Trails(u, m, m)
  {
  }

  /** A quantifier, entered with the groups of its atom clear, has the outcomes of the standard if
      and only if all iterations after which it can be left redefine what they find captured. */
  lemma QuantConformsIff(e: Env, md: Mode, cc: nat, t: Term, min: int, max: int, greedy: bool, m: M)
    requires Sound(e, m) && Tame(md.back, cc, t) && Fresh(m, cc, cc + NumCaps(t)) && 0 <= min <= max
    ensures SemTerm(e, md, cc, Quant(t, min, max, greedy), m) == StdTerm(e, md, cc, Quant(t, min, max, greedy), m)
            <==> Clean(e, md, cc, t, min, max, m)
  {
    hide Tame, Sound, NumCaps, Reset, Slots, Trails, Clean, Repeat, StdRepeat, Fresh;
    ResetFresh(m, cc, NumCaps(t));
    TrailsSame(Slots(cc, NumCaps(t)), m);
    RepeatConformsIff(e, md, cc, t, min, max, greedy, m, m);
  }
}
