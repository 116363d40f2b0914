/** Two runs of the code of a pattern from states with different captures go the same way, outcome
    by outcome, as long as no back reference reads a slot in which they differ; and where they
    still differ afterwards neither run has set or reset anything on its way. */
module Independence {
  import opened Opcodes
  import opened Syntax
  import opened Semantics
  import opened Leftovers

  /** `o` and `o'` differ at most in slots of `u`, and there only because each still has what the
      state it started from, `m` or `m'`, had. */
  ghost predicate Alike(u: set<int>, m: M, m': M, o: M, o': M) {
    && o.pos == o'.pos
    && |m.caps| == |m'.caps| == |o.caps| == |o'.caps|
    && forall k :: 0 <= k < |o.caps| ==>
      o.caps[k] == o'.caps[k] || (k in u && o.caps[k] == m.caps[k] && o'.caps[k] == m'.caps[k])
  }

  ghost predicate AllAlike(u: set<int>, m: M, m': M, ms: seq<M>, ms': seq<M>) {
    |ms| == |ms'| && forall i :: 0 <= i < |ms| ==> Alike(u, m, m', ms[i], ms'[i])
  }

  /** The states differ in slots of `u` at most. */
  ghost predicate Same(u: set<int>, m: M, m': M) {
    Alike(u, m, m', m, m')
  }

  lemma AlikeSame(u: set<int>, m: M, m': M, o: M, o': M)
    requires Alike(u, m, m', o, o')
    ensures Same(u, o, o')
  {
  }

  lemma WeakenOne(u: set<int>, v: set<int>, m: M, m': M, o: M, o': M)
    requires Alike(u, m, m', o, o') && u <= v
    ensures Alike(v, m, m', o, o')
  {
  }

  lemma Weaken(u: set<int>, v: set<int>, m: M, m': M, ms: seq<M>, ms': seq<M>)
    requires AllAlike(u, m, m', ms, ms') && u <= v
    ensures AllAlike(v, m, m', ms, ms')
  {
    hide Alike;
    forall i | 0 <= i < |ms| ensures Alike(v, m, m', ms[i], ms'[i]) {
      WeakenOne(u, v, m, m', ms[i], ms'[i]);
    }
  }

  lemma WeakenSame(u: set<int>, v: set<int>, m: M, m': M)
    requires Same(u, m, m') && u <= v
    ensures Same(v, m, m')
  {
    WeakenOne(u, v, m, m', m, m');
  }

  lemma NoneAlike(u: set<int>, m: M, m': M)
    ensures AllAlike(u, m, m', [], [])
  {
  }

  lemma NoneLeft(u: set<int>, m: M, m': M, ms': seq<M>)
    requires AllAlike(u, m, m', [], ms')
    ensures ms' == []
  {
  }

  lemma TailAlike(u: set<int>, m: M, m': M, ms: seq<M>, ms': seq<M>)
    requires AllAlike(u, m, m', ms, ms') && ms != []
    ensures ms' != [] && Alike(u, m, m', ms[0], ms'[0]) && AllAlike(u, m, m', ms[1..], ms'[1..])
  {
    hide Alike;
  }

  lemma OneAlike(u: set<int>, m: M, m': M, o: M, o': M)
    requires Alike(u, m, m', o, o')
    ensures AllAlike(u, m, m', [o], [o'])
  {
  }

  lemma Append(u: set<int>, v: set<int>, w: set<int>, m: M, m': M, ms: seq<M>, ms': seq<M>, os: seq<M>, os': seq<M>)
    requires AllAlike(u, m, m', ms, ms') && AllAlike(v, m, m', os, os') && u <= w && v <= w
    ensures AllAlike(w, m, m', ms + os, ms' + os')
  {
    hide Alike;
    Weaken(u, w, m, m', ms, ms');
    Weaken(v, w, m, m', os, os');
  }

  lemma ChainOne(u: set<int>, v: set<int>, m: M, m': M, o: M, o': M, r: M, r': M)
    requires Alike(u, m, m', o, o') && Alike(v, o, o', r, r')
    ensures Alike(v, m, m', r, r')
  {
  }

  lemma Chain(u: set<int>, v: set<int>, m: M, m': M, o: M, o': M, ms: seq<M>, ms': seq<M>)
    requires Alike(u, m, m', o, o') && AllAlike(v, o, o', ms, ms')
    ensures AllAlike(v, m, m', ms, ms')
  {
    hide Alike;
    forall i | 0 <= i < |ms| ensures Alike(v, m, m', ms[i], ms'[i]) {
      ChainOne(u, v, m, m', o, o', ms[i], ms'[i]);
    }
  }

  lemma CapturedSame(e: Env, u: set<int>, m: M, m': M, n: int)
    requires Same(u, m, m') && 2 * n !in u && 2 * n + 1 !in u
    ensures Captured(e, m, n) == Captured(e, m', n)
  {
  }

  lemma SetCapSame(u: set<int>, m: M, m': M, k: nat)
    requires Same(u, m, m')
    ensures Same(u - {k}, SetCap(m, k), SetCap(m', k))
    ensures Alike(u - {k}, m, m', SetCap(m, k), SetCap(m', k))
  {
  }

  lemma SetCapAlike(u: set<int>, m: M, m': M, o: M, o': M, k: nat)
    requires Alike(u, m, m', o, o')
    ensures Alike(u - {k}, m, m', SetCap(o, k), SetCap(o', k))
  {
  }

  lemma SetCapsAlike(u: set<int>, m: M, m': M, ms: seq<M>, ms': seq<M>, k: nat)
    requires AllAlike(u, m, m', ms, ms')
    ensures AllAlike(u - {k}, m, m', SetCaps(ms, k), SetCaps(ms', k))
  {
    hide Alike, SetCap;
    var v := u - {k};
    forall i | 0 <= i < |ms| ensures Alike(v, m, m', SetCaps(ms, k)[i], SetCaps(ms', k)[i]) {
      SetCapAlike(u, m, m', ms[i], ms'[i], k);
    }
  }

  /** A lookaround hands on the captures of one outcome, at the position it was entered at. */
  lemma LookAlike(u: set<int>, m: M, m': M, pos: nat, ms: seq<M>, ms': seq<M>)
    requires AllAlike(u, m, m', ms, ms')
    ensures ms == [] <==> ms' == []
    ensures ms != [] ==> Alike(u, m, m', M(pos, ms[0].caps), M(pos, ms'[0].caps))
  {
    if ms != [] {
      assert Alike(u, m, m', ms[0], ms'[0]);
    }
  }

  /** A reset on both sides takes the slots out of those that differ. */
  lemma EntrySame(u: set<int>, m: M, m': M, cc: nat, atom: Term, min: int)
    requires Same(u, m, m')
    ensures var n := NumCaps(atom);
            var m0, m0' := if min == 0 then Reset(m, cc, n) else m, if min == 0 then Reset(m', cc, n) else m';
            Same(Entered(cc, atom, min, u), m0, m0') && Alike(Entered(cc, atom, min, u), m, m', m0, m0')
  {
  }

  lemma MovedAlike(u: set<int>, m: M, m': M, q: nat)
    requires Same(u, m, m')
    ensures Alike(u, m, m', m.(pos := q), m'.(pos := q))
  {
  }

  lemma SamePos(u: set<int>, m: M, m': M)
    requires Same(u, m, m')
    ensures m.pos == m'.pos
  {
  }

  lemma TermAlike(e: Env, md: Mode, cc: nat, t: Term, u: set<int>, m: M, m': M)
    requires Same(u, m, m') && Unread(md.back, cc, t, u)
    ensures AllAlike(Stale(md.back, cc, t, u), m, m', SemTerm(e, md, cc, t, m), SemTerm(e, md, cc, t, m'))
    decreases t, 1, 0, 0, 0
  {
    hide Alike, SemAlts, Repeat, MatchText, Captured, SetCap, SetCaps, Reset, LineEdge, WordAt, Accepts, Next,
         StaleAlts, UnreadAlts, NumCapsAlts, Slots;
    SamePos(u, m, m');
    match t
    case BackRef(n) =>
      CapturedSame(e, u, m, m', n);
      match Captured(e, m, n) {
        case None =>
        case Some(text) =>
          match MatchText(e, md.back, md.flags.icase, text, m.pos)
          case None =>
          case Some(q) => MovedAlike(u, m, m', q);
      }
    case Group(alts) => AltsAlike(e, md, cc, alts, u, m, m');
    case Modified(add, remove, alts) =>
      AltsAlike(e, md.(flags := Update(md.flags, add, remove)), cc, alts, u, m, m');
    case Capture(alts) =>
      var start, end := 2 * cc + Bit(md.back), 2 * cc + Bit(!md.back);
      var o, o', v := SetCap(m, start), SetCap(m', start), StaleAlts(md.back, cc + 1, alts, u - {start});
      var ms, ms' := SemAlts(e, md, cc + 1, alts, o), SemAlts(e, md, cc + 1, alts, o');
      SetCapSame(u, m, m', start);
      AltsAlike(e, md, cc + 1, alts, u - {start}, o, o');
      Chain(u - {start}, v, m, m', o, o', ms, ms');
      SetCapsAlike(v, m, m', ms, ms', end);
    case Look(behind, neg, alts) =>
      AltsAlike(e, md.(back := behind), cc, alts, u, m, m');
      LookAlike(StaleAlts(behind, cc, alts, u), m, m', m.pos, SemAlts(e, md.(back := behind), cc, alts, m),
                SemAlts(e, md.(back := behind), cc, alts, m'));
    case Quant(atom, min, max, greedy) => QuantAlike(e, md, cc, atom, min, max, greedy, u, m, m');
    case LineStart =>
    case LineEnd =>
    case WordBoundary(_) =>
    case _ =>
      if Next(e, md.back, m.pos).Some? {
        MovedAlike(u, m, m', Next(e, md.back, m.pos).value.1);
      }
  }

  lemma QuantAlike(e: Env, md: Mode, cc: nat, t: Term, min: int, max: int, greedy: bool, u: set<int>, m: M, m': M)
    requires Same(u, m, m') && Unread(md.back, cc, Quant(t, min, max, greedy), u)
    ensures AllAlike(Stale(md.back, cc, Quant(t, min, max, greedy), u), m, m',
                     SemTerm(e, md, cc, Quant(t, min, max, greedy), m),
                     SemTerm(e, md, cc, Quant(t, min, max, greedy), m'))
    decreases t, 4
  {
    hide Alike, AllAlike, Same, Reset, NumCaps, Repeat, Entered, Iterated, Slots;
    var n := NumCaps(t);
    var m0, m0' := if min == 0 then Reset(m, cc, n) else m, if min == 0 then Reset(m', cc, n) else m';
    var first := Entered(cc, t, min, u);
    EntrySame(u, m, m', cc, t, min);
    if max <= 0 {
      NoRepeat(e, md, cc, t, min, max, greedy, m0, m0');
      OneAlike(first, m, m', m0, m0');
    } else {
      var w := Iterated(cc, t, max, first);
      var d := Stale(md.back, cc, t, w);
      var v := if min > 0 then d else first + d;
      IteratedHolds(cc, t, max, first, d);
      WeakenSame(first, w, m0, m0');
      if min > 0 {
        TermAlike(e, md, cc, t, w, m0, m0');
        RepeatIs(e, md, cc, t, min, max, greedy, m0, m0');
        RepeatAllAlike(e, md, cc, t, min, max, greedy, w, d, m0, m0', SemTerm(e, md, cc, t, m0),
                       SemTerm(e, md, cc, t, m0'));
      } else {
        WeakenSame(first, v, m0, m0');
        RepeatAlike(e, md, cc, t, min, max, greedy, w, v, m0, m0');
      }
      Chain(first, v, m, m', m0, m0', Repeat(e, md, cc, t, min, max, greedy, m0),
            Repeat(e, md, cc, t, min, max, greedy, m0'));
    }
  }

  lemma IteratedHolds(cc: nat, t: Term, max: int, first: set<int>, d: set<int>)
    requires d <= Iterated(cc, t, max, first) + Slots(cc, NumCaps(t))
    ensures first <= Iterated(cc, t, max, first)
    ensures max > 1 ==> first + d <= Iterated(cc, t, max, first)
  {
  }

  lemma NoRepeat(e: Env, md: Mode, cc: nat, t: Term, min: int, max: int, greedy: bool, m: M, m': M)
    requires max <= 0
    ensures Repeat(e, md, cc, t, min, max, greedy, m) == [m] && Repeat(e, md, cc, t, min, max, greedy, m') == [m']
  {
  }

  lemma RepeatIs(e: Env, md: Mode, cc: nat, t: Term, min: int, max: int, greedy: bool, m: M, m': M)
    requires min > 0 && max > 0
    ensures Repeat(e, md, cc, t, min, max, greedy, m) ==
            RepeatAll(e, md, cc, t, min, max, greedy, SemTerm(e, md, cc, t, m))
    ensures Repeat(e, md, cc, t, min, max, greedy, m') ==
            RepeatAll(e, md, cc, t, min, max, greedy, SemTerm(e, md, cc, t, m'))
  {
    hide SemTerm, RepeatAll;
  }

  lemma SeqAlike(e: Env, md: Mode, cc: nat, ts: seq<Term>, u: set<int>, m: M, m': M)
    requires Same(u, m, m') && UnreadSeq(md.back, cc, ts, u)
    ensures AllAlike(StaleSeq(md.back, cc, ts, u), m, m', SemSeq(e, md, cc, ts, m), SemSeq(e, md, cc, ts, m'))
    decreases ts, 0, 0, 0, 0
  {
    hide Alike, AllAlike, SemTerm, Stale, Unread, NumCaps, Slots;
    if ts == [] {
      OneAlike(u, m, m', m, m');
    } else {
      var init, last := ts[..|ts| - 1], ts[|ts| - 1];
      var cc' := cc + NumCapsSeq(init);
      if md.back {
        TermAlike(e, md, cc', last, u, m, m');
        SeqAllAlike(e, md, cc, init, Stale(md.back, cc', last, u), m, m',
                    SemTerm(e, md, cc', last, m), SemTerm(e, md, cc', last, m'));
      } else {
        SeqAlike(e, md, cc, init, u, m, m');
        TermAllAlike(e, md, cc', last, StaleSeq(md.back, cc, init, u), m, m',
                     SemSeq(e, md, cc, init, m), SemSeq(e, md, cc, init, m'));
      }
    }
  }

  lemma TermAllAlike(e: Env, md: Mode, cc: nat, t: Term, u: set<int>, m: M, m': M, ms: seq<M>, ms': seq<M>)
    requires AllAlike(u, m, m', ms, ms') && Unread(md.back, cc, t, u)
    ensures AllAlike(Stale(md.back, cc, t, u), m, m', TermAll(e, md, cc, t, ms), TermAll(e, md, cc, t, ms'))
    decreases t, 2, 0, 0, |ms|
  {
    hide Alike, Same, SemTerm, Stale, Unread, Slots;
    if ms != [] {
      AlikeSame(u, m, m', ms[0], ms'[0]);
      TermAlike(e, md, cc, t, u, ms[0], ms'[0]);
      Chain(u, Stale(md.back, cc, t, u), m, m', ms[0], ms'[0],
            SemTerm(e, md, cc, t, ms[0]), SemTerm(e, md, cc, t, ms'[0]));
      TermAllAlike(e, md, cc, t, u, m, m', ms[1..], ms'[1..]);
    }
  }

  lemma SeqAllAlike(e: Env, md: Mode, cc: nat, ts: seq<Term>, u: set<int>, m: M, m': M, ms: seq<M>, ms': seq<M>)
    requires AllAlike(u, m, m', ms, ms') && UnreadSeq(md.back, cc, ts, u)
    ensures AllAlike(StaleSeq(md.back, cc, ts, u), m, m', SeqAll(e, md, cc, ts, ms), SeqAll(e, md, cc, ts, ms'))
    decreases ts, 1, 0, 0, |ms|
  {
    hide Alike, Same, SemSeq, StaleSeq, UnreadSeq, Slots;
    if ms != [] {
      AlikeSame(u, m, m', ms[0], ms'[0]);
      SeqAlike(e, md, cc, ts, u, ms[0], ms'[0]);
      Chain(u, StaleSeq(md.back, cc, ts, u), m, m', ms[0], ms'[0],
            SemSeq(e, md, cc, ts, ms[0]), SemSeq(e, md, cc, ts, ms'[0]));
      SeqAllAlike(e, md, cc, ts, u, m, m', ms[1..], ms'[1..]);
    }
  }

  lemma AltsAlike(e: Env, md: Mode, cc: nat, alts: seq<Alt>, u: set<int>, m: M, m': M)
    requires Same(u, m, m') && UnreadAlts(md.back, cc, alts, u)
    ensures AllAlike(StaleAlts(md.back, cc, alts, u), m, m', SemAlts(e, md, cc, alts, m), SemAlts(e, md, cc, alts, m'))
    decreases alts, 0, 0, 0, 0
  {
    hide Alike, AllAlike, Same, SemSeq, StaleSeq, UnreadSeq, NumCapsSeq, Slots;
    if alts == [] {
      NoneAlike(StaleAlts(md.back, cc, alts, u), m, m');
    } else {
      var init, last := alts[..|alts| - 1], alts[|alts| - 1].terms;
      var cc' := cc + NumCapsAlts(init);
      AltsAlike(e, md, cc, init, u, m, m');
      SeqAlike(e, md, cc', last, u, m, m');
      Append(StaleAlts(md.back, cc, init, u), StaleSeq(md.back, cc', last, u), StaleAlts(md.back, cc, alts, u), m, m',
             SemAlts(e, md, cc, init, m), SemAlts(e, md, cc, init, m'),
             SemSeq(e, md, cc', last, m), SemSeq(e, md, cc', last, m'));
    }
  }

  lemma RepeatAlike(e: Env, md: Mode, cc: nat, t: Term, min: int, max: int, greedy: bool, w: set<int>, v: set<int>,
                    m: M, m': M)
    requires Same(v, m, m') && (max > 0 ==> Same(w, m, m')) && (max > 1 ==> v <= w)
    requires Stale(md.back, cc, t, w) <= v && Unread(md.back, cc, t, w)
    ensures AllAlike(v, m, m', Repeat(e, md, cc, t, min, max, greedy, m), Repeat(e, md, cc, t, min, max, greedy, m'))
    decreases t, 3, if min > 0 then min else 0, Left(e, md.back, m.pos)
  {
    hide Alike, SemTerm, RepeatAll, IterateAll, Left, Stale, Unread, Slots;
    if max > 0 {
      var ms, ms' := SemTerm(e, md, cc, t, m), SemTerm(e, md, cc, t, m');
      TermAlike(e, md, cc, t, w, m, m');
      Weaken(Stale(md.back, cc, t, w), v, m, m', ms, ms');
      if min > 0 {
        RepeatAllAlike(e, md, cc, t, min, max, greedy, w, v, m, m', ms, ms');
      } else {
        IterateAllAlike(e, md, cc, t, max, greedy, w, v, m, m', ms, ms');
      }
    }
  }

  lemma RepeatAllAlike(e: Env, md: Mode, cc: nat, t: Term, min: int, max: int, greedy: bool, w: set<int>, v: set<int>,
                       m: M, m': M, ms: seq<M>, ms': seq<M>)
    requires min > 0 && AllAlike(v, m, m', ms, ms') && (max > 1 ==> v <= w)
    requires Stale(md.back, cc, t, w) <= v && Unread(md.back, cc, t, w)
    ensures AllAlike(v, m, m', RepeatAll(e, md, cc, t, min, max, greedy, ms),
                     RepeatAll(e, md, cc, t, min, max, greedy, ms'))
    decreases t, 3, min - 1, |e.subject.units| + 1, |ms|
  {
    hide Alike, AllAlike, Same, Repeat, Stale, Unread, Slots;
    if ms == [] {
      NoneLeft(v, m, m', ms');
    } else {
      TailAlike(v, m, m', ms, ms');
      AlikeSame(v, m, m', ms[0], ms'[0]);
      if max > 1 {
        WeakenSame(v, w, ms[0], ms'[0]);
      }
      RepeatAlike(e, md, cc, t, min - 1, Less(max), greedy, w, v, ms[0], ms'[0]);
      Chain(v, v, m, m', ms[0], ms'[0], Repeat(e, md, cc, t, min - 1, Less(max), greedy, ms[0]),
            Repeat(e, md, cc, t, min - 1, Less(max), greedy, ms'[0]));
      RepeatAllAlike(e, md, cc, t, min, max, greedy, w, v, m, m', ms[1..], ms'[1..]);
      Append(v, v, v, m, m', Repeat(e, md, cc, t, min - 1, Less(max), greedy, ms[0]),
             Repeat(e, md, cc, t, min - 1, Less(max), greedy, ms'[0]),
             RepeatAll(e, md, cc, t, min, max, greedy, ms[1..]), RepeatAll(e, md, cc, t, min, max, greedy, ms'[1..]));
    }
  }

  lemma IterateAllAlike(e: Env, md: Mode, cc: nat, t: Term, max: int, greedy: bool, w: set<int>, v: set<int>,
                        m: M, m': M, ms: seq<M>, ms': seq<M>)
    requires Same(v, m, m') && AllAlike(v, m, m', ms, ms') && (max > 1 ==> v <= w)
    requires Stale(md.back, cc, t, w) <= v && Unread(md.back, cc, t, w)
    ensures AllAlike(v, m, m', IterateAll(e, md, cc, t, max, greedy, m, ms),
                     IterateAll(e, md, cc, t, max, greedy, m', ms'))
    decreases t, 3, 0, Left(e, md.back, m.pos), |ms|
  {
    hide Alike, AllAlike, Same, Repeat, Left, Stale, Unread, Slots;
    SamePos(v, m, m');
    if ms == [] {
      NoneLeft(v, m, m', ms');
    } else {
      TailAlike(v, m, m', ms, ms');
      NoneAlike(v, m, m');
      AlikeSame(v, m, m', ms[0], ms'[0]);
      SamePos(v, ms[0], ms'[0]);
      if Left(e, md.back, ms[0].pos) < Left(e, md.back, m.pos) {
        if max > 1 {
          WeakenSame(v, w, ms[0], ms'[0]);
        }
        RepeatAlike(e, md, cc, t, 0, Less(max), greedy, w, v, ms[0], ms'[0]);
        Chain(v, v, m, m', ms[0], ms'[0], Repeat(e, md, cc, t, 0, Less(max), greedy, ms[0]),
              Repeat(e, md, cc, t, 0, Less(max), greedy, ms'[0]));
      }
      IterateAllAlike(e, md, cc, t, max, greedy, w, v, m, m', ms[1..], ms'[1..]);
      var moved := Left(e, md.back, ms[0].pos) < Left(e, md.back, m.pos);
      Append(v, v, v, m, m', if moved then Repeat(e, md, cc, t, 0, Less(max), greedy, ms[0]) else [],
             if moved then Repeat(e, md, cc, t, 0, Less(max), greedy, ms'[0]) else [],
             IterateAll(e, md, cc, t, max, greedy, m, ms[1..]), IterateAll(e, md, cc, t, max, greedy, m', ms'[1..]));
    }
  }
}
