/** How far quantifiers do what the standard says although they do not clear captures in front of
    every iteration. As long as no back reference reads a capture left over, the outcomes are
    those of the standard, in number, order and extent; captures differ only by what is left over
    where the standard has nothing, and not at all in a pattern in which nothing can be. */
module Conformance {
  import opened Options
  import opened Opcodes
  import opened Text
  import opened Syntax
  import opened Semantics
  import opened Program
  import opened Standard
  import opened Locality
  import opened Leftovers

  /** `m` is the state `s` of the standard but for captures left over in slots of `u`. */
  ghost predicate Trails(u: set<int>, m: M, s: M) {
    && m.pos == s.pos
    && |m.caps| == |s.caps|
    && forall k :: 0 <= k < |m.caps| ==> m.caps[k] == s.caps[k] || (k in u && s.caps[k] == None)
  }

  ghost predicate AllTrail(u: set<int>, ms: seq<M>, ss: seq<M>) {
    |ms| == |ss| && forall i :: 0 <= i < |ms| ==> Trails(u, ms[i], ss[i])
  }

  lemma Weaken(u: set<int>, v: set<int>, ms: seq<M>, ss: seq<M>)
    requires AllTrail(u, ms, ss) && u <= v
    ensures AllTrail(v, ms, ss)
  {
    forall i | 0 <= i < |ms| ensures Trails(v, ms[i], ss[i]) {
      WeakenOne(u, v, ms[i], ss[i]);
    }
  }

  lemma WeakenOne(u: set<int>, v: set<int>, m: M, s: M)
    requires Trails(u, m, s) && u <= v
    ensures Trails(v, m, s)
  {
  }

  lemma NoneTrail(u: set<int>)
    ensures AllTrail(u, [], [])
  {
  }

  lemma OneTrails(u: set<int>, m: M, s: M)
    requires Trails(u, m, s)
    ensures AllTrail(u, [m], [s])
  {
  }

  lemma AppendTrails(u: set<int>, v: set<int>, w: set<int>, ms: seq<M>, ss: seq<M>, ms': seq<M>, ss': seq<M>)
    requires AllTrail(u, ms, ss) && AllTrail(v, ms', ss') && u <= w && v <= w
    ensures AllTrail(w, ms + ms', ss + ss')
  {
    hide Trails;
    Weaken(u, w, ms, ss);
    Weaken(v, w, ms', ss');
  }

  lemma SetCapTrails(u: set<int>, m: M, s: M, k: nat)
    requires Trails(u, m, s)
    ensures Trails(u - {k}, SetCap(m, k), SetCap(s, k))
  {
  }

  lemma SetCapsTrail(u: set<int>, ms: seq<M>, ss: seq<M>, k: nat)
    requires AllTrail(u, ms, ss)
    ensures AllTrail(u - {k}, SetCaps(ms, k), SetCaps(ss, k))
  {
    hide Trails, SetCap;
    var v := u - {k};
    forall i | 0 <= i < |ms| ensures Trails(v, SetCaps(ms, k)[i], SetCaps(ss, k)[i]) {
      SetCapTrails(u, ms[i], ss[i], k);
    }
  }

  lemma LookTrails(u: set<int>, pos: nat, ms: seq<M>, ss: seq<M>)
    requires AllTrail(u, ms, ss)
    ensures ms == [] <==> ss == []
    ensures ms != [] ==> Trails(u, M(pos, ms[0].caps), M(pos, ss[0].caps))
  {
    if ms != [] {
      assert Trails(u, ms[0], ss[0]);
    }
  }

  lemma CapturedTrails(e: Env, u: set<int>, m: M, s: M, n: int)
    requires Trails(u, m, s) && 2 * n !in u && 2 * n + 1 !in u
    ensures Captured(e, m, n) == Captured(e, s, n)
  {
  }

  lemma MovedTrails(u: set<int>, m: M, s: M, q: nat)
    requires Trails(u, m, s)
    ensures Trails(u, m.(pos := q), s.(pos := q))
  {
  }

  lemma SamePos(u: set<int>, m: M, s: M)
    requires Trails(u, m, s)
    ensures m.pos == s.pos
  {
  }

  /** A reset on entry does nothing that the standard would see: there the groups are clear. */
  lemma EntryTrails(u: set<int>, m: M, s: M, cc: nat, atom: Term, min: int)
    requires Trails(u, m, s) && Fresh(s, cc, cc + NumCaps(atom))
    ensures Trails(Entered(cc, atom, min, u), if min == 0 then Reset(m, cc, NumCaps(atom)) else m, s)
  {
  }

  /** The reset in front of an iteration leaves behind what the code has not cleared. */
  lemma ResetTrails(u: set<int>, w: set<int>, m: M, s: M, cc: nat, n: nat)
    requires Trails(u, m, s) && u + Slots(cc, n) <= w
    ensures Trails(w, m, Reset(s, cc, n))
  {
  }

  lemma ApartFresh(s: M, ss: seq<M>, lo: nat, hi: nat, lo': nat, hi': nat)
    requires Fresh(s, lo', hi') && AllApart(lo, hi, s, ss) && (hi <= lo' || hi' <= lo)
    ensures AllFresh(ss, lo', hi')
  {
    forall i | 0 <= i < |ss| ensures Fresh(ss[i], lo', hi') {
      assert Apart(lo, hi, s, ss[i]);
    }
  }

  ghost predicate AllFresh(ss: seq<M>, lo: nat, hi: nat) {
    forall i :: 0 <= i < |ss| ==> Fresh(ss[i], lo, hi)
  }

  /** From a state that trails one of the standard, in which the groups of the term are clear, a
      term has outcomes that trail those of the standard, one by one. */
  lemma TermTrails(e: Env, md: Mode, cc: nat, t: Term, u: set<int>, m: M, s: M)
    requires Trails(u, m, s) && Fresh(s, cc, cc + NumCaps(t)) && Unread(md.back, cc, t, u)
    ensures AllTrail(Stale(md.back, cc, t, u), SemTerm(e, md, cc, t, m), StdTerm(e, md, cc, t, s))
    decreases t, 1, 0, 0, 0
  {
    hide Trails, Fresh, SemAlts, StdAlts, Repeat, StdRepeat, MatchText, Captured, SetCap, SetCaps, Reset, LineEdge,
         WordAt, Accepts, Next, StaleAlts, UnreadAlts, NumCapsAlts;
    SamePos(u, m, s);
    match t
    case BackRef(n) =>
      CapturedTrails(e, u, m, s, n);
      match Captured(e, m, n) {
        case None =>
        case Some(text) =>
          match MatchText(e, md.back, md.flags.icase, text, m.pos)
          case None =>
          case Some(q) => MovedTrails(u, m, s, q);
      }
    case Group(alts) => AltsTrail(e, md, cc, alts, u, m, s);
    case Modified(add, remove, alts) =>
      AltsTrail(e, md.(flags := Update(md.flags, add, remove)), cc, alts, u, m, s);
    case Capture(alts) =>
      var start, end := 2 * cc + Bit(md.back), 2 * cc + Bit(!md.back);
      SetCapTrails(u, m, s, start);
      SetCapFresh(s, cc, cc + NumCaps(t), start);
      AltsTrail(e, md, cc + 1, alts, u - {start}, SetCap(m, start), SetCap(s, start));
      SetCapsTrail(StaleAlts(md.back, cc + 1, alts, u - {start}), SemAlts(e, md, cc + 1, alts, SetCap(m, start)),
                   StdAlts(e, md, cc + 1, alts, SetCap(s, start)), end);
    case Look(behind, neg, alts) =>
      AltsTrail(e, md.(back := behind), cc, alts, u, m, s);
      LookTrails(StaleAlts(behind, cc, alts, u), m.pos, SemAlts(e, md.(back := behind), cc, alts, m),
                 StdAlts(e, md.(back := behind), cc, alts, s));
    case Quant(atom, min, max, greedy) => QuantTrails(e, md, cc, atom, min, max, greedy, u, m, s);
    case LineStart =>
    case LineEnd =>
    case WordBoundary(_) =>
    case _ =>
      if Next(e, md.back, m.pos).Some? {
        MovedTrails(u, m, s, Next(e, md.back, m.pos).value.1);
      }
  }

  lemma QuantTrails(e: Env, md: Mode, cc: nat, t: Term, min: int, max: int, greedy: bool, u: set<int>, m: M, s: M)
    requires Trails(u, m, s) && Fresh(s, cc, cc + NumCaps(t)) && Unread(md.back, cc, Quant(t, min, max, greedy), u)
    ensures AllTrail(Stale(md.back, cc, Quant(t, min, max, greedy), u),
                     SemTerm(e, md, cc, Quant(t, min, max, greedy), m), StdRepeat(e, md, cc, t, min, max, greedy, s))
    decreases t, 4
  {
    hide Trails, Fresh, Reset, NumCaps, Repeat, StdRepeat, Entered, Iterated;
    var n := NumCaps(t);
    var m0 := if min == 0 then Reset(m, cc, n) else m;
    var first := Entered(cc, t, min, u);
    EntryTrails(u, m, s, cc, t, min);
    ResetFresh(s, cc, n);
    if max <= 0 {
      NoRepeat(e, md, cc, t, min, max, greedy, m0, s);
    } else {
      var w := Iterated(cc, t, max, first);
      var d := Stale(md.back, cc, t, w);
      IteratedHolds(cc, t, max, first, d);
      WeakenOne(first, w, m0, s);
      if min > 0 {
        TermTrails(e, md, cc, t, w, m0, s);
        RepeatIs(e, md, cc, t, min, max, greedy, m0, s);
        RepeatAllTrail(e, md, cc, t, min, max, greedy, w, d, SemTerm(e, md, cc, t, m0), StdTerm(e, md, cc, t, s));
      } else {
        WeakenOne(first, first + d, m0, s);
        RepeatTrails(e, md, cc, t, min, max, greedy, w, first + d, m0, s);
      }
    }
  }

  lemma IteratedHolds(cc: nat, t: Term, max: int, first: set<int>, d: set<int>)
    requires d <= Iterated(cc, t, max, first) + Slots(cc, NumCaps(t))
    ensures first <= Iterated(cc, t, max, first)
    ensures max > 1 ==> first + d + Slots(cc, NumCaps(t)) <= Iterated(cc, t, max, first)
  {
  }

  lemma NoRepeat(e: Env, md: Mode, cc: nat, t: Term, min: int, max: int, greedy: bool, m: M, s: M)
    requires max <= 0
    ensures Repeat(e, md, cc, t, min, max, greedy, m) == [m] && StdRepeat(e, md, cc, t, min, max, greedy, s) == [s]
  {
  }

  lemma RepeatIs(e: Env, md: Mode, cc: nat, t: Term, min: int, max: int, greedy: bool, m: M, s: M)
    requires min > 0 && max > 0
    ensures Repeat(e, md, cc, t, min, max, greedy, m) ==
            RepeatAll(e, md, cc, t, min, max, greedy, SemTerm(e, md, cc, t, m))
    ensures StdRepeat(e, md, cc, t, min, max, greedy, s) ==
            StdRepeatAll(e, md, cc, t, min, max, greedy, StdTerm(e, md, cc, t, Reset(s, cc, NumCaps(t))))
  {
    hide SemTerm, RepeatAll, StdTerm, StdRepeatAll;
  }

  lemma SeqTrails(e: Env, md: Mode, cc: nat, ts: seq<Term>, u: set<int>, m: M, s: M)
    requires Trails(u, m, s) && Fresh(s, cc, cc + NumCapsSeq(ts)) && UnreadSeq(md.back, cc, ts, u)
    ensures AllTrail(StaleSeq(md.back, cc, ts, u), SemSeq(e, md, cc, ts, m), StdSeq(e, md, cc, ts, s))
    decreases ts, 0, 0, 0, 0
  {
    hide Trails, AllTrail, AllFresh, AllApart, Fresh, SemTerm, StdTerm, NumCaps, Stale, Unread, Slots;
    if ts == [] {
      OneTrails(u, m, s);
    } else {
      var init, last := ts[..|ts| - 1], ts[|ts| - 1];
      var cc', hi := cc + NumCapsSeq(init), cc + NumCapsSeq(ts);
      FreshPart(s, cc, hi, cc, cc');
      FreshPart(s, cc, hi, cc', hi);
      if md.back {
        TermTrails(e, md, cc', last, u, m, s);
        ApartTerm(e, md, cc', last, s);
        ApartFresh(s, StdTerm(e, md, cc', last, s), cc', hi, cc, cc');
        SeqAllTrail(e, md, cc, init, Stale(md.back, cc', last, u), SemTerm(e, md, cc', last, m),
                    StdTerm(e, md, cc', last, s));
      } else {
        SeqTrails(e, md, cc, init, u, m, s);
        ApartSeq(e, md, cc, init, s);
        ApartFresh(s, StdSeq(e, md, cc, init, s), cc, cc', cc', hi);
        TermAllTrail(e, md, cc', last, StaleSeq(md.back, cc, init, u), SemSeq(e, md, cc, init, m),
                     StdSeq(e, md, cc, init, s));
      }
    }
  }

  lemma TermAllTrail(e: Env, md: Mode, cc: nat, t: Term, u: set<int>, ms: seq<M>, ss: seq<M>)
    requires AllTrail(u, ms, ss) && AllFresh(ss, cc, cc + NumCaps(t)) && Unread(md.back, cc, t, u)
    ensures AllTrail(Stale(md.back, cc, t, u), TermAll(e, md, cc, t, ms), StdTermAll(e, md, cc, t, ss))
    decreases t, 2, 0, 0, |ms|
  {
    hide Trails, Fresh, SemTerm, StdTerm, NumCaps, Stale, Unread, Slots;
    if ms != [] {
      TermTrails(e, md, cc, t, u, ms[0], ss[0]);
      TermAllTrail(e, md, cc, t, u, ms[1..], ss[1..]);
    }
  }

  lemma SeqAllTrail(e: Env, md: Mode, cc: nat, ts: seq<Term>, u: set<int>, ms: seq<M>, ss: seq<M>)
    requires AllTrail(u, ms, ss) && AllFresh(ss, cc, cc + NumCapsSeq(ts)) && UnreadSeq(md.back, cc, ts, u)
    ensures AllTrail(StaleSeq(md.back, cc, ts, u), SeqAll(e, md, cc, ts, ms), StdSeqAll(e, md, cc, ts, ss))
    decreases ts, 1, 0, 0, |ms|
  {
    hide Trails, Fresh, SemSeq, StdSeq, NumCapsSeq, StaleSeq, UnreadSeq;
    if ms != [] {
      SeqTrails(e, md, cc, ts, u, ms[0], ss[0]);
      SeqAllTrail(e, md, cc, ts, u, ms[1..], ss[1..]);
    }
  }

  lemma AltsTrail(e: Env, md: Mode, cc: nat, alts: seq<Alt>, u: set<int>, m: M, s: M)
    requires Trails(u, m, s) && Fresh(s, cc, cc + NumCapsAlts(alts)) && UnreadAlts(md.back, cc, alts, u)
    ensures AllTrail(StaleAlts(md.back, cc, alts, u), SemAlts(e, md, cc, alts, m), StdAlts(e, md, cc, alts, s))
    decreases alts, 0, 0, 0, 0
  {
    hide Trails, Fresh, AllTrail, SemSeq, StdSeq, NumCapsSeq, StaleSeq, UnreadSeq, Slots;
    if alts == [] {
      NoneTrail(StaleAlts(md.back, cc, alts, u));
    } else {
      var init, last := alts[..|alts| - 1], alts[|alts| - 1].terms;
      var cc', hi := cc + NumCapsAlts(init), cc + NumCapsAlts(alts);
      var all := StaleAlts(md.back, cc, alts, u);
      FreshPart(s, cc, hi, cc, cc');
      FreshPart(s, cc, hi, cc', hi);
      AltsTrail(e, md, cc, init, u, m, s);
      SeqTrails(e, md, cc', last, u, m, s);
      AppendTrails(StaleAlts(md.back, cc, init, u), StaleSeq(md.back, cc', last, u), all,
                   SemAlts(e, md, cc, init, m), StdAlts(e, md, cc, init, s),
                   SemSeq(e, md, cc', last, m), StdSeq(e, md, cc', last, s));
    }
  }

  /** Iterations, each from a state that trails in `v`, which the reset makes `w` at most. */
  lemma RepeatTrails(e: Env, md: Mode, cc: nat, t: Term, min: int, max: int, greedy: bool, w: set<int>, v: set<int>,
                     m: M, s: M)
    requires Trails(v, m, s) && (max > 0 ==> Trails(w, m, Reset(s, cc, NumCaps(t))))
    requires Stale(md.back, cc, t, w) <= v && Unread(md.back, cc, t, w)
    requires max > 1 ==> v + Slots(cc, NumCaps(t)) <= w
    ensures AllTrail(v, Repeat(e, md, cc, t, min, max, greedy, m), StdRepeat(e, md, cc, t, min, max, greedy, s))
    decreases t, 3, if min > 0 then min else 0, Left(e, md.back, m.pos)
  {
    hide Trails, Fresh, SemTerm, StdTerm, RepeatAll, StdRepeatAll, IterateAll, StdIterateAll, Left, Reset, NumCaps,
         Stale, Unread;
    if max > 0 {
      var s0 := Reset(s, cc, NumCaps(t));
      var ms, ss := SemTerm(e, md, cc, t, m), StdTerm(e, md, cc, t, s0);
      ResetFresh(s, cc, NumCaps(t));
      TermTrails(e, md, cc, t, w, m, s0);
      Weaken(Stale(md.back, cc, t, w), v, ms, ss);
      if min > 0 {
        RepeatAllTrail(e, md, cc, t, min, max, greedy, w, v, ms, ss);
      } else {
        IterateAllTrail(e, md, cc, t, max, greedy, w, v, m, s, ms, ss);
      }
    }
  }

  lemma RepeatAllTrail(e: Env, md: Mode, cc: nat, t: Term, min: int, max: int, greedy: bool, w: set<int>, v: set<int>,
                       ms: seq<M>, ss: seq<M>)
    requires min > 0 && AllTrail(v, ms, ss)
    requires Stale(md.back, cc, t, w) <= v && Unread(md.back, cc, t, w)
    requires max > 1 ==> v + Slots(cc, NumCaps(t)) <= w
    ensures AllTrail(v, RepeatAll(e, md, cc, t, min, max, greedy, ms), StdRepeatAll(e, md, cc, t, min, max, greedy, ss))
    decreases t, 3, min - 1, |e.subject.units| + 1, |ms|
  {
    hide Trails, Repeat, StdRepeat, Reset, NumCaps, Stale, Unread;
    if ms != [] {
      if max > 1 {
        ResetTrails(v, w, ms[0], ss[0], cc, NumCaps(t));
      }
      RepeatTrails(e, md, cc, t, min - 1, Less(max), greedy, w, v, ms[0], ss[0]);
      RepeatAllTrail(e, md, cc, t, min, max, greedy, w, v, ms[1..], ss[1..]);
    }
  }

  lemma IterateAllTrail(e: Env, md: Mode, cc: nat, t: Term, max: int, greedy: bool, w: set<int>, v: set<int>,
                        m: M, s: M, ms: seq<M>, ss: seq<M>)
    requires Trails(v, m, s) && AllTrail(v, ms, ss)
    requires Stale(md.back, cc, t, w) <= v && Unread(md.back, cc, t, w)
    requires max > 1 ==> v + Slots(cc, NumCaps(t)) <= w
    ensures AllTrail(v, IterateAll(e, md, cc, t, max, greedy, m, ms), StdIterateAll(e, md, cc, t, max, greedy, s, ss))
    decreases t, 3, 0, Left(e, md.back, m.pos), |ms|
  {
    hide Trails, Repeat, StdRepeat, Left, Reset, NumCaps, Stale, Unread, Slots;
    SamePos(v, m, s);
    if ms != [] {
      SamePos(v, ms[0], ss[0]);
      if Left(e, md.back, ms[0].pos) < Left(e, md.back, m.pos) {
        if max > 1 {
          ResetTrails(v, w, ms[0], ss[0], cc, NumCaps(t));
        }
        RepeatTrails(e, md, cc, t, 0, Less(max), greedy, w, v, ms[0], ss[0]);
      }
      IterateAllTrail(e, md, cc, t, max, greedy, w, v, m, s, ms[1..], ss[1..]);
    }
  }

  /** The slots of a whole pattern in which a match can differ from that of the standard. */
  function StaleMatch(alts: seq<Alt>): set<int> {
    Stale(false, 0, Capture(alts), {})
  }

  predicate UnreadMatch(alts: seq<Alt>) {
    Unread(false, 0, Capture(alts), {})
  }

  /** The whole pattern: it matches where the standard says it does, from and to the same
      positions, and each group is as in the standard, or left over where that has none. */
  lemma {:induction false} MatchTrails(e: Env, flags: Flags, sticky: bool, alts: seq<Alt>, pos: nat)
    requires UnreadMatch(alts)
    ensures var r, s := FirstMatch(e, flags, sticky, alts, pos), StdFirstMatch(e, flags, sticky, alts, pos);
            r.Some? == s.Some? && (r.Some? ==> Trails(StaleMatch(alts), r.value, s.value))
    decreases |e.subject.units| - pos
  {
    hide SemTerm, StdTerm, Unread, Stale, Trails;
    var m := M(pos, NoCaps(e.ncap));
    TrailsSelf(m);
    TermTrails(e, Mode(false, flags), 0, Capture(alts), {}, m, m);
    if !sticky && pos < |e.subject.units| && MatchesAt(e, flags, alts, pos) == [] {
      MatchTrails(e, flags, sticky, alts, GetChar(e.subject, pos).1);
    }
  }

  lemma TrailsSelf(m: M)
    ensures Trails({}, m, m)
  {
  }

  /** A pattern in which nothing can be left over finds exactly the match of the standard. */
  lemma MatchConforms(e: Env, flags: Flags, sticky: bool, alts: seq<Alt>, pos: nat)
    requires UnreadMatch(alts) && StaleMatch(alts) == {}
    ensures FirstMatch(e, flags, sticky, alts, pos) == StdFirstMatch(e, flags, sticky, alts, pos)
  {
    hide FirstMatch, StdFirstMatch, Unread, Stale;
    MatchTrails(e, flags, sticky, alts, pos);
    var r, s := FirstMatch(e, flags, sticky, alts, pos), StdFirstMatch(e, flags, sticky, alts, pos);
    if r.Some? {
      assert r.value.caps == s.value.caps;
    }
  }
}
