/** By the standard too a term touches the captures of no groups but its own. */
module Locality {
  import opened Opcodes
  import opened Syntax
  import opened Semantics
  import opened Standard

  /** `o` has the captures of `m`, except perhaps those of the groups in [lo, hi). */
  ghost predicate Apart(lo: nat, hi: nat, m: M, o: M) {
    && |o.caps| == |m.caps|
    && forall k :: 0 <= k < |m.caps| && !(2 * lo <= k < 2 * hi) ==> o.caps[k] == m.caps[k]
  }

  ghost predicate AllApart(lo: nat, hi: nat, m: M, ms: seq<M>) {
    forall i :: 0 <= i < |ms| ==> Apart(lo, hi, m, ms[i])
  }

  lemma Widen(lo: nat, hi: nat, lo': nat, hi': nat, m: M, ms: seq<M>)
    requires AllApart(lo, hi, m, ms) && lo' <= lo && hi <= hi'
    ensures AllApart(lo', hi', m, ms)
  {
  }

  lemma Chain(lo: nat, hi: nat, m: M, o: M, ms: seq<M>)
    requires Apart(lo, hi, m, o) && AllApart(lo, hi, o, ms)
    ensures AllApart(lo, hi, m, ms)
  {
  }

  lemma ApartCaps(cc: nat, hi: nat, m: M, start: nat, end: nat, outs: seq<M>)
    requires 2 * cc <= start < 2 * cc + 2 && 2 * cc <= end < 2 * cc + 2 && cc < hi
    requires AllApart(cc + 1, hi, SetCap(m, start), outs)
    ensures AllApart(cc, hi, m, SetCaps(outs, end))
  {
  }

  lemma ApartReset(cc: nat, n: nat, m: M)
    ensures Apart(cc, cc + n, m, Reset(m, cc, n))
  {
  }

  lemma ApartTerm(e: Env, md: Mode, cc: nat, t: Term, m: M)
    ensures AllApart(cc, cc + NumCaps(t), m, StdTerm(e, md, cc, t, m))
    decreases t, 1, 0, 0, 0
  {
    hide StdAlts, StdRepeat, MatchText, Captured, SetCap, SetCaps, LineEdge, WordAt, Accepts, Next, NumCapsAlts;
    match t
    case Group(alts) => ApartAlts(e, md, cc, alts, m);
    case Modified(add, remove, alts) =>
      ApartAlts(e, md.(flags := Update(md.flags, add, remove)), cc, alts, m);
    case Capture(alts) =>
      var start, end := 2 * cc + Bit(md.back), 2 * cc + Bit(!md.back);
      ApartAlts(e, md, cc + 1, alts, SetCap(m, start));
      ApartCaps(cc, cc + NumCaps(t), m, start, end, StdAlts(e, md, cc + 1, alts, SetCap(m, start)));
    case Look(behind, neg, alts) =>
      var outs := StdAlts(e, md.(back := behind), cc, alts, m);
      ApartAlts(e, md.(back := behind), cc, alts, m);
      assert outs != [] ==> Apart(cc, cc + NumCaps(t), m, outs[0]);
    case Quant(atom, min, max, greedy) =>
      ApartRepeat(e, md, cc, atom, min, max, greedy, m);
    case _ =>
  }

  lemma ApartSeq(e: Env, md: Mode, cc: nat, ts: seq<Term>, m: M)
    ensures AllApart(cc, cc + NumCapsSeq(ts), m, StdSeq(e, md, cc, ts, m))
    decreases ts, 0, 0, 0, 0
  {
    hide Apart, StdTerm, NumCaps;
    if ts == [] {
      assert Apart(cc, cc, m, m) by { ApartSelf(cc, cc, m); }
    } else {
      var init, last := ts[..|ts| - 1], ts[|ts| - 1];
      var cc', hi := cc + NumCapsSeq(init), cc + NumCapsSeq(ts);
      if md.back {
        ApartTerm(e, md, cc', last, m);
        Widen(cc', hi, cc, hi, m, StdTerm(e, md, cc', last, m));
        ApartSeqAll(e, md, cc, init, hi, m, StdTerm(e, md, cc', last, m));
      } else {
        ApartSeq(e, md, cc, init, m);
        Widen(cc, cc', cc, hi, m, StdSeq(e, md, cc, init, m));
        ApartTermAll(e, md, cc', last, cc, hi, m, StdSeq(e, md, cc, init, m));
      }
    }
  }

  lemma ApartSelf(lo: nat, hi: nat, m: M)
    ensures Apart(lo, hi, m, m)
  {
  }

  lemma ApartTermAll(e: Env, md: Mode, cc: nat, t: Term, lo: nat, hi: nat, m: M, ms: seq<M>)
    requires AllApart(lo, hi, m, ms) && lo <= cc && cc + NumCaps(t) <= hi
    ensures AllApart(lo, hi, m, StdTermAll(e, md, cc, t, ms))
    decreases t, 2, 0, 0, |ms|
  {
    hide Apart, StdTerm, NumCaps;
    if ms != [] {
      var outs := StdTerm(e, md, cc, t, ms[0]);
      ApartTerm(e, md, cc, t, ms[0]);
      Widen(cc, cc + NumCaps(t), lo, hi, ms[0], outs);
      Chain(lo, hi, m, ms[0], outs);
      ApartTermAll(e, md, cc, t, lo, hi, m, ms[1..]);
    }
  }

  lemma ApartSeqAll(e: Env, md: Mode, cc: nat, ts: seq<Term>, hi: nat, m: M, ms: seq<M>)
    requires AllApart(cc, hi, m, ms) && cc + NumCapsSeq(ts) <= hi
    ensures AllApart(cc, hi, m, StdSeqAll(e, md, cc, ts, ms))
    decreases ts, 1, 0, 0, |ms|
  {
    hide Apart, StdSeq, NumCapsSeq;
    if ms != [] {
      var outs := StdSeq(e, md, cc, ts, ms[0]);
      ApartSeq(e, md, cc, ts, ms[0]);
      Widen(cc, cc + NumCapsSeq(ts), cc, hi, ms[0], outs);
      Chain(cc, hi, m, ms[0], outs);
      ApartSeqAll(e, md, cc, ts, hi, m, ms[1..]);
    }
  }

  lemma ApartAlts(e: Env, md: Mode, cc: nat, alts: seq<Alt>, m: M)
    ensures AllApart(cc, cc + NumCapsAlts(alts), m, StdAlts(e, md, cc, alts, m))
    decreases alts, 0, 0, 0, 0
  {
    hide Apart, StdSeq, NumCapsSeq;
    if alts != [] {
      var init, last := alts[..|alts| - 1], alts[|alts| - 1].terms;
      var cc', hi := cc + NumCapsAlts(init), cc + NumCapsAlts(alts);
      ApartAlts(e, md, cc, init, m);
      Widen(cc, cc', cc, hi, m, StdAlts(e, md, cc, init, m));
      ApartSeq(e, md, cc', last, m);
      Widen(cc', hi, cc, hi, m, StdSeq(e, md, cc', last, m));
    }
  }

  lemma ApartRepeat(e: Env, md: Mode, cc: nat, t: Term, min: int, max: int, greedy: bool, m: M)
    ensures AllApart(cc, cc + NumCaps(t), m, StdRepeat(e, md, cc, t, min, max, greedy, m))
    decreases t, 3, if min > 0 then min else 0, Left(e, md.back, m.pos)
  {
    hide Apart, StdTerm, StdRepeatAll, StdIterateAll, NumCaps, Left, Reset;
    var n := NumCaps(t);
    ApartSelf(cc, cc + n, m);
    if max > 0 {
      var m0 := Reset(m, cc, n);
      var outs := StdTerm(e, md, cc, t, m0);
      ApartReset(cc, n, m);
      ApartTerm(e, md, cc, t, m0);
      Chain(cc, cc + n, m, m0, outs);
      if min > 0 {
        ApartRepeatAll(e, md, cc, t, min, max, greedy, m, outs);
      } else {
        ApartIterateAll(e, md, cc, t, max, greedy, m, outs);
      }
    }
  }

  lemma ApartRepeatAll(e: Env, md: Mode, cc: nat, t: Term, min: int, max: int, greedy: bool, m: M, ms: seq<M>)
    requires min > 0 && AllApart(cc, cc + NumCaps(t), m, ms)
    ensures AllApart(cc, cc + NumCaps(t), m, StdRepeatAll(e, md, cc, t, min, max, greedy, ms))
    decreases t, 3, min - 1, |e.subject.units| + 1, |ms|
  {
    hide Apart, StdRepeat, StdTerm, NumCaps;
    if ms != [] {
      ApartRepeat(e, md, cc, t, min - 1, Less(max), greedy, ms[0]);
      Chain(cc, cc + NumCaps(t), m, ms[0], StdRepeat(e, md, cc, t, min - 1, Less(max), greedy, ms[0]));
      ApartRepeatAll(e, md, cc, t, min, max, greedy, m, ms[1..]);
    }
  }

  lemma ApartIterateAll(e: Env, md: Mode, cc: nat, t: Term, max: int, greedy: bool, m: M, ms: seq<M>)
    requires AllApart(cc, cc + NumCaps(t), m, ms)
    ensures AllApart(cc, cc + NumCaps(t), m, StdIterateAll(e, md, cc, t, max, greedy, m, ms))
    decreases t, 3, 0, Left(e, md.back, m.pos), |ms|
  {
    hide Apart, StdRepeat, StdTerm, NumCaps, Left;
    if ms != [] {
      if Left(e, md.back, ms[0].pos) < Left(e, md.back, m.pos) {
        ApartRepeat(e, md, cc, t, 0, Less(max), greedy, ms[0]);
        Chain(cc, cc + NumCaps(t), m, ms[0], StdRepeat(e, md, cc, t, 0, Less(max), greedy, ms[0]));
      }
      ApartIterateAll(e, md, cc, t, max, greedy, m, ms[1..]);
    }
  }
}
