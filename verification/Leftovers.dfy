/** Where captures left over from an earlier iteration can show. The compiled quantifier resets
    the groups of its atom on entry, and only without a minimum; so a group that one iteration
    has set and the next passes by keeps its captures. A walk over the pattern finds the places:
    a set of slots, slot 2n for the start and 2n + 1 for the end of group n. */
module Leftovers {
  import opened Options
  import opened Opcodes
  import opened Syntax
  import opened Semantics

  /** The slots of `n` groups from number `cc` on. */
  function Slots(cc: nat, n: nat): (r: set<int>)
    ensures forall k :: k in r <==> 2 * cc <= k < 2 * (cc + n)
  {
    if n == 0 then {} else Slots(cc, n - 1) + {2 * (cc + n) - 2, 2 * (cc + n) - 1}
  }

  /** The slots in which something can be left over when the pattern has been gone through, if
      before it there can be in those of `u`. A sequence sets what its terms set, alternatives
      what each of them sets; a negative lookaround sets nothing; a quantifier without a minimum
      resets its own groups first, and one that goes round again adds them to those in doubt. */
  function Stale(back: bool, cc: nat, t: Term, u: set<int>): (r: set<int>)
    ensures r <= u + Slots(cc, NumCaps(t))
    decreases t, 1
  {
    match t
    case Group(alts) => StaleAlts(back, cc, alts, u)
    case Modified(_, _, alts) => StaleAlts(back, cc, alts, u)
    case Capture(alts) => StaleAlts(back, cc + 1, alts, u - {2 * cc + Bit(back)}) - {2 * cc + Bit(!back)}
    case Look(behind, neg, alts) => if neg then u else StaleAlts(behind, cc, alts, u)
    case Quant(atom, min, max, _) =>
      var first := Entered(cc, atom, min, u);
      if max <= 0 then first
      else
        var d := Stale(back, cc, atom, Iterated(cc, atom, max, first));
        if min > 0 then d else first + d
    case _ => u
  }

  function StaleSeq(back: bool, cc: nat, ts: seq<Term>, u: set<int>): (r: set<int>)
    ensures r <= u + Slots(cc, NumCapsSeq(ts))
    decreases ts, 0
  {
    if ts == [] then u
    else
      var init, last := ts[..|ts| - 1], ts[|ts| - 1];
      var cc' := cc + NumCapsSeq(init);
      if back then StaleSeq(back, cc, init, Stale(back, cc', last, u))
      else Stale(back, cc', last, StaleSeq(back, cc, init, u))
  }

  function StaleAlts(back: bool, cc: nat, alts: seq<Alt>, u: set<int>): (r: set<int>)
    ensures r <= u + Slots(cc, NumCapsAlts(alts))
    decreases alts, 0
  {
    if alts == [] then {}
    else
      var init := alts[..|alts| - 1];
      StaleAlts(back, cc, init, u) + StaleSeq(back, cc + NumCapsAlts(init), alts[|alts| - 1].terms, u)
  }

  /** The slots in doubt at the first iteration of a quantifier, and at any of them. */
  function Entered(cc: nat, atom: Term, min: int, u: set<int>): set<int> {
    if min == 0 then u - Slots(cc, NumCaps(atom)) else u
  }

  function Iterated(cc: nat, atom: Term, max: int, first: set<int>): set<int> {
    if max > 1 then first + Slots(cc, NumCaps(atom)) else first
  }

  /** No back reference of the pattern reads a slot in doubt. */
  predicate Unread(back: bool, cc: nat, t: Term, u: set<int>)
    decreases t, 1
  {
    match t
    case BackRef(n) => 2 * n !in u && 2 * n + 1 !in u
    case Group(alts) => UnreadAlts(back, cc, alts, u)
    case Modified(_, _, alts) => UnreadAlts(back, cc, alts, u)
    case Capture(alts) => UnreadAlts(back, cc + 1, alts, u - {2 * cc + Bit(back)})
    case Look(behind, _, alts) => UnreadAlts(behind, cc, alts, u)
    case Quant(atom, min, max, _) =>
      max > 0 ==> Unread(back, cc, atom, Iterated(cc, atom, max, Entered(cc, atom, min, u)))
    case _ => true
  }

  predicate UnreadSeq(back: bool, cc: nat, ts: seq<Term>, u: set<int>)
    decreases ts, 0
  {
    ts != [] ==>
      var init, last := ts[..|ts| - 1], ts[|ts| - 1];
      var cc' := cc + NumCapsSeq(init);
      if back then Unread(back, cc', last, u) && UnreadSeq(back, cc, init, Stale(back, cc', last, u))
      else UnreadSeq(back, cc, init, u) && Unread(back, cc', last, StaleSeq(back, cc, init, u))
  }

  predicate UnreadAlts(back: bool, cc: nat, alts: seq<Alt>, u: set<int>)
    decreases alts, 0
  {
    alts != [] ==>
      var init := alts[..|alts| - 1];
      UnreadAlts(back, cc, init, u) && UnreadSeq(back, cc + NumCapsAlts(init), alts[|alts| - 1].terms, u)
  }

  /** Groups in [lo, hi) that have not been captured. */
  ghost predicate Fresh(m: M, lo: nat, hi: nat) {
    forall k :: 0 <= k < |m.caps| && 2 * lo <= k < 2 * hi ==> m.caps[k] == None
  }

  lemma FreshPart(m: M, lo: nat, hi: nat, lo': nat, hi': nat)
    requires Fresh(m, lo, hi) && lo <= lo' && hi' <= hi
    ensures Fresh(m, lo', hi')
  {
  }

  lemma SetCapFresh(m: M, cc: nat, hi: nat, start: nat)
    requires Fresh(m, cc, hi) && start < 2 * cc + 2
    ensures Fresh(SetCap(m, start), cc + 1, hi)
  {
  }

  lemma ResetFresh(m: M, cc: nat, n: nat)
    ensures Fresh(Reset(m, cc, n), cc, cc + n)
    ensures Fresh(m, cc, cc + n) ==> Reset(m, cc, n) == m
  {
    if Fresh(m, cc, cc + n) {
      assert Reset(m, cc, n).caps == m.caps;
    }
  }

  /** No capture group stands inside an atom that can be gone through more than once. */
  predicate CapturesOnce(t: Term)
    decreases t, 1
  {
    match t
    case Group(alts) => CapturesOnceAlts(alts)
    case Modified(_, _, alts) => CapturesOnceAlts(alts)
    case Capture(alts) => CapturesOnceAlts(alts)
    case Look(_, _, alts) => CapturesOnceAlts(alts)
    case Quant(atom, _, max, _) => (max <= 1 || NumCaps(atom) == 0) && CapturesOnce(atom)
    case _ => true
  }

  predicate CapturesOnceSeq(ts: seq<Term>)
    decreases ts, 0
  {
    ts != [] ==> CapturesOnceSeq(ts[..|ts| - 1]) && CapturesOnce(ts[|ts| - 1])
  }

  predicate CapturesOnceAlts(alts: seq<Alt>)
    decreases alts, 0
  {
    alts != [] ==> CapturesOnceAlts(alts[..|alts| - 1]) && CapturesOnceSeq(alts[|alts| - 1].terms)
  }

  lemma NothingEntered(cc: nat, atom: Term, min: int, max: int)
    requires max <= 1 || NumCaps(atom) == 0
    ensures Entered(cc, atom, min, {}) == {} && Iterated(cc, atom, max, {}) == {}
  {
  }

  /** In such a pattern nothing is ever in doubt. */
  lemma {:induction false} NothingListed(back: bool, cc: nat, t: Term)
    requires CapturesOnce(t)
    ensures Stale(back, cc, t, {}) == {} && Unread(back, cc, t, {})
    decreases t, 1
  {
    hide Slots, Entered, Iterated, StaleAlts, UnreadAlts, CapturesOnceAlts, NumCaps;
    match t
    case Group(alts) => NothingListedAlts(back, cc, alts);
    case Modified(_, _, alts) => NothingListedAlts(back, cc, alts);
    case Capture(alts) =>
      var none: set<int> := {};
      NothingListedAlts(back, cc + 1, alts);
      assert none - {2 * cc + Bit(back)} == none;
    case Look(behind, _, alts) => NothingListedAlts(behind, cc, alts);
    case Quant(atom, min, max, _) =>
      NothingListed(back, cc, atom);
      NothingEntered(cc, atom, min, max);
    case _ =>
  }

  lemma {:induction false} NothingListedSeq(back: bool, cc: nat, ts: seq<Term>)
    requires CapturesOnceSeq(ts)
    ensures StaleSeq(back, cc, ts, {}) == {} && UnreadSeq(back, cc, ts, {})
    decreases ts, 0
  {
    if ts != [] {
      var init := ts[..|ts| - 1];
      NothingListedSeq(back, cc, init);
      NothingListed(back, cc + NumCapsSeq(init), ts[|ts| - 1]);
    }
  }

  lemma {:induction false} NothingListedAlts(back: bool, cc: nat, alts: seq<Alt>)
    requires CapturesOnceAlts(alts)
    ensures StaleAlts(back, cc, alts, {}) == {} && UnreadAlts(back, cc, alts, {})
    decreases alts, 0
  {
    if alts != [] {
      var init := alts[..|alts| - 1];
      NothingListedAlts(back, cc, init);
      NothingListedSeq(back, cc + NumCapsAlts(init), alts[|alts| - 1].terms);
    }
  }

  /** Terms without groups, back references and repetition. */
  predicate Leaf(t: Term) {
    t.Char? || t.Dot? || t.Class? || t.LineStart? || t.LineEnd? || t.WordBoundary?
  }

  lemma {:induction false} LeavesKeep(back: bool, cc: nat, ts: seq<Term>, u: set<int>)
    requires forall k :: 0 <= k < |ts| ==> Leaf(ts[k])
    ensures StaleSeq(back, cc, ts, u) == u && UnreadSeq(back, cc, ts, u) && NumCapsSeq(ts) == 0
  {
    if ts != [] {
      LeavesKeep(back, cc, ts[..|ts| - 1], u);
    }
  }

  lemma GroupSets(back: bool, cc: nat, ts: seq<Term>, u: set<int>)
    requires forall k :: 0 <= k < |ts| ==> Leaf(ts[k])
    ensures var t := Capture([Alt(ts)]);
            NumCaps(t) == 1 && Unread(back, cc, t, u) && Stale(back, cc, t, u) == u - {2 * cc, 2 * cc + 1}
  {
    var alts, w := [Alt(ts)], u - {2 * cc + Bit(back)};
    assert alts[..0] == [];
    assert NumCapsAlts([]) == 0 && StaleAlts(back, cc + 1, [], w) == {} && UnreadAlts(back, cc + 1, [], w);
    LeavesKeep(back, cc + 1, ts, w);
    hide StaleSeq, UnreadSeq, NumCapsSeq, Slots;
    assert StaleAlts(back, cc + 1, alts, w) == {} + w;
    assert UnreadAlts(back, cc + 1, alts, w);
  }

  /** A repeated group of such terms captures in every iteration: it leaves nothing over, and what
      was in doubt before it, entered without a minimum, is not afterwards. */
  lemma RepeatedGroup(back: bool, cc: nat, ts: seq<Term>, min: int, max: int, greedy: bool, u: set<int>)
    requires 0 <= min <= max && forall k :: 0 <= k < |ts| ==> Leaf(ts[k])
    ensures var t := Quant(Capture([Alt(ts)]), min, max, greedy);
            Stale(back, cc, t, u) == u - {2 * cc, 2 * cc + 1} && Unread(back, cc, t, u)
  {
    hide StaleAlts, UnreadAlts, NumCapsAlts;
    var atom := Capture([Alt(ts)]);
    GroupSets(back, cc, ts, u);
    assert Slots(cc, 1) == {2 * cc, 2 * cc + 1};
    var first := Entered(cc, atom, min, u);
    GroupSets(back, cc, ts, Iterated(cc, atom, max, first));
  }
}
