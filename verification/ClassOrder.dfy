/** What sorting the strings of a class is for: its outcomes never get longer from one to the next, so
    that the engine tries the longest string that the subject has first. */
module ClassOrder {
  import opened Options
  import opened Semantics
  import opened ClassStrings
  import opened StringEmission

  /** The position `n` characters ahead. */
  function Ahead(e: Env, pos: nat, n: nat): Option<nat> {
    if n == 0 then Some(pos)
    else
      match Ahead(e, pos, n - 1)
      case None => None
      case Some(p) => match Next(e, false, p) { case None => None case Some((_, q)) => Some(q) }
  }

  lemma {:induction false} ReadIsAhead(e: Env, icase: bool, s: seq<nat>, pos: nat)
    requires ReadString(e, icase, s, pos).Some?
    ensures Ahead(e, pos, |s|) == ReadString(e, icase, s, pos)
  {
    hide Next, Fold;
    if s != [] { ReadIsAhead(e, icase, s[..|s| - 1], pos); }
  }

  lemma {:induction false} FewerBefore(e: Env, pos: nat, m: nat, n: nat)
    requires m <= n && Ahead(e, pos, n).Some?
    ensures Ahead(e, pos, m).Some? && Ahead(e, pos, m).value <= Ahead(e, pos, n).value
    decreases n
  {
    if m < n { FewerBefore(e, pos, m, n - 1); }
  }

  /** An outcome of at most `n` characters. */
  ghost predicate Within(e: Env, pos: nat, n: nat, q: nat) {
    exists k :: 0 <= k <= n && Ahead(e, pos, k) == Some(q)
  }

  lemma WithinBefore(e: Env, pos: nat, n: nat, q: nat)
    requires Within(e, pos, n, q) && Ahead(e, pos, n).Some?
    ensures q <= Ahead(e, pos, n).value
  {
    var k :| 0 <= k <= n && Ahead(e, pos, k) == Some(q);
    FewerBefore(e, pos, k, n);
  }

  lemma WithinMore(e: Env, pos: nat, m: nat, n: nat, q: nat)
    requires Within(e, pos, m, q) && m <= n
    ensures Within(e, pos, n, q)
  {
  }

  ghost predicate Descends(outs: seq<M>) {
    forall i, j :: 0 <= i < j < |outs| ==> outs[i].pos >= outs[j].pos
  }

  lemma DescendsOn(first: seq<M>, second: seq<M>)
    requires |first| <= 1 && Descends(second)
    requires forall i :: first != [] && 0 <= i < |second| ==> second[i].pos <= first[0].pos
    ensures Descends(first + second)
  {
  }

  /** The longest that is still to come: a string, or one character. */
  function Longest(strings: seq<seq<nat>>): nat {
    if strings == [] then 1 else |strings[0]|
  }

  lemma CharacterWithin(e: Env, icase: bool, points: seq<int>, m: M)
    ensures forall o :: o in CharacterOutcome(e, icase, points, m) ==> Ahead(e, m.pos, 1) == Some(o.pos)
    ensures |CharacterOutcome(e, icase, points, m)| <= 1
  {
    assert Ahead(e, m.pos, 0) == Some(m.pos);
  }

  /** The outcomes of a class come in the order of their length. */
  lemma {:induction false} LongestOutcomesFirst(e: Env, icase: bool, strings: seq<seq<nat>>, points: seq<int>,
                                                hasEmpty: bool, m: M)
    requires LongestFirst(strings) && forall k :: 0 <= k < |strings| ==> strings[k] != []
    ensures var outs := ClassOutcomes(e, icase, strings, points, hasEmpty, m);
            Descends(outs) && (forall i :: 0 <= i < |outs| ==> Within(e, m.pos, Longest(strings), outs[i].pos))
    decreases |strings|
  {
    hide Next, Fold, CharacterOutcome, Within, Descends;
    var all := ClassOutcomes(e, icase, strings, points, hasEmpty, m);
    assert Ahead(e, m.pos, 0) == Some(m.pos);
    if strings == [] {
      ShortOutcomes(e, icase, points, hasEmpty, m);
    } else {
      var rest, n := strings[1..], |strings[0]|;
      LongestOutcomesFirst(e, icase, rest, points, hasEmpty, m);
      var first, second := StringOutcome(e, icase, strings[0], m), ClassOutcomes(e, icase, rest, points, hasEmpty, m);
      assert Longest(rest) <= n && all == first + second;
      forall i | 0 <= i < |second| ensures Within(e, m.pos, n, second[i].pos) {
        WithinMore(e, m.pos, Longest(rest), n, second[i].pos);
      }
      if first != [] {
        ReadIsAhead(e, icase, strings[0], m.pos);
        AheadWithin(e, m.pos, n, first[0].pos);
        forall i | 0 <= i < |second| ensures second[i].pos <= first[0].pos {
          WithinBefore(e, m.pos, n, second[i].pos);
        }
      }
      DescendsOn(first, second);
    }
  }

  lemma AheadWithin(e: Env, pos: nat, n: nat, q: nat)
    requires Ahead(e, pos, n) == Some(q)
    ensures Within(e, pos, n, q)
  {
  }

  lemma ShortOutcomes(e: Env, icase: bool, points: seq<int>, hasEmpty: bool, m: M)
    ensures var outs := CharacterOutcome(e, icase, points, m) + if hasEmpty then [m] else [];
            Descends(outs) && forall i :: 0 <= i < |outs| ==> Within(e, m.pos, 1, outs[i].pos)
  {
    hide Next, Fold, CharacterOutcome, Within;
    var first := CharacterOutcome(e, icase, points, m);
    CharacterWithin(e, icase, points, m);
    assert Ahead(e, m.pos, 0) == Some(m.pos);
    AheadWithin(e, m.pos, 0, m.pos);
    WithinMore(e, m.pos, 0, 1, m.pos);
    if first != [] {
      assert first[0] in first;
      AheadWithin(e, m.pos, 1, first[0].pos);
      FewerBefore(e, m.pos, 0, 1);
    }
  }
}
