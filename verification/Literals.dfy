/** Literal patterns: on a text written out in UTF-16 they are found exactly where their characters
    stand, one after the other, compared as the flag i says. */
module Literals {
  import opened Options
  import opened Syntax
  import opened Text
  import opened Semantics
  import opened Utf16

  function Literal(ds: seq<int>): seq<Term> {
    seq(|ds|, k requires 0 <= k < |ds| => Term.Char(ds[k]))
  }

  /** Every literal is a pattern. */
  lemma {:induction false} LiteralValid(ds: seq<int>)
    requires CodePoints(ds)
    ensures ValidSeq(Literal(ds)) && SmallClassesSeq(Literal(ds)) && NumCapsSeq(Literal(ds)) == 0
  {
    if ds != [] {
      var init := ds[..|ds| - 1];
      assert Literal(ds)[..|ds| - 1] == Literal(init);
      LiteralValid(init);
    }
  }

  /** Where the character at index `i` of a text starts. */
  function At(cs: seq<int>, i: nat): nat
    requires CodePoints(cs) && i <= |cs|
  {
    |Encode(cs[..i])|
  }

  lemma GetShift(front: seq<nat>, back: Subject)
    requires back.units != []
    ensures var (c, q) := GetChar(back, 0);
            GetChar(Subject(front + back.units, back.utf16), |front|) == (c, |front| + q)
  {
    var all := front + back.units;
    assert all[|front|] == back.units[0];
    assert |back.units| > 1 ==> all[|front| + 1] == back.units[1];
  }

  /** At a character of a text that one is read next; at the end there is none. */
  lemma NextAt(cs: seq<int>, i: nat, e: Env)
    requires CodePoints(cs) && !Joins(cs) && i <= |cs| && e.subject == Pairs(cs)
    ensures Next(e, false, At(cs, i)) == if i < |cs| then Some((cs[i], At(cs, i + 1))) else None
  {
    hide Units, Encode, GetChar, Joins;
    if i < |cs| {
      var front, back := cs[..i], cs[i..];
      assert cs == front + back && back[0] == cs[i] && cs[..i + 1] == front + [cs[i]];
      EncodeAppend(front, back);
      EncodeAppend(front, [cs[i]]);
      FirstUnits([cs[i]]);
      assert [cs[i]][1..] == [];
      NoUnits();
      NeverJoins(cs, i);
      FirstChar(back);
      GetShift(Encode(front), Pairs(back));
    } else {
      assert cs[..i] == cs;
    }
  }

  lemma NeverJoins(cs: seq<int>, i: nat)
    requires !Joins(cs)
    ensures i + 1 < |cs| ==> !(0xD800 <= cs[i] <= 0xDBFF && 0xDC00 <= cs[i + 1] <= 0xDFFF)
  {
  }

  /** The text has the characters of `ds` at index `i`. */
  predicate Occurs(e: Env, icase: bool, ds: seq<int>, cs: seq<int>, i: nat) {
    i + |ds| <= |cs| &&
    forall k :: 0 <= k < |ds| ==> if icase then e.canon(cs[i + k]) == e.canon(ds[k]) else cs[i + k] == ds[k]
  }

  /** A literal has one outcome where it occurs, behind its last character, and none elsewhere. */
  lemma {:induction false} LiteralFound(e: Env, md: Mode, cc: nat, ds: seq<int>, cs: seq<int>, i: nat,
                                        caps: seq<Option<nat>>)
    requires CodePoints(cs) && !Joins(cs) && i <= |cs| && e.subject == Pairs(cs) && !md.back
    ensures SemSeq(e, md, cc, Literal(ds), M(At(cs, i), caps)) ==
            if Occurs(e, md.flags.icase, ds, cs, i) then [M(At(cs, i + |ds|), caps)] else []
  {
    hide Joins, At, CodePoints, Next;
    var icase := md.flags.icase;
    if ds != [] {
      var n := |ds| - 1;
      var init, last := ds[..n], ds[n];
      var ts, m := Literal(ds), M(At(cs, i), caps);
      assert ts[..n] == Literal(init) && ts[n] == Term.Char(last);
      LiteralFound(e, md, cc, init, cs, i, caps);
      var ms := SemSeq(e, md, cc, Literal(init), m);
      var cc' := cc + NumCapsSeq(Literal(init));
      assert SemSeq(e, md, cc, ts, m) == TermAll(e, md, cc', ts[n], ms);
      if Occurs(e, icase, init, cs, i) {
        NextAt(cs, i + n, e);
        assert ms[1..] == [];
        assert TermAll(e, md, cc', ts[n], ms) == SemTerm(e, md, cc', ts[n], ms[0]);
      }
    }
  }
}
