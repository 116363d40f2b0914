/** The operations on sets of characters by what they mean for one character, and how they undo and
    make up one another. */
module SetLaws {
  import opened Points
  import opened CharRanges

  /** What each operation denotes, character by character. */
  lemma OperationsMean(a: seq<int>, b: seq<int>, r: seq<int>)
    ensures Denotes(Union, a, b, r) <==> forall c :: Member(r, c) <==> Member(a, c) || Member(b, c)
    ensures Denotes(Inter, a, b, r) <==> forall c :: Member(r, c) <==> Member(a, c) && Member(b, c)
    ensures Denotes(Sub, a, b, r) <==> forall c :: Member(r, c) <==> Member(a, c) && !Member(b, c)
    ensures Denotes(Xor, a, b, r) <==>
            forall c :: Member(r, c) <==> (Member(a, c) && !Member(b, c)) || (!Member(a, c) && Member(b, c))
  {
    hide Member;
  }

  /** A second symmetric difference with the same set gives the first set back, point for point. */
  lemma XorUndoesXor(a: seq<int>, b: seq<int>, r: seq<int>, s: seq<int>)
    requires Canonical(a) && Canonical(s) && Denotes(Xor, a, b, r) && Denotes(Xor, r, b, s)
    ensures s == a
  {
    OperationsMean(a, b, r);
    OperationsMean(r, b, s);
    hide Member, Canonical;
    assert SameSet(a, s);
    CanonicalUnique(a, s);
  }

  /** The symmetric difference is what either set has and the other has not. */
  lemma XorIsTwoSubs(a: seq<int>, b: seq<int>, x: seq<int>, y: seq<int>, r: seq<int>, s: seq<int>)
    requires Denotes(Sub, a, b, x) && Denotes(Sub, b, a, y) && Denotes(Union, x, y, r) && Denotes(Xor, a, b, s)
    requires Canonical(r) && Canonical(s)
    ensures r == s
  {
    OperationsMean(a, b, x);
    OperationsMean(b, a, y);
    OperationsMean(x, y, r);
    OperationsMean(a, b, s);
    hide Member, Canonical;
    assert SameSet(r, s);
    CanonicalUnique(r, s);
  }

  /** A set is made up of what it shares with another and what it does not. */
  lemma InterAndSubMakeUp(a: seq<int>, b: seq<int>, x: seq<int>, y: seq<int>, r: seq<int>)
    requires Denotes(Inter, a, b, x) && Denotes(Sub, a, b, y) && Denotes(Union, x, y, r) && Canonical(a) && Canonical(r)
    ensures r == a
  {
    OperationsMean(a, b, x);
    OperationsMean(a, b, y);
    OperationsMean(x, y, r);
    hide Member, Canonical;
    assert SameSet(a, r);
    CanonicalUnique(a, r);
  }
}
