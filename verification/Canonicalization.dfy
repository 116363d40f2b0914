/** Canonicalizing a set of characters for case-insensitive matching (libunicode.c): the set of
    characters that case conversion can modify, and the exact image of a set under
    lre_canonicalize. */
module Canonicalization {
  import opened Points
  import opened CharRanges
  import opened CaseConv
  import Semantics
  import Syntax

  lemma AppendInterval(p: seq<int>, x: int, y: int)
    requires Sorted(p) && Below(p, x) && 0 <= x <= y <= UINT32_MAX
    ensures Sorted(p + [x, y]) && Below(p + [x, y], y)
    ensures forall c :: Member(p + [x, y], c) <==> Member(p, c) || x <= c < y
  {
    forall c ensures Member(p + [x, y], c) <==> Member(p, c) || x <= c < y {
      MemberSnoc(p, x, y, c);
    }
  }

  lemma BelowMore(p: seq<int>, x: int, y: int)
    requires Below(p, x) && x <= y
    ensures Below(p, y)
  {
  }

  /** The offsets of one run that unicode_case1 takes, as intervals. */
  ghost predicate RunShape(t: Tables, mask: CaseMask, k: nat, c: int)
    requires k < |t.t1|
  {
    var code, len, ty := Code(t.t1[k]), Len(t.t1[k]), Type(t.t1[k]);
    && (!InRunMask(mask, ty) ==> !Taken(t, mask, k, c))
    && (InRunMask(mask, ty) ==>
          if (ty == TYPE_UL || ty == TYPE_LSU) && !(mask.u && (mask.l || mask.f)) then
            var first := code + if mask.u then 1 else 0;
            if ty == TYPE_UL then Taken(t, mask, k, c) <==> first <= c < first + len && (c - first) % 2 == 0
            else Taken(t, mask, k, c) <==> first <= c < first + 2
          else Taken(t, mask, k, c) <==> code <= c < code + len)
  }

  lemma RunTaken(t: Tables, mask: CaseMask, k: nat, c: int)
    requires WellFormed(t) && k < |t.t1|
    ensures RunShape(t, mask, k, c)
    ensures Type(t.t1[k]) == TYPE_UL ==> Len(t.t1[k]) % 2 == 0
    ensures Type(t.t1[k]) == TYPE_LSU ==> Len(t.t1[k]) == 3
  {
    assert EntryOk(t, k);
    hide EntryOk, InRunMask, LetterRun, Code, Len, Type;
  }

  /** The interval of each second character of an alternating run. */
  method AddAlternate(cr: CharRange, ghost low: nat, first: nat, len: nat)
    requires cr.Valid() && Sorted(cr.Contents()) && Below(cr.Contents(), low) && low <= first
    requires len % 2 == 0 && first + len <= UINT32_MAX
    modifies cr, cr.points
    ensures cr.Valid() && Sorted(cr.Contents())
    ensures Below(cr.Contents(), if len == 0 then low else first + len - 1)
    ensures forall c :: Member(cr.Contents(), c) <==>
                        old(Member(cr.Contents(), c)) || (first <= c < first + len && (c - first) % 2 == 0)
    ensures cr.points == old(cr.points) || fresh(cr.points)
  {
    hide Sorted, Below, Member;
    ghost var p := cr.Contents();
    var i := 0;
    while i < len
      invariant i <= len && i % 2 == 0
      invariant cr.Valid() && (cr.points == old(cr.points) || fresh(cr.points))
      invariant Sorted(cr.Contents()) && Below(cr.Contents(), if i == 0 then low else first + i - 1)
      invariant forall c :: Member(cr.Contents(), c) <==>
                            Member(p, c) || (first <= c < first + i && (c - first) % 2 == 0)
    {
      BelowMore(cr.Contents(), if i == 0 then low else first + i - 1, first + i);
      AppendInterval(cr.Contents(), first + i, first + i + 1);
      cr.AddInterval(first + i, first + i + 1);
      i := i + 2;
    }
  }

  /** cr_add_interval at the end of a sorted array. */
  method Append(cr: CharRange, ghost low: nat, x: nat, y: nat)
    requires cr.Valid() && Sorted(cr.Contents()) && Below(cr.Contents(), low) && low <= x <= y <= UINT32_MAX
    modifies cr, cr.points
    ensures cr.Valid() && Sorted(cr.Contents()) && Below(cr.Contents(), y)
    ensures forall c :: Member(cr.Contents(), c) <==> old(Member(cr.Contents(), c)) || x <= c < y
    ensures cr.points == old(cr.points) || fresh(cr.points)
  {
    hide Sorted, Below, Member;
    BelowMore(cr.Contents(), low, x);
    AppendInterval(cr.Contents(), x, y);
    cr.AddInterval(x, y);
  }

  /** One round of unicode_case1. */
  method AddRun(cr: CharRange, t: Tables, mask: CaseMask, idx: nat)
    requires WellFormed(t) && idx < |t.t1|
    requires cr.Valid() && Sorted(cr.Contents()) && Below(cr.Contents(), Code(t.t1[idx]))
    modifies cr, cr.points
    ensures cr.Valid() && Sorted(cr.Contents()) && Below(cr.Contents(), Code(t.t1[idx]) + Len(t.t1[idx]))
    ensures forall c :: Member(cr.Contents(), c) <==> old(Member(cr.Contents(), c)) || Taken(t, mask, idx, c)
    ensures cr.points == old(cr.points) || fresh(cr.points)
  {
    var v := t.t1[idx];
    var ty, code, len := Type(v), Code(v), Len(v);
    ghost var p := cr.Contents();
    forall c ensures RunShape(t, mask, idx, c) {
      RunTaken(t, mask, idx, c);
    }
    assert EntryOk(t, idx) && code < 0x20000;
    hide Sorted, Below, Member, Taken, InRunMask, EntryOk, WellFormed;
    if InRunMask(mask, ty) {
      if ty == TYPE_UL && !(mask.u && (mask.l || mask.f)) {
        AddAlternate(cr, code, code + if mask.u then 1 else 0, len);
        BelowMore(cr.Contents(), if len == 0 then code else code + len - if mask.u then 0 else 1, code + len);
      } else if ty == TYPE_LSU && !(mask.u && (mask.l || mask.f)) {
        if !mask.u {
          Append(cr, code, code, code + 1);
        }
        Append(cr, if mask.u then code else code + 1, code + 1, code + 2);
        if mask.u {
          Append(cr, code + 2, code + 2, code + 3);
        }
        BelowMore(cr.Contents(), if mask.u then code + 3 else code + 2, code + len);
      } else {
        Append(cr, code, code, code + len);
      }
    } else {
      BelowMore(cr.Contents(), code, code + len);
    }
    assert forall c :: RunShape(t, mask, idx, c) ==>
           (Member(cr.Contents(), c) <==> Member(p, c) || Taken(t, mask, idx, c));
  }

  /** The mask takes `c` from one of the first `n` runs. */
  ghost predicate InMaskUpTo(t: Tables, mask: CaseMask, n: int, c: int) {
    exists k :: k < n && Taken(t, mask, k, c)
  }

  /** unicode_case1: for any table and any mask, exactly the characters that the mask takes. */
  method UnicodeCase1(cr: CharRange, t: Tables, mask: CaseMask)
    requires WellFormed(t) && cr.Valid() && cr.len == 0
    modifies cr, cr.points
    ensures cr.Valid() && Sorted(cr.Contents())
    ensures forall c :: Member(cr.Contents(), c) <==> InMask(t, mask, c)
    ensures cr.points == old(cr.points) || fresh(cr.points)
  {
    assert forall c :: !Member(cr.Contents(), c) && !InMaskUpTo(t, mask, 0, c);
    if !mask.u && !mask.l && !mask.f {
      return;
    }
    hide Sorted, Below, Member, Taken, EntryOk, LetterRun, Code, Len;
    var idx := 0;
    SortedEmpty();
    while idx < |t.t1|
      invariant idx <= |t.t1|
      invariant cr.Valid() && (cr.points == old(cr.points) || fresh(cr.points))
      invariant Sorted(cr.Contents())
      invariant Below(cr.Contents(), if idx == 0 then 0 else Code(t.t1[idx - 1]) + Len(t.t1[idx - 1]))
      invariant forall c :: Member(cr.Contents(), c) <==> InMaskUpTo(t, mask, idx, c)
    {
      BelowMore(cr.Contents(), if idx == 0 then 0 else Code(t.t1[idx - 1]) + Len(t.t1[idx - 1]), Code(t.t1[idx]));
      AddRun(cr, t, mask, idx);
      forall c ensures InMaskUpTo(t, mask, idx + 1, c) <==> InMaskUpTo(t, mask, idx, c) || Taken(t, mask, idx, c) {
      }
      idx := idx + 1;
    }
    forall c ensures InMaskUpTo(t, mask, idx, c) <==> InMask(t, mask, c) {
      TakenInTable(t, mask);
    }
  }

  lemma SortedEmpty()
    ensures Sorted([]) && Below([], 0)
  {
  }

  lemma TakenInTable(t: Tables, mask: CaseMask)
    ensures forall k, c :: Taken(t, mask, k, c) ==> 0 <= k < |t.t1|
  {
  }

  /** `d` is what lre_canonicalize makes of some member of the set. */
  ghost predicate Image(t: Tables, isUnicode: bool, points: seq<int>, d: int)
    requires WellFormed(t)
  {
    exists c :: Member(points, c) && Canonicalize(t, c, isUnicode) == d
  }

  /** The same for the members below `limit`. */
  ghost predicate ImageBelow(t: Tables, isUnicode: bool, points: seq<int>, limit: int, d: int)
    requires WellFormed(t)
  {
    exists c :: Member(points, c) && c < limit && Canonicalize(t, c, isUnicode) == d
  }

  /** The results so far: the intervals added and the one being built. */
  ghost predicate Collected(points: seq<int>, start: int, end: int, d: int) {
    Member(points, d) || (start != UINT32_MAX && start <= d < end)
  }

  /** Adds one result to the interval being built, or to a new one. */
  method Collect(cr: CharRange, dStart: int, dEnd: int, d: int) returns (start: int, end: int)
    requires cr.Valid() && Intervals(cr.Contents()) && 0 <= d < 0x40000
    requires dStart == UINT32_MAX || 0 <= dStart < dEnd <= 0x40000
    modifies cr, cr.points
    ensures cr.Valid() && Intervals(cr.Contents()) && (cr.points == old(cr.points) || fresh(cr.points))
    ensures 0 <= start < end <= 0x40000
    ensures forall x :: Collected(cr.Contents(), start, end, x) <==>
                        old(Collected(cr.Contents(), dStart, dEnd, x)) || x == d
  {
    ghost var p := cr.Contents();
    if dStart == UINT32_MAX {
      start, end := d, d + 1;
    } else if dEnd == d {
      start, end := dStart, dEnd + 1;
    } else {
      IntervalsSnoc(p, dStart, dEnd);
      cr.AddInterval(dStart, dEnd);
      start, end := d, d + 1;
    }
  }

  lemma IntervalsSnoc(p: seq<int>, x: int, y: int)
    requires Intervals(p) && 0 <= x < y <= UINT32_MAX
    ensures Intervals(p + [x, y])
    ensures forall c :: Member(p + [x, y], c) <==> Member(p, c) || x <= c < y
  {
    var q := p + [x, y];
    forall c ensures Member(q, c) <==> Member(p, c) || x <= c < y {
      MemberSnoc(p, x, y, c);
    }
    forall k | 0 <= k < |q| / 2
      ensures Start(q, k) < End(q, k)
    {
      assert k < |p| / 2 ==> Start(q, k) == Start(p, k) && End(q, k) == End(p, k);
    }
  }

  /** Moves the table cursor on to the run of `c`; it never passes the end of the table. */
  method SeekRun(t: Tables, idx: nat, c: nat, ghost mask: CaseMask) returns (k: nat)
    requires WellFormed(t) && InMask(t, mask, c) && idx < |t.t1|
    requires forall m :: 0 <= m < idx ==> Code(t.t1[m]) + Len(t.t1[m]) <= c
    ensures k < |t.t1| && Covers(t, k, c)
    ensures forall m :: 0 <= m < k ==> Code(t.t1[m]) + Len(t.t1[m]) <= c
  {
    hide EntryOk, LetterRun, Code, Len;
    ghost var goal :| Taken(t, mask, goal, c);
    k := idx;
    while !Covers(t, k, c)
      invariant k <= goal < |t.t1|
      invariant forall m :: 0 <= m < k ==> Code(t.t1[m]) + Len(t.t1[m]) <= c
      decreases goal - k
    {
      k := k + 1;
    }
  }

  /** The state of the loop over the characters of the mask: cursor, and results so far. */
  ghost predicate Folding(t: Tables, isUnicode: bool, inter: seq<int>, limit: int, idx: int,
                          result: seq<int>, start: int, end: int)
    requires WellFormed(t)
  {
    && 0 <= idx < |t.t1| && Intervals(result)
    && (start == UINT32_MAX || 0 <= start < end <= 0x40000)
    && (forall m :: 0 <= m < idx ==> Code(t.t1[m]) + Len(t.t1[m]) <= limit)
    && (forall d :: Collected(result, start, end, d) <==> ImageBelow(t, isUnicode, inter, limit, d))
  }

  /** One character more. */
  method FoldOne(t: Tables, isUnicode: bool, ghost inter: seq<int>, c: nat, idx: nat, result: CharRange,
                 dStart: int, dEnd: int)
    returns (k: nat, start: int, end: int)
    requires WellFormed(t) && Member(inter, c) && InMask(t, RegexpMask(isUnicode), c)
    requires result.Valid() && Folding(t, isUnicode, inter, c, idx, result.Contents(), dStart, dEnd)
    modifies result, result.points
    ensures result.Valid() && (result.points == old(result.points) || fresh(result.points))
    ensures Folding(t, isUnicode, inter, c + 1, k, result.Contents(), start, end)
  {
    hide WellFormed, InMask, Canonicalize, CaseFoldingEntry, Member, Intervals, Collected;
    k := SeekRun(t, idx, c, RegexpMask(isUnicode));
    var d := CaseFoldingEntry(t, c, k, isUnicode);
    EntryCanonicalizes(t, c, k, isUnicode);
    EntryBound(t, c, k, isUnicode);
    start, end := Collect(result, dStart, dEnd, d);
    forall x
      ensures ImageBelow(t, isUnicode, inter, c + 1, x) <==> ImageBelow(t, isUnicode, inter, c, x) || x == d
    {
      if ImageBelow(t, isUnicode, inter, c + 1, x) {
        var c1 :| Member(inter, c1) && c1 < c + 1 && Canonicalize(t, c1, isUnicode) == x;
        assert c1 < c || c1 == c;
      }
    }
  }

  /** Nothing is between two intervals. */
  lemma FoldingSkip(t: Tables, isUnicode: bool, inter: seq<int>, limit: int, next: int, idx: int,
                    result: seq<int>, start: int, end: int)
    requires WellFormed(t) && Folding(t, isUnicode, inter, limit, idx, result, start, end) && limit <= next
    requires forall c :: Member(inter, c) && c < next ==> c < limit
    ensures Folding(t, isUnicode, inter, next, idx, result, start, end)
  {
    hide Member, Intervals, Canonicalize, WellFormed, Collected;
    forall d ensures ImageBelow(t, isUnicode, inter, next, d) <==> ImageBelow(t, isUnicode, inter, limit, d) {
      if ImageBelow(t, isUnicode, inter, next, d) {
        var c :| Member(inter, c) && c < next && Canonicalize(t, c, isUnicode) == d;
        assert c < limit;
      }
      if ImageBelow(t, isUnicode, inter, limit, d) {
        var c :| Member(inter, c) && c < limit && Canonicalize(t, c, isUnicode) == d;
        assert c < next;
      }
    }
  }

  /** Between the intervals of a sorted array, before the first and after the last, no members. */
  lemma Gap(p: seq<int>, i: int, c: int)
    requires Sorted(p) && 0 <= i <= |p| && i % 2 == 0 && Member(p, c)
    ensures i < |p| && i > 0 && c < p[i] ==> c < p[i - 1]
    ensures i == 0 < |p| ==> p[0] <= c
    ensures i == |p| ==> i > 0 && c < p[i - 1]
  {
    var k :| InInterval(p, k, c);
    if 2 * k + 1 <= i - 1 {
      assert p[2 * k + 1] <= p[i - 1];
    } else if i < |p| {
      assert p[i] <= p[2 * k];
    }
  }

  /** The results for the characters of the mask. */
  method FoldAll(t: Tables, isUnicode: bool, inter: CharRange, result: CharRange)
    requires WellFormed(t) && inter.Valid() && Canonical(inter.Contents())
    requires forall c :: Member(inter.Contents(), c) ==> InMask(t, RegexpMask(isUnicode), c)
    requires result.Valid() && result.len == 0 && result != inter && result.points != inter.points
    modifies result, result.points
    ensures result.Valid() && Intervals(result.Contents())
    ensures forall d :: Member(result.Contents(), d) <==> Image(t, isUnicode, inter.Contents(), d)
    ensures result.points == old(result.points) || fresh(result.points)
  {
    hide Canonical, Member, Folding, Canonicalize, InMask, Image, Intervals, WellFormed, Collected;
    ghost var p := inter.Contents();
    var dStart, dEnd, idx, i := UINT32_MAX, UINT32_MAX, 0, 0;
    ghost var limit := 0;
    FoldingStart(t, isUnicode, p);
    while i < inter.len
      invariant 0 <= i <= |p| == inter.len && i % 2 == 0
      invariant result.Valid() && (result.points == old(result.points) || fresh(result.points))
      invariant limit == if i == 0 then 0 else p[i - 1]
      invariant Folding(t, isUnicode, p, limit, idx, result.Contents(), dStart, dEnd)
      invariant inter.Valid() && inter.Contents() == p
    {
      IntervalAt(p, i);
      var start, end := inter.points[i], inter.points[i + 1];
      forall c | Member(p, c) && c < start
        ensures c < limit
      {
        Gap(p, i, c);
      }
      FoldingSkip(t, isUnicode, p, limit, start, idx, result.Contents(), dStart, dEnd);
      FoldingRange(t, isUnicode, p, start, idx, result.Contents(), dStart, dEnd);
      var c := start;
      while c < end
        invariant start <= c <= end
        invariant result.Valid() && (result.points == old(result.points) || fresh(result.points))
        invariant Folding(t, isUnicode, p, c, idx, result.Contents(), dStart, dEnd)
        invariant inter.Valid() && inter.Contents() == p
      {
        FoldingRange(t, isUnicode, p, c, idx, result.Contents(), dStart, dEnd);
        idx, dStart, dEnd := FoldOne(t, isUnicode, p, c, idx, result, dStart, dEnd);
        c := c + 1;
      }
      i := i + 2;
      limit := end;
    }
    forall c | Member(p, c)
      ensures c < limit
    {
      Gap(p, i, c);
    }
    FoldingEnd(t, isUnicode, p, limit, idx, result.Contents(), dStart, dEnd);
    if dStart != UINT32_MAX {
      FoldingRange(t, isUnicode, p, limit, idx, result.Contents(), dStart, dEnd);
      IntervalsSnoc(result.Contents(), dStart, dEnd);
      result.AddInterval(dStart, dEnd);
    }
  }

  lemma FoldingStart(t: Tables, isUnicode: bool, p: seq<int>)
    requires WellFormed(t) && Canonical(p)
    ensures Folding(t, isUnicode, p, 0, 0, [], UINT32_MAX, UINT32_MAX)
    ensures Sorted(p)
  {
    forall d ensures !ImageBelow(t, isUnicode, p, 0, d) && !Member([], d) {
      forall c | Member(p, c) ensures c >= 0 { Gap(p, 0, c); }
    }
  }

  lemma IntervalAt(p: seq<int>, i: int)
    requires Canonical(p) && 0 <= i < |p| && i % 2 == 0
    ensures i + 1 < |p| && 0 <= p[i] < p[i + 1] <= UINT32_MAX
    ensures i > 0 ==> p[i - 1] <= p[i]
    ensures forall c :: p[i] <= c < p[i + 1] ==> Member(p, c)
  {
    forall c | p[i] <= c < p[i + 1] ensures Member(p, c) { assert InInterval(p, i / 2, c); }
  }

  lemma FoldingRange(t: Tables, isUnicode: bool, p: seq<int>, limit: int, idx: int, result: seq<int>, start: int,
                     end: int)
    requires WellFormed(t) && Folding(t, isUnicode, p, limit, idx, result, start, end)
    ensures 0 <= idx < |t.t1| && Intervals(result)
    ensures start == UINT32_MAX || 0 <= start < end <= 0x40000
  {
  }

  lemma FoldingEnd(t: Tables, isUnicode: bool, p: seq<int>, limit: int, idx: int, result: seq<int>, start: int,
                   end: int)
    requires WellFormed(t) && Folding(t, isUnicode, p, limit, idx, result, start, end)
    requires forall c :: Member(p, c) ==> c < limit
    ensures Intervals(result)
    ensures forall d :: Image(t, isUnicode, p, d) <==> Member(result, d) || (start != UINT32_MAX && start <= d < end)
  {
    hide Member, Intervals, Canonicalize, WellFormed;
    forall d ensures Image(t, isUnicode, p, d) <==> Collected(result, start, end, d) {
      if Image(t, isUnicode, p, d) {
        var c :| Member(p, c) && Canonicalize(t, c, isUnicode) == d;
        assert c < limit;
        assert ImageBelow(t, isUnicode, p, limit, d);
      }
    }
  }

  /** A member of the set is fixed, or is one of those the mask takes. */
  lemma ImageSplits(t: Tables, isUnicode: bool, whole: seq<int>, inter: seq<int>, sub: seq<int>, d: int)
    requires WellFormed(t)
    requires forall c :: Member(whole, c) ==> c >= 0
    requires forall c :: Member(inter, c) <==> Member(whole, c) && InMask(t, RegexpMask(isUnicode), c)
    requires forall c :: Member(sub, c) <==> Member(whole, c) && !InMask(t, RegexpMask(isUnicode), c)
    ensures Image(t, isUnicode, whole, d) <==> Image(t, isUnicode, inter, d) || Member(sub, d)
  {
    hide Member, InMask, Canonicalize, WellFormed;
    if Image(t, isUnicode, whole, d) {
      var c :| Member(whole, c) && Canonicalize(t, c, isUnicode) == d;
      if !InMask(t, RegexpMask(isUnicode), c) { FixedOutsideMask(t, c, isUnicode); }
    }
    if Image(t, isUnicode, inter, d) {
      var c :| Member(inter, c) && Canonicalize(t, c, isUnicode) == d;
      assert Member(whole, c);
    }
    if Member(sub, d) {
      FixedOutsideMask(t, d, isUnicode);
      assert Member(whole, d);
    }
  }

  lemma MemberRange(p: seq<int>, c: int)
    requires Sorted(p) && Member(p, c)
    ensures 0 <= c < UINT32_MAX
  {
    var k :| InInterval(p, k, c);
    assert 0 <= p[2 * k] && p[2 * k + 1] <= UINT32_MAX;
  }

  /** The first half of cr_regexp_canonicalize: the part of the set inside the mask and the part
      outside. */
  method SplitByMask(cr: CharRange, t: Tables, isUnicode: bool) returns (inter: CharRange, sub: CharRange)
    requires WellFormed(t) && cr.Valid() && Sorted(cr.Contents())
    ensures fresh(inter) && fresh(inter.points) && fresh(sub) && fresh(sub.points)
    ensures inter.Valid() && Canonical(inter.Contents()) && sub.Valid() && Canonical(sub.Contents())
    ensures forall c :: Member(cr.Contents(), c) ==> c >= 0
    ensures forall c :: Member(inter.Contents(), c) <==>
                        Member(cr.Contents(), c) && InMask(t, RegexpMask(isUnicode), c)
    ensures forall c :: Member(sub.Contents(), c) <==>
                        Member(cr.Contents(), c) && !InMask(t, RegexpMask(isUnicode), c)
  {
    hide Canonical, Sorted, Member, InMask, WellFormed, Denotes, Complement;
    var mask := new CharRange();
    inter := new CharRange();
    sub := new CharRange();
    UnicodeCase1(mask, t, RegexpMask(isUnicode));
    ghost var m := mask.Contents();
    inter.Op(mask.points[..mask.len], cr.points[..cr.len], Inter);
    mask.Invert();
    ghost var n := mask.Contents();
    CanonicalIsSorted(n);
    sub.Op(mask.points[..mask.len], cr.points[..cr.len], Inter);
    Parts(t, isUnicode, cr.Contents(), m, n, inter.Contents(), sub.Contents());
  }

  /** cr_regexp_canonicalize: the set becomes exactly its image under lre_canonicalize, as a
      canonical array. */
  method CrRegexpCanonicalize(cr: CharRange, t: Tables, isUnicode: bool)
    requires WellFormed(t) && cr.Valid() && Sorted(cr.Contents())
    modifies cr, cr.points
    ensures cr.Valid() && Canonical(cr.Contents())
    ensures forall d :: Member(cr.Contents(), d) <==> Image(t, isUnicode, old(cr.Contents()), d)
  {
    hide Canonical, Sorted, Member, InMask, Image, Intervals, WellFormed, Denotes, SameSet;
    ghost var s := cr.Contents();
    var inter, sub := SplitByMask(cr, t, isUnicode);
    ghost var i, u := inter.Contents(), sub.Contents();
    var result := new CharRange();
    FoldAll(t, isUnicode, inter, result);
    ghost var folded := result.Contents();
    result.SortAndRemoveOverlap();
    ghost var r := result.Contents();
    CanonicalIsSorted(r);
    CanonicalIsSorted(u);
    cr.len := 0;
    cr.Op(result.points[..result.len], sub.points[..sub.len], Union);
    forall d ensures Member(cr.Contents(), d) <==> Image(t, isUnicode, s, d) {
      UnionIsImage(t, isUnicode, s, i, u, folded, r, cr.Contents(), d);
    }
  }

  lemma CanonicalIsSorted(p: seq<int>)
    requires Canonical(p)
    ensures Sorted(p)
  {
  }

  lemma Parts(t: Tables, isUnicode: bool, s: seq<int>, m: seq<int>, n: seq<int>, inter: seq<int>, sub: seq<int>)
    requires WellFormed(t) && Sorted(s) && Complement(m, n)
    requires forall c :: Member(m, c) <==> InMask(t, RegexpMask(isUnicode), c)
    requires Denotes(Inter, m, s, inter) && Denotes(Inter, n, s, sub)
    ensures forall c :: Member(s, c) ==> c >= 0
    ensures forall c :: Member(inter, c) <==> Member(s, c) && InMask(t, RegexpMask(isUnicode), c)
    ensures forall c :: Member(sub, c) <==> Member(s, c) && !InMask(t, RegexpMask(isUnicode), c)
  {
    hide Member, InMask, WellFormed;
    forall c | Member(s, c) ensures 0 <= c < UINT32_MAX { MemberRange(s, c); }
  }

  lemma UnionIsImage(t: Tables, isUnicode: bool, s: seq<int>, inter: seq<int>, sub: seq<int>, folded: seq<int>,
                     r: seq<int>, all: seq<int>, d: int)
    requires WellFormed(t)
    requires forall c :: Member(s, c) ==> c >= 0
    requires forall c :: Member(inter, c) <==> Member(s, c) && InMask(t, RegexpMask(isUnicode), c)
    requires forall c :: Member(sub, c) <==> Member(s, c) && !InMask(t, RegexpMask(isUnicode), c)
    requires forall c :: Member(folded, c) <==> Image(t, isUnicode, inter, c)
    requires SameSet(r, folded) && Denotes(Union, r, sub, all)
    ensures Member(all, d) <==> Image(t, isUnicode, s, d)
  {
    hide Member, InMask, WellFormed, Image;
    ImageSplits(t, isUnicode, s, inter, sub, d);
    assert Member(r, d) <==> Member(folded, d);
  }

  /** lre_canonicalize stays within the code points, as the matcher requires of it. */
  lemma CanonicalizeInRange(t: Tables, c: nat, isUnicode: bool)
    requires WellFormed(t) && c <= Syntax.MAX_CODE_POINT
    ensures 0 <= Canonicalize(t, c, isUnicode) <= Syntax.MAX_CODE_POINT
  {
    if c >= 128 {
      var k := RunOf(t, c, 0);
      if k != -1 { EntryBound(t, c, k, isUnicode); }
    }
  }

  lemma CanonicalizeFolds(t: Tables, isUnicode: bool)
    requires WellFormed(t)
    ensures Semantics.Folds(x => Canonicalize(t, x, isUnicode))
  {
    hide WellFormed, Canonicalize;
    forall c: nat | c <= Syntax.MAX_CODE_POINT ensures 0 <= Canonicalize(t, c, isUnicode) <= Syntax.MAX_CODE_POINT {
      CanonicalizeInRange(t, c, isUnicode);
    }
  }

  /** What the image is for: when case is ignored, the class compiled from the canonicalized set
      accepts a character exactly when some member of the set canonicalizes to the same. */
  lemma ClassIgnoresCase(e: Semantics.Env, f: Syntax.Flags, t: Tables, isUnicode: bool, s: seq<int>, r: seq<int>,
                         c: int)
    requires WellFormed(t) && f.icase && forall x :: e.canon(x) == Canonicalize(t, x, isUnicode)
    requires forall d :: Member(r, d) <==> Image(t, isUnicode, s, d)
    ensures Semantics.Accepts(e, f, Syntax.Class(r), c) <==>
            exists c1 :: Member(s, c1) && e.canon(c1) == e.canon(c)
  {
    hide Member, Canonicalize, WellFormed;
    var d := Canonicalize(t, c, isUnicode);
    assert e.canon(c) == d;
    if Image(t, isUnicode, s, d) {
      var c1 :| Member(s, c1) && Canonicalize(t, c1, isUnicode) == d;
      assert e.canon(c1) == d;
    }
  }
}
