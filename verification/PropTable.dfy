/** Property tables (libunicode.c): run lengths packed into bytes, decoded from the start by
    unicode_prop1 and from the middle, by way of an index, by lre_is_in_table. */
module PropTable {
  import opened Points
  import opened CharRanges
  import opened Canonicalization

  const UNICODE_INDEX_BLOCK_LEN := 32

  predicate Bytes(s: seq<nat>) {
    forall k :: 0 <= k < |s| ==> s[k] < 0x100
  }

  /** The number of bytes of the unit that starts with byte `b`. */
  function UnitSize(b: nat): (r: nat)
    ensures 1 <= r <= 3
  {
    if b < 0x40 || b >= 0x80 then 1 else if b < 0x60 then 2 else 3
  }

  /** The first run of the unit at `p`, and the second when it holds two. */
  function FirstRun(table: seq<nat>, p: nat): (r: nat)
    requires p < |table| && p + UnitSize(table[p]) <= |table|
    ensures 1 <= r
  {
    var b := table[p];
    if b < 0x40 then b / 8 + 1
    else if b >= 0x80 then b - 0x80 + 1
    else if b < 0x60 then (b - 0x40) * 0x100 + table[p + 1] + 1
    else (b - 0x60) * 0x10000 + table[p + 1] * 0x100 + table[p + 2] + 1
  }

  function SecondRun(table: seq<nat>, p: nat): (r: nat)
    requires p < |table| && p + UnitSize(table[p]) <= |table|
    ensures table[p] < 0x40 ==> 1 <= r
  {
    if table[p] < 0x40 then table[p] % 8 + 1 else 0
  }

  /** A place in the table, with the first code point that is still to come and the status of the
      run that starts there. */
  datatype Place = Place(pos: nat, code: nat, bit: bool)

  predicate Whole(table: seq<nat>, p: nat) {
    p < |table| && p + UnitSize(table[p]) <= |table|
  }

  /** The place after the unit at `s`. */
  function After(table: seq<nat>, s: Place): (r: Place)
    requires Whole(table, s.pos)
    ensures s.pos < r.pos <= |table| && s.code < r.code
  {
    Place(s.pos + UnitSize(table[s.pos]), s.code + FirstRun(table, s.pos) + SecondRun(table, s.pos),
          if table[s.pos] < 0x40 then s.bit else !s.bit)
  }

  /** Every unit from `s` on is whole. */
  predicate Decodes(table: seq<nat>, s: Place)
    decreases |table| - s.pos
  {
    s.pos == |table| || (Whole(table, s.pos) && Decodes(table, After(table, s)))
  }

  /** The plain decode: whether `c` lies in a run of status true, from `s` on. */
  predicate InRuns(table: seq<nat>, s: Place, c: nat)
    decreases |table| - s.pos
  {
    Whole(table, s.pos) &&
    if c < s.code + FirstRun(table, s.pos) then s.code <= c && s.bit
    else if c < After(table, s).code then !s.bit
    else InRuns(table, After(table, s), c)
  }

  /** Where the code points covered by the table end. */
  function Total(table: seq<nat>, s: Place): (r: nat)
    ensures s.code <= r
    decreases |table| - s.pos
  {
    if Whole(table, s.pos) then Total(table, After(table, s)) else s.code
  }

  /** The decode from `s` comes through `goal`. */
  predicate Passes(table: seq<nat>, s: Place, goal: Place)
    decreases |table| - s.pos
  {
    s == goal || (Whole(table, s.pos) && Passes(table, After(table, s), goal))
  }

  const START := Place(0, 0, false)

  function Le24(s: seq<nat>, k: nat): nat
    requires 3 * k + 3 <= |s|
  {
    s[3 * k] + s[3 * k + 1] * 0x100 + s[3 * k + 2] * 0x10000
  }

  function IndexCode(index: seq<nat>, k: nat): nat
    requires 3 * k + 3 <= |index|
  {
    Le24(index, k) % 0x20_0000
  }

  /** The place that an index entry points at. */
  function IndexPlace(index: seq<nat>, k: nat): Place
    requires 3 * k + 3 <= |index|
  {
    Place((k + 1) * UNICODE_INDEX_BLOCK_LEN + Le24(index, k) / 0x20_0000, IndexCode(index, k), false)
  }

  /** A table and its index: the index ascends, its entries but the last are places of the decode
      with status false, and the last, a plain number, is within the table. */
  ghost predicate WellIndexed(table: seq<nat>, index: seq<nat>) {
    && Bytes(table) && Bytes(index)
    && Decodes(table, START) && Total(table, START) <= UINT32_MAX
    && |index| % 3 == 0 && 3 <= |index|
    && (forall k, m :: 0 <= k < m < |index| / 3 ==> IndexCode(index, k) <= IndexCode(index, m))
    && (forall k :: 0 <= k < |index| / 3 - 1 ==> Passes(table, START, IndexPlace(index, k)))
    && Le24(index, |index| / 3 - 1) < 0x20_0000
    && Le24(index, |index| / 3 - 1) <= Total(table, START)
  }

  function Bound(index: seq<nat>): nat
    requires 3 <= |index| && |index| % 3 == 0
  {
    Le24(index, |index| / 3 - 1)
  }

  /** Code points at or above a place of the decode are decided from there. */
  lemma {:induction false} PassesKeeps(table: seq<nat>, s: Place, goal: Place, c: nat)
    requires Passes(table, s, goal) && goal.code <= c
    ensures s.code <= goal.code && s.pos <= goal.pos
    ensures InRuns(table, s, c) == InRuns(table, goal, c) && Total(table, s) == Total(table, goal)
    ensures Decodes(table, s) ==> Decodes(table, goal)
    decreases |table| - s.pos
  {
    if s != goal {
      PassesKeeps(table, After(table, s), goal, c);
    }
  }

  /** get_index_pos: a place at or before the run of `c`, or none from the bound on. */
  method GetIndexPos(table: seq<nat>, index: seq<nat>, c: nat) returns (found: bool, pos: nat, code: nat)
    requires WellIndexed(table, index)
    ensures found <==> c < Bound(index)
    ensures found ==> code <= c && Passes(table, START, Place(pos, code, false))
  {
    var idxMin := 0;
    if c < IndexCode(index, 0) {
      assert IndexCode(index, |index| / 3 - 1) == Bound(index);
      return true, 0, 0;
    }
    var idxMax := |index| / 3 - 1;
    if c >= Le24(index, idxMax) {
      return false, 0, 0;
    }
    while idxMax - idxMin > 1
      invariant 0 <= idxMin < idxMax < |index| / 3
      invariant IndexCode(index, idxMin) <= c < IndexCode(index, idxMax)
    {
      var idx := (idxMax + idxMin) / 2;
      if c < IndexCode(index, idx) {
        idxMax := idx;
      } else {
        idxMin := idx;
      }
    }
    assert IndexPlace(index, idxMin).code <= c;
    return true, (idxMin + 1) * UNICODE_INDEX_BLOCK_LEN + Le24(index, idxMin) / 0x20_0000, IndexCode(index, idxMin);
  }

  /** lre_is_in_table: below the bound of the index the lookup by index agrees with the decode
      from the start, and from the bound on it is false. */
  method LreIsInTable(table: seq<nat>, index: seq<nat>, c: nat) returns (r: bool)
    requires WellIndexed(table, index)
    ensures r == (c < Bound(index) && InRuns(table, START, c))
  {
    var found, p: nat, code: nat := GetIndexPos(table, index, c);
    if !found {
      return false;
    }
    PassesKeeps(table, START, Place(p, code, false), c);
    var bit := false;
    hide InRuns, Decodes, Total, Passes, WellIndexed, FirstRun, SecondRun;
    while true
      invariant code <= c < Total(table, Place(p, code, bit))
      invariant Decodes(table, Place(p, code, bit))
      invariant InRuns(table, START, c) == InRuns(table, Place(p, code, bit), c)
      decreases |table| - p
    {
      ghost var s := Place(p, code, bit);
      UnitDecides(table, s, c);
      UnitBytes(table, p);
      var b := table[p];
      p := p + 1;
      if b < 0x40 {
        code := code + (b / 8 + 1);
        if c < code {
          return bit;
        }
        bit := !bit;
        code := code + (b % 8 + 1);
      } else if b >= 0x80 {
        code := code + (b - 0x80 + 1);
      } else if b < 0x60 {
        code := code + ((b - 0x40) * 0x100 + table[p] + 1);
        p := p + 1;
      } else {
        code := code + ((b - 0x60) * 0x10000 + table[p] * 0x100 + table[p + 1] + 1);
        p := p + 2;
      }
      if c < code {
        return bit;
      }
      bit := !bit;
      assert Place(p, code, bit) == After(table, s);
    }
  }

  /** What one unit decides. */
  lemma UnitDecides(table: seq<nat>, s: Place, c: nat)
    requires s.code <= c < Total(table, s) && Decodes(table, s)
    ensures Whole(table, s.pos)
    ensures c < s.code + FirstRun(table, s.pos) ==> InRuns(table, s, c) == s.bit
    ensures s.code + FirstRun(table, s.pos) <= c < After(table, s).code ==> InRuns(table, s, c) == !s.bit
    ensures After(table, s).code <= c ==>
              && InRuns(table, s, c) == InRuns(table, After(table, s), c)
              && Total(table, s) == Total(table, After(table, s))
              && Decodes(table, After(table, s))
  {
  }

  /** The runs of a unit, byte by byte. */
  lemma UnitBytes(table: seq<nat>, p: nat)
    requires Whole(table, p)
    ensures var b := table[p];
            if b < 0x40 then FirstRun(table, p) == b / 8 + 1 && SecondRun(table, p) == b % 8 + 1
            else
              && SecondRun(table, p) == 0
              && (b >= 0x80 ==> FirstRun(table, p) == b - 0x80 + 1)
              && (0x40 <= b < 0x60 ==> p + 1 < |table| && FirstRun(table, p) == (b - 0x40) * 0x100 + table[p + 1] + 1)
              && (0x60 <= b < 0x80 ==>
                    && p + 2 < |table|
                    && FirstRun(table, p) == (b - 0x60) * 0x10000 + table[p + 1] * 0x100 + table[p + 2] + 1)
  {
  }

  lemma {:induction false} InRunsFrom(table: seq<nat>, s: Place, c: nat)
    requires InRuns(table, s, c)
    ensures s.code <= c
    decreases |table| - s.pos
  {
    if c >= After(table, s).code { InRunsFrom(table, After(table, s), c); }
  }

  /** The members that one unit contributes. */
  ghost predicate Contributes(table: seq<nat>, s: Place, c: nat)
    requires Whole(table, s.pos)
  {
    var middle, s1 := s.code + FirstRun(table, s.pos), After(table, s);
    InRuns(table, s, c) <==>
    (s.bit && s.code <= c < middle) || (!s.bit && middle <= c < s1.code) || InRuns(table, s1, c)
  }

  lemma UnitContributes(table: seq<nat>, s: Place, c: nat)
    requires Decodes(table, s) && s.pos < |table|
    ensures Whole(table, s.pos) && Contributes(table, s, c)
  {
    var s1 := After(table, s);
    if InRuns(table, s1, c) { InRunsFrom(table, s1, c); }
  }

  lemma UnitGoesOn(table: seq<nat>, s: Place)
    requires Decodes(table, s) && s.pos < |table|
    ensures Whole(table, s.pos) && Decodes(table, After(table, s)) && Total(table, s) == Total(table, After(table, s))
    ensures After(table, s).code <= Total(table, s)
  {
  }

  /** One round of unicode_prop1. */
  method AddUnit(cr: CharRange, table: seq<nat>, p: nat, c: nat, bit: bool) returns (p1: nat, c1: nat, bit1: bool)
    requires Decodes(table, Place(p, c, bit)) && p < |table| && Total(table, Place(p, c, bit)) <= UINT32_MAX
    requires cr.Valid() && Sorted(cr.Contents()) && Below(cr.Contents(), c)
    modifies cr, cr.points
    ensures Whole(table, p) && Place(p1, c1, bit1) == After(table, Place(p, c, bit))
    ensures cr.Valid() && Sorted(cr.Contents()) && Below(cr.Contents(), c1)
    ensures forall x: nat ::
              Member(cr.Contents(), x) || InRuns(table, Place(p1, c1, bit1), x) <==>
              old(Member(cr.Contents(), x)) || InRuns(table, Place(p, c, bit), x)
    ensures cr.points == old(cr.points) || fresh(cr.points)
  {
    ghost var s := Place(p, c, bit);
    UnitGoesOn(table, s);
    UnitBytes(table, p);
    forall x: nat ensures Contributes(table, s, x) {
      UnitContributes(table, s, x);
    }
    hide InRuns, Decodes, Total, FirstRun, SecondRun, Sorted, Below, Member;
    p1, c1, bit1 := p, c, bit;
    var c0 := c1;
    var b := table[p1];
    p1 := p1 + 1;
    if b < 0x40 {
      c1 := c1 + (b / 8 + 1);
      if bit1 {
        Append(cr, c0, c0, c1);
      } else {
        BelowMore(cr.Contents(), c0, c1);
      }
      bit1 := !bit1;
      c0 := c1;
      c1 := c1 + (b % 8 + 1);
    } else if b >= 0x80 {
      c1 := c1 + (b - 0x80 + 1);
    } else if b < 0x60 {
      c1 := c1 + ((b - 0x40) * 0x100 + table[p1] + 1);
      p1 := p1 + 1;
    } else {
      c1 := c1 + ((b - 0x60) * 0x10000 + table[p1] * 0x100 + table[p1 + 1] + 1);
      p1 := p1 + 2;
    }
    if bit1 {
      Append(cr, c0, c0, c1);
    } else {
      BelowMore(cr.Contents(), c0, c1);
    }
    bit1 := !bit1;
    assert Place(p1, c1, bit1) == After(table, s);
    assert forall x: nat :: Contributes(table, s, x);
  }

  /** unicode_prop1: the set that the decode from the start builds. */
  method UnicodeProp1(cr: CharRange, table: seq<nat>)
    requires Decodes(table, START) && Total(table, START) <= UINT32_MAX && cr.Valid() && cr.len == 0
    modifies cr, cr.points
    ensures cr.Valid() && Sorted(cr.Contents())
    ensures forall c: nat :: Member(cr.Contents(), c) <==> InRuns(table, START, c)
    ensures cr.points == old(cr.points) || fresh(cr.points)
  {
    var p: nat, c: nat, bit := 0, 0, false;
    assert Below(cr.Contents(), 0) && Sorted(cr.Contents());
    assert forall x :: !Member(cr.Contents(), x);
    hide InRuns, Decodes, Total, FirstRun, SecondRun, Sorted, Below, Member;
    while p < |table|
      invariant Decodes(table, Place(p, c, bit)) && Total(table, Place(p, c, bit)) == Total(table, START)
      invariant cr.Valid() && (cr.points == old(cr.points) || fresh(cr.points))
      invariant Sorted(cr.Contents()) && Below(cr.Contents(), c)
      invariant forall x: nat :: (Member(cr.Contents(), x) || InRuns(table, Place(p, c, bit), x)) <==>
                                 InRuns(table, START, x)
      decreases |table| - p
    {
      UnitGoesOn(table, Place(p, c, bit));
      p, c, bit := AddUnit(cr, table, p, c, bit);
    }
    DecodeDone(table, Place(p, c, bit));
  }

  lemma DecodeDone(table: seq<nat>, s: Place)
    requires Decodes(table, s) && s.pos >= |table|
    ensures forall x: nat :: !InRuns(table, s, x)
  {
  }

  /** The set built by the decode from the start and the lookup by index agree on every code point
      below the bound, and on all when the bound is where the table ends. */
  lemma LookupAgrees(table: seq<nat>, index: seq<nat>, points: seq<int>, c: nat, r: bool)
    requires WellIndexed(table, index)
    requires forall x: nat :: Member(points, x) <==> InRuns(table, START, x)
    requires r == (c < Bound(index) && InRuns(table, START, c))
    ensures c < Bound(index) || Bound(index) == Total(table, START) ==> r == Member(points, c)
    ensures c >= Bound(index) ==> !r
  {
    if c >= Total(table, START) { NoneFromTotal(table, START, c); }
  }

  lemma {:induction false} NoneFromTotal(table: seq<nat>, s: Place, c: nat)
    requires Total(table, s) <= c
    ensures !InRuns(table, s, c)
    decreases |table| - s.pos
  {
    if Whole(table, s.pos) { NoneFromTotal(table, After(table, s), c); }
  }
}
