/** Sets of characters (libunicode.c): building, merging, complementing and compressing arrays of
    endpoints in place. */
module CharRanges {
  import opened Points
  import RqSort

  datatype CharRangeOp = Union | Inter | Xor | Sub

  predicate Combine(op: CharRangeOp, x: bool, y: bool) {
    match op
    case Union => x || y
    case Inter => x && y
    case Xor => x != y
    case Sub => x && !y
  }

  /** `r` holds the points that change the status of `op` over `a` and `b`, up to `last`. */
  ghost predicate Merged(op: CharRangeOp, a: seq<int>, b: seq<int>, r: seq<int>, last: int) {
    && (|r| % 2 == 1) == Combine(op, |a| % 2 == 1, |b| % 2 == 1)
    && Below(a, last)
    && Below(b, last)
    && Below(r, last)
    && (forall i, j :: 0 <= i < j < |r| ==> r[i] <= r[j])
    && (forall c :: Inside(r, c) == Combine(op, Inside(a, c), Inside(b, c)))
  }

  /** Adding a last point changes the status of the characters from that point on. */
  lemma InsideSnoc(p: seq<int>, v: int, c: int)
    ensures Inside(p + [v], c) == (Inside(p, c) != (v <= c))
  {
    assert (p + [v])[..|p|] == p;
  }

  ghost predicate Below(p: seq<int>, v: int) {
    forall k :: 0 <= k < |p| ==> p[k] <= v
  }

  lemma MergeStart(op: CharRangeOp)
    ensures Merged(op, [], [], [], 0)
  {
  }

  /** What one round makes of a row of points: nothing, or `v` at its end. */
  lemma SnocBelow(p: seq<int>, p1: seq<int>, last: int, v: int, c: int)
    requires Below(p, last) && last <= v && (p1 == p || p1 == p + [v])
    ensures Below(p1, v)
    ensures v <= c ==> Inside(p1, c) == (|p1| % 2 == 1)
    ensures c < v ==> Inside(p1, c) == Inside(p, c)
  {
    hide Inside;
    assert Below(p1, v);
    if v <= c {
      InsideBelow(p1, c);
    } else {
      InsideSnoc(p, v, c);
    }
  }

  /** One round of the merge: `v` moves from either input, or both. */
  lemma MergeStep(op: CharRangeOp, a: seq<int>, b: seq<int>, r: seq<int>, last: int,
                  v: int, a1: seq<int>, b1: seq<int>, r1: seq<int>)
    requires Merged(op, a, b, r, last) && last <= v
    requires a1 == a || a1 == a + [v]
    requires b1 == b || b1 == b + [v]
    requires r1 == if Combine(op, |a1| % 2 == 1, |b1| % 2 == 1) != (|r| % 2 == 1) then r + [v] else r
    ensures Merged(op, a1, b1, r1, v)
  {
    hide Inside;
    SnocBelow(a, a1, last, v, v);
    SnocBelow(b, b1, last, v, v);
    SnocBelow(r, r1, last, v, v);
    assert (|r1| % 2 == 1) == Combine(op, |a1| % 2 == 1, |b1| % 2 == 1);
    forall c ensures Inside(r1, c) == Combine(op, Inside(a1, c), Inside(b1, c)) {
      SnocBelow(a, a1, last, v, c);
      SnocBelow(b, b1, last, v, c);
      SnocBelow(r, r1, last, v, c);
    }
  }

  /** `r` denotes the set that `op` makes of the sets of `a` and `b`. */
  ghost predicate Denotes(op: CharRangeOp, a: seq<int>, b: seq<int>, r: seq<int>) {
    forall c :: Member(r, c) <==> Combine(op, Member(a, c), Member(b, c))
  }

  lemma MergeEnd(op: CharRangeOp, a: seq<int>, b: seq<int>, r: seq<int>, last: int)
    requires Sorted(a) && Sorted(b) && InRange(r) && Merged(op, a, b, r, last)
    ensures Sorted(r) && Denotes(op, a, b, r)
  {
    forall c ensures Member(r, c) <==> Combine(op, Member(a, c), Member(b, c)) {
      hide Member, Inside;
      InsideIsMember(a, c);
      InsideIsMember(b, c);
      InsideIsMember(r, c);
    }
  }

  lemma SameDenotes(op: CharRangeOp, a: seq<int>, b: seq<int>, r: seq<int>, r1: seq<int>)
    requires Denotes(op, a, b, r) && SameSet(r1, r)
    ensures Denotes(op, a, b, r1)
  {
    hide Member;
  }

  lemma SameComplement(p: seq<int>, q: seq<int>, q1: seq<int>)
    requires Complement(p, q) && SameSet(q1, q)
    ensures Complement(p, q1)
  {
    hide Member;
  }

  lemma MemberOne(x: int, y: int, c: int)
    ensures Member([x, y], c) <==> x <= c < y
  {
    if x <= c < y { assert InInterval([x, y], 0, c); }
  }

  /** The interval added at each end turns the set inside out. */
  lemma InvertEnds(p: seq<int>, q: seq<int>)
    requires Sorted(p) && q == [0] + p + [UINT32_MAX]
    ensures Sorted(q) && Complement(p, q)
  {
    forall c ensures Member(q, c) <==> 0 <= c < UINT32_MAX && !Member(p, c) {
      hide Member;
      InsideIsMember(p, c);
      InsideIsMember(q, c);
      InsideSnoc([0] + p, UINT32_MAX, c);
      InsideAppend([0], p, c);
      if c < 0 {
        InsideAbove(p, c);
      } else if c >= UINT32_MAX {
        InsideBelow(p, c);
      }
    }
  }

  /** Two equal neighbours change the status of no character. */
  lemma InsideDropPair(p: seq<int>, x: int, q: seq<int>)
    ensures forall c :: Inside(p + [x, x] + q, c) == Inside(p + q, c)
  {
    forall c ensures Inside(p + [x, x] + q, c) == Inside(p + q, c) {
      InsideAppend(p + [x, x], q, c);
      InsideAppend(p, [x, x], c);
      InsideAppend(p, q, c);
      InsidePair(x, x, c);
    }
  }

  /** The same characters are inside. */
  ghost predicate SameInside(p: seq<int>, q: seq<int>) {
    forall c :: Inside(p, c) == Inside(q, c)
  }

  ghost predicate Increasing(points: seq<int>) {
    forall i, j :: 0 <= i < j < |points| ==> points[i] < points[j]
  }

  /** `out` and the rest of `p` from `i` on stand for `p`, and `out` ends before the rest. */
  ghost predicate Compressing(p: seq<int>, out: seq<int>, i: int) {
    && 0 <= i <= |p| && i % 2 == 0
    && |out| <= i && |out| % 2 == 0
    && InRange(out) && Increasing(out)
    && (out != [] && i < |p| ==> out[|out| - 1] < p[i])
    && SameInside(out + p[i..], p)
  }

  lemma CompressStart(p: seq<int>)
    requires Sorted(p)
    ensures Compressing(p, [], 0) && |p| % 2 == 0
  {
    assert [] + p[0..] == p;
  }

  /** An empty interval goes. */
  lemma CompressSkip(p: seq<int>, out: seq<int>, i: int)
    requires Sorted(p) && Compressing(p, out, i) && i < |p| && p[i] == p[i + 1]
    ensures Compressing(p, out, i + 2)
  {
    hide Inside;
    InsideDropPair(out, p[i], p[i + 2..]);
    assert out + p[i..] == out + [p[i], p[i]] + p[i + 2..];
    assert i + 2 < |p| ==> p[i] <= p[i + 2];
  }

  lemma CompressOpen(p: seq<int>, out: seq<int>, i: int)
    requires Compressing(p, out, i) && i < |p|
    ensures SameInside(out + [p[i]] + p[i + 1..], p)
  {
    hide Inside;
    assert out + p[i..] == out + [p[i]] + p[i + 1..];
  }

  /** Touching intervals become one: the points between `i` and `j + 1` cancel in pairs. */
  lemma CompressJoin(p: seq<int>, out: seq<int>, i: int, j: int)
    requires 0 <= i <= j && j + 3 < |p| && p[j + 1] == p[j + 2]
    requires SameInside(out + [p[i]] + p[j + 1..], p)
    ensures SameInside(out + [p[i]] + p[j + 3..], p)
  {
    hide Inside;
    InsideDropPair(out + [p[i]], p[j + 1], p[j + 3..]);
    assert out + [p[i]] + p[j + 1..] == out + [p[i]] + [p[j + 1], p[j + 1]] + p[j + 3..];
  }

  /** The joined interval is copied out. */
  lemma CompressCopy(p: seq<int>, out: seq<int>, i: int, j: int)
    requires Sorted(p) && Compressing(p, out, i) && i <= j && j % 2 == 0 && j + 1 < |p| && p[i] != p[i + 1]
    requires j + 3 < |p| ==> p[j + 1] != p[j + 2]
    requires SameInside(out + [p[i]] + p[j + 1..], p)
    ensures Compressing(p, out + [p[i], p[j + 1]], j + 2)
  {
    hide Inside;
    assert out + [p[i]] + p[j + 1..] == out + [p[i], p[j + 1]] + p[j + 2..];
    assert p[i] < p[i + 1] <= p[j + 1];
  }

  lemma CompressEnd(p: seq<int>, out: seq<int>)
    requires Sorted(p) && Compressing(p, out, |p|)
    ensures Canonical(out) && SameSet(out, p)
  {
    assert out + p[|p|..] == out;
    forall c ensures Member(out, c) <==> Member(p, c) {
      hide Member, Inside;
      InsideIsMember(out, c);
      InsideIsMember(p, c);
    }
  }

  /** Intervals in any order, perhaps overlapping, none of them empty. */
  ghost predicate Intervals(points: seq<int>) {
    && |points| % 2 == 0
    && InRange(points)
    && (forall k :: 0 <= k < |points| / 2 ==> Start(points, k) < End(points, k))
  }

  function Start(points: seq<int>, k: int): int
    requires 0 <= k < |points| / 2
  {
    points[2 * k]
  }

  function End(points: seq<int>, k: int): int
    requires 0 <= k < |points| / 2
  {
    points[2 * k + 1]
  }

  /** point_cmp: pairs of points are compared by the first point only. */
  function PointCmp(p: (int, int), q: (int, int)): int {
    (if p.0 > q.0 then 1 else 0) - (if p.0 < q.0 then 1 else 0)
  }

  /** The points seen as pairs. */
  ghost predicate PairsOf(points: seq<int>, pairs: seq<(int, int)>) {
    && |points| == 2 * |pairs|
    && (forall k :: 0 <= k < |pairs| ==> pairs[k] == (Start(points, k), End(points, k)))
  }

  lemma PairsSnoc(p: seq<int>, ps: seq<(int, int)>, x: int, y: int)
    requires PairsOf(p, ps)
    ensures PairsOf(p + [x, y], ps + [(x, y)])
  {
    var q, qs := p + [x, y], ps + [(x, y)];
    forall k | 0 <= k < |qs|
      ensures qs[k] == (Start(q, k), End(q, k))
    {
      if k < |ps| {
        assert Start(q, k) == Start(p, k) && End(q, k) == End(p, k);
      }
    }
  }

  /** Reordering the intervals changes neither the set nor what holds of each interval. */
  lemma PairsSameSet(p: seq<int>, ps: seq<(int, int)>, q: seq<int>, qs: seq<(int, int)>)
    requires PairsOf(p, ps) && PairsOf(q, qs) && multiset(ps) == multiset(qs)
    requires Intervals(p)
    ensures Intervals(q) && SameSet(q, p)
  {
    forall k | 0 <= k < |qs|
      ensures Start(q, k) < End(q, k) && 0 <= Start(q, k) && End(q, k) <= UINT32_MAX
    {
      var j := PairFrom(ps, qs, k);
      assert Start(p, j) < End(p, j) && 0 <= p[2 * j] && p[2 * j + 1] <= UINT32_MAX;
    }
    forall m | 0 <= m < |q|
      ensures 0 <= q[m] <= UINT32_MAX
    {
      var k := m / 2;
      assert Start(q, k) < End(q, k);
      assert m == 2 * k || m == 2 * k + 1;
    }
    forall c ensures Member(q, c) <==> Member(p, c) {
      if Member(q, c) {
        var k :| InInterval(q, k, c);
        var j := PairFrom(ps, qs, k);
        assert Start(q, k) == Start(p, j) && End(q, k) == End(p, j);
        assert InInterval(p, j, c);
      }
      if Member(p, c) {
        var k :| InInterval(p, k, c);
        var j := PairFrom(qs, ps, k);
        assert Start(p, k) == Start(q, j) && End(p, k) == End(q, j);
        assert InInterval(q, j, c);
      }
    }
  }

  lemma PairFrom(ps: seq<(int, int)>, qs: seq<(int, int)>, k: int) returns (j: int)
    requires multiset(ps) == multiset(qs) && 0 <= k < |qs|
    ensures 0 <= j < |ps| && ps[j] == qs[k]
  {
    assert qs[k] in multiset(qs);
    assert qs[k] in ps;
    j :| 0 <= j < |ps| && ps[j] == qs[k];
  }

  lemma PointCmpOrders()
    ensures RqSort.TotalPreorder(PointCmp)
  {
  }

  /** The starts are in order. */
  ghost predicate StartsInOrder(points: seq<int>) {
    forall i, j :: 0 <= i < j < |points| / 2 ==> Start(points, i) <= Start(points, j)
  }

  /** `out` holds the first `i` points of `p` with overlaps removed, and ends before the rest. */
  ghost predicate Merging(p: seq<int>, out: seq<int>, i: int) {
    && 0 <= i <= |p| && i % 2 == 0 && |out| <= i
    && Canonical(out)
    && (out != [] && i < |p| ==> out[|out| - 1] < p[i])
    && SameSet(out, p[..i])
  }

  /** The same with an interval still open for more. */
  ghost predicate Extending(p: seq<int>, out: seq<int>, start: int, end: int, i: int) {
    && 0 < i <= |p| && i % 2 == 0 && |out| + 2 <= i
    && Canonical(out) && 0 <= start < end <= UINT32_MAX
    && (out != [] ==> out[|out| - 1] < start)
    && (i < |p| ==> start <= p[i])
    && SameSet(out + [start, end], p[..i])
  }

  lemma TakeTwo(p: seq<int>, i: int, c: int)
    requires 0 <= i && i % 2 == 0 && i + 1 < |p|
    ensures Member(p[..i + 2], c) <==> Member(p[..i], c) || p[i] <= c < p[i + 1]
  {
    assert p[..i + 2] == p[..i] + [p[i], p[i + 1]];
    MemberSnoc(p[..i], p[i], p[i + 1], c);
  }

  lemma Interval(p: seq<int>, i: int)
    requires Intervals(p) && StartsInOrder(p) && 0 <= i && i % 2 == 0 && i < |p|
    ensures i + 1 < |p| && 0 <= p[i] < p[i + 1] <= UINT32_MAX
    ensures i + 2 < |p| ==> p[i] <= p[i + 2]
  {
    var k := i / 2;
    assert Start(p, k) < End(p, k);
    if i + 2 < |p| {
      var m := k + 1;
      assert Start(p, k) <= Start(p, m);
    }
  }

  lemma ExtendStart(p: seq<int>, out: seq<int>, i: int)
    requires Intervals(p) && StartsInOrder(p) && Merging(p, out, i) && i + 1 < |p|
    ensures Extending(p, out, p[i], p[i + 1], i + 2)
  {
    hide Intervals, StartsInOrder, Member;
    Interval(p, i);
    var q, r := out + [p[i], p[i + 1]], p[..i + 2];
    forall c ensures Member(q, c) <==> Member(r, c) {
      TakeTwo(p, i, c);
      MemberSnoc(out, p[i], p[i + 1], c);
    }
  }

  lemma ExtendStep(p: seq<int>, out: seq<int>, start: int, end: int, i: int)
    requires Intervals(p) && StartsInOrder(p) && Extending(p, out, start, end, i) && i + 1 < |p| && p[i] <= end
    ensures Extending(p, out, start, if p[i + 1] <= end then end else p[i + 1], i + 2)
  {
    hide Intervals, StartsInOrder, Member;
    Interval(p, i);
    var end1 := if p[i + 1] <= end then end else p[i + 1];
    forall c ensures Member(out + [start, end1], c) <==> Member(p[..i + 2], c) {
      TakeTwo(p, i, c);
      MemberSnoc(out, start, end, c);
      MemberSnoc(out, start, end1, c);
    }
  }

  lemma ExtendEnd(p: seq<int>, out: seq<int>, start: int, end: int, i: int)
    requires Extending(p, out, start, end, i) && (i < |p| ==> p[i] > end)
    ensures Merging(p, out + [start, end], i)
  {
  }

  lemma MergingDone(p: seq<int>, out: seq<int>)
    requires Merging(p, out, |p|)
    ensures Canonical(out) && SameSet(out, p)
  {
    assert p[..|p|] == p;
  }

  lemma MergingStart(p: seq<int>)
    requires Intervals(p)
    ensures Merging(p, [], 0) && |p| % 2 == 0
  {
  }

  lemma SameSetTrans(p: seq<int>, q: seq<int>, r: seq<int>)
    requires SameSet(p, q) && SameSet(q, r)
    ensures SameSet(p, r)
  {
    hide Member;
  }

  lemma NoPairs()
    ensures PairsOf([], [])
  {
  }

  lemma PairsHalf(p: seq<int>, ps: seq<(int, int)>)
    requires PairsOf(p, ps)
    ensures |p| == 2 * |ps|
  {
  }

  lemma OrderedStarts(q: seq<int>, qs: seq<(int, int)>)
    requires PairsOf(q, qs) && RqSort.InOrder(PointCmp, qs, 0, |qs|)
    ensures StartsInOrder(q)
  {
    forall i, j | 0 <= i < j < |q| / 2
      ensures Start(q, i) <= Start(q, j)
    {
      assert PointCmp(qs[i], qs[j]) <= 0;
    }
  }

  class CharRange {
    var points: array<int>
    var len: nat

    ghost predicate Valid()
      reads this
    {
      len <= points.Length
    }

    ghost function Contents(): seq<int>
      reads this, points
      requires Valid()
    {
      points[..len]
    }

    /** cr_init. */
    constructor ()
      ensures Valid() && fresh(points) && Contents() == []
    {
      points := new int[0];
      len := 0;
    }

    /** cr_realloc: room for `size` points, growing by half at least. */
    method Realloc(size: nat)
      requires Valid()
      modifies this`points
      ensures Valid() && Contents() == old(Contents()) && size <= points.Length
      ensures points == old(points) || fresh(points)
    {
      if size > points.Length {
        var newSize := if size > points.Length * 3 / 2 then size else points.Length * 3 / 2;
        var newBuf := new int[newSize];
        forall k | 0 <= k < len {
          newBuf[k] := points[k];
        }
        assert newBuf[..len] == points[..len];
        points := newBuf;
      }
    }

    /** cr_copy. */
    method Copy(other: CharRange)
      requires Valid() && other.Valid() && other.points != points && other != this
      modifies this, points
      ensures Valid() && Contents() == other.Contents()
      ensures points == old(points) || fresh(points)
    {
      Realloc(other.len);
      forall k | 0 <= k < other.len {
        points[k] := other.points[k];
      }
      len := other.len;
    }

    method AddPoint(v: int)
      requires Valid()
      modifies this, points
      ensures Valid() && Contents() == old(Contents()) + [v]
      ensures points == old(points) || fresh(points)
    {
      if len >= points.Length {
        Realloc(len + 1);
      }
      points[len] := v;
      len := len + 1;
    }

    method AddInterval(c1: int, c2: int)
      requires Valid()
      modifies this, points
      ensures Valid() && Contents() == old(Contents()) + [c1, c2]
      ensures points == old(points) || fresh(points)
    {
      if len + 2 > points.Length {
        Realloc(len + 2);
      }
      points[len] := c1;
      points[len + 1] := c2;
      len := len + 2;
    }

    /** The inner loop of cr_compress: the last of the intervals that touch one another from the
        one at `i` on. */
    static method LastTouching(pt: array<int>, i: nat, n: nat, ghost p: seq<int>, ghost out: seq<int>) returns (j: nat)
      requires n == |p| <= pt.Length && i + 1 < n && i % 2 == 0 && n % 2 == 0
      requires forall m :: i <= m < n ==> pt[m] == p[m]
      requires Compressing(p, out, i)
      ensures i <= j && j % 2 == 0 && j + 1 < n
      ensures j + 3 < n ==> p[j + 1] != p[j + 2]
      ensures SameInside(out + [p[i]] + p[j + 1..], p)
    {
      CompressOpen(p, out, i);
      hide Compressing, SameInside;
      j := i;
      while j + 3 < n && pt[j + 1] == pt[j + 2]
        invariant i <= j && j % 2 == 0 && j + 1 < n
        invariant SameInside(out + [p[i]] + p[j + 1..], p)
      {
        CompressJoin(p, out, i, j);
        j := j + 2;
      }
    }

    /** cr_compress: drops empty intervals and joins touching ones, in place. */
    method Compress()
      requires Valid() && Sorted(Contents())
      modifies this`len, points
      ensures Valid() && Canonical(Contents()) && SameSet(Contents(), old(Contents()))
    {
      hide Compressing, SameInside, Inside, Sorted, Canonical, SameSet;
      ghost var p := Contents();
      var pt, n := points, len;
      var i, j, k := 0, 0, 0;
      CompressStart(p);
      assert pt[..0] == [];
      while i + 1 < n
        invariant i <= n && k <= i && i % 2 == 0 && k % 2 == 0
        invariant forall m :: i <= m < n ==> pt[m] == p[m]
        invariant Compressing(p, pt[..k], i)
      {
        ghost var out := pt[..k];
        if pt[i] == pt[i + 1] {
          // an empty interval
          CompressSkip(p, out, i);
          i := i + 2;
        } else {
          j := LastTouching(pt, i, n, p, out);
          CompressCopy(p, out, i, j);
          pt[k] := pt[i];
          pt[k + 1] := pt[j + 1];
          assert pt[..k + 2] == out + [p[i], p[j + 1]];
          k := k + 2;
          i := j + 2;
        }
      }
      len := k;
      CompressEnd(p, points[..k]);
    }

    /** cr_op: merges two arrays of endpoints, keeping those where the status changes. */
    method Op(a: seq<int>, b: seq<int>, op: CharRangeOp)
      requires Valid() && len == 0 && Sorted(a) && Sorted(b)
      modifies this, points
      ensures Valid() && (points == old(points) || fresh(points))
      ensures Canonical(Contents()) && Denotes(op, a, b, Contents())
    {
      hide Merged, Denotes, Canonical, SameSet;
      var aIdx, bIdx := 0, 0;
      ghost var last := 0;
      MergeStart(op);
      while aIdx < |a| || bIdx < |b|
        invariant aIdx <= |a| && bIdx <= |b|
        invariant Valid() && (points == old(points) || fresh(points))
        invariant InRange(Contents())
        invariant Merged(op, a[..aIdx], b[..bIdx], Contents(), last)
        invariant aIdx < |a| ==> last <= a[aIdx]
        invariant bIdx < |b| ==> last <= b[bIdx]
        decreases |a| - aIdx + |b| - bIdx
      {
        var v: int;
        ghost var a0, b0, r0 := a[..aIdx], b[..bIdx], Contents();
        // one more point from a or b, in increasing order
        if aIdx < |a| && bIdx < |b| && a[aIdx] == b[bIdx] {
          v := a[aIdx];
          aIdx, bIdx := aIdx + 1, bIdx + 1;
        } else if bIdx == |b| || (aIdx < |a| && a[aIdx] < b[bIdx]) {
          v := a[aIdx];
          aIdx := aIdx + 1;
        } else {
          v := b[bIdx];
          bIdx := bIdx + 1;
        }
        var isIn := Combine(op, aIdx % 2 == 1, bIdx % 2 == 1);
        if isIn != (len % 2 == 1) {
          AddPoint(v);
        }
        MergeStep(op, a0, b0, r0, last, v, a[..aIdx], b[..bIdx], Contents());
        last := v;
      }
      assert a[..aIdx] == a && b[..bIdx] == b;
      MergeEnd(op, a, b, Contents(), last);
      ghost var r := Contents();
      Compress();
      SameDenotes(op, a, b, r, Contents());
    }

    /** cr_op1: the same with this array as the first operand and the result. */
    method Op1(b: seq<int>, op: CharRangeOp)
      requires Valid() && Sorted(Contents()) && Sorted(b)
      modifies this
      ensures Valid() && fresh(points)
      ensures Canonical(Contents()) && Denotes(op, old(Contents()), b, Contents())
    {
      var a := points[..len];
      points := new int[0];
      len := 0;
      Op(a, b, op);
    }

    /** cr_union_interval: adds the characters from `c1` to `c2` inclusive. */
    method UnionInterval(c1: int, c2: int)
      requires Valid() && Sorted(Contents()) && 0 <= c1 <= c2 < UINT32_MAX
      modifies this
      ensures Valid() && Canonical(Contents())
      ensures forall c :: Member(Contents(), c) <==> old(Member(Contents(), c)) || c1 <= c <= c2
    {
      ghost var a := Contents();
      Op1([c1, c2 + 1], Union);
      forall c ensures Member(Contents(), c) <==> Member(a, c) || c1 <= c <= c2 {
        MemberOne(c1, c2 + 1, c);
      }
    }

    /** cr_invert: the complement, made by one more endpoint at each end. */
    method Invert()
      requires Valid() && Sorted(Contents())
      modifies this, points
      ensures Valid() && (points == old(points) || fresh(points))
      ensures Canonical(Contents()) && Complement(old(Contents()), Contents())
    {
      hide Sorted, Canonical, Complement, SameSet;
      ghost var p := Contents();
      var n := len;
      Realloc(n + 2);
      forall k | 0 <= k < n {
        points[k + 1] := points[k];
      }
      points[0] := 0;
      points[n + 1] := UINT32_MAX;
      len := n + 2;
      ghost var q := Contents();
      assert q == [0] + p + [UINT32_MAX];
      InvertEnds(p, q);
      Compress();
      SameComplement(p, q, Contents());
    }

    /** The points as an array of pairs, and back: rqsort is told that an element is two points. */
    method LoadPairs() returns (pairs: array<(int, int)>)
      requires Valid() && len % 2 == 0
      ensures fresh(pairs) && PairsOf(Contents(), pairs[..])
    {
      hide PairsOf;
      pairs := new (int, int)[len / 2];
      var k := 0;
      assert PairsOf([], []) by { NoPairs(); }
      assert points[..0] == [] && pairs[..0] == [];
      while k < len / 2
        invariant 0 <= k <= len / 2
        invariant PairsOf(points[..2 * k], pairs[..k])
      {
        PairsSnoc(points[..2 * k], pairs[..k], points[2 * k], points[2 * k + 1]);
        pairs[k] := (points[2 * k], points[2 * k + 1]);
        k := k + 1;
        assert points[..2 * k] == points[..2 * k - 2] + [points[2 * k - 2], points[2 * k - 1]];
        assert pairs[..k] == pairs[..k - 1] + [pairs[k - 1]];
      }
      assert pairs[..k] == pairs[..];
    }

    method StorePairs(pairs: array<(int, int)>)
      requires Valid() && len == 2 * pairs.Length
      modifies points
      ensures Valid() && PairsOf(Contents(), pairs[..]) && pairs[..] == old(pairs[..])
    {
      hide PairsOf;
      ghost var qs := pairs[..];
      var k := 0;
      assert PairsOf([], []) by { NoPairs(); }
      assert points[..0] == [] && pairs[..0] == [];
      while k < len / 2
        invariant 0 <= k <= len / 2 && pairs[..] == qs
        invariant PairsOf(points[..2 * k], qs[..k])
      {
        ghost var p := points[..2 * k];
        PairsSnoc(p, qs[..k], pairs[k].0, pairs[k].1);
        points[2 * k], points[2 * k + 1] := pairs[k].0, pairs[k].1;
        k := k + 1;
        assert points[..2 * k] == p + [pairs[k - 1].0, pairs[k - 1].1];
        assert qs[..k] == qs[..k - 1] + [(pairs[k - 1].0, pairs[k - 1].1)];
      }
      assert qs[..k] == qs;
    }

    /** The call of rqsort: the points are sorted in pairs, by their starts. */
    method SortPairs()
      requires Valid() && Intervals(Contents())
      modifies points
      ensures Valid() && Intervals(Contents()) && StartsInOrder(Contents())
      ensures SameSet(Contents(), old(Contents()))
    {
      hide PairsOf, SameSet, RqSort.TotalPreorder;
      ghost var p := Contents();
      var pairs := LoadPairs();
      ghost var ps := pairs[..];
      PairsHalf(p, ps);
      PointCmpOrders();
      RqSort.RqSort(pairs, PointCmp);
      ghost var qs := pairs[..];
      StorePairs(pairs);
      PairsSameSet(p, ps, Contents(), qs);
      OrderedStarts(Contents(), qs);
    }

    /** cr_sort_and_remove_overlap: intervals in any order become a canonical array. */
    method SortAndRemoveOverlap()
      requires Valid() && Intervals(Contents())
      modifies this`len, points
      ensures Valid() && Canonical(Contents()) && SameSet(Contents(), old(Contents()))
    {
      hide Intervals, StartsInOrder, Merging, Extending, Canonical, SameSet;
      ghost var was := Contents();
      SortPairs();
      ghost var p := Contents();
      var pt, n := points, len;
      var i, j := 0, 0;
      MergingStart(p);
      assert pt[..0] == [];
      while i < n
        invariant j <= i <= n && i % 2 == 0 && j % 2 == 0
        invariant forall m :: i <= m < n ==> pt[m] == p[m]
        invariant Merging(p, pt[..j], i)
      {
        ghost var out := pt[..j];
        var start, end := pt[i], pt[i + 1];
        ExtendStart(p, out, i);
        i := i + 2;
        while i < n
          invariant j + 2 <= i <= n && i % 2 == 0
          invariant pt[..j] == out && forall m :: i <= m < n ==> pt[m] == p[m]
          invariant Extending(p, out, start, end, i)
        {
          var start1, end1 := pt[i], pt[i + 1];
          if start1 > end {
            break;
          }
          ExtendStep(p, out, start, end, i);
          if end1 > end {
            end := end1;
          }
          i := i + 2;
        }
        ExtendEnd(p, out, start, end, i);
        pt[j] := start;
        pt[j + 1] := end;
        assert pt[..j + 2] == out + [start, end];
        j := j + 2;
      }
      len := j;
      MergingDone(p, pt[..j]);
      SameSetTrans(pt[..j], p, was);
    }
  }
}
