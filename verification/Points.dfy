/** Character sets as sorted arrays of endpoints: even positions open a half-open interval, odd
    ones close it (struct CharRange). */
module Points {

  const UINT32_MAX: int := 0xffff_ffff

  ghost predicate InRange(points: seq<int>) {
    forall k :: 0 <= k < |points| ==> 0 <= points[k] <= UINT32_MAX
  }

  /** What every routine on ranges may be given: whole intervals in order, some perhaps empty and
      some perhaps touching. */
  ghost predicate Sorted(points: seq<int>) {
    && |points| % 2 == 0
    && InRange(points)
    && (forall i, j :: 0 <= i < j < |points| ==> points[i] <= points[j])
  }

  /** What every routine returns: strictly increasing endpoints. */
  ghost predicate Canonical(points: seq<int>) {
    && |points| % 2 == 0
    && InRange(points)
    && (forall i, j :: 0 <= i < j < |points| ==> points[i] < points[j])
  }

  predicate InInterval(points: seq<int>, k: int, c: int) {
    0 <= k < |points| / 2 && points[2 * k] <= c < points[2 * k + 1]
  }

  /** `c` lies in one of the intervals of `points`. */
  ghost predicate Member(points: seq<int>, c: int) {
    exists k :: InInterval(points, k, c)
  }

  /** An odd number of endpoints lie at or below `c`. */
  predicate Inside(points: seq<int>, c: int) {
    points != [] && Inside(points[..|points| - 1], c) != (points[|points| - 1] <= c)
  }

  lemma {:induction false} InsideAppend(p: seq<int>, q: seq<int>, c: int)
    ensures Inside(p + q, c) == (Inside(p, c) != Inside(q, c))
  {
    if q == [] {
      assert p + q == p;
    } else {
      InsideAppend(p, q[..|q| - 1], c);
      assert (p + q)[..|p + q| - 1] == p + q[..|q| - 1];
    }
  }

  /** Points all above `c`, or all at or below it. */
  lemma {:induction false} InsideAbove(p: seq<int>, c: int)
    requires forall k :: 0 <= k < |p| ==> c < p[k]
    ensures !Inside(p, c)
  {
    if p != [] { InsideAbove(p[..|p| - 1], c); }
  }

  lemma {:induction false} InsideBelow(p: seq<int>, c: int)
    requires forall k :: 0 <= k < |p| ==> p[k] <= c
    ensures Inside(p, c) == (|p| % 2 == 1)
  {
    if p != [] { InsideBelow(p[..|p| - 1], c); }
  }

  lemma InsidePair(x: int, y: int, c: int)
    ensures Inside([x, y], c) == ((x <= c) != (y <= c))
  {
    assert [x, y][..1] == [x];
    assert Inside([x], c) == (x <= c) by { assert [x][..0] == []; }
  }

  lemma MemberSnoc(front: seq<int>, x: int, y: int, c: int)
    requires |front| % 2 == 0
    ensures Member(front + [x, y], c) <==> Member(front, c) || x <= c < y
  {
    var all := front + [x, y];
    var n := |front| / 2;
    if Member(front, c) {
      var k :| InInterval(front, k, c);
      assert InInterval(all, k, c);
    }
    if x <= c < y {
      assert InInterval(all, n, c);
    }
    if Member(all, c) {
      var k :| InInterval(all, k, c);
      assert k < n ==> InInterval(front, k, c);
    }
  }

  /** Counting endpoints and looking for an interval come to the same thing. */
  lemma {:induction false} InsideIsMember(points: seq<int>, c: int)
    requires Sorted(points)
    ensures Inside(points, c) <==> Member(points, c)
  {
    if points == [] {
      assert !Member(points, c) by { assert forall k :: !InInterval(points, k, c); }
    } else {
      var n := |points| - 2;
      var front, x, y := points[..n], points[n], points[n + 1];
      assert points == front + [x, y];
      InsideIsMember(front, c);
      InsideAppend(front, [x, y], c);
      InsidePair(x, y, c);
      MemberSnoc(front, x, y, c);
      if Member(front, c) {
        var k :| InInterval(front, k, c);
        assert points[2 * k + 1] <= x;
      }
    }
  }

  ghost predicate SameSet(p: seq<int>, q: seq<int>) {
    forall c :: Member(p, c) <==> Member(q, c)
  }

  /** The first endpoint of a canonical array is the least member of its set, and the second is
      the least number above it that is not a member. */
  lemma FirstInterval(p: seq<int>)
    requires Canonical(p) && p != []
    ensures forall c :: Member(p, c) ==> p[0] <= c
    ensures forall c :: p[0] <= c < p[1] ==> Member(p, c)
    ensures !Member(p, p[1])
  {
    forall c | Member(p, c) ensures p[0] <= c {
      var k :| InInterval(p, k, c);
      assert p[0] <= p[2 * k];
    }
    forall c | p[0] <= c < p[1] ensures Member(p, c) {
      assert InInterval(p, 0, c);
    }
  }

  lemma EmptySet(p: seq<int>)
    requires Canonical(p)
    ensures p == [] <==> forall c :: !Member(p, c)
  {
    if p != [] {
      FirstInterval(p);
      assert Member(p, p[0]);
    }
  }

  /** Without its first interval an array denotes its set from the end of that interval on. */
  lemma DropFirst(p: seq<int>, c: int)
    requires Canonical(p) && p != []
    ensures Member(p[2..], c) <==> Member(p, c) && p[1] <= c
  {
    var q := p[2..];
    if Member(q, c) {
      var k :| InInterval(q, k, c);
      assert q[2 * k] == p[2 * (k + 1)];
      assert InInterval(p, k + 1, c);
    }
    if Member(p, c) && p[1] <= c {
      var k :| InInterval(p, k, c);
      var j := k - 1;
      assert q[2 * j] == p[2 * k];
      assert InInterval(q, j, c);
    }
  }

  /** A set has one canonical array. */
  lemma {:induction false} CanonicalUnique(p: seq<int>, q: seq<int>)
    requires Canonical(p) && Canonical(q) && SameSet(p, q)
    ensures p == q
  {
    if p != [] && q != [] {
      FirstInterval(p);
      FirstInterval(q);
      assert Member(p, p[0]) && Member(q, q[0]);
      assert p[1] == q[1] by {
        assert Member(p, q[1]) <==> Member(q, q[1]);
        assert Member(p, p[1]) <==> Member(q, p[1]);
      }
      var p1, q1 := p[2..], q[2..];
      forall c ensures Member(p1, c) <==> Member(q1, c) {
        DropFirst(p, c);
        DropFirst(q, c);
      }
      CanonicalUnique(p1, q1);
      assert p == [p[0], p[1]] + p1 && q == [q[0], q[1]] + q1;
    } else {
      EmptySet(p);
      EmptySet(q);
    }
  }

  /** `q` is the complement of `p` within [0, UINT32_MAX). */
  ghost predicate Complement(p: seq<int>, q: seq<int>) {
    forall c :: Member(q, c) <==> 0 <= c < UINT32_MAX && !Member(p, c)
  }

  /** Complementing twice gives back the array, endpoint for endpoint. */
  lemma ComplementInvolution(p: seq<int>, q: seq<int>, r: seq<int>)
    requires Canonical(p) && Canonical(r) && Complement(p, q) && Complement(q, r)
    ensures p == r
  {
    forall c ensures Member(p, c) <==> Member(r, c) {
      if Member(p, c) {
        var k :| InInterval(p, k, c);
        assert 0 <= p[2 * k] && p[2 * k + 1] <= UINT32_MAX;
      }
    }
    CanonicalUnique(p, r);
  }
}
