/** sort_cc (libunicode.c): the Canonical Ordering Algorithm, section 3.11 of the Unicode
    Standard, for any assignment of combining classes. */
module SortCc {

  /** No two neighbours are in the wrong order: none has a class above the positive class of the
      next. */
  ghost predicate Ordered(s: seq<int>, cc: int -> nat) {
    forall i :: 0 < i < |s| ==> cc(s[i]) == 0 || cc(s[i - 1]) <= cc(s[i])
  }

  /** The starters and the characters of class `k`, in order. */
  function Strand(s: seq<int>, cc: int -> nat, k: nat): (r: seq<int>)
    ensures forall i :: 0 <= i < |r| ==> cc(r[i]) == 0 || cc(r[i]) == k
  {
    if s == [] then []
    else
      var x := s[|s| - 1];
      Strand(s[..|s| - 1], cc, k) + if cc(x) == 0 || cc(x) == k then [x] else []
  }

  lemma StrandSnoc(s: seq<int>, x: int, cc: int -> nat, k: nat)
    ensures Strand(s + [x], cc, k) == Strand(s, cc, k) + if cc(x) == 0 || cc(x) == k then [x] else []
  {
    assert (s + [x])[..|s|] == s;
  }

  lemma {:induction false} StrandAppend(s: seq<int>, t: seq<int>, cc: int -> nat, k: nat)
    ensures Strand(s + t, cc, k) == Strand(s, cc, k) + Strand(t, cc, k)
  {
    if t == [] {
      assert s + t == s;
    } else {
      var front, x := t[..|t| - 1], t[|t| - 1];
      assert s + t == s + front + [x] && t == front + [x];
      StrandSnoc(s + front, x, cc, k);
      StrandAppend(s, front, cc, k);
    }
  }

  /** The same characters, every starter in its place, and characters of one class between the
      same starters in the same order. */
  ghost predicate Equivalent(s: seq<int>, t: seq<int>, cc: int -> nat) {
    && |s| == |t|
    && multiset(s) == multiset(t)
    && (forall i :: 0 <= i < |s| ==> (cc(s[i]) == 0 || cc(t[i]) == 0 ==> s[i] == t[i]))
    && (forall k: nat :: Strand(s, cc, k) == Strand(t, cc, k))
  }

  /** Neighbours of different positive classes are never in one strand. */
  lemma ExchangeStrand(front: seq<int>, x: int, y: int, back: seq<int>, cc: int -> nat, k: nat)
    requires cc(x) != cc(y) && cc(x) > 0 && cc(y) > 0
    ensures Strand(front + [x, y] + back, cc, k) == Strand(front + [y, x] + back, cc, k)
  {
    StrandAppend(front + [x, y], back, cc, k);
    StrandAppend(front + [y, x], back, cc, k);
    assert front + [x, y] == front + [x] + [y] && front + [y, x] == front + [y] + [x];
    StrandSnoc(front + [x], y, cc, k);
    StrandSnoc(front, x, cc, k);
    StrandSnoc(front + [y], x, cc, k);
    StrandSnoc(front, y, cc, k);
  }

  lemma ExchangeStrands(s: seq<int>, i: nat, cc: int -> nat, t: seq<int>)
    requires i + 1 < |s| && cc(s[i]) != cc(s[i + 1]) && cc(s[i]) > 0 && cc(s[i + 1]) > 0
    requires t == s[i := s[i + 1]][i + 1 := s[i]]
    ensures forall k: nat :: Strand(s, cc, k) == Strand(t, cc, k)
  {
    hide Strand;
    var x, y := s[i], s[i + 1];
    var front, back := s[..i], s[i + 2..];
    assert s == front + [x, y] + back;
    assert t == front + [y, x] + back;
    forall k: nat ensures Strand(s, cc, k) == Strand(t, cc, k) {
      ExchangeStrand(front, x, y, back, cc, k);
    }
  }

  /** The exchange of neighbours of different positive classes is an equivalence. */
  lemma ExchangeEquivalent(s: seq<int>, i: nat, cc: int -> nat, t: seq<int>)
    requires i + 1 < |s| && cc(s[i]) != cc(s[i + 1]) && cc(s[i]) > 0 && cc(s[i + 1]) > 0
    requires t == s[i := s[i + 1]][i + 1 := s[i]]
    ensures Equivalent(s, t, cc)
  {
    hide Strand;
    ExchangeStrands(s, i, cc, t);
  }

  lemma EquivalentTrans(s: seq<int>, t: seq<int>, u: seq<int>, cc: int -> nat)
    requires Equivalent(s, t, cc) && Equivalent(t, u, cc)
    ensures Equivalent(s, u, cc)
  {
    hide Strand;
  }

  /** The last element of a strand, found in the sequence: only characters of other positive
      classes come after it. */
  lemma {:induction false} LastOfStrand(s: seq<int>, cc: int -> nat, k: nat) returns (i: nat)
    requires Strand(s, cc, k) != []
    ensures i < |s| && s[i] == Strand(s, cc, k)[|Strand(s, cc, k)| - 1]
    ensures forall j :: i < j < |s| ==> cc(s[j]) > 0
  {
    var n := |s| - 1;
    if cc(s[n]) == 0 || cc(s[n]) == k {
      i := n;
    } else {
      i := LastOfStrand(s[..n], cc, k);
    }
  }

  /** After the last starter the classes of an ordered sequence do not decrease. */
  lemma {:induction false} OrderedTail(s: seq<int>, cc: int -> nat, i: nat, j: nat)
    requires Ordered(s, cc) && i <= j < |s| && forall m :: i < m < |s| ==> cc(s[m]) > 0
    ensures cc(s[i]) <= cc(s[j])
  {
    if i < j { OrderedTail(s, cc, i, j - 1); }
  }

  /** The last characters of two ordered sequences with the same strands are the same. */
  lemma SameLast(s: seq<int>, t: seq<int>, cc: int -> nat)
    requires Ordered(s, cc) && Ordered(t, cc) && s != [] && t != []
    requires forall k: nat :: Strand(s, cc, k) == Strand(t, cc, k)
    ensures s[|s| - 1] == t[|t| - 1]
  {
    hide Strand, Ordered;
    var x, y := s[|s| - 1], t[|t| - 1];
    StrandLast(s, cc);
    StrandLast(t, cc);
    assert Strand(s, cc, cc(x)) == Strand(t, cc, cc(x)) && Strand(s, cc, cc(y)) == Strand(t, cc, cc(y));
    var i := LastOfStrand(s, cc, cc(y));
    var j := LastOfStrand(t, cc, cc(x));
    assert s[i] == y && t[j] == x;
    if cc(x) == 0 {
      assert i == |s| - 1;
    } else if cc(y) == 0 {
      assert j == |t| - 1;
    } else if cc(x) != cc(y) {
      OrderedTail(s, cc, i, |s| - 1);
      OrderedTail(t, cc, j, |t| - 1);
    }
  }

  lemma StrandLast(s: seq<int>, cc: int -> nat)
    requires s != []
    ensures var x := s[|s| - 1]; var r := Strand(s, cc, cc(x)); r != [] && r[|r| - 1] == x
  {
  }

  lemma Cancel(a: seq<int>, b: seq<int>, w: seq<int>)
    requires a + w == b + w
    ensures a == b
  {
    assert a == (a + w)[..|a + w| - |w|];
    assert b == (b + w)[..|b + w| - |w|];
  }

  /** Ordered sequences with the same strands are equal: the algorithm has one result. */
  lemma {:induction false} OrderedUnique(s: seq<int>, t: seq<int>, cc: int -> nat)
    requires Ordered(s, cc) && Ordered(t, cc)
    requires forall k: nat :: Strand(s, cc, k) == Strand(t, cc, k)
    ensures s == t
  {
    if s == [] || t == [] {
      if s != [] { StrandLast(s, cc); }
      if t != [] { StrandLast(t, cc); }
    } else {
      SameLast(s, t, cc);
      var s1, t1, x := s[..|s| - 1], t[..|t| - 1], s[|s| - 1];
      assert s == s1 + [x] && t == t1 + [x];
      forall k: nat ensures Strand(s1, cc, k) == Strand(t1, cc, k) {
        StrandSnoc(s1, x, cc, k);
        StrandSnoc(t1, x, cc, k);
        assert Strand(s, cc, k) == Strand(t, cc, k);
        Cancel(Strand(s1, cc, k), Strand(t1, cc, k), if cc(x) == 0 || cc(x) == k then [x] else []);
      }
      OrderedUnique(s1, t1, cc);
    }
  }

  /** An ordered sequence equivalent to an ordered one is that one: a second pass changes
      nothing. */
  lemma OrderedFixed(s: seq<int>, t: seq<int>, cc: int -> nat)
    requires Ordered(s, cc) && Ordered(t, cc) && Equivalent(s, t, cc)
    ensures s == t
  {
    hide Ordered;
    OrderedUnique(s, t, cc);
  }

  /** From `start` to `j` the classes are positive and do not decrease, but for the character at
      `hole`, whose class is below those after it. */
  ghost predicate Run(s: seq<int>, cc: int -> nat, start: int, j: int, hole: int) {
    && 0 <= start <= j <= |s|
    && (forall m :: start <= m < j ==> cc(s[m]) > 0)
    && (forall m, n :: start <= m < n < j && m != hole && n != hole ==> cc(s[m]) <= cc(s[n]))
    && (forall n :: start <= hole < n < j ==> cc(s[hole]) <= cc(s[n]))
  }

  lemma RunStep(s: seq<int>, cc: int -> nat, start: int, j: int, h: int, t: seq<int>)
    requires Run(s, cc, start, j, h) && start < h < j && cc(s[h - 1]) > cc(s[h])
    requires t == s[h - 1 := s[h]][h := s[h - 1]]
    ensures Run(t, cc, start, j, h - 1)
  {
  }

  lemma RunEnd(s: seq<int>, cc: int -> nat, start: int, j: int, h: int)
    requires Run(s, cc, start, j, h) && start <= h < j && (start < h ==> cc(s[h - 1]) <= cc(s[h]))
    ensures Run(s, cc, start, j, -1)
  {
    forall m | start <= m < h ensures cc(s[m]) <= cc(s[h]) {
      if m < h - 1 { assert cc(s[m]) <= cc(s[h - 1]); }
    }
  }

  lemma RunStart(s: seq<int>, cc: int -> nat, start: int, j: int)
    requires Run(s, cc, start, j, -1) && j < |s| && cc(s[j]) > 0
    ensures Run(s, cc, start, j + 1, j)
  {
  }

  lemma RunOne(s: seq<int>, cc: int -> nat, start: int)
    requires 0 <= start < |s| && cc(s[start]) > 0
    ensures Run(s, cc, start, start + 1, -1)
  {
  }

  lemma RunAt(s: seq<int>, cc: int -> nat, start: int, j: int, h: int, m: int)
    requires Run(s, cc, start, j, h) && start <= m < j
    ensures j <= |s| && cc(s[m]) > 0
  {
  }

  /** The innermost loop of sort_cc: the character at `j` goes to its place in the run that starts
      at `start` and is in order up to `j`. */
  method InsertInRun(buf: array<int>, cc: int -> nat, start: nat, j: nat)
    requires start < j < buf.Length && cc(buf[j]) > 0 && Run(buf[..], cc, start, j, -1)
    modifies buf
    ensures Run(buf[..], cc, start, j + 1, -1)
    ensures forall m :: 0 <= m < start || j < m < buf.Length ==> buf[m] == old(buf[m])
    ensures Equivalent(old(buf[..]), buf[..], cc)
  {
    hide Equivalent, Run;
    ghost var s := buf[..];
    EquivalentSelf(s, cc);
    RunStart(s, cc, start, j);
    var ch1, cc1 := buf[j], cc(buf[j]);
    var k: int := j - 1;
    while k >= start && cc(buf[k]) > cc1
      invariant start - 1 <= k < j && |s| == buf.Length && s[k + 1] == ch1
      invariant forall m :: 0 <= m < buf.Length && m != k + 1 ==> buf[m] == s[m]
      invariant forall m :: 0 <= m < start || j < m < buf.Length ==> buf[m] == old(buf[m])
      invariant Run(s, cc, start, j + 1, k + 1)
      invariant Equivalent(old(buf[..]), s, cc)
    {
      ghost var t := s[k := s[k + 1]][k + 1 := s[k]];
      RunAt(s, cc, start, j + 1, k + 1, k);
      RunAt(s, cc, start, j + 1, k + 1, k + 1);
      ExchangeEquivalent(s, k, cc, t);
      EquivalentTrans(old(buf[..]), s, t, cc);
      RunStep(s, cc, start, j + 1, k + 1, t);
      buf[k + 1] := buf[k];
      s := t;
      k := k - 1;
    }
    RunEnd(s, cc, start, j + 1, k + 1);
    buf[k + 1] := ch1;
    assert buf[..] == s;
  }

  lemma EquivalentSelf(s: seq<int>, cc: int -> nat)
    ensures Equivalent(s, s, cc)
  {
  }

  /** Ordered up to `i`, with nothing pending there. */
  ghost predicate OrderedTo(s: seq<int>, cc: int -> nat, i: int) {
    && 0 <= i
    && (forall m :: 0 < m < i && m < |s| ==> cc(s[m]) == 0 || cc(s[m - 1]) <= cc(s[m]))
    && (0 < i < |s| ==> cc(s[i - 1]) == 0)
  }

  /** What comes before a run is not touched by work on the run. */
  lemma OrderedToKept(s: seq<int>, t: seq<int>, cc: int -> nat, i: int)
    requires OrderedTo(s, cc, i) && |t| == |s| && forall m :: 0 <= m < i && m < |s| ==> t[m] == s[m]
    ensures OrderedTo(t, cc, i)
  {
  }

  lemma OrderedToRun(s: seq<int>, cc: int -> nat, start: int, j: int)
    requires OrderedTo(s, cc, start) && Run(s, cc, start, j, -1) && start < j && (j < |s| ==> cc(s[j]) == 0)
    ensures OrderedTo(s, cc, j + 1)
  {
    forall m | 0 < m < j + 1 && m < |s|
      ensures cc(s[m]) == 0 || cc(s[m - 1]) <= cc(s[m])
    {
      if start < m < j { assert cc(s[m - 1]) <= cc(s[m]); }
    }
  }

  lemma OrderedToEnd(s: seq<int>, cc: int -> nat, i: int)
    requires OrderedTo(s, cc, i) && |s| <= i
    ensures Ordered(s, cc)
  {
  }

  lemma OrderedToStarter(s: seq<int>, cc: int -> nat, i: int)
    requires OrderedTo(s, cc, i) && i < |s| && cc(s[i]) == 0
    ensures OrderedTo(s, cc, i + 1)
  {
  }

  lemma OrderedToStart(s: seq<int>, cc: int -> nat)
    ensures OrderedTo(s, cc, 0)
  {
  }

  /** The loop over one run. */
  method SortRun(buf: array<int>, cc: int -> nat, start: nat) returns (j: nat)
    requires start < buf.Length && cc(buf[start]) != 0
    modifies buf
    ensures start < j <= buf.Length && (j < buf.Length ==> cc(buf[j]) == 0)
    ensures Run(buf[..], cc, start, j, -1)
    ensures forall m :: 0 <= m < start ==> buf[m] == old(buf[m])
    ensures Equivalent(old(buf[..]), buf[..], cc)
  {
    hide Equivalent, Run;
    ghost var was := buf[..];
    EquivalentSelf(was, cc);
    RunOne(was, cc, start);
    j := start + 1;
    while j < buf.Length && cc(buf[j]) != 0
      invariant start < j <= buf.Length
      invariant Run(buf[..], cc, start, j, -1)
      invariant forall m :: 0 <= m < start ==> buf[m] == was[m]
      invariant Equivalent(was, buf[..], cc)
    {
      ghost var s := buf[..];
      InsertInRun(buf, cc, start, j);
      EquivalentTrans(was, s, buf[..], cc);
      j := j + 1;
    }
  }

  /** sort_cc: the buffer becomes the ordered sequence equivalent to what it held. */
  method SortCc(buf: array<int>, cc: int -> nat)
    modifies buf
    ensures Ordered(buf[..], cc)
    ensures Equivalent(old(buf[..]), buf[..], cc)
  {
    hide Equivalent, Run, OrderedTo, Ordered;
    ghost var was := buf[..];
    EquivalentSelf(was, cc);
    OrderedToStart(was, cc);
    var i := 0;
    while i < buf.Length
      invariant 0 <= i
      invariant OrderedTo(buf[..], cc, i)
      invariant Equivalent(was, buf[..], cc)
    {
      ghost var s := buf[..];
      if cc(buf[i]) != 0 {
        var j := SortRun(buf, cc, i);
        OrderedToKept(s, buf[..], cc, i);
        OrderedToRun(buf[..], cc, i, j);
        EquivalentTrans(was, s, buf[..], cc);
        i := j;
      } else {
        OrderedToStarter(s, cc, i);
      }
      i := i + 1;
    }
    OrderedToEnd(buf[..], cc, i);
  }
}
