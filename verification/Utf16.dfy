/** Reading against writing: a list of code points, written out in UTF-16 by division and
    remainder, is read back as it was, and the positions off the middle of a pair are those
    between its characters. */
module Utf16 {
  import opened Syntax
  import opened Text
  import opened Semantics

  /** The code units of one code point. */
  function Units(c: int): (r: seq<nat>)
    requires 0 <= c <= MAX_CODE_POINT
    ensures 1 <= |r| <= 2 && forall k :: 0 <= k < |r| ==> r[k] <= 0xffff
  {
    if c < 0x10000 then [c] else [(c - 0x10000) / 0x400 + 0xD800, (c - 0x10000) % 0x400 + 0xDC00]
  }

  predicate CodePoints(cs: seq<int>) {
    forall k :: 0 <= k < |cs| ==> 0 <= cs[k] <= MAX_CODE_POINT
  }

  function Encode(cs: seq<int>): (r: seq<nat>)
    requires CodePoints(cs)
    ensures |cs| <= |r|
  {
    if cs == [] then [] else Units(cs[0]) + Encode(cs[1..])
  }

  /** A lone first half directly in front of a lone second half: written out, they are a pair. */
  predicate Joins(cs: seq<int>) {
    exists k :: 0 <= k < |cs| - 1 && 0xD800 <= cs[k] <= 0xDBFF && 0xDC00 <= cs[k + 1] <= 0xDFFF
  }

  function Pairs(cs: seq<int>): Subject
    requires CodePoints(cs)
  {
    Subject(Encode(cs), true)
  }

  /** Reading from a position on does not look back. */
  lemma {:induction false} CharsFrom(s: Subject, front: seq<nat>, p: nat)
    requires p <= |s.units|
    ensures Chars(Subject(front + s.units, s.utf16), |front| + p, |front| + |s.units|) == Chars(s, p, |s.units|)
    decreases |s.units| - p
  {
    if p < |s.units| {
      var t := Subject(front + s.units, s.utf16);
      assert t.units[|front| + p] == s.units[p];
      assert p + 1 < |s.units| ==> t.units[|front| + p + 1] == s.units[p + 1];
      assert GetChar(t, |front| + p) == (GetChar(s, p).0, |front| + GetChar(s, p).1);
      CharsFrom(s, front, GetChar(s, p).1);
    }
  }

  /** The units of a character: itself, or a pair that stands for it. */
  lemma UnitsAre(c: int)
    requires 0 <= c <= MAX_CODE_POINT
    ensures var u := Units(c);
            && (|u| == 1 ==> u[0] == c)
            && (|u| == 2 ==> c >= 0x10000 && IsHi(u[0]) && IsLo(u[1]) && FromSurrogate(u[0], u[1]) == c)
            && (IsLo(u[0]) <==> 0xDC00 <= c <= 0xDFFF)
            && (|u| == 1 ==> (IsHi(u[0]) <==> 0xD800 <= c <= 0xDBFF))
  {
  }

  lemma FirstUnits(cs: seq<int>)
    requires CodePoints(cs) && cs != []
    ensures Encode(cs) == Units(cs[0]) + Encode(cs[1..])
    ensures |cs| > 1 ==> |Encode(cs)| > |Units(cs[0])| && Encode(cs)[|Units(cs[0])|] == Units(cs[1])[0]
  {
    hide Units;
    if |cs| > 1 {
      assert Encode(cs[1..]) == Units(cs[1]) + Encode(cs[1..][1..]);
    }
  }

  /** The first character read is the first written, unless it joins with the next. */
  lemma FirstChar(cs: seq<int>)
    requires CodePoints(cs) && cs != []
    ensures var joins := |cs| > 1 && 0xD800 <= cs[0] <= 0xDBFF && 0xDC00 <= cs[1] <= 0xDFFF;
            && Encode(cs) == Units(cs[0]) + Encode(cs[1..])
            && (!joins ==> GetChar(Pairs(cs), 0) == (cs[0], |Units(cs[0])|))
            && (joins ==> GetChar(Pairs(cs), 0).1 == 2 && GetChar(Pairs(cs), 0).0 >= 0x10000)
  {
    FirstUnits(cs);
    UnitsAre(cs[0]);
    if |cs| > 1 { UnitsAre(cs[1]); }
    hide Units, Encode;
    var u, all := Units(cs[0]), Encode(cs);
    assert forall k :: 0 <= k < |u| ==> all[k] == u[k];
    if |u| == 1 && |cs| == 1 { NoUnits(); }
  }

  lemma NoUnits()
    ensures Encode([]) == []
  {
  }

  lemma JoinsRest(cs: seq<int>)
    requires cs != []
    ensures Joins(cs) <==> (|cs| > 1 && 0xD800 <= cs[0] <= 0xDBFF && 0xDC00 <= cs[1] <= 0xDFFF) || Joins(cs[1..])
  {
    if Joins(cs) {
      var k :| 0 <= k < |cs| - 1 && 0xD800 <= cs[k] <= 0xDBFF && 0xDC00 <= cs[k + 1] <= 0xDFFF;
      assert k > 0 ==> cs[1..][k - 1] == cs[k] && cs[1..][k] == cs[k + 1];
    }
    if Joins(cs[1..]) {
      var k :| 0 <= k < |cs[1..]| - 1 && 0xD800 <= cs[1..][k] <= 0xDBFF && 0xDC00 <= cs[1..][k + 1] <= 0xDFFF;
      assert cs[1..][k] == cs[k + 1] && cs[1..][k + 1] == cs[k + 2];
    }
  }

  /** The number of characters is not more than the number written. */
  lemma {:induction false} FewerChars(cs: seq<int>)
    requires CodePoints(cs)
    ensures |Chars(Pairs(cs), 0, |Encode(cs)|)| <= |cs|
    decreases |cs|
  {
    if cs != [] {
      FirstChar(cs);
      var rest := cs[1..];
      if |cs| > 1 && 0xD800 <= cs[0] <= 0xDBFF && 0xDC00 <= cs[1] <= 0xDFFF {
        var rest2 := cs[2..];
        assert rest[1..] == rest2;
        assert Encode(cs) == [cs[0], cs[1]] + Encode(rest2);
        CharsFrom(Pairs(rest2), [cs[0], cs[1]], 0);
        FewerChars(rest2);
      } else {
        CharsFrom(Pairs(rest), Units(cs[0]), 0);
        FewerChars(rest);
      }
    }
  }

  /** The round trip: what is read is what was written, exactly when no two neighbours join. */
  lemma {:induction false} ReadsWritten(cs: seq<int>)
    requires CodePoints(cs)
    ensures Chars(Pairs(cs), 0, |Encode(cs)|) == cs <==> !Joins(cs)
    decreases |cs|
  {
    if cs != [] {
      FirstChar(cs);
      JoinsRest(cs);
      var rest := cs[1..];
      var read := Chars(Pairs(cs), 0, |Encode(cs)|);
      if |cs| > 1 && 0xD800 <= cs[0] <= 0xDBFF && 0xDC00 <= cs[1] <= 0xDFFF {
        assert read[0] != cs[0];
      } else {
        CharsFrom(Pairs(rest), Units(cs[0]), 0);
        ReadsWritten(rest);
        assert read == [cs[0]] + Chars(Pairs(rest), 0, |Encode(rest)|);
        assert cs == [cs[0]] + rest;
        assert read[1..] == Chars(Pairs(rest), 0, |Encode(rest)|);
      }
    }
  }

  /** Without pairs every unit is a character. */
  lemma {:induction false} ReadsUnits(units: seq<nat>, p: nat)
    requires p <= |units|
    ensures Chars(Subject(units, false), p, |units|) == units[p..]
    decreases |units| - p
  {
    if p < |units| {
      ReadsUnits(units, p + 1);
    }
  }

  lemma Regroup(x: seq<nat>, y: seq<nat>, z: seq<nat>)
    ensures x + (y + z) == x + y + z
  {
  }

  lemma {:induction false} EncodeAppend(x: seq<int>, y: seq<int>)
    requires CodePoints(x) && CodePoints(y)
    ensures CodePoints(x + y) && Encode(x + y) == Encode(x) + Encode(y)
    decreases |x|
  {
    if x == [] {
      assert x + y == y;
    } else {
      hide Units;
      EncodeAppend(x[1..], y);
      assert (x + y)[1..] == x[1..] + y && (x + y)[0] == x[0];
      Regroup(Units(x[0]), Encode(x[1..]), Encode(y));
    }
  }

  /** The positions between characters are aligned, and those inside one are not. */
  lemma {:induction false} AlignedBetween(cs: seq<int>, p: nat)
    requires CodePoints(cs) && !Joins(cs)
    ensures Aligned(Pairs(cs), p) <==> exists i :: 0 <= i <= |cs| && p == |Encode(cs[..i])|
    decreases |cs|
  {
    hide Units, Joins, Aligned;
    if p == 0 {
      assert cs[..0] == [];
      StartAligned(cs);
    } else if cs == [] {
      NoneAligned(p);
      assert forall i :: 0 <= i <= |cs| ==> cs[..i] == [];
    } else {
      FirstChar(cs);
      JoinsRest(cs);
      var n, rest := |Units(cs[0])|, cs[1..];
      forall i | 1 <= i <= |cs| ensures Encode(cs[..i]) == Units(cs[0]) + Encode(rest[..i - 1]) {
        assert cs[..i][1..] == rest[..i - 1];
      }
      if p < n {
        InsidePair(cs, p);
        assert forall i :: 1 <= i <= |cs| ==> |Encode(cs[..i])| >= n;
      } else {
        AlignedBetween(rest, p - n);
        ShiftAligned(cs, p);
        if Aligned(Pairs(rest), p - n) {
          var i :| 0 <= i <= |rest| && p - n == |Encode(rest[..i])|;
          assert p == |Encode(cs[..i + 1])|;
        }
        if i :| 0 <= i <= |cs| && p == |Encode(cs[..i])| {
          assert i > 0 && p - n == |Encode(rest[..i - 1])|;
        }
      }
    }
  }

  lemma StartAligned(cs: seq<int>)
    requires CodePoints(cs)
    ensures Aligned(Pairs(cs), 0)
  {
  }

  lemma NoneAligned(p: nat)
    requires p > 0
    ensures !Aligned(Pairs([]), p)
  {
  }

  lemma InsidePair(cs: seq<int>, p: nat)
    requires CodePoints(cs) && cs != [] && 0 < p < |Units(cs[0])|
    ensures !Aligned(Pairs(cs), p)
  {
    FirstUnits(cs);
    UnitsAre(cs[0]);
    assert Encode(cs)[0] == Units(cs[0])[0] && Encode(cs)[1] == Units(cs[0])[1];
  }

  lemma ShiftAligned(cs: seq<int>, p: nat)
    requires CodePoints(cs) && cs != [] && !Joins(cs) && p >= |Units(cs[0])|
    ensures Aligned(Pairs(cs), p) <==> Aligned(Pairs(cs[1..]), p - |Units(cs[0])|)
  {
    FirstChar(cs);
    var n, rest := |Units(cs[0])|, cs[1..];
    if rest != [] { FirstChar(rest); }
    assert forall k :: 0 <= k < |Encode(rest)| ==> Encode(cs)[n + k] == Encode(rest)[k];
  }

  /** Every text that can be written is a subject that the engine accepts. */
  lemma {:induction false} WrittenValid(cs: seq<int>, canon: int -> int, ncap: nat)
    requires CodePoints(cs) && Folds(canon)
    ensures ValidEnv(Env(Pairs(cs), canon, ncap))
  {
    if cs != [] { WrittenValid(cs[1..], canon, ncap); }
  }
}
