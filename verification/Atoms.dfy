/** The single-instruction constructs: character classes, back references, and the wrapping of
    character tests in lookbehind. */
module Atoms {
  import opened Bytes
  import opened Opcodes
  import opened Text
  import opened Points
  import opened Syntax
  import opened Emission
  import opened Semantics
  import opened Machine

  /** The closed bounds written for a class, in either width and with 0xffff for infinity,
      contain exactly the code points of the class. */
  lemma ClassAgrees(points: seq<int>, c: int)
    requires Canonical(points) && |points| >= 2 && 0 <= c <= MAX_CODE_POINT
    ensures var wide := HighBound(points) > 0xffff;
            InBounds(wide, ClosedBounds(wide, points), c) <==> Member(points, c)
  {
    var wide := HighBound(points) > 0xffff;
    var bounds := ClosedBounds(wide, points);
    var n := |points| / 2;
    assert |bounds| == |points| == 2 * n;
    forall k | 0 <= k < n
      ensures bounds[2 * k] == points[2 * k]
      ensures bounds[2 * k + 1] == if !wide && points[2 * k + 1] == TWO32 - 1 then 0xffff else points[2 * k + 1] - 1
      ensures k < n - 1 ==> points[2 * k + 1] < points[2 * (n - 1)]
    {
    }
    if !wide {
      Narrow(points, bounds, c);
    } else {
      Wide(points, bounds, c);
    }
  }

  lemma Narrow(points: seq<int>, bounds: seq<int>, c: int)
    requires Canonical(points) && |points| >= 2 && 0 <= c <= MAX_CODE_POINT
    requires HighBound(points) <= 0xffff && |bounds| == |points|
    requires forall k :: 0 <= k < |points| / 2 ==>
      && bounds[2 * k] == points[2 * k]
      && bounds[2 * k + 1] == (if points[2 * k + 1] == TWO32 - 1 then 0xffff else points[2 * k + 1] - 1)
    ensures InBounds(false, bounds, c) <==> Member(points, c)
  {
    var last := |points| / 2 - 1;
    assert |points| - 1 == 2 * last + 1;
    forall k | 0 <= k < last
      ensures points[2 * k + 1] < points[2 * last] < points[2 * last + 1]
    {
    }
    assert points[2 * last] < points[2 * last + 1];
    if InBounds(false, bounds, c) {
      if c >= 0xffff && bounds[|bounds| - 1] == 0xffff {
        assert InInterval(points, last, c);
      } else {
        var k :| 0 <= k < |bounds| / 2 && bounds[2 * k] <= c <= bounds[2 * k + 1];
        assert InInterval(points, k, c);
      }
    }
    if Member(points, c) {
      var k :| InInterval(points, k, c);
      assert bounds[2 * k] <= c;
      if points[2 * k + 1] == TWO32 - 1 {
        assert k == last;
      } else {
        assert bounds[2 * k] <= c <= bounds[2 * k + 1];
      }
    }
  }

  lemma Wide(points: seq<int>, bounds: seq<int>, c: int)
    requires Canonical(points) && |bounds| == |points|
    requires forall k :: 0 <= k < |points| / 2 ==>
      bounds[2 * k] == points[2 * k] && bounds[2 * k + 1] == points[2 * k + 1] - 1
    ensures InBounds(true, bounds, c) <==> Member(points, c)
  {
    if InBounds(true, bounds, c) {
      var k :| 0 <= k < |bounds| / 2 && bounds[2 * k] <= c <= bounds[2 * k + 1];
      assert InInterval(points, k, c);
    }
    if Member(points, c) {
      var k :| InInterval(points, k, c);
      assert bounds[2 * k] <= c <= bounds[2 * k + 1];
    }
  }

  /** The instruction emitted for a character test. */
  function CharTest(canon: int -> int, f: Flags, t: Term): Instr
    requires t.Char? || t.Dot? || t.Class?
  {
    match t
    case Char(c) => CharInstr(f.icase, if f.icase then canon(c) else c)
    case Dot => if f.dotall then Instr.Any else Instr.Dot
    case Class(points) => ClassInstr(f.icase, points)
  }

  lemma CharTestAgrees(e: Env, f: Flags, t: Term, c: int)
    requires ValidEnv(e) && Valid(t) && (t.Char? || t.Dot? || t.Class?) && 0 <= c <= MAX_CODE_POINT
    ensures ReadsChar(CharTest(e.canon, f, t))
    ensures Test(e, CharTest(e.canon, f, t), c) <==> Accepts(e, f, t, c)
  {
    hide InBounds, ClosedBounds, HighBound;
    if t.Class? && |t.points| >= 2 {
      ClassAgrees(t.points, Fold(e, f.icase, c));
    }
  }

  lemma NextInRange(e: Env, back: bool, pos: nat)
    requires ValidEnv(e) && Next(e, back, pos).Some?
    ensures 0 <= Next(e, back, pos).value.0 <= MAX_CODE_POINT
  {
  }

  lemma {:induction false} RefForwardIs(e: Env, icase: bool, p: nat, end: nat, pos: nat)
    requires Aligned(e.subject, p) && Aligned(e.subject, end)
    ensures RefForward(e, icase, p, end, pos) == MatchText(e, false, icase, Chars(e.subject, p, end), pos)
    decreases |e.subject.units| - p
  {
    if p < end {
      PrevUndoesGet(e.subject, p);
      assert GetCharBefore(e.subject, p, end) == GetChar(e.subject, p);
      if pos < |e.subject.units| {
        RefForwardIs(e, icase, GetChar(e.subject, p).1, end, GetChar(e.subject, pos).1);
      }
    }
  }

  lemma {:induction false} CharsLast(s: Subject, start: nat, p: nat)
    requires Aligned(s, start) && Aligned(s, p) && start < p
    ensures var (c, q) := GetPrevChar(s, p);
            Aligned(s, q) && start <= q && Chars(s, start, p) == Chars(s, start, q) + [c]
    decreases p - start
  {
    PrevUndoesGet(s, start);
    GetUndoesPrev(s, p);
    var (c0, s1) := GetChar(s, start);
    if s1 < p {
      CharsLast(s, s1, p);
    }
  }

  lemma PrevFromAligned(s: Subject, p: nat, start: nat)
    requires Aligned(s, start) && start < p <= |s.units|
    ensures GetPrevCharFrom(s, p, start) == GetPrevChar(s, p)
  {
  }

  lemma {:induction false} RefBackwardIs(e: Env, icase: bool, start: nat, p: nat, pos: nat)
    requires Aligned(e.subject, start) && Aligned(e.subject, p) && pos <= |e.subject.units|
    ensures RefBackward(e, icase, start, p, pos) == MatchText(e, true, icase, Chars(e.subject, start, p), pos)
    decreases p
  {
    hide FromSurrogate, PairAt, GetPrevChar, GetPrevCharFrom, GetChar;
    if start < p {
      CharsLast(e.subject, start, p);
      PrevFromAligned(e.subject, p, start);
      var (c, q) := GetPrevChar(e.subject, p);
      var text := Chars(e.subject, start, p);
      assert text[..|text| - 1] == Chars(e.subject, start, q) && text[|text| - 1] == c;
      if 0 < pos {
        RefBackwardIs(e, icase, start, q, GetPrevChar(e.subject, pos).1);
      }
    }
  }
}
