/** The assertions by index: where in the units of a subject a word boundary, the start or the end
    of a line is, both ends of the subject included; and the characters that the dot leaves out. */
module Edges {
  import opened Points
  import opened Syntax
  import opened Text
  import opened Semantics

  /** The unit at `k` is a letter of A to Z in either case, a digit or an underscore. */
  predicate WordUnit(s: Subject, k: int) {
    0 <= k < |s.units| &&
    (48 <= s.units[k] <= 57 || 65 <= s.units[k] <= 90 || s.units[k] == 95 || 97 <= s.units[k] <= 122)
  }

  /** The unit at `k` is a line feed, a carriage return, or one of the two Unicode separators. */
  predicate BreakUnit(s: Subject, k: int) {
    0 <= k < |s.units| && s.units[k] in {0xA, 0xD, 0x2028, 0x2029}
  }

  /** char_range_w, the set of the class escape for words. */
  const CHAR_RANGE_W: seq<int> := [0x30, 0x3A, 0x41, 0x5B, 0x5F, 0x60, 0x61, 0x7B]

  /** The characters that make words for `\b` are those of the set behind `\w`. */
  lemma WordsAreTheClass(c: int)
    ensures IsWordChar(c) <==> Member(CHAR_RANGE_W, c)
  {
    var p := CHAR_RANGE_W;
    assert InInterval(p, 0, c) <==> 0x30 <= c < 0x3A;
    assert InInterval(p, 1, c) <==> 0x41 <= c < 0x5B;
    assert InInterval(p, 2, c) <==> 0x5F <= c < 0x60;
    assert InInterval(p, 3, c) <==> 0x61 <= c < 0x7B;
    assert forall k :: InInterval(p, k, c) ==> k == 0 || k == 1 || k == 2 || k == 3;
  }

  /** The character after a position, when it is not part of a pair, is the unit there. */
  lemma UnitAfter(e: Env, pos: nat)
    requires pos <= |e.subject.units|
    ensures match Next(e, false, pos)
            case None => pos == |e.subject.units|
            case Some((c, _)) => pos < |e.subject.units| && (c == e.subject.units[pos]
                                 || (c >= 0x10000 && 0xD800 <= e.subject.units[pos] <= 0xDBFF))
  {
  }

  lemma UnitBefore(e: Env, pos: nat)
    requires pos <= |e.subject.units|
    ensures match Next(e, true, pos)
            case None => pos == 0
            case Some((c, _)) => pos > 0 && (c == e.subject.units[pos - 1]
                                 || (c >= 0x10000 && 0xDC00 <= e.subject.units[pos - 1] <= 0xDFFF))
  {
  }

  /** `\b` and `\B` when case counts: between two units of which one belongs to a word and one does
      not, the ends of the subject belonging to none; everywhere else. */
  lemma WordBoundaries(e: Env, md: Mode, cc: nat, neg: bool, m: M)
    requires !md.flags.icase && m.pos <= |e.subject.units|
    ensures var here := WordUnit(e.subject, m.pos - 1) != WordUnit(e.subject, m.pos);
            SemTerm(e, md, cc, WordBoundary(neg), m) == if here != neg then [m] else []
  {
    hide Next;
    UnitAfter(e, m.pos);
    UnitBefore(e, m.pos);
  }

  /** With case ignored: the same of the folded units, for subjects without pairs. */
  lemma WordBoundariesFolded(e: Env, md: Mode, cc: nat, neg: bool, m: M)
    requires md.flags.icase && !e.subject.utf16 && m.pos <= |e.subject.units|
    ensures var before := m.pos > 0 && Member(CHAR_RANGE_W, e.canon(e.subject.units[m.pos - 1]));
            var after := m.pos < |e.subject.units| && Member(CHAR_RANGE_W, e.canon(e.subject.units[m.pos]));
            SemTerm(e, md, cc, WordBoundary(neg), m) == if (before != after) != neg then [m] else []
  {
    hide Member;
    if m.pos > 0 { WordsAreTheClass(e.canon(e.subject.units[m.pos - 1])); }
    if m.pos < |e.subject.units| { WordsAreTheClass(e.canon(e.subject.units[m.pos])); }
  }

  /** On a subject that is one word, `\b` holds at the two ends only and `\B` between them. */
  lemma OneWord(e: Env, md: Mode, cc: nat, m: M)
    requires !md.flags.icase && m.pos <= |e.subject.units| && e.subject.units != []
    requires forall k :: 0 <= k < |e.subject.units| ==> WordUnit(e.subject, k)
    ensures SemTerm(e, md, cc, WordBoundary(false), m) == if m.pos == 0 || m.pos == |e.subject.units| then [m] else []
    ensures SemTerm(e, md, cc, WordBoundary(true), m) == if 0 < m.pos < |e.subject.units| then [m] else []
  {
    hide SemTerm;
    WordBoundaries(e, md, cc, false, m);
    WordBoundaries(e, md, cc, true, m);
  }

  /** `^`: at the start of the subject and, in multi-line mode, behind a line break. */
  lemma LineStarts(e: Env, md: Mode, cc: nat, m: M)
    requires m.pos <= |e.subject.units|
    ensures SemTerm(e, md, cc, LineStart, m) ==
            if m.pos == 0 || (md.flags.multi && BreakUnit(e.subject, m.pos - 1)) then [m] else []
  {
    hide Next;
    UnitBefore(e, m.pos);
  }

  /** `$`: at the end of the subject and, in multi-line mode, in front of a line break. */
  lemma LineEnds(e: Env, md: Mode, cc: nat, m: M)
    requires m.pos <= |e.subject.units|
    ensures SemTerm(e, md, cc, LineEnd, m) ==
            if m.pos == |e.subject.units| || (md.flags.multi && BreakUnit(e.subject, m.pos)) then [m] else []
  {
    hide Next;
    UnitAfter(e, m.pos);
  }

  /** The dot, going forward: nothing at the end, nothing at a line break unless it stands for all
      characters, and otherwise one unit, or two that are a pair. */
  lemma Dots(e: Env, md: Mode, cc: nat, m: M)
    requires !md.back && m.pos <= |e.subject.units|
    ensures var outs := SemTerm(e, md, cc, Dot, m);
            var u := e.subject.units;
            var pair := e.subject.utf16 && m.pos + 1 < |u|
                        && 0xD800 <= u[m.pos] <= 0xDBFF && 0xDC00 <= u[m.pos + 1] <= 0xDFFF;
            outs == if m.pos == |u| || (!md.flags.dotall && BreakUnit(e.subject, m.pos)) then []
                    else [m.(pos := m.pos + if pair then 2 else 1)]
  {
  }
}
