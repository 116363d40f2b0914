/** Reference semantics of patterns: the outcomes of matching, in order of priority, as the
    backtracking matchers of ECMA-262 section 22.2.2 try them. It departs from the standard
    where the implementation does: a quantifier whose minimum is zero clears the captures of
    its atom once, before the first iteration, and otherwise does not clear them. Standard has
    the rule of the standard; Conformance and Iterations say when the two agree. */
module Semantics {
  import opened Options
  import opened Bytes
  import opened Opcodes
  import opened Text
  import opened Points
  import opened Syntax

  /** What is fixed during one match: the subject, the case folding, the capture count. */
  datatype Env = Env(subject: Subject, canon: int -> int, ncap: nat)

  /** A match state: the position, and the start and end of every capture group. */
  datatype M = M(pos: nat, caps: seq<Option<nat>>)

  /** Folding maps code points to code points. */
  ghost predicate Folds(canon: int -> int) {
    forall c :: 0 <= c <= MAX_CODE_POINT ==> 0 <= canon(c) <= MAX_CODE_POINT
  }

  /** The subject holds 16-bit units and folding stays within the code points. */
  ghost predicate ValidEnv(e: Env) {
    && (forall k :: 0 <= k < |e.subject.units| ==> e.subject.units[k] <= 0xffff)
    && Folds(e.canon)
  }

  /** No position, captured ones included, is outside the subject or inside a pair. */
  ghost predicate Sound(e: Env, m: M) {
    && Aligned(e.subject, m.pos)
    && |m.caps| == 2 * e.ncap
    && forall k :: 0 <= k < |m.caps| && m.caps[k].Some? ==> Aligned(e.subject, m.caps[k].value)
  }

  /** The distance that is left in the direction of matching. */
  function Left(e: Env, back: bool, pos: nat): (r: nat)
    ensures r <= |e.subject.units|
  {
    var n := |e.subject.units|;
    if pos > n then 0 else if back then pos else n - pos
  }

  /** One character in the direction of matching, and the position beyond it. */
  function Next(e: Env, back: bool, pos: nat): Option<(int, nat)> {
    if back then
      if 0 < pos <= |e.subject.units| then Some(GetPrevChar(e.subject, pos)) else None
    else
      if pos < |e.subject.units| then Some(GetChar(e.subject, pos)) else None
  }

  function Fold(e: Env, icase: bool, c: int): int {
    if icase then e.canon(c) else c
  }

  /** The character tests. */
  ghost predicate Accepts(e: Env, f: Flags, t: Term, c: int) {
    match t
    case Char(x) => Fold(e, f.icase, c) == Fold(e, f.icase, x)
    case Dot => f.dotall || !IsLineTerminator(c)
    case Class(points) => Member(points, Fold(e, f.icase, c))
    case _ => false
  }

  predicate WordAt(e: Env, icase: bool, back: bool, pos: nat) {
    match Next(e, back, pos)
    case None => false
    case Some((c, _)) => IsWordChar(Fold(e, icase, c))
  }

  predicate LineEdge(e: Env, back: bool, multi: bool, pos: nat) {
    match Next(e, back, pos)
    case None => true
    case Some((c, _)) => multi && IsLineTerminator(c)
  }

  /** The characters between two positions. */
  function Chars(s: Subject, p: nat, q: nat): seq<int>
    requires q <= |s.units|
    decreases |s.units| - p
  {
    if p >= q then [] else
      var (c, p') := GetChar(s, p);
      [c] + Chars(s, p', q)
  }

  /** Match a text at `pos`: first character first going forward, last first going backward. */
  function MatchText(e: Env, back: bool, icase: bool, text: seq<int>, pos: nat): Option<nat>
    decreases |text|
  {
    if text == [] then Some(pos)
    else
      var k := if back then |text| - 1 else 0;
      match Next(e, back, pos)
      case None => None
      case Some((c, q)) =>
        if Fold(e, icase, c) != Fold(e, icase, text[k]) then None
        else MatchText(e, back, icase, if back then text[..k] else text[1..], q)
  }

  /** The text of a capture group, if it has one. */
  function Captured(e: Env, m: M, n: int): Option<seq<int>> {
    if 0 <= n && 2 * n + 1 < |m.caps| && m.caps[2 * n].Some? && m.caps[2 * n + 1].Some?
       && m.caps[2 * n + 1].value <= |e.subject.units|
    then Some(Chars(e.subject, m.caps[2 * n].value, m.caps[2 * n + 1].value))
    else None
  }

  function SetCap(m: M, k: nat): M {
    if k < |m.caps| then m.(caps := m.caps[k := Some(m.pos)]) else m
  }

  function Reset(m: M, first: nat, ncaps: nat): M {
    m.(caps := seq(|m.caps|, k requires 0 <= k < |m.caps| =>
      if 2 * first <= k < 2 * (first + ncaps) then None else m.caps[k]))
  }

  ghost function If(ok: bool, m: M): seq<M> {
    if ok then [m] else []
  }

  ghost function SemTerm(e: Env, md: Mode, cc: nat, t: Term, m: M): seq<M>
    decreases t, 1, 0, 0, 0
  {
    match t
    case LineStart => If(LineEdge(e, true, md.flags.multi, m.pos), m)
    case LineEnd => If(LineEdge(e, false, md.flags.multi, m.pos), m)
    case WordBoundary(neg) =>
      If((WordAt(e, md.flags.icase, true, m.pos) == WordAt(e, md.flags.icase, false, m.pos)) == neg, m)
    case BackRef(n) =>
      if n >= e.ncap then []
      else (match Captured(e, m, n)
            case None => [m]
            case Some(text) =>
              match MatchText(e, md.back, md.flags.icase, text, m.pos)
              case None => []
              case Some(q) => [m.(pos := q)])
    case Group(alts) => SemAlts(e, md, cc, alts, m)
    case Modified(add, remove, alts) => SemAlts(e, md.(flags := Update(md.flags, add, remove)), cc, alts, m)
    case Capture(alts) =>
      SetCaps(SemAlts(e, md, cc + 1, alts, SetCap(m, 2 * cc + Bit(md.back))), 2 * cc + Bit(!md.back))
    case Look(behind, neg, alts) =>
      var outs := SemAlts(e, md.(back := behind), cc, alts, m);
      if neg then If(outs == [], m)
      else if outs == [] then [] else [M(m.pos, outs[0].caps)]
    case Quant(atom, min, max, greedy) =>
      Repeat(e, md, cc, atom, min, max, greedy,
             if min == 0 then Reset(m, cc, NumCaps(atom)) else m)
    case _ =>
      match Next(e, md.back, m.pos)
      case None => []
      case Some((c, q)) => If(Accepts(e, md.flags, t, c), m.(pos := q))
  }

  ghost function SetCaps(outs: seq<M>, k: nat): (r: seq<M>)
    ensures |r| == |outs|
    ensures forall i :: 0 <= i < |outs| ==> r[i] == SetCap(outs[i], k)
  {
    if outs == [] then [] else [SetCap(outs[0], k)] + SetCaps(outs[1..], k)
  }

  /** A sequence of terms: first to last going forward, last to first going backward. */
  ghost function SemSeq(e: Env, md: Mode, cc: nat, ts: seq<Term>, m: M): seq<M>
    decreases ts, 0, 0, 0, 0
  {
    if ts == [] then [m]
    else
      var init, last := ts[..|ts| - 1], ts[|ts| - 1];
      var cc' := cc + NumCapsSeq(init);
      if md.back then SeqAll(e, md, cc, init, SemTerm(e, md, cc', last, m))
      else TermAll(e, md, cc', last, SemSeq(e, md, cc, init, m))
  }

  ghost function TermAll(e: Env, md: Mode, cc: nat, t: Term, ms: seq<M>): seq<M>
    decreases t, 2, 0, 0, |ms|
  {
    if ms == [] then [] else SemTerm(e, md, cc, t, ms[0]) + TermAll(e, md, cc, t, ms[1..])
  }

  ghost function SeqAll(e: Env, md: Mode, cc: nat, ts: seq<Term>, ms: seq<M>): seq<M>
    decreases ts, 1, 0, 0, |ms|
  {
    if ms == [] then [] else SemSeq(e, md, cc, ts, ms[0]) + SeqAll(e, md, cc, ts, ms[1..])
  }

  ghost function SemAlts(e: Env, md: Mode, cc: nat, alts: seq<Alt>, m: M): seq<M>
    decreases alts, 0, 0, 0, 0
  {
    if alts == [] then []
    else
      var init := alts[..|alts| - 1];
      SemAlts(e, md, cc, init, m) + SemSeq(e, md, cc + NumCapsAlts(init), alts[|alts| - 1].terms, m)
  }

  function Less(n: int): int {
    if n == INT32_MAX then n else n - 1
  }

  /** RepeatMatcher: at least `min` and at most `max` iterations; beyond the minimum an
      iteration must move. */
  ghost function Repeat(e: Env, md: Mode, cc: nat, t: Term, min: int, max: int, greedy: bool, m: M): seq<M>
    decreases t, 3, if min > 0 then min else 0, Left(e, md.back, m.pos)
  {
    if max <= 0 then [m]
    else if min > 0 then
      RepeatAll(e, md, cc, t, min, max, greedy, SemTerm(e, md, cc, t, m))
    else
      var more := IterateAll(e, md, cc, t, max, greedy, m, SemTerm(e, md, cc, t, m));
      if greedy then more + [m] else [m] + more
  }

  ghost function RepeatAll(e: Env, md: Mode, cc: nat, t: Term, min: int, max: int, greedy: bool, ms: seq<M>): seq<M>
    requires min > 0
    decreases t, 3, min - 1, |e.subject.units| + 1, |ms|
  {
    if ms == [] then []
    else
      Repeat(e, md, cc, t, min - 1, Less(max), greedy, ms[0])
      + RepeatAll(e, md, cc, t, min, max, greedy, ms[1..])
  }

  ghost function IterateAll(e: Env, md: Mode, cc: nat, t: Term, max: int, greedy: bool, m: M, ms: seq<M>): seq<M>
    decreases t, 3, 0, Left(e, md.back, m.pos), |ms|
  {
    if ms == [] then []
    else
      (if Left(e, md.back, ms[0].pos) < Left(e, md.back, m.pos)
       then Repeat(e, md, cc, t, 0, Less(max), greedy, ms[0]) else [])
      + IterateAll(e, md, cc, t, max, greedy, m, ms[1..])
  }
}
