/** Patterns after lexing: what re_parse_disjunction, re_parse_alternative and re_parse_term
    recognise. Capture groups carry no number; the parser numbers them as it meets them. */
module Syntax {
  import opened Bytes
  import opened Points

  datatype Flags = Flags(icase: bool, multi: bool, dotall: bool)

  datatype Alt = Alt(terms: seq<Term>)

  datatype Term =
    | Char(c: int)
    | Dot
    | Class(points: seq<int>)
    | LineStart
    | LineEnd
    | WordBoundary(neg: bool)
    | BackRef(n: int)
    | Group(alts: seq<Alt>)
    | Modified(add: Flags, remove: Flags, alts: seq<Alt>)
    | Capture(alts: seq<Alt>)
    | Look(behind: bool, neg: bool, alts: seq<Alt>)
    | Quant(atom: Term, min: int, max: int, greedy: bool)

  /** The direction of matching and the flags in force. */
  datatype Mode = Mode(back: bool, flags: Flags)

  const MAX_CODE_POINT: int := 0x10FFFF
  const CAPTURE_COUNT_MAX: int := 255

  /** update_modifier, for the three flags that a modifier group can change. */
  function Update(f: Flags, add: Flags, remove: Flags): Flags {
    Flags((f.icase || add.icase) && !remove.icase,
          (f.multi || add.multi) && !remove.multi,
          (f.dotall || add.dotall) && !remove.dotall)
  }

  /** The number of capture groups that open inside a pattern. */
  function NumCaps(t: Term): nat
    decreases t, 1
  {
    match t
    case Group(alts) => NumCapsAlts(alts)
    case Modified(_, _, alts) => NumCapsAlts(alts)
    case Capture(alts) => 1 + NumCapsAlts(alts)
    case Look(_, _, alts) => NumCapsAlts(alts)
    case Quant(atom, _, _, _) => NumCaps(atom)
    case _ => 0
  }

  function NumCapsSeq(ts: seq<Term>): nat
    decreases ts, 0
  {
    if ts == [] then 0 else NumCapsSeq(ts[..|ts| - 1]) + NumCaps(ts[|ts| - 1])
  }

  function NumCapsAlts(alts: seq<Alt>): nat
    decreases alts, 0
  {
    if alts == [] then 0 else NumCapsAlts(alts[..|alts| - 1]) + NumCapsSeq(alts[|alts| - 1].terms)
  }

  /** What the lexer guarantees of a term: code points in range, classes in canonical form,
      repetition counts in order and clamped to INT32_MAX, which stands for infinity. */
  ghost predicate Valid(t: Term)
    decreases t, 1
  {
    match t
    case Char(c) => 0 <= c <= MAX_CODE_POINT
    case Class(points) => Canonical(points)
    case BackRef(n) => 0 <= n < 256
    case Group(alts) => ValidAlts(alts)
    case Modified(_, _, alts) => ValidAlts(alts)
    case Capture(alts) => ValidAlts(alts)
    case Look(_, _, alts) => ValidAlts(alts)
    case Quant(atom, min, max, _) => 0 <= min <= max <= INT32_MAX && Valid(atom)
    case _ => true
  }

  ghost predicate ValidSeq(ts: seq<Term>)
    decreases ts, 0
  {
    ts != [] ==> ValidSeq(ts[..|ts| - 1]) && Valid(ts[|ts| - 1])
  }

  ghost predicate ValidAlts(alts: seq<Alt>)
    decreases alts, 0
  {
    && alts != []
    && (|alts| > 1 ==> ValidAlts(alts[..|alts| - 1]))
    && ValidSeq(alts[|alts| - 1].terms)
  }

  /** No class in the pattern has too many ranges for re_emit_range. */
  predicate SmallClasses(t: Term)
    decreases t, 1
  {
    match t
    case Class(points) => |points| / 2 < 65535
    case Group(alts) => SmallClassesAlts(alts)
    case Modified(_, _, alts) => SmallClassesAlts(alts)
    case Capture(alts) => SmallClassesAlts(alts)
    case Look(_, _, alts) => SmallClassesAlts(alts)
    case Quant(atom, _, _, _) => SmallClasses(atom)
    case _ => true
  }

  predicate SmallClassesSeq(ts: seq<Term>)
    decreases ts, 0
  {
    ts != [] ==> SmallClassesSeq(ts[..|ts| - 1]) && SmallClasses(ts[|ts| - 1])
  }

  predicate SmallClassesAlts(alts: seq<Alt>)
    decreases alts, 0
  {
    alts != [] ==> SmallClassesAlts(alts[..|alts| - 1]) && SmallClassesSeq(alts[|alts| - 1].terms)
  }
}
