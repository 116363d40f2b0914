/** The subject string: 8-bit characters, 16-bit characters, or UTF-16 code units in which a
    well-formed surrogate pair counts as one character (GET_CHAR, PREV_CHAR and their kin). */
module Text {

  datatype Subject = Subject(units: seq<nat>, utf16: bool)

  predicate IsHi(c: int) { 0xD800 <= c < 0xDC00 }

  predicate IsLo(c: int) { 0xDC00 <= c < 0xE000 }

  function FromSurrogate(hi: int, lo: int): int {
    0x10000 + 0x400 * (hi - 0xD800) + (lo - 0xDC00)
  }

  /** A pair starts at `p`. */
  predicate PairAt(s: Subject, p: int) {
    s.utf16 && 0 <= p && p + 1 < |s.units| && IsHi(s.units[p]) && IsLo(s.units[p + 1])
  }

  /** `p` is a position in the string, and not the middle of a surrogate pair. */
  predicate Aligned(s: Subject, p: nat) {
    p <= |s.units| && !PairAt(s, p - 1)
  }

  /** GET_CHAR: the character at `p`, and the position after it. */
  function GetChar(s: Subject, p: nat): (r: (int, nat))
    requires p < |s.units|
    ensures p < r.1 <= |s.units|
  {
    if PairAt(s, p) then (FromSurrogate(s.units[p], s.units[p + 1]), p + 2)
    else (s.units[p], p + 1)
  }

  /** GET_PREV_CHAR: the character before `p`, and the position of its first unit. PREV_CHAR
      keeps only the position, PEEK_PREV_CHAR only the character. */
  function GetPrevChar(s: Subject, p: nat): (r: (int, nat))
    requires 0 < p <= |s.units|
    ensures r.1 < p
  {
    if PairAt(s, p - 2) then (FromSurrogate(s.units[p - 2], s.units[p - 1]), p - 2)
    else (s.units[p - 1], p - 1)
  }

  /** GET_CHAR and GET_PREV_CHAR inside a captured span, whose end (start) bounds the read. */
  function GetCharBefore(s: Subject, p: nat, end: nat): (r: (int, nat))
    requires p < |s.units|
    ensures p < r.1 <= |s.units| && (p < end ==> r.1 <= end)
  {
    if PairAt(s, p) && p + 1 < end then (FromSurrogate(s.units[p], s.units[p + 1]), p + 2)
    else (s.units[p], p + 1)
  }

  function GetPrevCharFrom(s: Subject, p: nat, start: nat): (r: (int, nat))
    requires 0 < p <= |s.units|
    ensures r.1 < p && (start < p ==> start <= r.1)
  {
    if PairAt(s, p - 2) && p - 1 > start then (FromSurrogate(s.units[p - 2], s.units[p - 1]), p - 2)
    else (s.units[p - 1], p - 1)
  }

  /** At positions off the middle of a pair the two moves undo each other, read the same
      character, and stay off the middle of a pair. */
  lemma PrevUndoesGet(s: Subject, p: nat)
    requires Aligned(s, p) && p < |s.units|
    ensures var (c, q) := GetChar(s, p); Aligned(s, q) && GetPrevChar(s, q) == (c, p)
  {
  }

  lemma GetUndoesPrev(s: Subject, p: nat)
    requires Aligned(s, p) && 0 < p
    ensures var (c, q) := GetPrevChar(s, p); Aligned(s, q) && GetChar(s, q) == (c, p)
  {
  }

  /** The start position that lre_exec settles on: it steps back out of a pair. */
  function StartAt(s: Subject, p: nat): (r: nat)
    requires p <= |s.units|
    ensures Aligned(s, r) && p - 1 <= r <= p
    ensures Aligned(s, p) ==> r == p
  {
    if PairAt(s, p - 1) then p - 1 else p
  }

  predicate IsLineTerminator(c: int) {
    c == 10 || c == 13 || c == 0x2028 || c == 0x2029
  }

  predicate IsWordChar(c: int) {
    48 <= c <= 57 || 97 <= c <= 122 || 65 <= c <= 90 || c == 95
  }
}
