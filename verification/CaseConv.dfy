/** Case conversion by table (libunicode.c): a sorted table of runs of code points, each with a
    type that says how its members are converted. The table contents are parameters. */
module CaseConv {

  const TYPE_U := 0
  const TYPE_L := 1
  const TYPE_UF := 2
  const TYPE_LF := 3
  const TYPE_UL := 4
  const TYPE_LSU := 5
  const TYPE_U2L_399_EXT2 := 6
  const TYPE_UF_D20 := 7
  const TYPE_UF_D1_EXT := 8
  const TYPE_U_EXT := 9
  const TYPE_LF_EXT := 10
  const TYPE_UF_EXT2 := 11
  const TYPE_LF_EXT2 := 12
  const TYPE_UF_EXT3 := 13

  /** The three conversions: to upper case, to lower case, and case folding. */
  datatype Conv = Upper | Lower | Fold

  /** case_conv_table1, case_conv_table2 and case_conv_ext. */
  datatype Tables = Tables(t1: seq<nat>, t2: seq<nat>, ext: seq<nat>)

  // a word of the first table, from the top: 17 bits of code, 7 of length, 4 of type, 4 of data
  function Code(v: nat): nat { v / 0x8000 }

  function Len(v: nat): nat { v / 0x100 % 0x80 }

  function Type(v: nat): nat { v / 0x10 % 0x10 }

  function Data(t: Tables, k: nat): nat
    requires k < |t.t1| && k < |t.t2|
  {
    t.t1[k] % 0x10 * 0x100 + t.t2[k]
  }

  predicate Covers(t: Tables, k: int, c: int) {
    0 <= k < |t.t1| && Code(t.t1[k]) <= c < Code(t.t1[k]) + Len(t.t1[k])
  }

  /** The operands of an entry point into the tables. */
  predicate OperandsOk(t: Tables, k: nat)
    requires k < |t.t1| && k < |t.t2|
  {
    var d, ty := Data(t, k), Type(t.t1[k]);
    if ty <= TYPE_LF then d < |t.t1|
    else if ty == TYPE_U2L_399_EXT2 || ty == TYPE_UF_EXT2 || ty == TYPE_LF_EXT2
      then d / 64 < |t.ext| && d % 64 < |t.ext|
    else if ty == TYPE_UF_D1_EXT || ty == TYPE_U_EXT || ty == TYPE_LF_EXT then d < |t.ext|
    else if ty == TYPE_UF_EXT3 then 16 <= |t.ext|
    else true
  }

  predicate EntryOk(t: Tables, k: nat)
    requires k < |t.t1| && k < |t.t2|
  {
    && t.t1[k] < 0x1_0000_0000 && t.t2[k] < 0x100
    && Type(t.t1[k]) <= TYPE_UF_EXT3
    && (Type(t.t1[k]) == TYPE_UL ==> Len(t.t1[k]) % 2 == 0)
    && (Type(t.t1[k]) == TYPE_LSU ==> Len(t.t1[k]) == 3)
    && OperandsOk(t, k)
  }

  predicate LetterRun(t: Tables, k: nat, code: nat, ty: nat, target: nat)
    requires k < |t.t1| && k < |t.t2| && EntryOk(t, k)
  {
    && Code(t.t1[k]) == code && Len(t.t1[k]) == 26
    && Type(t.t1[k]) == ty && ty <= TYPE_LF && Code(t.t1[Data(t, k)]) == target
  }

  /** What the code relies on: runs in order and disjoint, operands in range, runs of alternating
      letters of even length, and below 128 just the two runs of ASCII letters. */
  ghost predicate WellFormed(t: Tables) {
    && |t.t1| == |t.t2| && 2 <= |t.t1|
    && (forall k :: 0 <= k < |t.t1| ==> EntryOk(t, k))
    && (forall k :: 0 <= k < |t.ext| ==> t.ext[k] < 0x10000)
    && (forall k, m :: 0 <= k < m < |t.t1| ==> Code(t.t1[k]) + Len(t.t1[k]) <= Code(t.t1[m]))
    && LetterRun(t, 0, 0x41, TYPE_LF, 0x61)
    && LetterRun(t, 1, 0x61, TYPE_U, 0x41)
    && (forall k :: 2 <= k < |t.t1| ==> 128 <= Code(t.t1[k]))
  }

  /** The run of `c`, if it has one. */
  function RunOf(t: Tables, c: int, k: nat): (r: int)
    requires k <= |t.t1|
    ensures -1 <= r < |t.t1|
    ensures r == -1 ==> forall m :: k <= m < |t.t1| ==> !Covers(t, m, c)
    ensures r != -1 ==> Covers(t, r, c)
    decreases |t.t1| - k
  {
    if k == |t.t1| then -1 else if Covers(t, k, c) then k else RunOf(t, c, k + 1)
  }

  lemma RunUnique(t: Tables, c: int, k: nat)
    requires WellFormed(t) && k < |t.t1| && Covers(t, k, c)
    ensures RunOf(t, c, 0) == k
  {
    hide EntryOk, LetterRun, Code, Len;
    var r := RunOf(t, c, 0);
    assert Covers(t, r, c);
  }

  function Ascii(c: int, conv: Conv): int {
    if !conv.Upper? then (if 'A' as int <= c <= 'Z' as int then c - 'A' as int + 'a' as int else c)
    else (if 'a' as int <= c <= 'z' as int then c - 'a' as int + 'A' as int else c)
  }

  /** lre_case_conv_entry: the one, two or three characters that `c` of run `k` is converted to. */
  function CaseConvEntry(t: Tables, c: int, conv: Conv, k: nat): (r: seq<int>)
    requires WellFormed(t) && k < |t.t1| && Covers(t, k, c)
    ensures 1 <= |r| <= 3
    decreases conv.Fold?, 0
  {
    assert EntryOk(t, k);
    var ty, d, a := Type(t.t1[k]), Data(t, k), c - Code(t.t1[k]);
    var isLower := !conv.Upper?;
    if ty <= TYPE_LF then
      if (conv.Upper? && ty % 2 == 0) || (conv.Lower? && ty % 2 == 1) || (ty >= TYPE_UF && conv.Fold?) then
        [a + Code(t.t1[d])]
      else [c]
    else if ty == TYPE_UL then
      if (a % 2 == 0) != isLower then [c] else if a % 2 == 0 then [c + 1] else [c - 1]
    else if ty == TYPE_LSU then
      if a == 1 then [if isLower then c + 1 else c - 1]
      else if a == (if isLower then 0 else 2) then [if isLower then c + 2 else c - 2]
      else [c]
    else if ty == TYPE_U2L_399_EXT2 then
      if !isLower then [a + t.ext[d / 64], 0x399] else [a + t.ext[d % 64]]
    else if ty == TYPE_UF_D20 then
      if conv.Lower? then [c] else [d + if conv.Fold? then 0x20 else 0]
    else if ty == TYPE_UF_D1_EXT then
      if conv.Lower? then [c] else [t.ext[d] + if conv.Fold? then 1 else 0]
    else if ty == TYPE_U_EXT || ty == TYPE_LF_EXT then
      if isLower != (ty == TYPE_LF_EXT) then [c] else [t.ext[d]]
    else if ty == TYPE_LF_EXT2 then
      if !isLower then [c] else [a + t.ext[d / 64], t.ext[d % 64]]
    else if ty == TYPE_UF_EXT2 then
      if conv.Lower? then [c]
      else
        var x, y := a + t.ext[d / 64], t.ext[d % 64];
        if conv.Fold? then [CaseConv(t, x, Lower)[0], CaseConv(t, y, Lower)[0]] else [x, y]
    else
      if conv.Lower? then [c]
      else
        assert ty == TYPE_UF_EXT3 && d < 0x1000;
        var x, y, z := t.ext[d / 256], t.ext[d / 16 % 16], t.ext[d % 16];
        if conv.Fold? then [CaseConv(t, x, Lower)[0], CaseConv(t, y, Lower)[0], CaseConv(t, z, Lower)[0]]
        else [x, y, z]
  }

  /** lre_case_conv. */
  function CaseConv(t: Tables, c: int, conv: Conv): (r: seq<int>)
    requires WellFormed(t)
    ensures 1 <= |r| <= 3
    decreases conv.Fold?, 1
  {
    if c < 128 then [Ascii(c, conv)]
    else
      var k := RunOf(t, c, 0);
      if k == -1 then [c] else CaseConvEntry(t, c, conv, k)
  }

  /** lre_case_folding_entry. */
  function CaseFoldingEntry(t: Tables, c: int, k: nat, isUnicode: bool): int
    requires WellFormed(t) && k < |t.t1| && Covers(t, k, c)
  {
    if isUnicode then
      var res := CaseConvEntry(t, c, Fold, k);
      if |res| == 1 then res[0]
      else if c == 0xfb06 then 0xfb05
      else if c == 0x1fd3 then 0x390
      else if c == 0x1fe3 then 0x3b0
      else c
    else if c < 128 then Ascii(c, Upper)
    else
      var res := CaseConvEntry(t, c, Upper, k);
      if |res| == 1 && res[0] >= 128 then res[0] else c
  }

  /** lre_canonicalize. */
  function Canonicalize(t: Tables, c: int, isUnicode: bool): int
    requires WellFormed(t)
  {
    if c < 128 then Ascii(c, if isUnicode then Fold else Upper)
    else
      var k := RunOf(t, c, 0);
      if k == -1 then c else CaseFoldingEntry(t, c, k, isUnicode)
  }

  /** The binary search that lre_case_conv, lre_canonicalize and lre_is_cased share. */
  method FindRun(t: Tables, c: nat) returns (k: int)
    requires WellFormed(t)
    ensures k == RunOf(t, c, 0)
  {
    var idxMin, idxMax := 0, |t.t1| - 1;
    while idxMin <= idxMax
      invariant 0 <= idxMin <= idxMax + 1 <= |t.t1|
      invariant forall m :: 0 <= m < idxMin ==> Code(t.t1[m]) + Len(t.t1[m]) <= c
      invariant forall m :: idxMax < m < |t.t1| ==> c < Code(t.t1[m])
    {
      hide EntryOk, LetterRun, Code, Len;
      var idx := (idxMax + idxMin) / 2;
      var v := t.t1[idx];
      var code, len := Code(v), Len(v);
      if c < code {
        idxMax := idx - 1;
      } else if c >= code + len {
        idxMin := idx + 1;
      } else {
        RunUnique(t, c, idx);
        return idx;
      }
    }
    assert forall m :: 0 <= m < |t.t1| ==> !Covers(t, m, c);
    return -1;
  }

  method LreCaseConv(t: Tables, c: nat, conv: Conv) returns (res: seq<int>)
    requires WellFormed(t)
    ensures res == CaseConv(t, c, conv)
  {
    if c < 128 {
      return [Ascii(c, conv)];
    }
    var k := FindRun(t, c);
    res := if k == -1 then [c] else CaseConvEntry(t, c, conv, k);
  }

  method LreCanonicalize(t: Tables, c: nat, isUnicode: bool) returns (d: int)
    requires WellFormed(t)
    ensures d == Canonicalize(t, c, isUnicode)
  {
    if c < 128 {
      return Ascii(c, if isUnicode then Fold else Upper);
    }
    var k := FindRun(t, c);
    d := if k == -1 then c else CaseFoldingEntry(t, c, k, isUnicode);
  }

  /** The offset of the lower or the upper form of the letter at offset `a` of its run. */
  function FormOffset(ty: nat, a: int, lower: bool): int {
    if ty == TYPE_LSU then (if lower then 2 else 0) else a / 2 * 2 + if lower then 1 else 0
  }

  lemma ConvertsToForm(t: Tables, c: int, k: nat, lower: bool)
    requires WellFormed(t) && k < |t.t1| && Covers(t, k, c)
    requires Type(t.t1[k]) == TYPE_UL || Type(t.t1[k]) == TYPE_LSU
    ensures var d := Code(t.t1[k]) + FormOffset(Type(t.t1[k]), c - Code(t.t1[k]), lower);
            Covers(t, k, d) && CaseConv(t, c, if lower then Lower else Upper) == [d]
  {
    assert EntryOk(t, k) && k >= 2;
    RunUnique(t, c, k);
    hide EntryOk, OperandsOk, LetterRun, Code, Len, Type, RunOf, WellFormed;
  }

  /** On runs of alternating letters, and on those of a lower, a title and an upper form, the two
      conversions belong together: each undoes what the other made of a letter. */
  lemma CasesPair(t: Tables, c: int, k: nat)
    requires WellFormed(t) && k < |t.t1| && Covers(t, k, c)
    requires Type(t.t1[k]) == TYPE_UL || Type(t.t1[k]) == TYPE_LSU
    ensures CaseConv(t, CaseConv(t, c, Lower)[0], Upper) == CaseConv(t, c, Upper)
    ensures CaseConv(t, CaseConv(t, c, Upper)[0], Lower) == CaseConv(t, c, Lower)
    ensures CaseConv(t, c, Upper) != CaseConv(t, c, Lower)
  {
    hide WellFormed, CaseConv, Code, Type;
    var lo, up := CaseConv(t, c, Lower)[0], CaseConv(t, c, Upper)[0];
    ConvertsToForm(t, c, k, true);
    ConvertsToForm(t, c, k, false);
    ConvertsToForm(t, lo, k, false);
    ConvertsToForm(t, up, k, true);
  }

  /** CASE_U, CASE_L and CASE_F in any combination. */
  datatype CaseMask = CaseMask(u: bool, l: bool, f: bool)

  /** tab_run_mask. */
  predicate InRunMask(mask: CaseMask, ty: nat) {
    || (mask.u && (ty == TYPE_U || ty == TYPE_UF || ty == TYPE_UL || ty == TYPE_LSU || ty == TYPE_U2L_399_EXT2
                   || ty == TYPE_UF_D20 || ty == TYPE_UF_D1_EXT || ty == TYPE_U_EXT || ty == TYPE_UF_EXT2
                   || ty == TYPE_UF_EXT3))
    || (mask.l && (ty == TYPE_L || ty == TYPE_LF || ty == TYPE_UL || ty == TYPE_LSU || ty == TYPE_U2L_399_EXT2
                   || ty == TYPE_LF_EXT || ty == TYPE_LF_EXT2))
    || (mask.f && (ty == TYPE_UF || ty == TYPE_LF || ty == TYPE_UL || ty == TYPE_LSU || ty == TYPE_U2L_399_EXT2
                   || ty == TYPE_LF_EXT || ty == TYPE_LF_EXT2 || ty == TYPE_UF_D20 || ty == TYPE_UF_D1_EXT
                   || ty == TYPE_UF_EXT2 || ty == TYPE_UF_EXT3))
  }

  /** Which members of a run unicode_case1 takes: all, or some offsets of the alternating runs. */
  predicate Selected(mask: CaseMask, ty: nat, a: int) {
    && InRunMask(mask, ty)
    && (if (ty == TYPE_UL || ty == TYPE_LSU) && !(mask.u && (mask.l || mask.f)) then
          if ty == TYPE_UL then a % 2 == (if mask.u then 1 else 0)
          else a == 1 || a == (if mask.u then 2 else 0)
        else true)
  }

  /** The mask takes `c` from run `k`. */
  predicate Taken(t: Tables, mask: CaseMask, k: int, c: int) {
    Covers(t, k, c) && Selected(mask, Type(t.t1[k]), c - Code(t.t1[k]))
  }

  /** The characters of unicode_case1. */
  ghost predicate InMask(t: Tables, mask: CaseMask, c: int) {
    exists k :: Taken(t, mask, k, c)
  }

  predicate Includes(mask: CaseMask, conv: Conv) {
    match conv
    case Upper => mask.u
    case Lower => mask.l
    case Fold => mask.f
  }

  /** A character that its run converts to anything else is one that the mask takes. */
  lemma ModifiedSelected(t: Tables, c: int, conv: Conv, k: nat, mask: CaseMask)
    requires WellFormed(t) && k < |t.t1| && Covers(t, k, c) && Includes(mask, conv)
    requires CaseConvEntry(t, c, conv, k) != [c]
    ensures Selected(mask, Type(t.t1[k]), c - Code(t.t1[k]))
  {
    assert EntryOk(t, k);
    hide CaseConv, EntryOk, OperandsOk, LetterRun, Data;
  }

  /** What unicode_case1 promises: every character that one of the conversions of the mask
      modifies is in its result. */
  lemma ModifiedInMask(t: Tables, c: nat, conv: Conv, mask: CaseMask)
    requires WellFormed(t) && Includes(mask, conv) && CaseConv(t, c, conv) != [c]
    ensures InMask(t, mask, c)
  {
    if c < 128 {
      var k := if conv.Upper? then 1 else 0;
      assert Taken(t, mask, k, c);
    } else {
      var k := RunOf(t, c, 0);
      ModifiedSelected(t, c, conv, k, mask);
      assert Taken(t, mask, k, c);
    }
  }

  /** The mask that cr_regexp_canonicalize asks for, and the conversion it stands for. */
  function RegexpMask(isUnicode: bool): CaseMask {
    CaseMask(!isUnicode, false, isUnicode)
  }

  /** Characters outside the mask are fixed points of lre_canonicalize. */
  lemma FixedOutsideMask(t: Tables, c: nat, isUnicode: bool)
    requires WellFormed(t) && !InMask(t, RegexpMask(isUnicode), c)
    ensures Canonicalize(t, c, isUnicode) == c
  {
    hide CaseConvEntry, InMask, WellFormed;
    var conv := if isUnicode then Fold else Upper;
    if CaseConv(t, c, conv) != [c] {
      ModifiedInMask(t, c, conv, RegexpMask(isUnicode));
    }
  }

  /** On the characters of the mask the entry routine, which the set routine calls for every
      character, agrees with lre_canonicalize, which has a shorter way for ASCII. */
  lemma EntryCanonicalizes(t: Tables, c: nat, k: nat, isUnicode: bool)
    requires WellFormed(t) && InMask(t, RegexpMask(isUnicode), c) && Covers(t, k, c) && k < |t.t1|
    ensures CaseFoldingEntry(t, c, k, isUnicode) == Canonicalize(t, c, isUnicode)
  {
    if c >= 128 {
      RunUnique(t, c, k);
    } else if isUnicode {
      var m :| Taken(t, RegexpMask(true), m, c);
      RunUnique(t, c, m);
      RunUnique(t, c, k);
      assert k == 0;
    }
  }

  /** Single results stay far below 2^32. */
  lemma EntryBound(t: Tables, c: nat, k: nat, isUnicode: bool)
    requires WellFormed(t) && Covers(t, k, c) && k < |t.t1|
    ensures 0 <= CaseFoldingEntry(t, c, k, isUnicode) < 0x40000
  {
    assert EntryOk(t, k);
    assert forall m :: 0 <= m < |t.t1| ==> EntryOk(t, m) && Code(t.t1[m]) < 0x20000;
    hide CaseConv, EntryOk, OperandsOk, LetterRun;
  }
}
