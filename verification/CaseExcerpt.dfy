/** Part of the shipped tables of case conversion: the two runs of ASCII, the entries of CaseLaws, and
    the table of extra characters. They are well formed together. */
module CaseExcerpt {
  import opened CaseConv
  import opened CaseLaws

  /** case_conv_ext, line by line. */
  const EXT_0: seq<nat> :=
    [0x0399, 0x0308, 0x0301, 0x03a5, 0x0313, 0x0300, 0x0342, 0x0391, 0x0397, 0x03a9, 0x0046, 0x0049]
  const EXT_1: seq<nat> :=
    [0x004c, 0x0053, 0x0069, 0x0307, 0x02bc, 0x004e, 0x004a, 0x030c, 0x0535, 0x0552, 0x0048, 0x0331]
  const EXT_2: seq<nat> :=
    [0x0054, 0x0057, 0x030a, 0x0059, 0x0041, 0x02be, 0x1f08, 0x1f80, 0x1f28, 0x1f90, 0x1f68, 0x1fa0]
  const EXT_3: seq<nat> :=
    [0x1fba, 0x0386, 0x1fb3, 0x1fca, 0x0389, 0x1fc3, 0x03a1, 0x1ffa, 0x038f, 0x1ff3, 0x0544, 0x0546]
  const EXT_4: seq<nat> := [0x053b, 0x054e, 0x053d, 0x03b8, 0x0462, 0xa64a, 0x1e60, 0x03c9, 0x006b, 0x00e5]
  const EXT: seq<nat> := EXT_0 + EXT_1 + EXT_2 + EXT_3 + EXT_4

  const EXCERPT := Tables([
    0x00209a30, 0x00309a00, 0x005a8173, 0x00803040, 0x009801c3, 0x00988190, 0x00e20350, 0x01c801d0,
    0x01d801d3, 0x0f4d8180, 0x0fc40867, 0x0fe981d0, 0x0ff181d3, 0x109501a0, 0x7d8181da, 0x7d8281b3,
    0x7d8301b3
  ], [0x01, 0x00, 0x9c, 0x00, 0x8f, 0x0b, 0x00, 0x12, 0x12, 0x36, 0x9f, 0x12, 0x12, 0x38, 0xab, 0x58, 0x58], EXT)

  /** The entries of the excerpt. */
  predicate IsExcerpt(t: Tables) {
    && |t.t1| == |t.t2| == 17 && |t.ext| == 58
    && Row(t, 0, 0x00209a30, 0x01) && Row(t, 1, 0x00309a00, 0x00) && Row(t, 2, 0x005a8173, 0x9c)
    && Row(t, 3, 0x00803040, 0x00) && Row(t, 4, 0x009801c3, 0x8f) && Row(t, 5, 0x00988190, 0x0b)
    && Row(t, 6, 0x00e20350, 0x00) && Row(t, 7, 0x01c801d0, 0x12) && Row(t, 8, 0x01d801d3, 0x12)
    && Row(t, 9, 0x0f4d8180, 0x36) && Row(t, 10, 0x0fc40867, 0x9f) && Row(t, 11, 0x0fe981d0, 0x12)
    && Row(t, 12, 0x0ff181d3, 0x12) && Row(t, 13, 0x109501a0, 0x38) && Row(t, 14, 0x7d8181da, 0xab)
    && Row(t, 15, 0x7d8281b3, 0x58) && Row(t, 16, 0x7d8301b3, 0x58)
  }

  /** The fields of entry `k`. */
  predicate Entry(t: Tables, k: nat, code: nat, len: nat, ty: nat, data: nat) {
    && k < |t.t1| && k < |t.t2| && t.t1[k] < 0x1_0000_0000 && t.t2[k] < 0x100
    && Code(t.t1[k]) == code && Len(t.t1[k]) == len && Type(t.t1[k]) == ty && Data(t, k) == data
  }

  lemma Reads(t: Tables, k: nat, code: nat, len: nat, ty: nat, data: nat)
    requires code < 0x2_0000 && len < 0x80 && ty < 0x10 && data < 0x1000
    requires Row(t, k, code * 0x8000 + len * 0x100 + ty * 0x10 + data / 0x100, data % 0x100)
    ensures Entry(t, k, code, len, ty, data)
  {
    PackedEntry(t, k, code, len, ty, data);
  }

  lemma FirstEntries(t: Tables)
    requires IsExcerpt(t)
    ensures Entry(t, 0, 0x41, 26, TYPE_LF, 0x1)
    ensures Entry(t, 1, 0x61, 26, TYPE_U, 0x0)
    ensures Entry(t, 2, 0xb5, 1, TYPE_UF_D20, 0x39c)
    ensures Entry(t, 3, 0x100, 48, TYPE_UL, 0x0)
    ensures Entry(t, 4, 0x130, 1, TYPE_LF_EXT2, 0x38f)
    ensures Entry(t, 5, 0x131, 1, TYPE_U_EXT, 0xb)
  {
    hide Entry;
    Reads(t, 0, 0x41, 26, TYPE_LF, 0x1);
    Reads(t, 1, 0x61, 26, TYPE_U, 0x0);
    Reads(t, 2, 0xb5, 1, TYPE_UF_D20, 0x39c);
    Reads(t, 3, 0x100, 48, TYPE_UL, 0x0);
    Reads(t, 4, 0x130, 1, TYPE_LF_EXT2, 0x38f);
    Reads(t, 5, 0x131, 1, TYPE_U_EXT, 0xb);
  }

  lemma MiddleEntries(t: Tables)
    requires IsExcerpt(t)
    ensures Entry(t, 6, 0x1c4, 3, TYPE_LSU, 0x0)
    ensures Entry(t, 7, 0x390, 1, TYPE_UF_EXT3, 0x12)
    ensures Entry(t, 8, 0x3b0, 1, TYPE_UF_EXT3, 0x312)
    ensures Entry(t, 9, 0x1e9b, 1, TYPE_UF_D1_EXT, 0x36)
    ensures Entry(t, 10, 0x1f88, 8, TYPE_U2L_399_EXT2, 0x79f)
    ensures Entry(t, 11, 0x1fd3, 1, TYPE_UF_EXT3, 0x12)
  {
    hide Entry;
    Reads(t, 6, 0x1c4, 3, TYPE_LSU, 0x0);
    Reads(t, 7, 0x390, 1, TYPE_UF_EXT3, 0x12);
    Reads(t, 8, 0x3b0, 1, TYPE_UF_EXT3, 0x312);
    Reads(t, 9, 0x1e9b, 1, TYPE_UF_D1_EXT, 0x36);
    Reads(t, 10, 0x1f88, 8, TYPE_U2L_399_EXT2, 0x79f);
    Reads(t, 11, 0x1fd3, 1, TYPE_UF_EXT3, 0x12);
  }

  lemma LastEntries(t: Tables)
    requires IsExcerpt(t)
    ensures Entry(t, 12, 0x1fe3, 1, TYPE_UF_EXT3, 0x312)
    ensures Entry(t, 13, 0x212a, 1, TYPE_LF_EXT, 0x38)
    ensures Entry(t, 14, 0xfb03, 1, TYPE_UF_EXT3, 0xaab)
    ensures Entry(t, 15, 0xfb05, 1, TYPE_UF_EXT2, 0x358)
    ensures Entry(t, 16, 0xfb06, 1, TYPE_UF_EXT2, 0x358)
  {
    hide Entry;
    Reads(t, 12, 0x1fe3, 1, TYPE_UF_EXT3, 0x312);
    Reads(t, 13, 0x212a, 1, TYPE_LF_EXT, 0x38);
    Reads(t, 14, 0xfb03, 1, TYPE_UF_EXT3, 0xaab);
    Reads(t, 15, 0xfb05, 1, TYPE_UF_EXT2, 0x358);
    Reads(t, 16, 0xfb06, 1, TYPE_UF_EXT2, 0x358);
  }

  /** Every entry is as it should be, and begins behind the one before. */
  lemma EntryFits(t: Tables, k: nat)
    requires IsExcerpt(t) && k < 17
    ensures EntryOk(t, k)
    ensures k + 1 < 17 ==> Code(t.t1[k]) + Len(t.t1[k]) <= Code(t.t1[k + 1])
    ensures 2 <= k ==> 128 <= Code(t.t1[k])
  {
    FirstEntries(t);
    MiddleEntries(t);
    LastEntries(t);
    hide Code, Len, Type, Data, Row;
  }

  lemma {:induction false} EntriesApart(t: Tables, k: nat, m: nat)
    requires IsExcerpt(t) && k < m < 17
    ensures Code(t.t1[k]) + Len(t.t1[k]) <= Code(t.t1[m])
    decreases m
  {
    hide IsExcerpt, Code, Len, EntryOk;
    assert |t.t1| == 17 by { EntryCount(t); }
    if k + 1 < m {
      EntriesApart(t, k, m - 1);
      EntryFits(t, m - 1);
    } else {
      EntryFits(t, k);
    }
  }

  lemma EntryCount(t: Tables)
    requires IsExcerpt(t)
    ensures |t.t1| == |t.t2| == 17
  {
  }

  predicate Small(s: seq<nat>) {
    forall k :: 0 <= k < |s| ==> s[k] < 0x10000
  }

  lemma ExtSmall()
    ensures |EXT| == 58 && Small(EXT)
  {
    assert Small(EXT_0);
    assert Small(EXT_1);
    assert Small(EXT_2);
    assert Small(EXT_3);
    assert Small(EXT_4);
    assert Small(EXT_0 + EXT_1);
    assert Small(EXT_0 + EXT_1 + EXT_2);
    assert Small(EXT_0 + EXT_1 + EXT_2 + EXT_3);
  }

  lemma ExcerptIs()
    ensures IsExcerpt(EXCERPT)
  {
    ExtSmall();
    hide Small;
  }

  lemma Ascii(t: Tables)
    requires IsExcerpt(t)
    ensures EntryOk(t, 0) && EntryOk(t, 1)
    ensures LetterRun(t, 0, 0x41, TYPE_LF, 0x61) && LetterRun(t, 1, 0x61, TYPE_U, 0x41)
  {
    EntryFits(t, 0);
    EntryFits(t, 1);
    FirstEntries(t);
    hide Code, Len, Type, Data, EntryOk, Row;
  }

  /** The excerpt is well formed, so what CaseLaws says of its entries is said of something. */
  lemma ExcerptWellFormed()
    ensures WellFormed(EXCERPT) && IsExcerpt(EXCERPT)
  {
    ExcerptIs();
    ExtSmall();
    var t := EXCERPT;
    hide IsExcerpt, EntryOk, Code, Len, LetterRun;
    Ascii(t);
    forall k: nat | k < 17 ensures EntryOk(t, k) && (2 <= k ==> 128 <= Code(t.t1[k])) {
      EntryFits(t, k);
    }
    forall k: nat, m: nat | k < m < 17 ensures Code(t.t1[k]) + Len(t.t1[k]) <= Code(t.t1[m]) {
      EntriesApart(t, k, m);
    }
  }

  lemma ExtParts()
    ensures |EXT_0| == |EXT_1| == |EXT_2| == |EXT_3| == 12 && |EXT_4| == 10
    ensures EXT_0[0] == 0x399 && EXT_0[1] == 0x308 && EXT_0[2] == 0x301 && EXT_0[3] == 0x3a5
    ensures EXT_0[10] == 0x46 && EXT_0[11] == 0x49 && EXT_1[1] == 0x53 && EXT_1[2] == 0x69 && EXT_1[3] == 0x307
    ensures EXT_2[0] == 0x54 && EXT_2[6] == 0x1f08 && EXT_2[7] == 0x1f80 && EXT_4[6] == 0x1e60 && EXT_4[8] == 0x6b
  {
  }

  lemma FiveParts(a: seq<nat>, b: seq<nat>, c: seq<nat>, d: seq<nat>, e: seq<nat>, i: nat)
    requires |a| == |b| == |c| == |d| == 12 && i < 48 + |e|
    ensures (a + b + c + d + e)[i] ==
            if i < 12 then a[i] else if i < 24 then b[i - 12] else if i < 36 then c[i - 24]
            else if i < 48 then d[i - 36] else e[i - 48]
  {
  }

  lemma ExcerptExt()
    ensures Ext(EXCERPT, 0, 0x399) && Ext(EXCERPT, 1, 0x308) && Ext(EXCERPT, 2, 0x301) && Ext(EXCERPT, 3, 0x3a5)
    ensures Ext(EXCERPT, 10, 0x46) && Ext(EXCERPT, 11, 0x49) && Ext(EXCERPT, 13, 0x53) && Ext(EXCERPT, 14, 0x69)
    ensures Ext(EXCERPT, 15, 0x307) && Ext(EXCERPT, 24, 0x54) && Ext(EXCERPT, 30, 0x1f08) && Ext(EXCERPT, 31, 0x1f80)
    ensures Ext(EXCERPT, 54, 0x1e60) && Ext(EXCERPT, 56, 0x6b)
  {
    ExtParts();
    forall i: nat | i < 58 ensures EXT[i] ==
            if i < 12 then EXT_0[i] else if i < 24 then EXT_1[i - 12] else if i < 36 then EXT_2[i - 24]
            else if i < 48 then EXT_3[i - 36] else EXT_4[i - 48] {
      FiveParts(EXT_0, EXT_1, EXT_2, EXT_3, EXT_4, i);
    }
  }

  /** By these entries, a few words in upper case and folded: of "DZ with caron" as a title, of
      dotted I, of the two ligatures, of the Kelvin sign and of the micro sign. */
  lemma ExcerptForms()
    ensures WellFormed(EXCERPT)
    ensures Forms(EXCERPT, 0x1c5, [0x1c4], [0x1c6], [0x1c6]) && Forms(EXCERPT, 0xb5, [0x39c], [0xb5], [0x3bc])
    ensures Forms(EXCERPT, 0x130, [0x130], [0x69, 0x307], [0x69, 0x307])
    ensures Forms(EXCERPT, 0x212a, [0x212a], [0x6b], [0x6b])
    ensures Forms(EXCERPT, 0xfb03, [0x46, 0x46, 0x49], [0xfb03], [0x66, 0x66, 0x69])
    ensures Canonicalize(EXCERPT, 0xfb05, true) == Canonicalize(EXCERPT, 0xfb06, true)
    ensures Canonicalize(EXCERPT, 0x390, true) == Canonicalize(EXCERPT, 0x1fd3, true)
  {
    ExcerptWellFormed();
    ExcerptExt();
    hide WellFormed, Forms, Canonicalize, Ext;
    var t := EXCERPT;
    assert Row(t, 2, 0x005a8173, 0x9c) && Row(t, 4, 0x009801c3, 0x8f) && Row(t, 6, 0x00e20350, 0x00);
    assert Row(t, 7, 0x01c801d0, 0x12) && Row(t, 11, 0x0fe981d0, 0x12) && Row(t, 13, 0x109501a0, 0x38);
    assert Row(t, 14, 0x7d8181da, 0xab) && Row(t, 15, 0x7d8281b3, 0x58) && Row(t, 16, 0x7d8301b3, 0x58);
    hide IsExcerpt, Row;
    CaronForms(t, 6, 0x1c5);
    MicroForms(t, 2);
    DottedForms(t, 4);
    KelvinForms(t, 13);
    FfiForms(t, 14);
    LongLigatureForms(t, 15);
    LigatureForms(t, 16);
    IotaTonosForms(t, 7, 11);
  }
}
