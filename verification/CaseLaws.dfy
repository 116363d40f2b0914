/** What the conversions of CaseConv must come to, told apart from how they are computed: the short
    way for ASCII is the table, cased runs undo each other, the set of a mask holds just what its
    conversions change, and letters of each kind of run have the forms that Unicode gives them. */
module CaseLaws {
  import opened CaseConv

  /** Below 128 there is no table lookup; a lookup would give the same. */
  lemma AsciiIsTable(t: Tables, c: nat, conv: Conv, k: nat)
    requires WellFormed(t) && k < |t.t1| && Covers(t, k, c) && c < 128
    ensures CaseConvEntry(t, c, conv, k) == CaseConv.CaseConv(t, c, conv)
  {
    assert k < 2;
  }

  /** Two ASCII characters are the same but for case exactly when they are one, or two letters 32
      places apart. */
  lemma AsciiClasses(t: Tables, c: nat, d: nat, isUnicode: bool)
    requires WellFormed(t) && c <= d < 128
    ensures Canonicalize(t, c, isUnicode) == Canonicalize(t, d, isUnicode)
       <==> c == d || (0x41 <= c <= 0x5A && d == c + 0x20)
  {
    hide WellFormed;
  }

  /** Without the unicode flag no other character is the same as one of ASCII. */
  lemma AsciiApart(t: Tables, c: nat, d: nat)
    requires WellFormed(t) && c < 128 <= d
    ensures Canonicalize(t, d, false) >= 128 > Canonicalize(t, c, false)
  {
    hide CaseConvEntry, WellFormed;
  }

  /** Without the unicode flag canonicalizing is what section 22.2.2.7.3 of ECMA-262 says: the upper
      case, unless that is more than one character or leads from outside ASCII into it. */
  lemma CanonicalizeIsUpper(t: Tables, c: nat)
    requires WellFormed(t)
    ensures var u := CaseConv.CaseConv(t, c, Upper);
            Canonicalize(t, c, false) == if |u| != 1 || (c >= 128 && u[0] < 128) then c else u[0]
  {
    hide CaseConvEntry, WellFormed;
  }

  /** A run of capitals that points to a run of small letters which points back. */
  predicate Paired(t: Tables, k: nat, m: nat)
    requires WellFormed(t)
  {
    && k < |t.t1| && m < |t.t1| && Len(t.t1[k]) == Len(t.t1[m])
    && (Type(t.t1[k]) == TYPE_L || Type(t.t1[k]) == TYPE_LF) && Data(t, k) == m
    && (Type(t.t1[m]) == TYPE_U || Type(t.t1[m]) == TYPE_UF) && Data(t, m) == k
  }

  lemma PointedForm(t: Tables, k: nat, c: nat)
    requires WellFormed(t) && k < |t.t1| && Covers(t, k, c) && Type(t.t1[k]) <= TYPE_LF && 2 <= k
    ensures Data(t, k) < |t.t1|
    ensures var d, ty := Code(t.t1[Data(t, k)]) + c - Code(t.t1[k]), Type(t.t1[k]);
            && CaseConv.CaseConv(t, c, Upper) == [if ty == TYPE_U || ty == TYPE_UF then d else c]
            && CaseConv.CaseConv(t, c, Lower) == [if ty == TYPE_L || ty == TYPE_LF then d else c]
            && CaseConv.CaseConv(t, c, Fold) == [if ty == TYPE_UF || ty == TYPE_LF then d else c]
  {
    assert EntryOk(t, k);
    RunUnique(t, c, k);
    hide WellFormed, RunOf, Covers, Code, Len, Type;
  }

  /** The letters of two such runs correspond one to one. Of each pair the folding picks the capital
      if that run says so, otherwise the small letter. */
  lemma PairedForms(t: Tables, k: nat, m: nat, a: nat)
    requires WellFormed(t) && Paired(t, k, m) && a < Len(t.t1[k])
    ensures var capital, small := Code(t.t1[k]) + a, Code(t.t1[m]) + a;
            && CaseConv.CaseConv(t, capital, Lower) == CaseConv.CaseConv(t, small, Lower) == [small]
            && CaseConv.CaseConv(t, capital, Upper) == CaseConv.CaseConv(t, small, Upper) == [capital]
            && CaseConv.CaseConv(t, capital, Fold) == [if Type(t.t1[k]) == TYPE_LF then small else capital]
            && CaseConv.CaseConv(t, small, Fold) == [if Type(t.t1[m]) == TYPE_UF then capital else small]
  {
    var capital, small := Code(t.t1[k]) + a, Code(t.t1[m]) + a;
    if 2 <= k && 2 <= m {
      hide WellFormed, RunOf, Code, Len, Type, CaseConv.CaseConv;
      PointedForm(t, k, capital);
      PointedForm(t, m, small);
    } else {
      hide RunOf, CaseConvEntry, Ascii;
    }
  }

  /** No conversion of `c` in run `k` is `c` itself by an accident of the table. */
  predicate Displaces(t: Tables, k: nat, c: int)
    requires WellFormed(t) && k < |t.t1|
  {
    var d, ty := Data(t, k), Type(t.t1[k]);
    assert EntryOk(t, k);
    if ty <= TYPE_LF then Code(t.t1[d]) != Code(t.t1[k])
    else if ty == TYPE_U2L_399_EXT2 then t.ext[d % 64] != Code(t.t1[k])
    else if ty == TYPE_UF_D20 then d != c && d + 0x20 != c
    else if ty == TYPE_UF_D1_EXT then t.ext[d] != c && t.ext[d] + 1 != c
    else if ty == TYPE_U_EXT || ty == TYPE_LF_EXT then t.ext[d] != c
    else true
  }

  lemma SelectedModified(t: Tables, mask: CaseMask, k: nat, c: nat)
    requires WellFormed(t) && k < |t.t1| && Taken(t, mask, k, c) && Displaces(t, k, c)
    ensures exists conv :: Includes(mask, conv) && CaseConvEntry(t, c, conv, k) != [c]
  {
    hide CaseConv.CaseConv, LetterRun;
    assert EntryOk(t, k);
    var u, l, f := CaseConvEntry(t, c, Upper, k), CaseConvEntry(t, c, Lower, k), CaseConvEntry(t, c, Fold, k);
    assert || (Includes(mask, Upper) && u != [c]) || (Includes(mask, Lower) && l != [c])
           || (Includes(mask, Fold) && f != [c]);
  }

  /** The set that a mask asks for holds exactly the characters that one of its conversions
      changes. */
  lemma MaskExact(t: Tables, mask: CaseMask, k: nat, c: nat)
    requires WellFormed(t) && k < |t.t1| && Covers(t, k, c) && Displaces(t, k, c)
    ensures InMask(t, mask, c) <==> exists conv :: Includes(mask, conv) && CaseConv.CaseConv(t, c, conv) != [c]
  {
    hide CaseConv.CaseConv, CaseConvEntry, LetterRun, EntryOk, Displaces, Selected;
    assert forall conv :: CaseConvEntry(t, c, conv, k) == CaseConv.CaseConv(t, c, conv) by {
      forall conv ensures CaseConvEntry(t, c, conv, k) == CaseConv.CaseConv(t, c, conv) {
        EntryIsConversion(t, c, conv, k);
      }
    }
    if InMask(t, mask, c) {
      var m :| Taken(t, mask, m, c);
      RunUnique(t, c, m);
      RunUnique(t, c, k);
      SelectedModified(t, mask, k, c);
    }
    forall conv | Includes(mask, conv) && CaseConv.CaseConv(t, c, conv) != [c] ensures InMask(t, mask, c) {
      ModifiedInMask(t, c, conv, mask);
    }
  }

  /** The set that cr_regexp_canonicalize goes through holds exactly the characters that its
      conversion changes. */
  lemma RegexpMaskExact(t: Tables, isUnicode: bool, k: nat, c: nat)
    requires WellFormed(t) && k < |t.t1| && Covers(t, k, c) && Displaces(t, k, c)
    ensures InMask(t, RegexpMask(isUnicode), c) <==>
            CaseConv.CaseConv(t, c, if isUnicode then Fold else Upper) != [c]
  {
    hide WellFormed, CaseConv.CaseConv, Displaces, InMask;
    var mask, conv := RegexpMask(isUnicode), if isUnicode then Fold else Upper;
    MaskExact(t, mask, k, c);
    assert forall other :: Includes(mask, other) <==> other == conv;
  }

  lemma EntryIsConversion(t: Tables, c: nat, conv: Conv, k: nat)
    requires WellFormed(t) && k < |t.t1| && Covers(t, k, c)
    ensures CaseConvEntry(t, c, conv, k) == CaseConv.CaseConv(t, c, conv)
  {
    if c < 128 {
      AsciiIsTable(t, c, conv, k);
    } else {
      RunUnique(t, c, k);
    }
  }

  /** The four fields of an entry, packed from the top of the word down to the byte. */
  lemma PackedEntry(t: Tables, k: nat, code: nat, len: nat, ty: nat, data: nat)
    requires code < 0x2_0000 && len < 0x80 && ty < 0x10 && data < 0x1000
    requires Row(t, k, code * 0x8000 + len * 0x100 + ty * 0x10 + data / 0x100, data % 0x100)
    ensures Code(t.t1[k]) == code && Len(t.t1[k]) == len && Type(t.t1[k]) == ty && Data(t, k) == data
  {
    var v, high := t.t1[k], data / 0x100;
    assert v / 0x100 == code * 0x80 + len;
    assert v / 0x10 == 0x10 * (code * 0x80 + len) + ty;
    assert v % 0x10 == high;
  }

  /** Entry `k` of the shipped tables holds this word and this byte. */
  predicate Row(t: Tables, k: nat, word: nat, byte: nat) {
    k < |t.t1| && k < |t.t2| && t.t1[k] == word && t.t2[k] == byte
  }

  predicate Ext(t: Tables, i: nat, c: nat) {
    i < |t.ext| && t.ext[i] == c
  }

  /** The forms of a character. */
  ghost predicate Forms(t: Tables, c: int, upper: seq<int>, lower: seq<int>, fold: seq<int>)
    requires WellFormed(t)
  {
    && CaseConv.CaseConv(t, c, Upper) == upper && CaseConv.CaseConv(t, c, Lower) == lower
    && CaseConv.CaseConv(t, c, Fold) == fold
  }

  /** A with macron and the letters behind it, capital and small in turn. */
  lemma MacronForms(t: Tables, k: nat, a: nat)
    requires WellFormed(t) && Row(t, k, 0x00803040, 0x00) && a < 24
    ensures Forms(t, 0x100 + 2 * a, [0x100 + 2 * a], [0x101 + 2 * a], [0x101 + 2 * a])
    ensures Forms(t, 0x101 + 2 * a, [0x100 + 2 * a], [0x101 + 2 * a], [0x101 + 2 * a])
  {
    RunUnique(t, 0x100 + 2 * a, k);
    RunUnique(t, 0x101 + 2 * a, k);
  }

  /** DZ with caron: capital, title and small form. */
  lemma CaronForms(t: Tables, k: nat, c: nat)
    requires WellFormed(t) && Row(t, k, 0x00e20350, 0x00) && 0x1c4 <= c <= 0x1c6
    ensures Forms(t, c, [0x1c4], [0x1c6], [0x1c6])
  {
    RunUnique(t, c, k);
  }

  /** Alpha with breathing and iota below: the capital keeps its iota as a second letter. */
  lemma IotaForms(t: Tables, k: nat, a: nat)
    requires WellFormed(t) && Row(t, k, 0x0fc40867, 0x9f) && Ext(t, 30, 0x1f08) && Ext(t, 31, 0x1f80) && a < 8
    ensures Forms(t, 0x1f88 + a, [0x1f08 + a, 0x399], [0x1f80 + a], [0x1f80 + a])
  {
    RunUnique(t, 0x1f88 + a, k);
  }

  /** The micro sign goes with mu. */
  lemma MicroForms(t: Tables, k: nat)
    requires WellFormed(t) && Row(t, k, 0x005a8173, 0x9c)
    ensures Forms(t, 0xb5, [0x39c], [0xb5], [0x3bc])
  {
    RunUnique(t, 0xb5, k);
  }

  /** Long s with a dot goes with s with a dot. */
  lemma LongSForms(t: Tables, k: nat)
    requires WellFormed(t) && Row(t, k, 0x0f4d8180, 0x36) && Ext(t, 54, 0x1e60)
    ensures Forms(t, 0x1e9b, [0x1e60], [0x1e9b], [0x1e61])
  {
    RunUnique(t, 0x1e9b, k);
  }

  /** The dotless i becomes I and is not folded, and without the unicode flag not identified with
      it either. */
  lemma DotlessForms(t: Tables, k: nat)
    requires WellFormed(t) && Row(t, k, 0x00988190, 0x0b) && Ext(t, 11, 0x49)
    ensures Forms(t, 0x131, [0x49], [0x131], [0x131])
    ensures Canonicalize(t, 0x131, false) == 0x131
  {
    RunUnique(t, 0x131, k);
  }

  /** The Kelvin sign becomes k; only under the unicode flag are the two identified. */
  lemma KelvinForms(t: Tables, k: nat)
    requires WellFormed(t) && Row(t, k, 0x109501a0, 0x38) && Ext(t, 56, 0x6b)
    ensures Forms(t, 0x212a, [0x212a], [0x6b], [0x6b])
    ensures Canonicalize(t, 0x212a, true) == Canonicalize(t, 0x4b, true)
    ensures Canonicalize(t, 0x212a, false) != Canonicalize(t, 0x4b, false)
  {
    RunUnique(t, 0x212a, k);
  }

  /** I with a dot becomes i and the dot. */
  lemma DottedForms(t: Tables, k: nat)
    requires WellFormed(t) && Row(t, k, 0x009801c3, 0x8f) && Ext(t, 14, 0x69) && Ext(t, 15, 0x307)
    ensures Forms(t, 0x130, [0x130], [0x69, 0x307], [0x69, 0x307])
  {
    RunUnique(t, 0x130, k);
  }

  /** The two ligatures of s and t have the same forms, and the regular expressions identify them
      under the unicode flag. */
  lemma LongLigatureForms(t: Tables, k: nat)
    requires WellFormed(t) && Row(t, k, 0x7d8281b3, 0x58) && Ext(t, 13, 0x53) && Ext(t, 24, 0x54)
    ensures Forms(t, 0xfb05, [0x53, 0x54], [0xfb05], [0x73, 0x74])
    ensures Canonicalize(t, 0xfb05, true) == Canonicalize(t, 0xfb05, false) == 0xfb05
  {
    RunUnique(t, 0xfb05, k);
    hide WellFormed, RunOf;
  }

  lemma LigatureForms(t: Tables, k: nat)
    requires WellFormed(t) && Row(t, k, 0x7d8301b3, 0x58) && Ext(t, 13, 0x53) && Ext(t, 24, 0x54)
    ensures Forms(t, 0xfb06, [0x53, 0x54], [0xfb06], [0x73, 0x74])
    ensures Canonicalize(t, 0xfb06, true) == 0xfb05 && Canonicalize(t, 0xfb06, false) == 0xfb06
  {
    RunUnique(t, 0xfb06, k);
    hide WellFormed, RunOf;
  }

  /** The ligature ffi. */
  lemma FfiForms(t: Tables, k: nat)
    requires WellFormed(t) && Row(t, k, 0x7d8181da, 0xab) && Ext(t, 10, 0x46) && Ext(t, 11, 0x49)
    ensures Forms(t, 0xfb03, [0x46, 0x46, 0x49], [0xfb03], [0x66, 0x66, 0x69])
  {
    RunUnique(t, 0xfb03, k);
  }

  /** Iota with dialytika and tonos, and upsilon too, is encoded twice; the two become the same three
      letters, and the regular expressions identify them under the unicode flag. */
  lemma IotaTonosForms(t: Tables, k: nat, m: nat)
    requires WellFormed(t) && Row(t, k, 0x01c801d0, 0x12) && Row(t, m, 0x0fe981d0, 0x12)
    requires Ext(t, 0, 0x399) && Ext(t, 1, 0x308) && Ext(t, 2, 0x301)
    ensures CaseConv.CaseConv(t, 0x1fd3, Upper) == CaseConv.CaseConv(t, 0x390, Upper) == [0x399, 0x308, 0x301]
    ensures Canonicalize(t, 0x1fd3, true) == Canonicalize(t, 0x390, true) == 0x390
  {
    RunUnique(t, 0x390, k);
    RunUnique(t, 0x1fd3, m);
    hide WellFormed, RunOf;
  }

  lemma UpsilonTonosForms(t: Tables, k: nat, m: nat)
    requires WellFormed(t) && Row(t, k, 0x01d801d3, 0x12) && Row(t, m, 0x0ff181d3, 0x12)
    requires Ext(t, 1, 0x308) && Ext(t, 2, 0x301) && Ext(t, 3, 0x3a5)
    ensures CaseConv.CaseConv(t, 0x1fe3, Upper) == CaseConv.CaseConv(t, 0x3b0, Upper) == [0x3a5, 0x308, 0x301]
    ensures Canonicalize(t, 0x1fe3, true) == Canonicalize(t, 0x3b0, true) == 0x3b0
  {
    RunUnique(t, 0x3b0, k);
    RunUnique(t, 0x1fe3, m);
    hide WellFormed, RunOf;
  }
}
