/** re_emit_string_list: collects the strings of a class from the hash table, puts the longest
    first, emits them one after the other, and patches the jumps to the end, which are chained
    through their own operands while the end is not known. */
module StringEmission {
  import opened Bytes
  import opened Opcodes
  import opened Emission
  import opened Fitting
  import opened Compiler
  import opened StringList
  import opened ClassStrings
  import RqSort

  /** re_string_cmp_len. */
  function CmpLen(p: seq<nat>, q: seq<nat>): int {
    (if |p| < |q| then 1 else 0) - (if |p| > |q| then 1 else 0)
  }

  lemma CmpLenOrders()
    ensures RqSort.TotalPreorder(CmpLen)
  {
  }

  ghost predicate LongestFirst(strings: seq<seq<nat>>) {
    forall i, j :: 0 <= i < j < |strings| ==> |strings[i]| >= |strings[j]|
  }

  /** The strings other than the empty one, in the order of the table. */
  function Bufs(chain: seq<REString>): (r: seq<seq<nat>>)
    ensures |r| <= |chain|
  {
    if chain == [] then []
    else
      var last := chain[|chain| - 1].buf;
      Bufs(chain[..|chain| - 1]) + if last != [] then [last] else []
  }

  function AllBufs(chains: seq<seq<REString>>): (r: seq<seq<nat>>)
    ensures |r| <= Total(chains)
  {
    if chains == [] then [] else AllBufs(chains[..|chains| - 1]) + Bufs(chains[|chains| - 1])
  }

  lemma {:induction false} BufsCount(chain: seq<REString>, x: seq<nat>)
    requires Unique(chain)
    ensures multiset(Bufs(chain))[x] == if x != [] && InChain(chain, x) then 1 else 0
  {
    hide InChain;
    if chain == [] {
      NoneInChain(x);
    } else {
      var n := |chain| - 1;
      var front, last := chain[..n], chain[n];
      BufsCount(front, x);
      InChainSnoc(front, last, x);
      assert chain == front + [last];
      NotTwice(front, last);
      var bufs, one := Bufs(front), if last.buf != [] then [last.buf] else [];
      assert Bufs(chain) == bufs + one;
      hide Bufs, Unique;
      assert multiset(bufs + one)[x] == multiset(bufs)[x] + multiset(one)[x];
    }
  }

  lemma NotTwice(front: seq<REString>, last: REString)
    requires Unique(front + [last])
    ensures !InChain(front, last.buf)
  {
    var all := front + [last];
    assert forall k :: 0 <= k < |front| ==> all[k] == front[k] && all[k].buf != all[|front|].buf;
  }

  lemma OwnBucket(table: array<REString?>, chains: seq<seq<REString>>, bits: nat, i: nat, x: seq<nat>)
    requires TableOk(table, chains, bits) && i < |chains|
    ensures Unique(chains[i])
    ensures InChain(chains[i], x) <==> Stored(chains, bits, x) && Bucket(Hash(x), bits) == i
  {
    assert ChainOk(table[i], chains[i], bits, i);
    if InChain(chains[i], x) { StoredAnywhere(table, chains, bits, i, x); }
  }

  /** Every string of the table but the empty one is collected once. */
  lemma {:induction false} AllBufsCount(table: array<REString?>, chains: seq<seq<REString>>, bits: nat, n: nat,
                                        x: seq<nat>)
    requires TableOk(table, chains, bits) && n <= |chains|
    ensures multiset(AllBufs(chains[..n]))[x] == if x != [] && Stored(chains, bits, x) && Bucket(Hash(x), bits) < n
            then 1 else 0
  {
    hide TableOk, Stored, Hash, Bucket, InChain, Unique, Bufs;
    if n > 0 {
      AllBufsNext(chains, n - 1);
      AllBufsCount(table, chains, bits, n - 1, x);
      OwnBucket(table, chains, bits, n - 1, x);
      BufsCount(chains[n - 1], x);
    }
  }

  lemma AllBufsNext(chains: seq<seq<REString>>, i: nat)
    requires i < |chains|
    ensures AllBufs(chains[..i + 1]) == AllBufs(chains[..i]) + Bufs(chains[i])
  {
    assert chains[..i + 1][..i] == chains[..i];
  }

  lemma BufsNext(chain: seq<REString>, k: nat)
    requires k < |chain|
    ensures Bufs(chain[..k + 1]) == Bufs(chain[..k]) + if chain[k].buf != [] then [chain[k].buf] else []
  {
    assert chain[..k + 1][..k] == chain[..k];
  }

  /** The loop over one chain: strings go to `tab` from index `n0` on. */
  method CollectChain(sl: REStringList, i: nat, tab: array<seq<nat>>, n0: nat) returns (n: nat, empty: bool)
    requires sl.Valid() && i < |sl.chains| && n0 + |sl.chains[i]| <= tab.Length
    modifies tab
    ensures n0 <= n <= n0 + |sl.chains[i]| && tab[..n] == old(tab[..n0]) + Bufs(sl.chains[i])
    ensures empty == InChain(sl.chains[i], [])
  {
    hide REStringList.Valid, InFirst, InChain;
    ghost var chain, was := sl.chains[i], tab[..n0];
    InFirstNone(chain);
    InFirstAll(chain);
    sl.NodeFacts(i, 0);
    n, empty := n0, false;
    var p := sl.hashTable[i];
    ghost var k := 0;
    assert chain[..0] == [];
    while p != null
      invariant 0 <= k <= |chain| && p == NodeAt(chain, k) && sl.Valid()
      invariant n0 <= n <= n0 + k && tab[..n] == was + Bufs(chain[..k])
      invariant empty == InFirst(chain, k, [])
      decreases |chain| - k
    {
      sl.NodeFacts(i, k);
      BufsNext(chain, k);
      InFirstNext(chain, k);
      if |p.buf| == 0 {
        empty := true;
      } else {
        tab[n] := p.buf;
        n := n + 1;
      }
      p := p.next;
      k := k + 1;
    }
    assert chain[..k] == chain;
  }

  /** The two loops over the table. */
  method Collect(sl: REStringList) returns (tab: array<seq<nat>>, hasEmpty: bool)
    requires sl.Valid()
    ensures fresh(tab) && hasEmpty == sl.Has([])
    ensures forall x :: multiset(tab[..])[x] == if x != [] && sl.Has(x) then 1 else 0
  {
    hide REStringList.Valid, InChain, Stored, StoredTo, Bufs, AllBufs, TableOk, Total, Pow2, NodeSet;
    sl.Facts();
    ghost var chains := sl.chains;
    StoredStart(chains, sl.hashBits);
    StoredAll(chains, sl.hashBits);
    var all := new seq<nat>[sl.nStrings](_ => []);
    hasEmpty := false;
    var n, i := 0, 0;
    NothingCollected();
    assert all[..0] == [] && chains[..0] == [];
    while i < sl.hashSize
      invariant 0 <= i <= sl.hashSize && sl.Valid() && sl.chains == chains
      invariant n <= Total(chains[..i]) <= all.Length && all[..n] == AllBufs(chains[..i])
      invariant hasEmpty == StoredTo(chains, sl.hashBits, i, [])
    {
      TotalPrefix(chains, i);
      AllBufsNext(chains, i);
      sl.StoredNext(i);
      var empty;
      n, empty := CollectChain(sl, i, all, n);
      hasEmpty := hasEmpty || empty;
      i := i + 1;
    }
    assert chains[..i] == chains;
    tab := new seq<nat>[n](_ => []);
    forall k | 0 <= k < n {
      tab[k] := all[k];
    }
    assert tab[..] == all[..n] == AllBufs(sl.chains);
    CollectedOnce(sl);
  }

  lemma CollectedOnce(sl: REStringList)
    requires sl.Valid()
    ensures forall x :: multiset(AllBufs(sl.chains))[x] == if x != [] && sl.Has(x) then 1 else 0
  {
    hide TableOk, Stored, AllBufs;
    sl.Facts();
    assert sl.chains[..|sl.chains|] == sl.chains;
    forall x ensures multiset(AllBufs(sl.chains))[x] == if x != [] && sl.Has(x) then 1 else 0 {
      AllBufsCount(sl.hashTable, sl.chains, sl.hashBits, |sl.chains|, x);
      InOneBucket(sl.chains, sl.hashBits, x);
    }
  }

  lemma NothingCollected()
    ensures AllBufs([]) == []
  {
  }

  lemma InOneBucket(chains: seq<seq<REString>>, bits: nat, x: seq<nat>)
    ensures Stored(chains, bits, x) ==> Bucket(Hash(x), bits) < |chains|
  {
  }

  /** A string that is not the last part of the class: a split, its characters, and a jump up to
      its operand. */
  function PieceFront(icase: bool, s: seq<nat>): seq<byte> {
    [REOP_SPLIT_NEXT_FIRST] + PutU32(SizeAll(CharsCode(icase, s)) + 5) + EncodeAll(CharsCode(icase, s)) + [REOP_GOTO]
  }

  /** The first `k` pieces, behind `base` bytes of other code: until the end is known each jump
      operand holds the offset of the one before, the first -1. */
  function Pieces(icase: bool, strings: seq<seq<nat>>, base: nat, k: nat): seq<byte>
    requires k <= |strings|
    decreases k, 0
  {
    if k == 0 then []
    else
      Pieces(icase, strings, base, k - 1) + PieceFront(icase, strings[k - 1])
      + PutU32(Link(icase, strings, base, k - 1))
  }

  /** The offset of the last of these operands. */
  function Link(icase: bool, strings: seq<seq<nat>>, base: nat, k: nat): int
    requires k <= |strings|
    decreases k, 1
  {
    if k == 0 then -1 else base + |Pieces(icase, strings, base, k)| - 4
  }

  /** What stands before the operand of jump `k`. */
  function BeforeLink(icase: bool, strings: seq<seq<nat>>, pre: seq<byte>, k: nat): seq<byte>
    requires 0 < k <= |strings|
  {
    pre + Pieces(icase, strings, |pre|, k - 1) + PieceFront(icase, strings[k - 1])
  }

  lemma LinkIs(icase: bool, strings: seq<seq<nat>>, pre: seq<byte>, k: nat)
    requires k <= |strings|
    ensures -1 <= Link(icase, strings, |pre|, k) <= |pre| + |Pieces(icase, strings, |pre|, k)|
    ensures k > 0 ==>
              && |pre| + |Pieces(icase, strings, |pre|, k - 1)| <= |BeforeLink(icase, strings, pre, k)|
              && Link(icase, strings, |pre|, k) == |BeforeLink(icase, strings, pre, k)|
              && pre + Pieces(icase, strings, |pre|, k)
                 == BeforeLink(icase, strings, pre, k) + PutU32(Link(icase, strings, |pre|, k - 1))
  {
    hide PieceFront, PutU32;
  }

  /** With the jump patched to lead past the rest, the last piece and the rest are the code of the
      strings from it on. */
  lemma PatchedPiece(icase: bool, strings: seq<seq<nat>>, points: seq<int>, hasEmpty: bool, k: nat, pre: seq<byte>)
    requires 0 < k <= |strings| && !(k == |strings| && points == [] && !hasEmpty)
    ensures var rest := StringsCode(icase, strings[k..], points, hasEmpty);
            BeforeLink(icase, strings, pre, k) + PutU32(SizeAll(rest)) + EncodeAll(rest)
            == pre + Pieces(icase, strings, |pre|, k - 1)
            + EncodeAll(StringsCode(icase, strings[k - 1..], points, hasEmpty))
  {
    hide EncodeAll, SizeAll, PutU32, CharsCode, AltCode, Pieces, StringsCode, PieceFront;
    var rest := StringsCode(icase, strings[k..], points, hasEmpty);
    StringsCodeStep(icase, strings, points, hasEmpty, k);
    PieceBytes(icase, strings[k - 1], rest);
    var front := pre + Pieces(icase, strings, |pre|, k - 1);
    Regroup(front, PieceFront(icase, strings[k - 1]), PutU32(SizeAll(rest)), EncodeAll(rest));
  }

  lemma PieceBytes(icase: bool, s: seq<nat>, rest: seq<Instr>)
    ensures PieceFront(icase, s) + PutU32(SizeAll(rest)) + EncodeAll(rest)
            == EncodeAll(AltCode(CharsCode(icase, s), rest))
  {
    hide EncodeAll, SizeAll, PutU32, CharsCode, AltCode;
    AltBytes(CharsCode(icase, s), rest);
  }

  lemma Regroup(w: seq<byte>, x: seq<byte>, y: seq<byte>, z: seq<byte>)
    ensures w + x + y + z == w + (x + y + z)
  {
  }

  lemma StringsCodeStep(icase: bool, strings: seq<seq<nat>>, points: seq<int>, hasEmpty: bool, k: nat)
    requires 0 < k <= |strings| && !(k == |strings| && points == [] && !hasEmpty)
    ensures StringsCode(icase, strings[k - 1..], points, hasEmpty) ==
            AltCode(CharsCode(icase, strings[k - 1]), StringsCode(icase, strings[k..], points, hasEmpty))
  {
    hide CharsCode, AltCode;
    var from := strings[k - 1..];
    assert from[0] == strings[k - 1] && from[1..] == strings[k..];
  }

  /** The last loop of re_emit_string_list. */
  method PatchJumps(s: REParseState, ghost icase: bool, lastMatchPos0: int, ghost strings: seq<seq<nat>>,
                    ghost points: seq<int>, ghost hasEmpty: bool, ghost pre: seq<byte>, ghost n: nat)
    requires n <= |strings| && (n == |strings| ==> points != [] || hasEmpty || n == 0)
    requires s.byteCode == pre + Pieces(icase, strings, |pre|, n)
             + EncodeAll(StringsCode(icase, strings[n..], points, hasEmpty))
    requires lastMatchPos0 == Link(icase, strings, |pre|, n) && |s.byteCode| <= CODE_MAX
    modifies s`byteCode
    ensures s.byteCode == pre + EncodeAll(StringsCode(icase, strings, points, hasEmpty))
  {
    hide EncodeAll, SizeAll, PutU32, StringsCode, PieceFront, Pieces, Link, BeforeLink, GetU32;
    var lastMatchPos := lastMatchPos0;
    ghost var k := n;
    LinkZero(icase, strings, |pre|);
    while lastMatchPos != -1
      invariant 0 <= k <= n && lastMatchPos == Link(icase, strings, |pre|, k) && |s.byteCode| <= CODE_MAX
      invariant s.byteCode == pre + Pieces(icase, strings, |pre|, k)
                + EncodeAll(StringsCode(icase, strings[k..], points, hasEmpty))
      decreases k
    {
      ghost var rest := StringsCode(icase, strings[k..], points, hasEmpty);
      ghost var front, link := BeforeLink(icase, strings, pre, k), Link(icase, strings, |pre|, k - 1);
      LinkIs(icase, strings, pre, k);
      LinkIs(icase, strings, pre, k - 1);
      assert s.byteCode == front + PutU32(link) + EncodeAll(rest);
      LinkRead(s.byteCode, front, link, EncodeAll(rest));
      var nextPos := Signed(GetU32(s.byteCode, lastMatchPos));
      s.PatchAt(lastMatchPos, |s.byteCode| - (lastMatchPos + 4), front, PutU32(link), EncodeAll(rest));
      PatchedPiece(icase, strings, points, hasEmpty, k, pre);
      lastMatchPos := nextPos;
      k := k - 1;
    }
    LinkIs(icase, strings, pre, k);
    assert k == 0;
    assert strings[0..] == strings && pre + [] == pre;
  }

  lemma LinkZero(icase: bool, strings: seq<seq<nat>>, base: nat)
    ensures Link(icase, strings, base, 0) == -1 && Pieces(icase, strings, base, 0) == []
  {
  }

  /** A link reads back as it was written. */
  lemma LinkRead(code: seq<byte>, front: seq<byte>, link: int, back: seq<byte>)
    requires code == front + PutU32(link) + back && -1 <= link <= |code| <= CODE_MAX
    ensures |front| + 4 <= |code| && Signed(GetU32(code, |front|)) == link
  {
    hide PutU32, GetU32;
    assert code[|front|..|front| + 4] == PutU32(link);
    GetPutU32(code, |front|, link);
  }

  /** The number of strings that are emitted as pieces: all, or all but the last when nothing
      follows it. */
  function PieceCount(strings: seq<seq<nat>>, points: seq<int>, hasEmpty: bool): (n: nat)
    ensures n <= |strings|
  {
    if points == [] && !hasEmpty && strings != [] then |strings| - 1 else |strings|
  }

  /** The characters of one string. */
  method EmitChars(s: REParseState, str: seq<nat>)
    modifies s`byteCode
    ensures s.byteCode == old(s.byteCode) + EncodeAll(CharsCode(s.flags.icase, str))
  {
    hide EncodeAll, SizeAll, PutU32, CharInstr, Encode;
    var j := 0;
    assert str[..0] == [];
    NoChars(s.flags.icase);
    ghost var was := s.byteCode;
    while j < |str|
      invariant 0 <= j <= |str|
      invariant s.byteCode == was + EncodeAll(CharsCode(s.flags.icase, str[..j]))
    {
      CharsNext(s.flags.icase, str, j);
      s.EmitInstr(CharInstr(s.flags.icase, str[j]));
      j := j + 1;
    }
    assert str[..j] == str;
  }

  lemma NoChars(icase: bool)
    ensures EncodeAll(CharsCode(icase, [])) == []
  {
  }

  lemma CharsNext(icase: bool, str: seq<nat>, j: nat)
    requires j < |str|
    ensures EncodeAll(CharsCode(icase, str[..j + 1])) ==
            EncodeAll(CharsCode(icase, str[..j])) + Encode(CharInstr(icase, str[j]))
  {
    hide CharInstr, Encode;
    assert str[..j + 1][..j] == str[..j];
    EncodeAllAppend(CharsCode(icase, str[..j]), [CharInstr(icase, str[j])]);
    EncodeOne(CharInstr(icase, str[j]));
  }

  /** One string as a piece: the split is patched as soon as the piece is complete. */
  method EmitPiece(s: REParseState, str: seq<nat>, link: int) returns (lastMatchPos: int)
    modifies s`byteCode
    ensures s.byteCode == old(s.byteCode) + PieceFront(s.flags.icase, str) + PutU32(link)
    ensures lastMatchPos == |s.byteCode| - 4
  {
    hide EncodeAll, SizeAll, PutU32, CharsCode;
    ghost var pre, code := s.byteCode, CharsCode(s.flags.icase, str);
    var splitPos := s.EmitOpU32(REOP_SPLIT_NEXT_FIRST, 0);
    EmitChars(s, str);
    lastMatchPos := s.EmitOpU32(REOP_GOTO, link);
    ghost var back := EncodeAll(code) + [REOP_GOTO] + PutU32(link);
    assert s.byteCode == pre + [REOP_SPLIT_NEXT_FIRST] + PutU32(0) + back;
    s.PatchAt(splitPos, |s.byteCode| - (splitPos + 4), pre + [REOP_SPLIT_NEXT_FIRST], PutU32(0), back);
  }

  /** The loop over the strings: pieces, and at the end perhaps a string with nothing after it. */
  method EmitPieces(s: REParseState, strings: seq<seq<nat>>, ghost points: seq<int>, noPoints: bool, hasEmpty: bool)
    returns (lastMatchPos: int)
    requires noPoints == (points == [])
    modifies s`byteCode
    ensures var icase, n := s.flags.icase, PieceCount(strings, points, hasEmpty);
            && s.byteCode == old(s.byteCode) + Pieces(icase, strings, |old(s.byteCode)|, n)
                             + (if n < |strings| then EncodeAll(CharsCode(icase, strings[n])) else [])
            && lastMatchPos == Link(icase, strings, |old(s.byteCode)|, n)
  {
    hide EncodeAll, SizeAll, PutU32, CharsCode, PieceFront;
    ghost var pre, icase, n := s.byteCode, s.flags.icase, PieceCount(strings, points, hasEmpty);
    lastMatchPos := -1;
    var i := 0;
    while i < |strings|
      invariant 0 <= i <= |strings|
      invariant s.byteCode == pre + Pieces(icase, strings, |pre|, if i <= n then i else n)
                              + (if n < i then EncodeAll(CharsCode(icase, strings[n])) else [])
      invariant lastMatchPos == Link(icase, strings, |pre|, if i <= n then i else n)
    {
      var isLast := !hasEmpty && noPoints && i == |strings| - 1;
      if isLast {
        EmitChars(s, strings[i]);
      } else {
        lastMatchPos := EmitPiece(s, strings[i], lastMatchPos);
      }
      i := i + 1;
    }
  }

  /** The characters of the class after the strings, with a split in front when the empty string
      may be taken instead. */
  method EmitTail(s: REParseState, points: seq<int>, hasEmpty: bool) returns (ok: bool)
    requires |points| % 2 == 0 && points != []
    modifies s`byteCode
    ensures ok <==> |points| / 2 < 65535
    ensures ok ==> s.byteCode == old(s.byteCode) + EncodeAll(TailCode(s.flags.icase, points, hasEmpty))
  {
    hide EncodeAll, SizeAll, PutU32, ClassInstr, Encode, TailCode;
    ghost var pre, range := s.byteCode, ClassInstr(s.flags.icase, points);
    TailIs(s.flags.icase, points, hasEmpty);
    if hasEmpty {
      var splitPos := s.EmitOpU32(REOP_SPLIT_NEXT_FIRST, 0);
      ok := s.EmitRange(points);
      if !ok {
        return;
      }
      assert s.byteCode == pre + [REOP_SPLIT_NEXT_FIRST] + PutU32(0) + Encode(range);
      s.PatchAt(splitPos, |s.byteCode| - (splitPos + 4), pre + [REOP_SPLIT_NEXT_FIRST], PutU32(0), Encode(range));
    } else {
      ok := s.EmitRange(points);
    }
  }

  lemma TailIs(icase: bool, points: seq<int>, hasEmpty: bool)
    requires points != []
    ensures var range := ClassInstr(icase, points);
            EncodeAll(TailCode(icase, points, hasEmpty)) ==
            if hasEmpty then [REOP_SPLIT_NEXT_FIRST] + PutU32(|Encode(range)|) + Encode(range) else Encode(range)
  {
    hide EncodeAll, PutU32, Encode, ClassInstr;
    var range := ClassInstr(icase, points);
    EncodeOne(range);
    if hasEmpty {
      EncodeAllAppend([Split(false, SizeAll([range]))], [range]);
      WordBytes(Split(false, SizeAll([range])));
    }
  }

  /** The code of a list: the range alone when there are no strings. */
  function ListCode(icase: bool, noStrings: bool, strings: seq<seq<nat>>, points: seq<int>,
                    hasEmpty: bool): seq<Instr> {
    if noStrings then [ClassInstr(icase, points)] else StringsCode(icase, strings, points, hasEmpty)
  }

  /** re_emit_string_list: appends the code of the class; its strings are those of the list, each
      once, the longest first. It fails only when there are too many ranges or too much code. */
  method EmitStringList(s: REParseState, sl: REStringList) returns (ok: bool, ghost strings: seq<seq<nat>>)
    requires sl.Valid() && sl.cr.Valid() && sl.cr.len % 2 == 0
    modifies s`byteCode
    ensures LongestFirst(strings)
    ensures forall x :: multiset(strings)[x] == if x != [] && sl.Has(x) then 1 else 0
    ensures var points := sl.cr.Contents();
            var code := ListCode(s.flags.icase, sl.nStrings == 0, strings, points, sl.Has([]));
            && (ok ==> s.byteCode == old(s.byteCode) + EncodeAll(code))
            && (!ok ==> |points| / 2 >= 65535 || |old(s.byteCode)| + SizeAll(code) > CODE_MAX)
  {
    hide EncodeAll, ClassInstr, StringsCode, SizeAll, LongestFirst, REStringList.Valid, Stored, RqSort.TotalPreorder;
    ghost var pre := s.byteCode;
    if sl.nStrings == 0 {
      NoStrings(sl);
      strings := [];
      ok := s.EmitRange(sl.cr.points[..sl.cr.len]);
      EncodeOne(ClassInstr(s.flags.icase, sl.cr.Contents()));
    } else {
      var tab, hasEmpty := Collect(sl);
      CmpLenOrders();
      RqSort.RqSort(tab, CmpLen);
      strings := tab[..];
      SortedByLength(strings);
      ok := EmitAll(s, tab[..], sl.cr.points[..sl.cr.len], hasEmpty);
    }
  }

  lemma NoStrings(sl: REStringList)
    requires sl.Valid() && sl.nStrings == 0
    ensures LongestFirst([]) && forall x :: !sl.Has(x)
  {
    sl.NoneYet();
  }

  lemma SortedByLength(strings: seq<seq<nat>>)
    requires RqSort.InOrder(CmpLen, strings, 0, |strings|)
    ensures LongestFirst(strings)
  {
    forall i, j | 0 <= i < j < |strings| ensures |strings[i]| >= |strings[j]| {
      assert CmpLen(strings[i], strings[j]) <= 0;
    }
  }

  /** The part of re_emit_string_list after sorting. */
  method EmitAll(s: REParseState, strings: seq<seq<nat>>, points: seq<int>, hasEmpty: bool) returns (ok: bool)
    requires |points| % 2 == 0
    modifies s`byteCode
    ensures var code := StringsCode(s.flags.icase, strings, points, hasEmpty);
            && (ok ==> s.byteCode == old(s.byteCode) + EncodeAll(code))
            && (!ok ==> |points| / 2 >= 65535 || |old(s.byteCode)| + SizeAll(code) > CODE_MAX)
  {
    hide EncodeAll, SizeAll, PutU32, ClassInstr, StringsCode, TailCode, CharsCode, Pieces, Link;
    ghost var pre, icase, n := s.byteCode, s.flags.icase, PieceCount(strings, points, hasEmpty);
    var lastMatchPos := EmitPieces(s, strings, points, |points| == 0, hasEmpty);
    ghost var pieces := Pieces(icase, strings, |pre|, n);
    if |points| != 0 {
      ok := EmitTail(s, points, hasEmpty);
      if !ok {
        return;
      }
    }
    RestCode(icase, strings, points, hasEmpty);
    ghost var rest := EncodeAll(StringsCode(icase, strings[n..], points, hasEmpty));
    assert s.byteCode == pre + pieces + rest;
    PiecesSize(icase, strings, points, hasEmpty, n, pre);
    if |s.byteCode| > CODE_MAX {
      return false;
    }
    PatchJumps(s, icase, lastMatchPos, strings, points, hasEmpty, pre, n);
    return true;
  }

  /** What follows the pieces. */
  lemma RestCode(icase: bool, strings: seq<seq<nat>>, points: seq<int>, hasEmpty: bool)
    ensures var n := PieceCount(strings, points, hasEmpty);
            EncodeAll(StringsCode(icase, strings[n..], points, hasEmpty)) ==
            (if n < |strings| then EncodeAll(CharsCode(icase, strings[n])) else [])
            + if points != [] then EncodeAll(TailCode(icase, points, hasEmpty)) else []
  {
    hide CharsCode, ClassInstr;
    var n := PieceCount(strings, points, hasEmpty);
    if n < |strings| {
      assert strings[n..] == [strings[n]];
    } else {
      assert strings[n..] == [];
    }
  }

  lemma {:induction false} PiecesSize(icase: bool, strings: seq<seq<nat>>, points: seq<int>, hasEmpty: bool, k: nat,
                                      pre: seq<byte>)
    requires k <= PieceCount(strings, points, hasEmpty)
    ensures |Pieces(icase, strings, |pre|, k)| + SizeAll(StringsCode(icase, strings[k..], points, hasEmpty))
            == SizeAll(StringsCode(icase, strings, points, hasEmpty))
  {
    hide SizeAll, EncodeAll, StringsCode, PieceFront;
    if k == 0 {
      assert strings[0..] == strings;
    } else {
      PiecesSize(icase, strings, points, hasEmpty, k - 1, pre);
      PatchedPiece(icase, strings, points, hasEmpty, k, pre);
    }
  }
}
