/** The packed tables told from the side of their writer: a list of run lengths put into bytes as
    the format says, and places put into an index, are read back as they were. */
module TableFormat {
  import opened PropTable

  /** The longest run that a unit can hold. */
  const RUN_MAX: nat := 0x20_0000

  predicate Runs(runs: seq<nat>) {
    forall k :: 0 <= k < |runs| ==> 1 <= runs[k] <= RUN_MAX
  }

  /** One run by itself: in 7 bits, or in 5 bits and one or two more bytes, always less one. */
  function RunBytes(n: nat): seq<nat>
    requires 1 <= n <= RUN_MAX
  {
    if n <= 0x80 then [0x7F + n]
    else if n <= 0x2000 then [0x40 + (n - 1) / 0x100, (n - 1) % 0x100]
    else [0x60 + (n - 1) / 0x1_0000, (n - 1) / 0x100 % 0x100, (n - 1) % 0x100]
  }

  /** Two short runs in a row share a byte. */
  function Packed(runs: seq<nat>): seq<nat>
    requires Runs(runs)
  {
    if runs == [] then []
    else if |runs| >= 2 && runs[0] <= 8 && runs[1] <= 8 then [8 * (runs[0] - 1) + (runs[1] - 1)] + Packed(runs[2..])
    else RunBytes(runs[0]) + Packed(runs[1..])
  }

  function Sum(runs: seq<nat>): nat {
    if runs == [] then 0 else runs[0] + Sum(runs[1..])
  }

  /** Runs of changing status, the first of status `bit`, laid out from `code` on: `c` lies in one of
      status true. */
  predicate InAlternate(runs: seq<nat>, code: nat, bit: bool, c: nat) {
    runs != [] &&
    if c < code + runs[0] then code <= c && bit else InAlternate(runs[1..], code + runs[0], !bit, c)
  }

  lemma OneReads(table: seq<nat>, p: nat, n: nat)
    requires 1 <= n <= RUN_MAX && p + |RunBytes(n)| <= |table| && table[p..p + |RunBytes(n)|] == RunBytes(n)
    ensures Whole(table, p) && UnitSize(table[p]) == |RunBytes(n)| && table[p] >= 0x40
    ensures FirstRun(table, p) == n && SecondRun(table, p) == 0
  {
    var bytes := RunBytes(n);
    var cut := table[p..p + |bytes|];
    assert forall k :: 0 <= k < |bytes| ==> cut[k] == table[p + k];
    assert table[p] == bytes[0];
    if |bytes| > 1 { assert table[p + 1] == bytes[1]; }
    if |bytes| > 2 { assert table[p + 2] == bytes[2]; }
  }

  lemma TwoRead(table: seq<nat>, p: nat, m: nat, n: nat)
    requires 1 <= m <= 8 && 1 <= n <= 8 && p < |table| && table[p] == 8 * (m - 1) + (n - 1)
    ensures Whole(table, p) && UnitSize(table[p]) == 1 && table[p] < 0x40
    ensures FirstRun(table, p) == m && SecondRun(table, p) == n
  {
  }

  /** What stands in front, and how many runs it holds. */
  lemma UnitReads(table: seq<nat>, p: nat, runs: seq<nat>) returns (n: nat)
    requires Runs(runs) && runs != [] && p <= |table| && table[p..] == Packed(runs)
    ensures 1 <= n <= |runs| && n <= 2 && Whole(table, p)
    ensures FirstRun(table, p) == runs[0] && SecondRun(table, p) == (if n == 2 then runs[1] else 0)
    ensures n == 2 <==> table[p] < 0x40
    ensures table[p + UnitSize(table[p])..] == Packed(runs[n..])
  {
    hide RunBytes, FirstRun, SecondRun, UnitSize;
    if |runs| >= 2 && runs[0] <= 8 && runs[1] <= 8 {
      n := 2;
      assert table[p] == table[p..][0];
      TwoRead(table, p, runs[0], runs[1]);
      assert table[p..][1..] == table[p + 1..];
    } else {
      n := 1;
      var size := |RunBytes(runs[0])|;
      assert table[p..p + size] == table[p..][..size];
      OneReads(table, p, runs[0]);
      assert table[p..][size..] == table[p + size..];
    }
  }

  /** What one unit of `n` runs says. */
  lemma UnitSays(runs: seq<nat>, n: nat, code: nat, bit: bool, c: nat)
    requires n == 1 || n == 2
    requires n <= |runs|
    ensures var second := if n == 2 then runs[1] else 0;
            && Sum(runs) == runs[0] + second + Sum(runs[n..])
            && InAlternate(runs, code, bit, c) ==
               if c < code + runs[0] then code <= c && bit
               else if c < code + runs[0] + second then !bit
               else InAlternate(runs[n..], code + runs[0] + second, bit == (n == 2), c)
  {
    if n == 2 {
      assert runs[1..][1..] == runs[2..];
    }
  }

  /** Reading back from any place: the same code points, nothing cut short, and the right end. */
  lemma {:induction false} PackedReads(table: seq<nat>, s: Place, runs: seq<nat>, c: nat)
    requires Runs(runs) && s.pos <= |table| && table[s.pos..] == Packed(runs)
    ensures Decodes(table, s) && Total(table, s) == s.code + Sum(runs)
    ensures InRuns(table, s, c) <==> InAlternate(runs, s.code, s.bit, c)
    decreases |runs|
  {
    assert runs == [] ==> Packed(runs) == [];
    hide FirstRun, SecondRun, UnitSize, Packed;
    if runs != [] {
      hide InAlternate, Sum;
      var n := UnitReads(table, s.pos, runs);
      PackedReads(table, After(table, s), runs[n..], c);
      UnitSays(runs, n, s.code, s.bit, c);
    }
  }

  /** One index entry: 21 bits of code point, and above them how far the place is behind the end of
      its block of 32 bytes. */
  function IndexEntry(k: nat, place: Place): seq<nat>
    requires 32 * (k + 1) <= place.pos < 32 * (k + 1) + 8 && place.code < 0x20_0000
  {
    var v := place.code + (place.pos - 32 * (k + 1)) * 0x20_0000;
    [v % 0x100, v / 0x100 % 0x100, v / 0x1_0000]
  }

  lemma ThreeBytes(v: nat)
    ensures v % 0x100 + v / 0x100 % 0x100 * 0x100 + v / 0x1_0000 * 0x1_0000 == v
  {
    assert v / 0x1_0000 == v / 0x100 / 0x100;
  }

  lemma IndexReads(index: seq<nat>, k: nat, place: Place)
    requires 32 * (k + 1) <= place.pos < 32 * (k + 1) + 8 && place.code < 0x20_0000 && !place.bit
    requires 3 * k + 3 <= |index| && index[3 * k..3 * k + 3] == IndexEntry(k, place)
    ensures IndexPlace(index, k) == place
  {
    var v := place.code + (place.pos - 32 * (k + 1)) * 0x20_0000;
    var entry := index[3 * k..3 * k + 3];
    assert index[3 * k] == entry[0] && index[3 * k + 1] == entry[1] && index[3 * k + 2] == entry[2];
    ThreeBytes(v);
    assert Le24(index, k) == v;
    hide Le24, IndexEntry;
  }

  lemma {:induction false} PackedBytes(runs: seq<nat>)
    requires Runs(runs)
    ensures Bytes(Packed(runs))
    decreases |runs|
  {
    if |runs| >= 2 && runs[0] <= 8 && runs[1] <= 8 {
      PackedBytes(runs[2..]);
    } else if runs != [] {
      PackedBytes(runs[1..]);
    }
  }

  /** A table written from runs, with an index that holds just the end of the last, can be looked up. */
  lemma WrittenIndexed(runs: seq<nat>, index: seq<nat>)
    requires Runs(runs) && Sum(runs) < RUN_MAX
    requires index == [Sum(runs) % 0x100, Sum(runs) / 0x100 % 0x100, Sum(runs) / 0x1_0000]
    ensures WellIndexed(Packed(runs), index) && Bound(index) == Sum(runs)
  {
    PackedBytes(runs);
    PackedReads(Packed(runs), START, runs, 0);
    ThreeBytes(Sum(runs));
    hide Packed, Sum, Decodes, Total, Passes;
    assert |index| / 3 - 1 == 0;
    assert Le24(index, 0) == Sum(runs);
  }
}
