/** The strings of a character class with strings (libregexp.c): a hash table of linked chains,
    relinked in place when it grows and unlinked from when strings are removed. */
module StringList {
  import opened Points
  import opened CharRanges

  const TWO32: nat := 0x1_0000_0000

  /** More strings than memory holds; below this the table size stays a 32-bit number. */
  const MAX_STRINGS: nat := 0x2000_0000

  function Pow2(n: nat): (r: nat)
    ensures r >= 1
  {
    if n == 0 then 1 else 2 * Pow2(n - 1)
  }

  lemma {:induction false} Pow2Grows(m: nat, n: nat)
    requires m <= n
    ensures Pow2(m) <= Pow2(n)
  {
    if m < n { Pow2Grows(m, n - 1); }
  }

  function HashFrom(buf: seq<nat>): (r: nat)
    ensures r < TWO32
  {
    if buf == [] then 1 else (HashFrom(buf[..|buf| - 1]) * 263 + buf[|buf| - 1]) % TWO32
  }

  function Hash(buf: seq<nat>): (r: nat)
    ensures r < TWO32
  {
    HashFrom(buf) * 0x61C88647 % TWO32
  }

  /** re_string_hash, with its wrap-around. */
  method ReStringHash(buf: seq<nat>) returns (h: nat)
    ensures h == Hash(buf)
  {
    h := 1;
    var i := 0;
    while i < |buf|
      invariant 0 <= i <= |buf| && h == HashFrom(buf[..i])
    {
      assert buf[..i + 1][..i] == buf[..i];
      h := (h * 263 + buf[i]) % TWO32;
      i := i + 1;
    }
    assert buf[..i] == buf;
    h := h * 0x61C88647 % TWO32;
  }

  /** A shift to the right. */
  function Shr(h: nat, n: nat): nat
    decreases n
  {
    if n == 0 then h else Shr(h / 2, n - 1)
  }

  /** The top `bits` bits of a 32-bit hash. */
  function Bucket(hash: nat, bits: nat): nat {
    if bits <= 32 then Shr(hash, 32 - bits) else 0
  }

  lemma {:induction false} ShrBound(h: nat, n: nat, bits: nat)
    requires h < Pow2(bits + n)
    ensures Shr(h, n) < Pow2(bits)
    decreases n
  {
    if n > 0 { ShrBound(h / 2, n - 1, bits); }
  }

  lemma {:induction false} Pow2Twice(m: nat, n: nat)
    ensures Pow2(m + n) == Pow2(m) * Pow2(n)
  {
    if m > 0 {
      Pow2Twice(m - 1, n);
      assert 2 * Pow2(m - 1) * Pow2(n) == 2 * (Pow2(m - 1) * Pow2(n));
    }
  }

  lemma Pow2Is32()
    ensures Pow2(32) == TWO32
  {
    assert Pow2(2) == 4;
    Pow2Twice(2, 2);
    hide Pow2;
    assert Pow2(4) == 16;
    Pow2Twice(4, 4);
    assert Pow2(8) == 256;
    Pow2Twice(8, 8);
    assert Pow2(16) == 65536;
    Pow2Twice(16, 16);
  }

  lemma Pow2Is29()
    ensures Pow2(29) == MAX_STRINGS
  {
    Pow2Is32();
    Pow2Twice(3, 29);
    assert Pow2(3) == 8;
  }

  lemma {:induction false} ShrFloor(h: nat, n: nat)
    ensures Shr(h, n) * Pow2(n) <= h < (Shr(h, n) + 1) * Pow2(n)
    decreases n
  {
    if n > 0 {
      ShrFloor(h / 2, n - 1);
      var q, below := Shr(h / 2, n - 1), Pow2(n - 1);
      assert Shr(h, n) == q && Pow2(n) == 2 * below;
      hide Shr, Pow2;
      TwiceTimes(q, below);
      TwiceTimes(q + 1, below);
    }
  }

  lemma TwiceTimes(q: nat, n: nat)
    ensures q * (2 * n) == 2 * (q * n)
  {
  }

  lemma BucketInTable(hash: nat, bits: nat)
    requires hash < TWO32 && bits <= 32
    ensures Bucket(hash, bits) < Pow2(bits)
  {
    Pow2Is32();
    ShrBound(hash, 32 - bits, bits);
  }

  /** The bucket is what remains of a hash when all but its top bits are dropped. */
  lemma BucketIsTop(hash: nat, bits: nat)
    requires bits <= 32
    ensures Bucket(hash, bits) * Pow2(32 - bits) <= hash < (Bucket(hash, bits) + 1) * Pow2(32 - bits)
  {
    ShrFloor(hash, 32 - bits);
    hide Pow2, Shr;
  }

  /** The empty string belongs in bucket 6 of a table of 16: added to a list that held strings and
      lost them all, it goes to bucket 0 instead. */
  lemma EmptyStringBucket()
    ensures Bucket(Hash([]), 4) == 6
  {
    assert Hash([]) == 0x61C88647;
    hide Shr;
    ShrFour(0x61C88647, 24);
    ShrFour(0x61C8864, 20);
    ShrFour(0x61C886, 16);
    ShrFour(0x61C88, 12);
    ShrFour(0x61C8, 8);
    ShrFour(0x61C, 4);
    ShrFour(0x61, 0);
    ShrNone(6);
  }

  lemma ShrNone(h: nat)
    ensures Shr(h, 0) == h
  {
  }

  /** A shift by one hexadecimal digit. */
  lemma ShrFour(h: nat, n: nat)
    ensures Shr(h, n + 4) == Shr(h / 16, n)
  {
    assert Shr(h, n + 4) == Shr(h / 2, n + 3) == Shr(h / 2 / 2, n + 2) == Shr(h / 2 / 2 / 2, n + 1);
    assert h / 2 / 2 / 2 / 2 == h / 16;
  }

  class REString {
    var next: REString?
    const hash: nat
    const buf: seq<nat>

    constructor (hash: nat, buf: seq<nat>)
      ensures this.hash == hash && this.buf == buf && next == null
    {
      this.hash, this.buf, next := hash, buf, null;
    }
  }

  /** The node at `k`, or null at the end. */
  function NodeAt(chain: seq<REString>, k: nat): REString? {
    if k < |chain| then chain[k] else null
  }

  /** The nodes from `head` on. */
  ghost predicate Linked(head: REString?, chain: seq<REString>)
    reads chain
  {
    && head == NodeAt(chain, 0)
    && (forall k :: 0 <= k < |chain| ==> chain[k].next == NodeAt(chain, k + 1))
  }

  /** Every node carries its hash and is in the bucket that the top bits of it name. */
  ghost predicate Placed(chain: seq<REString>, bits: nat, i: int) {
    forall k :: 0 <= k < |chain| ==> chain[k].hash == Hash(chain[k].buf) && Bucket(chain[k].hash, bits) == i
  }

  /** No string is stored twice. */
  ghost predicate Unique(chain: seq<REString>) {
    forall k, l :: 0 <= k < l < |chain| ==> chain[k].buf != chain[l].buf
  }

  ghost predicate InChain(chain: seq<REString>, buf: seq<nat>) {
    exists k :: 0 <= k < |chain| && chain[k].buf == buf
  }

  ghost predicate ChainOk(head: REString?, chain: seq<REString>, bits: nat, i: int)
    reads chain
  {
    Linked(head, chain) && Placed(chain, bits, i) && Unique(chain)
  }

  ghost function NodeSet(chains: seq<seq<REString>>): set<REString> {
    set i, k | 0 <= i < |chains| && 0 <= k < |chains[i]| :: chains[i][k]
  }

  ghost predicate TableOk(table: array<REString?>, chains: seq<seq<REString>>, bits: nat)
    reads table, NodeSet(chains)
  {
    && |chains| == table.Length
    && (forall i :: 0 <= i < |chains| ==> ChainOk(table[i], chains[i], bits, i))
  }

  /** The string is in the bucket where it belongs. */
  ghost predicate Stored(chains: seq<seq<REString>>, bits: nat, buf: seq<nat>) {
    var h := Bucket(Hash(buf), bits);
    h < |chains| && InChain(chains[h], buf)
  }

  function Total(chains: seq<seq<REString>>): nat {
    if chains == [] then 0 else Total(chains[..|chains| - 1]) + |chains[|chains| - 1]|
  }

  /** A bucket that is not its own does not make a string stored. */
  lemma StillNotStored(chains: seq<seq<REString>>, bits: nat, buf: seq<nat>, h: nat, chain: seq<REString>)
    requires h < |chains| && h != Bucket(Hash(buf), bits) && !Stored(chains, bits, buf)
    ensures !Stored(chains[h := chain], bits, buf)
  {
  }

  /** A string stored in any bucket is stored in its own. */
  lemma StoredAnywhere(table: array<REString?>, chains: seq<seq<REString>>, bits: nat, i: nat, buf: seq<nat>)
    requires TableOk(table, chains, bits) && i < |chains| && InChain(chains[i], buf)
    ensures i == Bucket(Hash(buf), bits) && Stored(chains, bits, buf)
  {
    assert ChainOk(table[i], chains[i], bits, i);
  }

  /** Puts a node at the head of its chain. */
  method Push(table: array<REString?>, h: nat, p: REString, ghost chains: seq<seq<REString>>, ghost bits: nat)
    requires TableOk(table, chains, bits)
    requires h < |chains| && p.hash == Hash(p.buf) && Bucket(p.hash, bits) == h && !InChain(chains[h], p.buf)
    modifies table, p`next
    ensures TableOk(table, chains[h := [p] + chains[h]], bits)
    ensures forall i :: 0 <= i < table.Length && i != h ==> table[i] == old(table[i])
  {
    hide Placed, Unique, InChain, Hash, Bucket, Linked;
    var head := table[h];
    forall i | 0 <= i < |chains|
      ensures ChainOk(table[i], chains[i], bits, i) && p !in chains[i]
    {
      NotIn(table, chains, bits, h, p, i);
    }
    hide ChainOk;
    p.next := head;
    table[h] := p;
    ChainCons(p, head, chains[h], bits, h);
  }

  lemma NotIn(table: array<REString?>, chains: seq<seq<REString>>, bits: nat, h: nat, p: REString, i: nat)
    requires TableOk(table, chains, bits) && i < |chains| && h < |chains|
    requires p.hash == Hash(p.buf) && Bucket(p.hash, bits) == h && !InChain(chains[h], p.buf)
    ensures ChainOk(table[i], chains[i], bits, i) && p !in chains[i]
  {
    assert ChainOk(table[i], chains[i], bits, i);
  }

  lemma ChainCons(p: REString, head: REString?, chain: seq<REString>, bits: nat, h: nat)
    requires ChainOk(head, chain, bits, h) && p.next == head
    requires p.hash == Hash(p.buf) && Bucket(p.hash, bits) == h && !InChain(chain, p.buf)
    ensures ChainOk(p, [p] + chain, bits, h)
  {
    var all := [p] + chain;
    forall k | 0 <= k < |all|
      ensures all[k].next == NodeAt(all, k + 1)
    {
      if k > 0 { assert chain[k - 1].next == NodeAt(chain, k); }
    }
  }

  /** A node at the head of a bucket that is not its own. */
  lemma Misplaced(table: array<REString?>, chains: seq<seq<REString>>, bits: nat, h: nat)
    requires h < |chains| && chains[h] != [] && Bucket(chains[h][0].hash, bits) != h
    ensures !TableOk(table, chains, bits)
  {
    assert !Placed(chains[h], bits, h);
    assert h < table.Length ==> !ChainOk(table[h], chains[h], bits, h);
  }

  /** The strings in the buckets before `i`, and in the first `k` nodes of bucket `i`. */
  ghost predicate Moved(chains: seq<seq<REString>>, bits: nat, i: nat, k: nat, x: seq<nat>) {
    var b := Bucket(Hash(x), bits);
    || (b < i && b < |chains| && InChain(chains[b], x))
    || (b == i && i < |chains| && k <= |chains[i]| && InChain(chains[i][..k], x))
  }

  lemma MovedStep(chains: seq<seq<REString>>, bits: nat, i: nat, k: nat, x: seq<nat>)
    requires i < |chains| && k < |chains[i]| && Placed(chains[i], bits, i) && Unique(chains[i])
    ensures Moved(chains, bits, i, k + 1, x) <==> Moved(chains, bits, i, k, x) || x == chains[i][k].buf
    ensures !Moved(chains, bits, i, k, chains[i][k].buf)
  {
    var chain := chains[i];
    if InChain(chain[..k + 1], x) && x != chain[k].buf {
      var m :| 0 <= m < k + 1 && chain[..k + 1][m].buf == x;
      assert chain[..k][m] == chain[m];
    }
    if InChain(chain[..k], x) {
      var m :| 0 <= m < k && chain[..k][m].buf == x;
      assert chain[..k + 1][m] == chain[m];
    }
    assert chain[..k + 1][k] == chain[k];
    assert forall m :: 0 <= m < k ==> chain[..k][m] == chain[m];
  }

  lemma MovedNext(chains: seq<seq<REString>>, bits: nat, i: nat, x: seq<nat>)
    requires i < |chains|
    ensures Moved(chains, bits, i, |chains[i]|, x) <==> Moved(chains, bits, i + 1, 0, x)
  {
    assert chains[i][..|chains[i]|] == chains[i];
  }

  lemma StoredPush(chains: seq<seq<REString>>, bits: nat, h: nat, p: REString, x: seq<nat>)
    requires h < |chains| && h == Bucket(Hash(p.buf), bits)
    ensures Stored(chains[h := [p] + chains[h]], bits, x) <==> Stored(chains, bits, x) || x == p.buf
  {
    var chain := [p] + chains[h];
    if InChain(chains[h], x) {
      var k :| 0 <= k < |chains[h]| && chains[h][k].buf == x;
      assert chain[k + 1].buf == x;
    }
    if InChain(chain, x) {
      var k :| 0 <= k < |chain| && chain[k].buf == x;
      assert k > 0 ==> chains[h][k - 1].buf == x;
    }
    assert chain[0].buf == p.buf;
  }

  lemma {:induction false} TotalUpdate(chains: seq<seq<REString>>, h: nat, chain: seq<REString>)
    requires h < |chains|
    ensures Total(chains[h := chain]) == Total(chains) - |chains[h]| + |chain|
  {
    var n := |chains| - 1;
    if h < n {
      TotalUpdate(chains[..n], h, chain);
      assert chains[h := chain][..n] == chains[..n][h := chain];
    } else {
      assert chains[h := chain][..n] == chains[..n];
    }
  }

  lemma {:induction false} TotalZero(chains: seq<seq<REString>>)
    ensures Total(chains) == 0 <==> forall i :: 0 <= i < |chains| ==> chains[i] == []
  {
    if chains != [] {
      var n := |chains| - 1;
      TotalZero(chains[..n]);
      assert forall i :: 0 <= i < n ==> chains[..n][i] == chains[i];
    }
  }

  class REStringList {
    const cr: CharRange
    var nStrings: nat
    var hashSize: nat
    var hashBits: nat
    var hashTable: array<REString?>
    ghost var chains: seq<seq<REString>>
    ghost var nodes: set<REString>

    ghost predicate Valid()
      reads this, hashTable, nodes
    {
      && nodes == NodeSet(chains)
      && hashTable.Length == hashSize == |chains|
      && ((hashSize == 0 && hashBits == 0) || (hashSize == Pow2(hashBits) && 4 <= hashBits <= 30))
      && TableOk(hashTable, chains, hashBits)
      && nStrings == Total(chains)
    }

    /** The condition under which a string may be added. */
    ghost predicate Addable()
      reads this
    {
      nStrings != 0 || hashSize == 0
    }

    /** The other list is in order and shares nothing with this one. */
    ghost predicate Beside(b: REStringList)
      reads this, b, b.hashTable, b.nodes
    {
      b.Valid() && b != this && hashTable != b.hashTable && nodes !! b.nodes
    }

    /** The set of strings that the list stands for. */
    ghost predicate Has(buf: seq<nat>)
      reads this
    {
      Stored(chains, hashBits, buf)
    }

    /** re_string_list_init. */
    constructor ()
      ensures Valid() && fresh(cr) && fresh(cr.points) && cr.Valid() && cr.Contents() == []
      ensures fresh(hashTable) && nodes == {} && nStrings == 0 && forall x :: !Has(x)
      ensures Addable() && hashSize == 0 && hashBits == 0
    {
      cr := new CharRange();
      nStrings, hashSize, hashBits := 0, 0, 0;
      hashTable := new REString?[0];
      chains, nodes := [], {};
    }

    /** The search of re_string_find2, in the bucket of the hash. */
    method Lookup(buf: seq<nat>, h0: nat) returns (found: bool)
      requires Valid() && h0 == Hash(buf) && nStrings != 0
      ensures found == Has(buf)
    {
      hide Pow2, Hash, ChainOk, InChain, Shr;
      BucketInTable(h0, hashBits);
      assert hashSize > 0 by { TotalZero(chains); }
      var h := Bucket(h0, hashBits);
      found := FindInChain(hashTable[h], buf, h0, chains[h], hashBits, h);
    }

    /** The growth of the table in re_string_find2: every node goes to its bucket in a larger one. */
    method Grow()
      requires Valid() && nStrings + 1 > hashSize && nStrings < MAX_STRINGS
      modifies this, nodes`next
      ensures Valid() && hashSize > 0 && nStrings == old(nStrings) && fresh(hashTable)
      ensures old(hashSize) == 0 ==> hashBits == 4
      ensures forall x :: Has(x) <==> old(Has(x))
      ensures nodes <= old(nodes)
    {
      hide Linked, Placed, Unique, ChainOk, Moving, Moved, Stored, Hash, Bucket, Pow2, NodeSet, InChain, Total,
           ChainsFrom, TableOk;
      if hashBits >= 29 {
        Pow2Is29();
        Pow2Grows(29, hashBits);
      }
      var newBits := if hashBits + 1 > 4 then hashBits + 1 else 4;
      var newSize := Pow2(newBits);
      var newTable := new REString?[newSize](_ => null);
      ghost var moved: seq<seq<REString>> := seq(newSize, _ => []);
      EmptyTable(newTable, moved, newBits);
      MovingStart(hashTable, chains, hashBits, moved, newBits);
      var i := 0;
      while i < hashSize
        invariant 0 <= i <= hashSize && ChainsFrom(hashTable, chains, hashBits, i)
        invariant |moved| == newSize && TableOk(newTable, moved, newBits)
        invariant Moving(chains, hashBits, moved, newBits, i, 0)
        invariant unchanged(this)
      {
        moved := MoveChain(hashTable, newTable, newBits, i, chains, hashBits, moved);
        i := i + 1;
      }
      MovingEnd(chains, hashBits, moved, newBits);
      TableSize(newTable, moved, newBits);
      hashBits := newBits;
      hashSize := newSize;
      hashTable := newTable;
      chains, nodes := moved, NodeSet(moved);
    }

    /** re_string_find2: tells whether a string is in the list and, when asked to, adds it. The
        bucket index is worked out only when the list holds a string or the table grows, so that
        adding leaves the list in order exactly when one of these holds, or the bucket is the
        first one anyway; otherwise the string just added is not found. */
    method Find2(buf: seq<nat>, h0: nat, addFlag: bool) returns (r: bool)
      requires Valid() && h0 == Hash(buf) && (addFlag ==> nStrings < MAX_STRINGS)
      modifies if addFlag then {this, hashTable} + nodes else {}
      ensures r == (addFlag || old(Has(buf)))
      ensures Valid() <==> !addFlag || old(nStrings != 0 || hashSize == 0 || Bucket(h0, hashBits) == 0)
      ensures Valid() ==> forall x :: Has(x) <==> old(Has(x)) || (addFlag && x == buf)
      ensures !Valid() ==> !Has(buf)
      ensures nStrings == old(nStrings) + if addFlag && !old(Has(buf)) then 1 else 0
      ensures addFlag ==> nStrings != 0
      ensures addFlag && old(hashSize) == 0 ==> hashBits == 4
      ensures fresh(nodes - old(nodes)) && (hashTable == old(hashTable) || fresh(hashTable))
    {
      hide Valid, Has, Hash, Bucket, Pow2, NodeSet;
      Facts();
      var h := 0;
      if nStrings != 0 {
        r := Lookup(buf, h0);
        if r {
          return true;
        }
        h := Bucket(h0, hashBits);
      }
      if !addFlag {
        return false;
      }
      if nStrings + 1 > hashSize {
        Grow();
        Facts();
        h := Bucket(h0, hashBits);
      }
      BucketInTable(h0, hashBits);
      AddAt(h, h0, buf);
      r := true;
    }

    /** The last lines of re_string_find2: a new node goes to the head of bucket `h`. */
    method AddAt(h: nat, h0: nat, buf: seq<nat>)
      requires Valid() && h < hashSize && h0 == Hash(buf) && !Has(buf)
      requires h == 0 || h == Bucket(h0, hashBits)
      modifies this, hashTable
      ensures hashTable == old(hashTable)
      ensures Valid() <==> h == Bucket(h0, old(hashBits))
      ensures Valid() ==> forall x :: Has(x) <==> old(Has(x)) || x == buf
      ensures !Valid() ==> !Has(buf)
      ensures nStrings == old(nStrings) + 1 && hashBits == old(hashBits) && fresh(nodes - old(nodes))
    {
      hide TableOk, Stored, Total, Hash, Bucket, InChain, Pow2;
      var p := new REString(h0, buf);
      ghost var chains1 := chains[h := [p] + chains[h]];
      NodeSetUpdate(chains, h, p);
      hide NodeSet;
      TotalUpdate(chains, h, [p] + chains[h]);
      if h == Bucket(p.hash, hashBits) {
        forall x ensures Stored(chains1, hashBits, x) <==> Has(x) || x == p.buf {
          StoredPush(chains, hashBits, h, p, x);
        }
        NotStored(chains, hashBits, buf, h);
        Push(hashTable, h, p, chains, hashBits);
      } else {
        p.next := hashTable[h];
        hashTable[h] := p;
        Misplaced(hashTable, chains1, hashBits, h);
        StillNotStored(chains, hashBits, buf, h, [p] + chains[h]);
      }
      chains := chains1;
      nodes := nodes + {p};
      nStrings := nStrings + 1;
    }

    /** re_string_add: single characters go to the ranges, other strings to the table, which stays
        in order as in Find2. */
    method Add(buf: seq<nat>)
      requires Valid() && cr.Valid() && Sorted(cr.Contents())
      requires if |buf| == 1 then buf[0] < UINT32_MAX else nStrings < MAX_STRINGS
      modifies this, hashTable, nodes, cr
      ensures Valid() <==> |buf| == 1 || old(Addable()) || Bucket(Hash(buf), old(hashBits)) == 0
      ensures Valid() ==> forall x :: Has(x) <==> old(Has(x)) || (x == buf && |buf| != 1)
      ensures !Valid() ==> !Has(buf)
      ensures nStrings == old(nStrings) + if |buf| != 1 && !old(Has(buf)) then 1 else 0
      ensures |buf| != 1 || old(Addable()) ==> Addable()
      ensures |buf| != 1 && old(hashSize) == 0 ==> hashBits == 4
      ensures fresh(nodes - old(nodes)) && (hashTable == old(hashTable) || fresh(hashTable))
      ensures cr.Valid() && Sorted(cr.Contents())
      ensures forall c :: Member(cr.Contents(), c) <==> old(Member(cr.Contents(), c)) || buf == [c]
    {
      hide Valid, Has, Sorted, Canonical, Member, Hash, Pow2;
      if |buf| == 1 {
        CanonicalSorted();
        cr.UnionInterval(buf[0], buf[0]);
        assert forall c :: buf == [c] <==> c == buf[0];
      } else {
        var h0 := ReStringHash(buf);
        var _ := Find2(buf, h0, true);
      }
    }

    /** re_string_list_op, the part on strings, for an intersection or a difference: nodes are
        unlinked in place. */
    method Retain(b: REStringList, sub: bool)
      requires Valid() && Beside(b)
      modifies this, hashTable, nodes`next
      ensures Valid() && b.Valid() && hashTable == old(hashTable) && nodes <= old(nodes)
      ensures hashSize == old(hashSize) && hashBits == old(hashBits)
      ensures forall x :: Has(x) <==> old(Has(x)) && b.Has(x) != sub
    {
      hide ChainOk, Kept, Stored, Hash, Bucket, Pow2, Total, NodeSet, TableOk, RetainedTo, REStringList.Valid;
      Facts();
      ghost var kept, cs := chains, chains;
      RetainStart(hashTable, cs, hashBits, b.chains, b.hashBits, sub);
      var i := 0;
      while i < hashSize
        invariant 0 <= i <= hashSize == hashTable.Length == |cs| == |kept|
        invariant unchanged(`chains) && unchanged(`nodes) && unchanged(`hashTable) && unchanged(`hashSize)
                  && unchanged(`hashBits)
        invariant RetainedTo(cs, kept, b.chains, b.hashBits, sub, i)
        invariant forall j :: 0 <= j < |kept| ==> ChainOk(hashTable[j], kept[j], hashBits, j)
        invariant b.Valid() && nStrings == Total(kept)
      {
        ghost var own := set n | n in kept[i];
        RetainOwn(hashTable, cs, kept, hashBits, b.chains, b.hashBits, sub, i, own);
        var removed := FilterChain(hashTable, i, b, sub, kept[i], hashBits, own);
        RetainStep(cs, kept, b.chains, b.hashBits, sub, i);
        kept := kept[i := Kept(kept[i], b.chains, b.hashBits, sub)];
        nStrings := nStrings - removed;
        i := i + 1;
      }
      RetainEnd(hashTable, cs, kept, hashBits, b.chains, b.hashBits, sub);
      chains, nodes := kept, NodeSet(kept);
      Again();
    }

    /** Adds one string of the other list. */
    method UniteNode(b: REStringList, p: REString)
      requires Valid() && Beside(b)
      requires Addable() && nStrings < MAX_STRINGS && p.hash == Hash(p.buf)
      modifies this, hashTable, nodes
      ensures Valid() && Beside(b) && Addable() && nStrings <= old(nStrings) + 1
      ensures forall x :: Has(x) <==> old(Has(x)) || x == p.buf
      ensures fresh(nodes - old(nodes)) && (hashTable == old(hashTable) || fresh(hashTable))
    {
      hide Has, Hash, Pow2, Bucket, TableOk, NodeSet, Total, REStringList.Valid;
      NoneYet();
      var _ := Find2(p.buf, p.hash, true);
    }

    lemma BesideFacts(b: REStringList)
      requires Beside(b)
      ensures b.Valid() && b != this
    {
    }

    lemma NoneYet()
      requires Valid()
      ensures nStrings == 0 ==> forall x :: !Has(x)
    {
      Facts();
    }

    /** What is known of the node at `k` of bucket `i`. */
    lemma NodeFacts(i: nat, k: nat)
      requires Valid() && i < |chains| && k <= |chains[i]|
      ensures |chains| == hashTable.Length
      ensures k == 0 ==> hashTable[i] == NodeAt(chains[i], k)
      ensures k < |chains[i]| ==>
                var p := chains[i][k]; p in nodes && p.hash == Hash(p.buf) && p.next == NodeAt(chains[i], k + 1)
    {
      StartOf(hashTable, chains, hashBits, i);
      if k < |chains[i]| {
        NodePlaced(chains[i], hashBits, i, k);
        LinkedAt(hashTable[i], chains[i], k);
      }
    }

    /** Adds the strings of one chain of the other list. */
    method UniteChain(b: REStringList, i: nat, ghost n0: nat)
      requires Valid() && Beside(b)
      requires Addable() && i < b.hashSize && |b.chains| == b.hashSize == b.hashTable.Length
      requires nStrings <= n0 + Total(b.chains[..i]) && n0 + Total(b.chains) < MAX_STRINGS
      modifies this, hashTable, nodes
      ensures Valid() && Beside(b) && Addable()
      ensures nStrings <= n0 + Total(b.chains[..i + 1])
      ensures forall x :: Has(x) <==> old(Has(x)) || InChain(b.chains[i], x)
      ensures fresh(nodes - old(nodes)) && (hashTable == old(hashTable) || fresh(hashTable))
    {
      ghost var chain := b.chains[i];
      TotalPrefix(b.chains, i);
      InFirstAll(chain);
      hide Has, Hash, Pow2, Total, InChain, InFirst, TableOk, NodeSet, REStringList.Valid, REStringList.Beside,
           Addable;
      BesideFacts(b);
      b.NodeFacts(i, 0);
      UniteNodes(b, i, b.hashTable[i], chain);
    }

    /** The loop over the nodes of the chain. */
    method UniteNodes(b: REStringList, i: nat, head: REString?, ghost chain: seq<REString>)
      requires Valid() && Beside(b) && Addable() && nStrings + |chain| < MAX_STRINGS
      requires i < |b.chains| && b.chains[i] == chain && head == NodeAt(chain, 0)
      modifies this, hashTable, nodes
      ensures Valid() && Beside(b) && Addable() && nStrings <= old(nStrings) + |chain|
      ensures forall x :: Has(x) <==> old(Has(x)) || InFirst(chain, |chain|, x)
      ensures fresh(nodes - old(nodes)) && (hashTable == old(hashTable) || fresh(hashTable))
    {
      hide Has, InFirst, TableOk, NodeSet, REStringList.Valid, REStringList.Beside, Addable;
      InFirstNone(chain);
      var p := head;
      ghost var k, bc := 0, b.chains;
      while p != null
        invariant 0 <= k <= |chain| && p == NodeAt(chain, k)
        invariant Valid() && Beside(b) && Addable() && b.chains == bc
        invariant nStrings <= old(nStrings) + k
        invariant forall x :: Has(x) <==> old(Has(x)) || InFirst(chain, k, x)
        invariant fresh(nodes - old(nodes)) && (hashTable == old(hashTable) || fresh(hashTable))
        decreases |chain| - k
      {
        p := UniteNext(b, i, k, p, chain);
        InFirstNext(chain, k);
        k := k + 1;
      }
    }

    /** Adds the string at `k` of bucket `i` of the other list and moves on. */
    method UniteNext(b: REStringList, i: nat, ghost k: nat, p: REString, ghost chain: seq<REString>)
      returns (q: REString?)
      requires Valid() && Beside(b) && Addable() && nStrings < MAX_STRINGS
      requires i < |b.chains| && b.chains[i] == chain && k < |chain| && p == chain[k]
      modifies this, hashTable, nodes
      ensures Valid() && Beside(b) && Addable() && nStrings <= old(nStrings) + 1
      ensures forall x :: Has(x) <==> old(Has(x)) || x == chain[k].buf
      ensures fresh(nodes - old(nodes)) && (hashTable == old(hashTable) || fresh(hashTable))
      ensures q == NodeAt(chain, k + 1) && b.chains == old(b.chains)
    {
      hide Has, Hash, Pow2, TableOk, NodeSet, REStringList.Valid, REStringList.Beside;
      BesideFacts(b);
      b.NodeFacts(i, k);
      UniteNode(b, p);
      BesideFacts(b);
      b.NodeFacts(i, k);
      q := p.next;
    }

    /** re_string_list_op, the part on strings, for a union. */
    method Unite(b: REStringList)
      requires Valid() && Beside(b)
      requires (Addable() || b.nStrings == 0) && nStrings + b.nStrings < MAX_STRINGS
      modifies this, hashTable, nodes
      ensures Valid() && Beside(b)
      ensures forall x :: Has(x) <==> old(Has(x)) || b.Has(x)
    {
      hide Valid, Pow2, Total, Stored, TableOk, NodeSet, InChain, StoredTo;
      b.Facts();
      if b.nStrings != 0 {
        ghost var n0 := nStrings;
        StoredStart(b.chains, b.hashBits);
        var i := 0;
        while i < b.hashSize
          invariant 0 <= i <= b.hashSize
          invariant Valid() && Beside(b) && Addable()
          invariant nStrings <= n0 + Total(b.chains[..i])
          invariant forall x :: Has(x) <==> old(Has(x)) || StoredTo(b.chains, b.hashBits, i, x)
          invariant fresh(nodes - old(nodes)) && (hashTable == old(hashTable) || fresh(hashTable))
        {
          UniteChain(b, i, n0);
          b.StoredNext(i);
          i := i + 1;
        }
        StoredAll(b.chains, b.hashBits);
      }
    }

    /** re_string_list_op: the ranges and the strings are combined alike. A symmetric difference
        is never asked for. */
    method Op(b: REStringList, op: CharRangeOp)
      requires Valid() && Beside(b) && !op.Xor?
      requires cr.Valid() && Sorted(cr.Contents()) && b.cr.Valid() && Sorted(b.cr.Contents()) && cr != b.cr
      requires op.Union? ==> (Addable() || b.nStrings == 0) && nStrings + b.nStrings < MAX_STRINGS
      modifies this, hashTable, nodes, cr
      ensures Valid() && Beside(b) && cr.Valid()
      ensures Canonical(cr.Contents()) && Denotes(op, old(cr.Contents()), old(b.cr.Contents()), cr.Contents())
      ensures forall x :: Has(x) <==> Combine(op, old(Has(x)), b.Has(x))
    {
      hide Stored, Sorted, Canonical, Denotes, REStringList.Valid;
      cr.Op1(b.cr.points[..b.cr.len], op);
      if op.Union? {
        Unite(b);
      } else {
        Retain(b, op.Sub?);
      }
    }

    lemma StoredNext(i: nat)
      requires Valid() && i < |chains|
      ensures forall x :: StoredTo(chains, hashBits, i + 1, x) <==>
                          StoredTo(chains, hashBits, i, x) || InChain(chains[i], x)
    {
      forall x | InChain(chains[i], x) ensures Bucket(Hash(x), hashBits) == i {
        StoredAnywhere(hashTable, chains, hashBits, i, x);
      }
    }

    lemma Again()
      requires nodes == NodeSet(chains) && hashTable.Length == hashSize == |chains|
      requires (hashSize == 0 && hashBits == 0) || (hashSize == Pow2(hashBits) && 4 <= hashBits <= 30)
      requires TableOk(hashTable, chains, hashBits) && nStrings == Total(chains)
      ensures Valid()
    {
    }

    lemma Facts()
      requires Valid()
      ensures hashTable.Length == hashSize == |chains| && nodes == NodeSet(chains) && nStrings == Total(chains)
      ensures (hashSize == 0 && hashBits == 0) || (hashSize == Pow2(hashBits) && 4 <= hashBits <= 30)
      ensures TableOk(hashTable, chains, hashBits)
      ensures nStrings == 0 ==> forall x :: !Has(x)
    {
      NoneStored(chains, hashBits);
    }
  }

  /** The failing call: a list that has held a string and lost it again, for instance to an
      intersection with nothing, has a table and no strings. The empty string, added to it, goes to
      the wrong bucket and is not found. */
  method LoseEmptyString() returns (a: REStringList)
    ensures !a.Valid() && !a.Has([]) && a.nStrings == 1
  {
    hide Hash, Bucket, Pow2, REStringList.Valid, REStringList.Has, Sorted;
    a := new REStringList();
    var b := new REStringList();
    SortedNone();
    a.Add([97, 98]);
    a.Retain(b, false);
    assert forall x :: !a.Has(x) by { b.NoneYet(); }
    NoneLeft(a);
    a.Facts();
    EmptyStringBucket();
    a.Add([]);
  }

  lemma HeadStored(table: array<REString?>, chains: seq<seq<REString>>, bits: nat, i: nat)
    requires TableOk(table, chains, bits) && i < |chains|
    ensures chains[i] != [] ==> Stored(chains, bits, chains[i][0].buf)
  {
    hide TableOk, Stored, Hash, Bucket;
    if chains[i] != [] {
      assert InChain(chains[i], chains[i][0].buf);
      StoredAnywhere(table, chains, bits, i, chains[i][0].buf);
    }
  }

  /** A list that denotes no strings holds no nodes. */
  lemma NoneLeft(a: REStringList)
    requires a.Valid() && forall x :: !a.Has(x)
    ensures a.nStrings == 0
  {
    hide REStringList.Valid, TableOk, Stored, Hash, Bucket, Pow2, Total, NodeSet;
    a.Facts();
    forall i | 0 <= i < |a.chains| ensures a.chains[i] == [] {
      HeadStored(a.hashTable, a.chains, a.hashBits, i);
      assert a.chains[i] != [] ==> a.Has(a.chains[i][0].buf);
    }
    TotalZero(a.chains);
  }

  lemma SortedNone()
    ensures Sorted([])
  {
  }

  lemma CanonicalSorted()
    ensures forall p :: Canonical(p) ==> Sorted(p)
  {
  }

  lemma NotStored(chains: seq<seq<REString>>, bits: nat, buf: seq<nat>, h: nat)
    requires !Stored(chains, bits, buf) && h == Bucket(Hash(buf), bits) && h < |chains|
    ensures !InChain(chains[h], buf)
  {
  }

  /** An empty list stores nothing. */
  lemma NoneStored(chains: seq<seq<REString>>, bits: nat)
    ensures Total(chains) == 0 ==> forall x :: !Stored(chains, bits, x)
  {
    TotalZero(chains);
  }

  lemma EmptyTable(table: array<REString?>, chains: seq<seq<REString>>, bits: nat)
    requires |chains| == table.Length && forall i :: 0 <= i < |chains| ==> chains[i] == [] && table[i] == null
    ensures TableOk(table, chains, bits)
  {
  }

  lemma MovingStart(table: array<REString?>, chains: seq<seq<REString>>, bits: nat, moved: seq<seq<REString>>,
                    newBits: nat)
    requires TableOk(table, chains, bits) && forall i :: 0 <= i < |moved| ==> moved[i] == []
    ensures Moving(chains, bits, moved, newBits, 0, 0) && ChainsFrom(table, chains, bits, 0)
  {
    hide ChainOk, ChainsFrom;
    ChainsFromAgain(table, chains, bits, 0);
    TotalZero(moved);
    forall x ensures !Stored(moved, newBits, x) && !Moved(chains, bits, 0, 0, x) { }
  }

  lemma MovingEnd(chains: seq<seq<REString>>, bits: nat, moved: seq<seq<REString>>, newBits: nat)
    requires Moving(chains, bits, moved, newBits, |chains|, 0)
    ensures forall x :: Stored(moved, newBits, x) <==> Stored(chains, bits, x)
    ensures Total(moved) == Total(chains) && NodeSet(moved) <= NodeSet(chains)
  {
    assert chains[..|chains|] == chains;
    forall x ensures Moved(chains, bits, |chains|, 0, x) <==> Stored(chains, bits, x) { }
  }

  /** The search of one chain. */
  method FindInChain(head: REString?, buf: seq<nat>, h0: nat, ghost chain: seq<REString>, ghost bits: nat, ghost i: int)
    returns (found: bool)
    requires ChainOk(head, chain, bits, i) && h0 == Hash(buf)
    ensures found == InChain(chain, buf)
  {
    hide Hash, Bucket, Unique;
    var p := head;
    ghost var k := 0;
    while p != null
      invariant 0 <= k <= |chain|
      invariant p == NodeAt(chain, k)
      invariant forall m :: 0 <= m < k ==> chain[m].buf != buf
      decreases |chain| - k
    {
      if p.hash == h0 && p.buf == buf {
        return true;
      }
      p := p.next;
      k := k + 1;
    }
    return false;
  }

  /** The state of the loop that moves the nodes to the new table: `moved` and `movedBits` describe
      the new one, the old one is intact from bucket `i` on. */
  ghost predicate Moving(chains: seq<seq<REString>>, bits: nat, moved: seq<seq<REString>>, newBits: nat, i: nat,
                         k: nat) {
    && (forall x :: Stored(moved, newBits, x) <==> Moved(chains, bits, i, k, x))
    && NodeSet(moved) <= NodeSet(chains)
    && i <= |chains| && Total(moved) == Total(chains[..i]) + k
  }

  ghost predicate ChainsFrom(table: array<REString?>, chains: seq<seq<REString>>, bits: nat, i: nat)
    reads table, NodeSet(chains)
  {
    && |chains| == table.Length
    && (forall j :: i <= j < |chains| ==> ChainOk(table[j], chains[j], bits, j))
  }

  lemma NodeSetUpdate(chains: seq<seq<REString>>, h: nat, p: REString)
    requires h < |chains|
    ensures NodeSet(chains[h := [p] + chains[h]]) == NodeSet(chains) + {p}
  {
    var chains1 := chains[h := [p] + chains[h]];
    forall n | n in NodeSet(chains) + {p} ensures n in NodeSet(chains1) {
      if n == p {
        assert chains1[h][0] == p;
      } else {
        var i, k :| 0 <= i < |chains| && 0 <= k < |chains[i]| && chains[i][k] == n;
        assert chains1[i][if i == h then k + 1 else k] == n;
      }
    }
    forall n | n in NodeSet(chains1) ensures n in NodeSet(chains) + {p} {
      var i, k :| 0 <= i < |chains1| && 0 <= k < |chains1[i]| && chains1[i][k] == n;
      if i == h && k > 0 { assert chains[i][k - 1] == n; }
      if i != h { assert chains[i][k] == n; }
    }
  }

  /** One node moved. */
  lemma MovingStep(chains: seq<seq<REString>>, bits: nat, moved: seq<seq<REString>>, newBits: nat, i: nat, k: nat,
                   p: REString, h: nat)
    requires Moving(chains, bits, moved, newBits, i, k) && i < |chains| && k < |chains[i]| && chains[i][k] == p
    requires Placed(chains[i], bits, i) && Unique(chains[i])
    requires h < |moved| && h == Bucket(Hash(p.buf), newBits)
    ensures !InChain(moved[h], p.buf)
    ensures Moving(chains, bits, moved[h := [p] + moved[h]], newBits, i, k + 1)
  {
    var moved1 := moved[h := [p] + moved[h]];
    hide Moved, Placed, Unique, InChain, Total, NodeSet, Hash, Bucket;
    forall x ensures Stored(moved1, newBits, x) <==> Moved(chains, bits, i, k + 1, x) {
      hide Stored;
      MovedStep(chains, bits, i, k, x);
      StoredPush(moved, newBits, h, p, x);
    }
    MovedStep(chains, bits, i, k, p.buf);
    NodeSetUpdate(moved, h, p);
    NodeIn(chains, i, k);
    TotalUpdate(moved, h, [p] + moved[h]);
  }

  lemma NodeIn(chains: seq<seq<REString>>, i: nat, k: nat)
    requires i < |chains| && k < |chains[i]|
    ensures chains[i][k] in NodeSet(chains)
  {
  }

  lemma MovingNext(chains: seq<seq<REString>>, bits: nat, moved: seq<seq<REString>>, newBits: nat, i: nat)
    requires i < |chains| && Moving(chains, bits, moved, newBits, i, |chains[i]|)
    ensures Moving(chains, bits, moved, newBits, i + 1, 0)
  {
    hide Moved, Stored, NodeSet;
    forall x ensures Stored(moved, newBits, x) <==> Moved(chains, bits, i + 1, 0, x) {
      MovedNext(chains, bits, i, x);
    }
    assert chains[..i + 1][..i] == chains[..i];
  }

  lemma LinkedNext(p: REString?, chain: seq<REString>)
    requires Linked(p, chain)
    ensures p == null <==> chain == []
    ensures chain != [] ==> p == chain[0] && Linked(p.next, chain[1..])
  {
    if chain != [] {
      var rest := chain[1..];
      assert chain[0].next == NodeAt(rest, 0);
      forall k | 0 <= k < |rest|
        ensures rest[k].next == NodeAt(rest, k + 1)
      {
        assert chain[k + 1].next == NodeAt(chain, k + 2);
      }
    }
  }

  /** A node is in its own chain only, and there once. */
  lemma NodeApart(table: array<REString?>, chains: seq<seq<REString>>, bits: nat, i: nat, k: nat)
    requires i < |chains| && k < |chains[i]| && Placed(chains[i], bits, i) && Unique(chains[i])
    requires |chains| == table.Length && forall j :: i < j < |chains| ==> ChainOk(table[j], chains[j], bits, j)
    ensures chains[i][k] !in chains[i][k + 1..]
    ensures forall j :: i < j < |chains| ==> chains[i][k] !in chains[j]
  {
    forall j | i < j < |chains|
      ensures chains[i][k] !in chains[j]
    {
      assert ChainOk(table[j], chains[j], bits, j);
    }
  }

  lemma StartChain(table: array<REString?>, chains: seq<seq<REString>>, bits: nat, i: nat)
    requires ChainsFrom(table, chains, bits, i) && i < table.Length
    ensures |chains| == table.Length
    ensures Linked(table[i], chains[i]) && Placed(chains[i], bits, i) && Unique(chains[i])
    ensures forall j :: i < j < |chains| ==> ChainOk(table[j], chains[j], bits, j)
  {
    assert ChainOk(table[i], chains[i], bits, i);
  }

  lemma ChainsFromAgain(table: array<REString?>, chains: seq<seq<REString>>, bits: nat, i: nat)
    requires |chains| == table.Length && forall j :: i <= j < |chains| ==> ChainOk(table[j], chains[j], bits, j)
    ensures ChainsFrom(table, chains, bits, i)
  {
  }

  lemma TableSize(table: array<REString?>, chains: seq<seq<REString>>, bits: nat)
    requires TableOk(table, chains, bits)
    ensures |chains| == table.Length
  {
  }

  lemma NodePlaced(chain: seq<REString>, bits: nat, i: int, k: nat)
    requires Placed(chain, bits, i) && k < |chain|
    ensures chain[k].hash == Hash(chain[k].buf) < TWO32
  {
  }

  /** The loop over one old chain. */
  method MoveChain(table: array<REString?>, newTable: array<REString?>, newBits: nat, i: nat,
                   ghost chains: seq<seq<REString>>, ghost bits: nat, ghost moved0: seq<seq<REString>>)
    returns (ghost moved: seq<seq<REString>>)
    requires table != newTable && i < table.Length && ChainsFrom(table, chains, bits, i)
    requires newBits <= 32 && |moved0| == Pow2(newBits) && TableOk(newTable, moved0, newBits)
    requires Moving(chains, bits, moved0, newBits, i, 0)
    modifies newTable, NodeSet(chains)`next
    ensures ChainsFrom(table, chains, bits, i + 1) && |moved| == |moved0| && TableOk(newTable, moved, newBits)
    ensures Moving(chains, bits, moved, newBits, i + 1, 0)
  {
    hide Linked, Placed, Unique, ChainOk, ChainsFrom, Moving, Hash, Bucket, Pow2, TableOk, NodeSet, InChain;
    StartChain(table, chains, bits, i);
    TableSize(newTable, moved0, newBits);
    ghost var k, chain := 0, chains[i];
    assert chain[0..] == chain;
    moved := moved0;
    var p := table[i];
    while p != null
      invariant 0 <= k <= |chain| && Linked(p, chain[k..])
      invariant forall j :: i < j < |chains| ==> ChainOk(table[j], chains[j], bits, j)
      invariant |moved| == |moved0| == newTable.Length && TableOk(newTable, moved, newBits)
      invariant Moving(chains, bits, moved, newBits, i, k)
      decreases |chain| - k
    {
      LinkedNext(p, chain[k..]);
      assert chain[k..][1..] == chain[k + 1..];
      NodeIn(chains, i, k);
      NodeApart(table, chains, bits, i, k);
      NodePlaced(chain, bits, i, k);
      var pNext := p.next;
      BucketInTable(p.hash, newBits);
      var h := Bucket(p.hash, newBits);
      MovingStep(chains, bits, moved, newBits, i, k, p, h);
      Push(newTable, h, p, moved, newBits);
      moved := moved[h := [p] + moved[h]];
      p := pNext;
      k := k + 1;
    }
    LinkedNext(p, chain[k..]);
    ChainsFromAgain(table, chains, bits, i + 1);
    MovingNext(chains, bits, moved, newBits, i);
  }

  /** The nodes whose strings the other list has, or, for a difference, has not. */
  ghost function Kept(chain: seq<REString>, other: seq<seq<REString>>, bits: nat, sub: bool): (r: seq<REString>)
    ensures forall k :: 0 <= k < |r| ==> r[k] in chain
  {
    if chain == [] then []
    else
      var last := chain[|chain| - 1];
      Kept(chain[..|chain| - 1], other, bits, sub) + if Stored(other, bits, last.buf) != sub then [last] else []
  }

  lemma KeptSnoc(chain: seq<REString>, other: seq<seq<REString>>, bits: nat, sub: bool, k: nat)
    requires k < |chain|
    ensures Kept(chain[..k + 1], other, bits, sub) ==
            Kept(chain[..k], other, bits, sub) + if Stored(other, bits, chain[k].buf) != sub then [chain[k]] else []
  {
    assert chain[..k + 1][..k] == chain[..k];
  }

  lemma {:induction false} KeptStrings(chain: seq<REString>, other: seq<seq<REString>>, bits: nat, sub: bool,
                                       x: seq<nat>)
    ensures InChain(Kept(chain, other, bits, sub), x) <==> InChain(chain, x) && Stored(other, bits, x) != sub
  {
    hide Stored, InChain, Kept;
    if chain == [] {
      NoneInChain(x);
      KeptNone(other, bits, sub);
    } else {
      var n := |chain| - 1;
      var front, last := chain[..n], chain[n];
      var kept := Kept(front, other, bits, sub);
      assert chain == front + [last] && chain[..n + 1] == chain;
      KeptSnoc(chain, other, bits, sub, n);
      KeptStrings(front, other, bits, sub, x);
      InChainSnoc(front, last, x);
      InChainSnoc(kept, last, x);
      assert kept + [] == kept;
    }
  }

  /** The chains before `i` are filtered, the others are as they were. */
  ghost predicate RetainedTo(cs: seq<seq<REString>>, kept: seq<seq<REString>>, other: seq<seq<REString>>,
                             otherBits: nat, sub: bool, i: nat) {
    && |kept| == |cs|
    && (forall j :: 0 <= j < i && j < |cs| ==> kept[j] == Kept(cs[j], other, otherBits, sub))
    && (forall j :: i <= j < |cs| ==> kept[j] == cs[j])
  }

  lemma RetainStart(table: array<REString?>, cs: seq<seq<REString>>, bits: nat, other: seq<seq<REString>>,
                    otherBits: nat, sub: bool)
    requires TableOk(table, cs, bits)
    ensures RetainedTo(cs, cs, other, otherBits, sub, 0)
    ensures forall j :: 0 <= j < |cs| ==> ChainOk(table[j], cs[j], bits, j)
  {
  }

  /** The nodes of bucket `i` are nodes of the list and of no other bucket. */
  lemma RetainOwn(table: array<REString?>, cs: seq<seq<REString>>, kept: seq<seq<REString>>, bits: nat,
                  other: seq<seq<REString>>, otherBits: nat, sub: bool, i: nat, own: set<REString>)
    requires RetainedTo(cs, kept, other, otherBits, sub, i) && i < |kept| == table.Length && own == set n | n in kept[i]
    requires forall j :: 0 <= j < |kept| ==> ChainOk(table[j], kept[j], bits, j)
    ensures own <= NodeSet(cs)
    ensures forall j :: 0 <= j < |kept| && j != i ==> forall n :: n in kept[j] ==> n !in own
  {
    OwnNodes(cs, i, own);
    forall j | 0 <= j < |kept| && j != i
      ensures forall n :: n in kept[j] ==> n !in own
    {
      ChainsApart(table[i], kept[i], i, table[j], kept[j], j, bits);
    }
  }

  lemma RetainStep(cs: seq<seq<REString>>, kept: seq<seq<REString>>, other: seq<seq<REString>>, otherBits: nat,
                   sub: bool, i: nat)
    requires RetainedTo(cs, kept, other, otherBits, sub, i) && i < |cs|
    ensures var one := Kept(kept[i], other, otherBits, sub);
            && RetainedTo(cs, kept[i := one], other, otherBits, sub, i + 1)
            && Total(kept[i := one]) == Total(kept) - |kept[i]| + |one|
  {
    TotalUpdate(kept, i, Kept(kept[i], other, otherBits, sub));
  }

  lemma RetainEnd(table: array<REString?>, cs: seq<seq<REString>>, kept: seq<seq<REString>>, bits: nat,
                  other: seq<seq<REString>>, otherBits: nat, sub: bool)
    requires RetainedTo(cs, kept, other, otherBits, sub, |cs|) && |kept| == table.Length
    requires forall j :: 0 <= j < |kept| ==> ChainOk(table[j], kept[j], bits, j)
    ensures TableOk(table, kept, bits) && NodeSet(kept) <= NodeSet(cs)
    ensures forall x :: Stored(kept, bits, x) <==> Stored(cs, bits, x) && Stored(other, otherBits, x) != sub
  {
    forall x ensures Stored(kept, bits, x) <==> Stored(cs, bits, x) && Stored(other, otherBits, x) != sub {
      hide InChain, Kept;
      var h := Bucket(Hash(x), bits);
      if h < |cs| { KeptStrings(cs[h], other, otherBits, sub, x); }
    }
    forall n | n in NodeSet(kept) ensures n in NodeSet(cs) {
      var j, k :| 0 <= j < |kept| && 0 <= k < |kept[j]| && kept[j][k] == n;
      assert kept[j][k] in cs[j];
    }
  }

  lemma OwnNodes(chains: seq<seq<REString>>, i: nat, own: set<REString>)
    requires i < |chains| && own == set n | n in chains[i]
    ensures own <= NodeSet(chains)
  {
    forall n | n in own ensures n in NodeSet(chains) {
      var k :| 0 <= k < |chains[i]| && chains[i][k] == n;
    }
  }

  /** Two buckets share no node. */
  lemma ChainsApart(h: REString?, c: seq<REString>, i: int, g: REString?, d: seq<REString>, j: int, bits: nat)
    requires ChainOk(h, c, bits, i) && ChainOk(g, d, bits, j) && i != j
    ensures forall n :: n in d ==> n !in c
  {
  }

  /** The string is stored in one of the first `i` buckets. */
  ghost predicate StoredTo(chains: seq<seq<REString>>, bits: nat, i: nat, x: seq<nat>) {
    Stored(chains, bits, x) && Bucket(Hash(x), bits) < i
  }

  lemma StoredStart(chains: seq<seq<REString>>, bits: nat)
    ensures forall x :: !StoredTo(chains, bits, 0, x)
    ensures Total(chains[..0]) == 0
  {
  }

  lemma StoredAll(chains: seq<seq<REString>>, bits: nat)
    ensures forall x :: StoredTo(chains, bits, |chains|, x) <==> Stored(chains, bits, x)
  {
  }

  lemma StartOf(table: array<REString?>, chains: seq<seq<REString>>, bits: nat, i: nat)
    requires TableOk(table, chains, bits) && i < table.Length
    ensures Linked(table[i], chains[i]) && Placed(chains[i], bits, i) && table[i] == NodeAt(chains[i], 0)
  {
    assert ChainOk(table[i], chains[i], bits, i);
  }

  lemma LinkedAt(head: REString?, chain: seq<REString>, k: nat)
    requires Linked(head, chain) && k < |chain|
    ensures chain[k].next == NodeAt(chain, k + 1)
  {
  }

  lemma {:induction false} TotalPrefix(chains: seq<seq<REString>>, i: nat)
    requires i < |chains|
    ensures Total(chains[..i + 1]) == Total(chains[..i]) + |chains[i]| <= Total(chains)
  {
    assert chains[..i + 1][..i] == chains[..i];
    if i + 1 < |chains| {
      TotalPrefix(chains[..|chains| - 1], i);
      assert chains[..|chains| - 1][..i] == chains[..i] && chains[..|chains| - 1][..i + 1] == chains[..i + 1];
    } else {
      assert chains[..i + 1] == chains;
    }
  }

  /** The string is that of one of the first `k` nodes. */
  ghost predicate InFirst(chain: seq<REString>, k: nat, x: seq<nat>) {
    k <= |chain| && InChain(chain[..k], x)
  }

  lemma InFirstNone(chain: seq<REString>)
    ensures forall x :: !InFirst(chain, 0, x)
  {
  }

  lemma InFirstNext(chain: seq<REString>, k: nat)
    requires k < |chain|
    ensures forall x :: InFirst(chain, k + 1, x) <==> InFirst(chain, k, x) || x == chain[k].buf
  {
    assert chain[..k + 1] == chain[..k] + [chain[k]];
    forall x ensures InFirst(chain, k + 1, x) <==> InFirst(chain, k, x) || x == chain[k].buf {
      InChainSnoc(chain[..k], chain[k], x);
    }
  }

  lemma InFirstAll(chain: seq<REString>)
    ensures forall x :: InFirst(chain, |chain|, x) <==> InChain(chain, x)
  {
    assert chain[..|chain|] == chain;
  }

  lemma KeptNone(other: seq<seq<REString>>, bits: nat, sub: bool)
    ensures Kept([], other, bits, sub) == []
  {
  }

  lemma NoneInChain(x: seq<nat>)
    ensures !InChain([], x)
  {
  }

  lemma InChainSnoc(chain: seq<REString>, last: REString, x: seq<nat>)
    ensures InChain(chain + [last], x) <==> InChain(chain, x) || last.buf == x
  {
    var all := chain + [last];
    if InChain(chain, x) {
      var k :| 0 <= k < |chain| && chain[k].buf == x;
      assert all[k].buf == x;
    }
    assert all[|chain|] == last;
    if InChain(all, x) {
      var k :| 0 <= k < |all| && all[k].buf == x;
      assert k < |chain| ==> chain[k] == all[k];
    }
  }

  /** Taking nodes out keeps the rest placed and unique. */
  lemma {:induction false} KeptOk(chain: seq<REString>, other: seq<seq<REString>>, bits: nat, sub: bool, b: nat, i: int)
    requires Placed(chain, b, i) && Unique(chain)
    ensures Placed(Kept(chain, other, bits, sub), b, i) && Unique(Kept(chain, other, bits, sub))
  {
    if chain != [] {
      var n := |chain| - 1;
      KeptOk(chain[..n], other, bits, sub, b, i);
    }
  }

  /** Unlinking the first node of `rest` from behind `front`. */
  lemma Unlinked(head: REString?, front: seq<REString>, rest: seq<REString>)
    requires rest != [] && Linked(head, front + rest)
    ensures rest[0].next == NodeAt(rest, 1)
    ensures front == [] ==> head == rest[0]
    ensures forall k :: 0 <= k < |front| - 1 ==> front[k].next == front[k + 1]
    ensures forall k :: 1 <= k < |rest| ==> rest[k].next == NodeAt(rest, k + 1)
    ensures front != [] ==> head == front[0]
  {
    var all := front + rest;
    assert all[|front|].next == NodeAt(all, |front| + 1);
    forall k | 0 <= k < |front| - 1
      ensures front[k].next == front[k + 1]
    {
      assert all[k].next == NodeAt(all, k + 1);
    }
    forall k | 1 <= k < |rest|
      ensures rest[k].next == NodeAt(rest, k + 1)
    {
      assert all[|front| + k].next == NodeAt(all, |front| + k + 1);
    }
  }

  lemma Relinked(head: REString?, front: seq<REString>, rest: seq<REString>)
    requires head == if front == [] then NodeAt(rest, 0) else front[0]
    requires forall k :: 0 <= k < |front| - 1 ==> front[k].next == front[k + 1]
    requires front != [] ==> front[|front| - 1].next == NodeAt(rest, 0)
    requires forall k :: 0 <= k < |rest| ==> rest[k].next == NodeAt(rest, k + 1)
    ensures Linked(head, front + rest)
  {
    var all := front + rest;
    forall k | 0 <= k < |all|
      ensures all[k].next == NodeAt(all, k + 1)
    {
      if k >= |front| { assert rest[k - |front|].next == NodeAt(rest, k - |front| + 1); }
    }
  }

  lemma UniqueApart(front: seq<REString>, rest: seq<REString>)
    requires Unique(front + rest) && rest != []
    ensures Unique(front + rest[1..])
    ensures front != [] ==>
              var prev := front[|front| - 1];
              (forall k :: 0 <= k < |front| - 1 ==> front[k] != prev) &&
              (forall k :: 0 <= k < |rest| ==> rest[k] != prev)
  {
    var all, less := front + rest, front + rest[1..];
    forall k, l | 0 <= k < l < |less|
      ensures less[k].buf != less[l].buf
    {
      var k1, l1 := if k < |front| then k else k + 1, if l < |front| then l else l + 1;
      assert less[k] == all[k1] && less[l] == all[l1];
    }
    if front != [] {
      var n := |front| - 1;
      assert forall k :: 0 <= k < n ==> all[k] == front[k] && all[k].buf != all[n].buf;
      forall k | 0 <= k < |rest| ensures rest[k] != front[n] { assert all[|front| + k].buf != all[n].buf; }
    }
  }

  /** Takes the node after `prev` out of the chain at `i`. */
  method Unlink(table: array<REString?>, i: nat, prev: REString?, p: REString, ghost front: seq<REString>,
                ghost rest: seq<REString>)
    requires i < table.Length && rest != [] && rest[0] == p && Linked(table[i], front + rest) && Unique(front + rest)
    requires prev == if front == [] then null else front[|front| - 1]
    modifies table, (if prev == null then {} else {prev})`next
    ensures Linked(table[i], front + rest[1..]) && Unique(front + rest[1..])
    ensures forall j :: 0 <= j < table.Length && j != i ==> table[j] == old(table[j])
  {
    hide Unique;
    Unlinked(table[i], front, rest);
    UniqueApart(front, rest);
    ghost var rest1 := rest[1..];
    assert forall k :: 0 <= k < |rest1| ==> rest1[k] == rest[k + 1];
    if prev == null {
      table[i] := p.next;
    } else {
      prev.next := p.next;
    }
    forall k | 0 <= k < |rest1|
      ensures rest1[k].next == NodeAt(rest1, k + 1)
    {
      assert rest[k + 1].next == NodeAt(rest, k + 2);
    }
    Relinked(table[i], front, rest1);
  }

  /** One node: kept when the other list has its string, or, for a difference, has it not. */
  method FilterNode(table: array<REString?>, i: nat, b: REStringList, sub: bool, prev: REString?, p: REString,
                    ghost front: seq<REString>, ghost rest: seq<REString>, ghost own: set<REString>)
    returns (keep: bool)
    requires i < table.Length && rest != [] && rest[0] == p && p.hash == Hash(p.buf)
    requires Linked(table[i], front + rest) && Unique(front + rest)
    requires prev == (if front == [] then null else front[|front| - 1]) && (prev != null ==> prev in own)
    requires b.Valid() && table != b.hashTable && own !! b.nodes
    modifies table, own`next
    ensures keep == (Stored(b.chains, b.hashBits, p.buf) != sub)
    ensures Linked(table[i], (if keep then front + [p] else front) + rest[1..])
    ensures Unique((if keep then front + [p] else front) + rest[1..])
    ensures forall j :: 0 <= j < table.Length && j != i ==> table[j] == old(table[j])
    ensures b.Valid() && p.next == old(p.next)
  {
    hide Linked, Unique, Stored, Hash, REStringList.Valid;
    keep := b.Find2(p.buf, p.hash, false);
    if sub {
      keep := !keep;
    }
    assert front + rest == front + [p] + rest[1..];
    if !keep {
      UniqueApart(front, rest);
      Unlink(table, i, prev, p, front, rest);
    }
  }

  /** The loop of re_string_list_op over one chain, for an intersection or a difference. */
  method FilterChain(table: array<REString?>, i: nat, b: REStringList, sub: bool, ghost chain: seq<REString>,
                     ghost bits: nat, ghost own: set<REString>)
    returns (removed: nat)
    requires i < table.Length && ChainOk(table[i], chain, bits, i)
    requires b.Valid() && table != b.hashTable && own !! b.nodes && forall k :: 0 <= k < |chain| ==> chain[k] in own
    modifies table, own`next
    ensures ChainOk(table[i], Kept(chain, b.chains, b.hashBits, sub), bits, i)
    ensures removed + |Kept(chain, b.chains, b.hashBits, sub)| == |chain|
    ensures forall j :: 0 <= j < table.Length && j != i ==> table[j] == old(table[j])
    ensures b.Valid()
  {
    hide Linked, Unique, Placed, ChainOk, Kept, Stored, Hash, REStringList.Valid;
    var prev: REString? := null;
    var p := table[i];
    removed := 0;
    ghost var k, front, rest := 0, [], chain;
    FilterStart(table[i], chain, bits, i, b.chains, b.hashBits, sub);
    while p != null
      invariant 0 <= k <= |chain| && p == NodeAt(chain, k) && rest == chain[k..]
      invariant front == Kept(chain[..k], b.chains, b.hashBits, sub)
      invariant Linked(table[i], front + rest) && Unique(front + rest)
      invariant prev == if front == [] then null else front[|front| - 1]
      invariant prev != null ==> prev in own
      invariant forall j :: 0 <= j < table.Length && j != i ==> table[j] == old(table[j])
      invariant b.Valid() && removed + |front| == k
      decreases |chain| - k
    {
      NodePlaced(chain, bits, i, k);
      KeptSnoc(chain, b.chains, b.hashBits, sub, k);
      NextInChain(table[i], front, chain, k);
      var pNext := p.next;
      var keep := FilterNode(table, i, b, sub, prev, p, front, rest, own);
      if keep {
        prev := p;
        front := front + [p];
      } else {
        removed := removed + 1;
      }
      rest := rest[1..];
      p := pNext;
      k := k + 1;
    }
    assert chain[..k] == chain && front + rest == front;
    KeptOk(chain, b.chains, b.hashBits, sub, bits, i);
    ChainAgain(table[i], front, bits, i);
  }

  lemma FilterStart(head: REString?, chain: seq<REString>, bits: nat, i: int, other: seq<seq<REString>>, otherBits: nat,
                    sub: bool)
    requires ChainOk(head, chain, bits, i)
    ensures head == NodeAt(chain, 0) && Placed(chain, bits, i) && Unique(chain)
    ensures chain == chain[0..] && Kept(chain[..0], other, otherBits, sub) == []
    ensures Linked(head, [] + chain) && Unique([] + chain)
  {
    assert [] + chain == chain;
  }

  lemma NextInChain(head: REString?, front: seq<REString>, chain: seq<REString>, k: nat)
    requires k < |chain| && Linked(head, front + chain[k..])
    ensures chain[k].next == NodeAt(chain, k + 1)
    ensures chain[k..][1..] == chain[k + 1..]
    ensures front + chain[k..] == front + [chain[k]] + chain[k..][1..]
  {
    Unlinked(head, front, chain[k..]);
  }

  lemma ChainAgain(head: REString?, chain: seq<REString>, bits: nat, i: int)
    requires Linked(head, chain) && Placed(chain, bits, i) && Unique(chain)
    ensures ChainOk(head, chain, bits, i)
  {
  }
}
