/** The backtrack stack of lre_exec: one block of memory, cut into records of equal size. A record
    holds a header, all captures and as much of the operand stack as there was; push_state copies
    them in and enlarges the block by half when it is full. */
module BacktrackStack {
  import opened Options
  import opened Machine

  /** REExecStateEnum. */
  const SPLIT: int := 0
  const LOOKAHEAD: int := 1
  const NEGATIVE_LOOKAHEAD: int := 2
  const GREEDY_QUANT: int := 3

  /** The words of a record: its header, then the captures, then the operands. */
  const TYPE: nat := 0
  const STACK_LEN: nat := 1
  const COUNT: nat := 2
  const CPTR: nat := 3
  const PC: nat := 4
  const BUF: nat := 5

  /** A capture pointer as a word; no text is at the null pointer. */
  function Word(slot: Option<nat>): int {
    match slot
    case None => -1
    case Some(pos) => pos
  }

  function Slot(word: int): (r: Option<nat>)
    ensures Word(r) == word || word < -1
  {
    if word < 0 then None else Some(word)
  }

  lemma SlotWord(slot: Option<nat>)
    ensures Slot(Word(slot)) == slot
  {
  }

  /** What a record of the given kind stands for. */
  function EntryOf(kind: int, pc: int, pos: nat, caps: seq<Option<nat>>, stk: seq<int>, count: nat): Entry {
    if kind == GREEDY_QUANT then Greedy(pc, pos, caps, stk, count)
    else if kind == SPLIT then Choice(pc, pos, caps, stk)
    else Ahead(kind == NEGATIVE_LOOKAHEAD, pc, pos, caps, stk)
  }

  /** A record that has been filled in. */
  predicate Filled(row: seq<int>, captures: nat, depth: nat) {
    && |row| == BUF + captures + depth
    && SPLIT <= row[TYPE] <= GREEDY_QUANT
    && 0 <= row[STACK_LEN] <= depth
    && row[COUNT] >= 0 && (row[TYPE] == GREEDY_QUANT ==> row[COUNT] > 0)
    && row[CPTR] >= 0
  }

  function Decoded(row: seq<int>, captures: nat, depth: nat): (r: Entry)
    requires Filled(row, captures, depth)
  {
    EntryOf(row[TYPE], row[PC], row[CPTR],
            seq(captures, k requires 0 <= k < captures => Slot(row[BUF + k])),
            row[BUF + captures..BUF + captures + row[STACK_LEN]], row[COUNT])
  }

  /** A record filled in from captures and operands stands for the entry with these. */
  lemma DecodedIs(row: seq<int>, depth: nat, kind: int, pc: int, pos: nat, caps: seq<Option<nat>>, stk: seq<int>,
                  count: nat)
    requires |row| == BUF + |caps| + depth && |stk| <= depth
    requires SPLIT <= kind <= GREEDY_QUANT && (kind == GREEDY_QUANT ==> count > 0)
    requires row[..BUF] == [kind, |stk|, count, pos, pc]
    requires forall k :: 0 <= k < |caps| ==> row[BUF + k] == Word(caps[k])
    requires forall k :: 0 <= k < |stk| ==> row[BUF + |caps| + k] == stk[k]
    ensures Filled(row, |caps|, depth) && Decoded(row, |caps|, depth) == EntryOf(kind, pc, pos, caps, stk, count)
  {
    assert row[TYPE] == row[..BUF][0] && row[STACK_LEN] == row[..BUF][1] && row[COUNT] == row[..BUF][2];
    assert row[CPTR] == row[..BUF][3] && row[PC] == row[..BUF][4];
    var slots := seq(|caps|, k requires 0 <= k < |caps| => Slot(row[BUF + k]));
    forall k | 0 <= k < |caps| ensures slots[k] == caps[k] {
      assert row[BUF + k] == Word(caps[k]);
      SlotWord(caps[k]);
    }
    assert slots == caps;
    assert row[BUF + |caps|..BUF + |caps| + |stk|] == stk;
  }

  predicate AllFilled(rows: seq<seq<int>>, captures: nat, depth: nat) {
    forall i :: 0 <= i < |rows| ==> Filled(rows[i], captures, depth)
  }

  /** The entries that records stand for. */
  function DecodedAll(rows: seq<seq<int>>, captures: nat, depth: nat): (r: seq<Entry>)
    requires AllFilled(rows, captures, depth)
    ensures |r| == |rows| && forall i :: 0 <= i < |r| ==> r[i] == Decoded(rows[i], captures, depth)
  {
    seq(|rows|, i requires 0 <= i < |rows| => Decoded(rows[i], captures, depth))
  }

  lemma DecodedSnoc(rows: seq<seq<int>>, row: seq<int>, captures: nat, depth: nat)
    requires AllFilled(rows, captures, depth) && Filled(row, captures, depth)
    ensures AllFilled(rows + [row], captures, depth)
    ensures DecodedAll(rows + [row], captures, depth)
            == DecodedAll(rows, captures, depth) + [Decoded(row, captures, depth)]
  {
    hide Decoded, Filled;
  }

  lemma DecodedInit(rows: seq<seq<int>>, captures: nat, depth: nat)
    requires AllFilled(rows, captures, depth) && rows != []
    ensures AllFilled(rows[..|rows| - 1], captures, depth)
    ensures DecodedAll(rows, captures, depth) ==
            DecodedAll(rows[..|rows| - 1], captures, depth) + [Decoded(rows[|rows| - 1], captures, depth)]
  {
    hide Decoded, Filled;
  }

  lemma CountPositive(row: seq<int>, captures: nat, depth: nat)
    requires Filled(row, captures, depth) && Decoded(row, captures, depth).Greedy?
    ensures |row| > COUNT && row[TYPE] == GREEDY_QUANT && row[COUNT] == Decoded(row, captures, depth).count > 0
  {
  }

  /** A record one iteration further back. */
  function Retried(row: seq<int>, cptr: nat): (r: seq<int>)
    requires |row| >= BUF
    ensures |r| == |row|
  {
    row[CPTR := cptr][COUNT := row[COUNT] - 1]
  }

  lemma RetriedIs(row: seq<int>, captures: nat, depth: nat, cptr: nat)
    requires Filled(row, captures, depth) && row[TYPE] == GREEDY_QUANT && row[COUNT] > 1
    ensures var e, r := Decoded(row, captures, depth), Retried(row, cptr);
            && Filled(r, captures, depth) && e.Greedy?
            && Decoded(r, captures, depth) == e.(pos := cptr, count := e.count - 1)
  {
    var r := Retried(row, cptr);
    assert row[BUF + captures..BUF + captures + row[STACK_LEN]] == r[BUF + captures..BUF + captures + r[STACK_LEN]];
    assert seq(captures, k requires 0 <= k < captures => Slot(row[BUF + k]))
        == seq(captures, k requires 0 <= k < captures => Slot(r[BUF + k]));
  }

  lemma RetriedAll(rows: seq<seq<int>>, row: seq<int>, captures: nat, depth: nat, cptr: nat)
    requires AllFilled(rows, captures, depth)
    requires Filled(row, captures, depth) && row[TYPE] == GREEDY_QUANT && row[COUNT] > 1
    ensures var e, all := Decoded(row, captures, depth), rows + [Retried(row, cptr)];
            && AllFilled(all, captures, depth) && e.Greedy?
            && DecodedAll(all, captures, depth) ==
               DecodedAll(rows, captures, depth) + [e.(pos := cptr, count := e.count - 1)]
  {
    RetriedIs(row, captures, depth, cptr);
    DecodedSnoc(rows, Retried(row, cptr), captures, depth);
  }

  class StateStack {
    const captures: nat
    const depth: nat
    var block: array2<int>
    var size: nat
    var len: nat

    /** An empty stack for records with so many captures and operands; the operand count of a
        record is one byte. */
    constructor (captures: nat, depth: nat)
      requires depth < 256
      ensures this.captures == captures && this.depth == depth
      ensures Valid() && fresh(block) && Contents() == []
    {
      this.captures := captures;
      this.depth := depth;
      block := new int[0, BUF + captures + depth];
      size, len := 0, 0;
    }

    /** The record at `i`. */
    ghost function Row(i: nat): (r: seq<int>)
      requires i < block.Length0
      reads this`block, block
      ensures |r| == block.Length1
      ensures forall j :: 0 <= j < |r| ==> r[j] == block[i, j]
    {
      var b := block;
      seq(b.Length1, j requires 0 <= j < b.Length1 reads b => b[i, j])
    }

    /** The first `n` records. */
    ghost function Rows(n: nat): (r: seq<seq<int>>)
      requires n <= block.Length0
      reads this`block, block
      ensures |r| == n && forall i :: 0 <= i < n ==> r[i] == Row(i)
    {
      if n == 0 then [] else Rows(n - 1) + [Row(n - 1)]
    }

    ghost predicate Valid()
      reads this, block
    {
      && block.Length0 == size && block.Length1 == BUF + captures + depth
      && len <= size && depth < 256
      && AllFilled(Rows(len), captures, depth)
    }

    /** The stack that the block stands for. */
    ghost function Contents(): seq<Entry>
      requires Valid()
      reads this, block
    {
      DecodedAll(Rows(len), captures, depth)
    }

    /** The entry of the last record. */
    ghost function Top(): Entry
      requires Valid() && len > 0
      reads this, block
    {
      Contents()[len - 1]
    }

    lemma TopRow()
      requires Valid() && len > 0
      ensures Filled(Row(len - 1), captures, depth) && Top() == Decoded(Row(len - 1), captures, depth)
    {
      assert Rows(len)[len - 1] == Row(len - 1);
    }

    lemma TopParts()
      requires Valid() && len > 0
      ensures var rows := Rows(len - 1);
              && AllFilled(rows, captures, depth) && Filled(Row(len - 1), captures, depth)
              && Top() == Decoded(Row(len - 1), captures, depth)
              && Contents() == DecodedAll(rows, captures, depth) + [Top()]
              && Contents()[..|Contents()| - 1] == DecodedAll(rows, captures, depth)
    {
      hide Filled, Decoded;
      TopRow();
      DecodedInit(Rows(len), captures, depth);
      assert Rows(len)[..len - 1] == Rows(len - 1);
    }

    /** A field of the last record. */
    function Field(field: nat): int
      requires Valid() && len > 0 && field < BUF
      reads this, block
    {
      block[len - 1, field]
    }

    /** The header of the last record, as it is read. */
    lemma TopFields()
      requires Valid() && len > 0
      ensures |Contents()| == len && Contents()[len - 1] == Top()
      ensures var e := Top();
              && e.pc == Field(PC) && e.pos == Field(CPTR) && |e.caps| == captures && |e.stk| <= depth
              && (e.Choice? <==> Field(TYPE) == SPLIT) && (e.Greedy? <==> Field(TYPE) == GREEDY_QUANT)
              && (e.Ahead? ==> Field(TYPE) == if e.neg then NEGATIVE_LOOKAHEAD else LOOKAHEAD)
    {
      TopRow();
    }

    /** The reallocation in push_state: by half, and to no fewer than 8 records. */
    method Enlarge()
      requires Valid()
      modifies this`block, this`size
      ensures Valid() && fresh(block) && size > old(size) && Rows(len) == old(Rows(len))
      ensures size == if old(size) * 3 / 2 < 8 then 8 else old(size) * 3 / 2
    {
      hide Filled;
      var newSize := size * 3 / 2;
      if newSize < 8 {
        newSize := 8;
      }
      var b := block;
      var newBlock := new int[newSize, BUF + captures + depth];
      forall i, j | 0 <= i < b.Length0 && 0 <= j < b.Length1 {
        newBlock[i, j] := b[i, j];
      }
      ghost var rows := Rows(len);
      assert forall i :: 0 <= i < len ==> rows[i] == Row(i);
      block, size := newBlock, newSize;
      assert forall i :: 0 <= i < len ==> rows[i] == Row(i);
      assert Rows(len) == rows;
    }

    /** push_state: the record behind the last is filled in, captures and operands copied. */
    method Push(capture: array<Option<nat>>, stack: array<int>, stackLen: nat, pc: int, cptr: nat, kind: int,
                count: nat)
      requires Valid() && capture.Length == captures && stackLen <= depth && stackLen <= stack.Length
      requires block as object != capture && block as object != stack
      requires SPLIT <= kind <= GREEDY_QUANT && (kind == GREEDY_QUANT ==> count > 0)
      modifies this`block, this`size, this`len, block
      ensures Valid() && (block == old(block) || fresh(block))
      ensures Contents() == old(Contents()) + [EntryOf(kind, pc, cptr, capture[..], stack[..stackLen], count)]
    {
      hide Filled, Decoded, EntryOf, DecodedAll;
      if len + 1 > size {
        Enlarge();
      }
      ghost var rows := Rows(len);
      Fill(capture, stack, stackLen, pc, cptr, kind, count);
      assert forall i :: 0 <= i < len ==> rows[i] == Row(i);
      assert Rows(len) == rows;
      DecodedSnoc(rows, Row(len), captures, depth);
      assert Rows(len + 1) == rows + [Row(len)];
      len := len + 1;
    }

    /** Only the record behind the last may have changed. */
    twostate predicate OthersKept()
      requires old(block) == block
      reads this, block
    {
      forall i, j :: 0 <= i < block.Length0 && i != len && 0 <= j < block.Length1 ==> block[i, j] == old(block[i, j])
    }

    /** The header of the record behind the last. */
    ghost predicate Header(kind: int, stackLen: int, count: int, cptr: int, pc: int)
      requires len < block.Length0 && BUF <= block.Length1
      reads this, block
    {
      && block[len, TYPE] == kind && block[len, STACK_LEN] == stackLen && block[len, COUNT] == count
      && block[len, CPTR] == cptr && block[len, PC] == pc
    }

    /** The copying, word by word. */
    method Fill(capture: array<Option<nat>>, stack: array<int>, stackLen: nat, pc: int, cptr: nat, kind: int,
                count: nat)
      requires block.Length0 == size && block.Length1 == BUF + captures + depth && depth < 256
      requires len < size && capture.Length == captures && stackLen <= depth && stackLen <= stack.Length
      requires block as object != capture && block as object != stack
      requires SPLIT <= kind <= GREEDY_QUANT && (kind == GREEDY_QUANT ==> count > 0)
      modifies block
      ensures forall i, j :: 0 <= i < size && i != len && 0 <= j < block.Length1 ==> block[i, j] == old(block[i, j])
      ensures Filled(Row(len), captures, depth)
      ensures Decoded(Row(len), captures, depth) == EntryOf(kind, pc, cptr, capture[..], stack[..stackLen], count)
    {
      block[len, TYPE] := kind;
      block[len, COUNT] := count;
      block[len, STACK_LEN] := stackLen % 256;
      block[len, CPTR] := cptr;
      block[len, PC] := pc;
      FillCaptures(capture, pc, cptr, kind, stackLen, count);
      FillOperands(stack, stackLen, capture, pc, cptr, kind, count);
      hide Filled, Decoded, EntryOf;
      assert Row(len)[..BUF] == [kind, stackLen, count, cptr, pc];
      DecodedIs(Row(len), depth, kind, pc, cptr, capture[..], stack[..stackLen], count);
    }

    method FillCaptures(capture: array<Option<nat>>, pc: int, cptr: nat, kind: int, stackLen: nat, count: nat)
      requires block.Length0 == size && block.Length1 == BUF + captures + depth
      requires len < size && capture.Length == captures && block as object != capture
      requires Header(kind, stackLen, count, cptr, pc)
      modifies block
      ensures OthersKept() && Header(kind, stackLen, count, cptr, pc)
      ensures forall k :: 0 <= k < captures ==> block[len, BUF + k] == Word(capture[k])
    {
      var i := 0;
      while i < captures
        invariant 0 <= i <= captures && Header(kind, stackLen, count, cptr, pc) && OthersKept()
        invariant forall k :: 0 <= k < i ==> block[len, BUF + k] == Word(capture[k])
      {
        block[len, BUF + i] := Word(capture[i]);
        i := i + 1;
      }
    }

    method FillOperands(stack: array<int>, stackLen: nat, capture: array<Option<nat>>, pc: int, cptr: nat, kind: int,
                        count: nat)
      requires block.Length0 == size && block.Length1 == BUF + captures + depth
      requires len < size && capture.Length == captures && stackLen <= depth && stackLen <= stack.Length
      requires block as object != capture && block as object != stack
      requires Header(kind, stackLen, count, cptr, pc)
      requires forall k :: 0 <= k < captures ==> block[len, BUF + k] == Word(capture[k])
      modifies block
      ensures OthersKept() && Header(kind, stackLen, count, cptr, pc)
      ensures forall k :: 0 <= k < captures ==> block[len, BUF + k] == Word(capture[k])
      ensures forall k :: 0 <= k < stackLen ==> block[len, BUF + captures + k] == stack[k]
    {
      var i := 0;
      while i < stackLen
        invariant 0 <= i <= stackLen && Header(kind, stackLen, count, cptr, pc) && OthersKept()
        invariant forall k :: 0 <= k < captures ==> block[len, BUF + k] == Word(capture[k])
        invariant forall k :: 0 <= k < i ==> block[len, BUF + captures + k] == stack[k]
      {
        block[len, BUF + captures + i] := stack[i];
        i := i + 1;
      }
    }

    /** The captures of the last record are copied back. */
    method RestoreCapture(capture: array<Option<nat>>)
      requires Valid() && len > 0 && capture.Length == captures && block as object != capture
      modifies capture
      ensures Valid() && capture[..] == Top().caps
    {
      TopRow();
      hide AllFilled, DecodedAll, StateStack.Rows;
      ghost var row := Row(len - 1);
      var i := 0;
      while i < captures
        invariant 0 <= i <= captures
        invariant forall k :: 0 <= k < i ==> capture[k] == Slot(row[BUF + k])
      {
        var w := block[len - 1, BUF + i];
        capture[i] := if w < 0 then None else Some(w);
        i := i + 1;
      }
    }

    /** The operands of the last record are copied back. */
    method RestoreStack(stack: array<int>) returns (stackLen: nat)
      requires Valid() && len > 0 && stack.Length == depth && block as object != stack
      modifies stack
      ensures Valid() && stackLen <= stack.Length && stackLen == |Top().stk| && stack[..stackLen] == Top().stk
    {
      TopRow();
      hide AllFilled, DecodedAll, StateStack.Rows;
      ghost var row := Row(len - 1);
      stackLen := block[len - 1, STACK_LEN];
      var i := 0;
      while i < stackLen
        invariant 0 <= i <= stackLen
        invariant forall k :: 0 <= k < i ==> stack[k] == row[BUF + captures + k]
      {
        stack[i] := block[len - 1, BUF + captures + i];
        i := i + 1;
      }
    }

    /** The last record is given up. */
    method Pop()
      requires Valid() && len > 0
      modifies this`len
      ensures Valid() && Contents() == old(Contents())[..|old(Contents())| - 1]
    {
      hide Filled, Decoded;
      TopParts();
      len := len - 1;
    }

    /** What becomes of a greedy record on top. */
    lemma RetryParts(cptr: nat)
      requires Valid() && len > 0 && Top().Greedy?
      ensures var rows, row, e := Rows(len - 1), Row(len - 1), Top();
              && AllFilled(rows, captures, depth) && row[COUNT] == e.count > 0
              && Contents()[..|Contents()| - 1] == DecodedAll(rows, captures, depth)
              && (e.count > 1 ==>
                    var all := rows + [Retried(row, cptr)];
                    AllFilled(all, captures, depth) && DecodedAll(all, captures, depth) ==
                    DecodedAll(rows, captures, depth) + [e.(pos := cptr, count := e.count - 1)])
    {
      hide DecodedAll, Decoded, Filled, AllFilled, StateStack.Contents, StateStack.Rows, StateStack.Row,
           StateStack.Top, Retried;
      TopParts();
      CountPositive(Row(len - 1), captures, depth);
      if Top().count > 1 {
        RetriedAll(Rows(len - 1), Row(len - 1), captures, depth, cptr);
      }
    }

    /** A greedy record with one iteration fewer to give up; it goes when none is left. */
    method Retry(cptr: nat)
      requires Valid() && len > 0 && Top().Greedy?
      modifies this`len, block
      ensures var e, rest := old(Top()), old(Contents())[..|old(Contents())| - 1];
              && Valid() && e.Greedy? && e.count > 0
              && Contents() == if e.count == 1 then rest else rest + [e.(pos := cptr, count := e.count - 1)]
    {
      hide DecodedAll, Decoded, Filled, AllFilled, StateStack.Contents, StateStack.Rows, StateStack.Row,
           StateStack.Top, Retried;
      RetryParts(cptr);
      var count := Rewrite(cptr);
      if count == 0 {
        len := len - 1;
      } else {
        LastRow();
      }
      Decodes();
    }

    lemma Decodes()
      requires Valid()
      ensures Contents() == DecodedAll(Rows(len), captures, depth)
    {
    }

    lemma LastRow()
      requires 0 < len <= block.Length0
      ensures Rows(len) == Rows(len - 1) + [Row(len - 1)]
    {
    }

    /** rs->cptr and rs->count of the last record. */
    method Rewrite(cptr: nat) returns (count: int)
      requires 0 < len <= block.Length0 && block.Length1 >= BUF
      modifies block
      ensures Rows(len - 1) == old(Rows(len - 1))
      ensures Row(len - 1) == Retried(old(Row(len - 1)), cptr) && count == old(Row(len - 1)[COUNT]) - 1
    {
      ghost var rows, row := Rows(len - 1), Row(len - 1);
      block[len - 1, CPTR] := cptr;
      block[len - 1, COUNT] := block[len - 1, COUNT] - 1;
      count := block[len - 1, COUNT];
      assert forall i :: 0 <= i < len - 1 ==> rows[i] == Row(i);
      assert Rows(len - 1) == rows;
    }
  }
}
