/** A static discipline for emitted code. The linear scan gives every instruction boundary an
    operand-stack depth (compute_stack_size) and a lookaround nesting; every jump lands on a
    boundary of the same fragment, or on its end, where both agree. */
module Typing {
  import opened Options
  import opened Opcodes
  import opened Emission

  function DepthStep(i: Instr): int {
    if i.PushI32? || i.PushCharPos? then 1 else if i.Drop? || i.CheckAdvance? then -1 else 0
  }

  /** Lookaround bodies, and the bodies of simple quantifiers, end with a match. */
  function NestStep(i: Instr): int {
    if i.Lookahead? || i.SimpleGreedyQuant? then 1 else if i.Match? then -1 else 0
  }

  function Depth(ins: seq<Instr>): int {
    if ins == [] then 0 else Depth(ins[..|ins| - 1]) + DepthStep(ins[|ins| - 1])
  }

  function Nest(ins: seq<Instr>): int {
    if ins == [] then 0 else Nest(ins[..|ins| - 1]) + NestStep(ins[|ins| - 1])
  }

  /** Where the code before index `k` leaves the offset, the depth and the nesting. */
  datatype Place = Place(offset: int, depth: int, nest: int)

  function PlaceOf(ins: seq<Instr>): Place {
    Place(SizeAll(ins), Depth(ins), Nest(ins))
  }

  function Plus(a: Place, b: Place): Place {
    Place(a.offset + b.offset, a.depth + b.depth, a.nest + b.nest)
  }

  function One(i: Instr): Place {
    Place(Size(i), DepthStep(i), NestStep(i))
  }

  lemma {:induction false} AtAppend(x: seq<Instr>, y: seq<Instr>)
    ensures PlaceOf(x + y) == Plus(PlaceOf(x), PlaceOf(y))
    decreases |y|
  {
    hide Size, DepthStep, NestStep;
    if y == [] {
      assert x + y == x;
    } else {
      assert (x + y)[..|x + y| - 1] == x + y[..|y| - 1];
      AtAppend(x, y[..|y| - 1]);
    }
  }

  lemma AtOne(i: Instr)
    ensures PlaceOf([i]) == One(i)
  {
    hide Size, DepthStep, NestStep;
    assert [i][..0] == [];
    assert SizeAll([i]) == SizeAll([]) + Size(i);
    assert Depth([i]) == Depth([]) + DepthStep(i);
    assert Nest([i]) == Nest([]) + NestStep(i);
  }

  lemma AtNext(ins: seq<Instr>, k: nat)
    requires k < |ins|
    ensures PlaceOf(ins[..k + 1]) == Plus(PlaceOf(ins[..k]), One(ins[k]))
  {
    hide Size, DepthStep, NestStep;
    assert ins[..k + 1][..k] == ins[..k];
  }

  /** The displacement of a jump, from the end of its instruction. */
  function Jump(i: Instr): Option<int> {
    match i
    case Goto(off) => Some(off)
    case Split(_, off) => Some(off)
    case Loop(off) => Some(off)
    case Lookahead(_, off) => Some(off)
    case SimpleGreedyQuant(next, _, _, _) => Some(next)
    case _ => None
  }

  /** The place a jump at `k` must find at its target: that of the instruction itself, moved by
      the instruction's size and the displacement. */
  function Landing(ins: seq<Instr>, k: nat): Place
    requires k < |ins| && Jump(ins[k]).Some?
  {
    Plus(PlaceOf(ins[..k]), Place(Size(ins[k]) + Jump(ins[k]).value, 0, 0))
  }

  predicate Needs(i: Instr) {
    i.Drop? || i.CheckAdvance? || i.Loop?
  }

  /** The instruction at `k` respects the discipline inside the fragment. */
  ghost predicate OkAt(ins: seq<Instr>, k: nat) {
    && k < |ins|
    && PlaceOf(ins[..k]).depth >= 0 && PlaceOf(ins[..k]).nest >= 0
    && (Needs(ins[k]) ==> PlaceOf(ins[..k]).depth >= 1)
    && (ins[k].Match? ==> PlaceOf(ins[..k]).nest >= 1)
    && (Jump(ins[k]).Some? ==> exists j :: 0 <= j <= |ins| && PlaceOf(ins[..j]) == Landing(ins, k))
  }

  ghost predicate WellTyped(ins: seq<Instr>) {
    && PlaceOf(ins).depth == 0 && PlaceOf(ins).nest == 0
    && forall k :: 0 <= k < |ins| ==> OkAt(ins, k)
  }

  /** The discipline survives any surroundings. */
  lemma OkInside(pre: seq<Instr>, mid: seq<Instr>, post: seq<Instr>, k: nat)
    requires OkAt(mid, k) && PlaceOf(pre).depth >= 0 && PlaceOf(pre).nest >= 0
    ensures OkAt(pre + mid + post, |pre| + k)
  {
    hide PlaceOf, Plus, Size;
    var all := pre + mid + post;
    assert all[..|pre| + k] == pre + mid[..k];
    AtAppend(pre, mid[..k]);
    PlusParts(PlaceOf(pre), PlaceOf(mid[..k]));
    if Jump(mid[k]).Some? {
      var j :| 0 <= j <= |mid| && PlaceOf(mid[..j]) == Landing(mid, k);
      assert all[..|pre| + j] == pre + mid[..j];
      AtAppend(pre, mid[..j]);
      PlusAssoc(PlaceOf(pre), PlaceOf(mid[..k]), Place(Size(mid[k]) + Jump(mid[k]).value, 0, 0));
      assert PlaceOf(all[..|pre| + j]) == Landing(all, |pre| + k);
    }
  }

  lemma PlusParts(a: Place, b: Place)
    ensures Plus(a, b).depth == a.depth + b.depth && Plus(a, b).nest == a.nest + b.nest
    ensures Plus(a, b).offset == a.offset + b.offset
  {
  }

  lemma PlusAssoc(a: Place, b: Place, c: Place)
    ensures Plus(a, Plus(b, c)) == Plus(Plus(a, b), c)
  {
  }

  /** A well-typed middle between instructions that respect the discipline. */
  lemma Bracket(pre: seq<Instr>, mid: seq<Instr>, post: seq<Instr>)
    requires WellTyped(mid) && PlaceOf(pre).depth >= 0 && PlaceOf(pre).nest >= 0
    requires forall k :: 0 <= k < |pre| ==> OkAt(pre + mid + post, k)
    requires forall k :: |pre| + |mid| <= k < |pre + mid + post| ==> OkAt(pre + mid + post, k)
    requires Plus(PlaceOf(pre), PlaceOf(post)).depth == 0 && Plus(PlaceOf(pre), PlaceOf(post)).nest == 0
    ensures WellTyped(pre + mid + post)
  {
    hide PlaceOf, OkAt, Plus;
    var all := pre + mid + post;
    AtAppend(pre + mid, post);
    AtAppend(pre, mid);
    PlusParts(PlaceOf(pre + mid), PlaceOf(post));
    PlusParts(PlaceOf(pre), PlaceOf(mid));
    PlusParts(PlaceOf(pre), PlaceOf(post));
    forall k | 0 <= k < |all|
      ensures OkAt(all, k)
    {
      if |pre| <= k < |pre| + |mid| {
        OkInside(pre, mid, post, k - |pre|);
      }
    }
  }

  lemma TypedNothing()
    ensures WellTyped([])
  {
  }

  lemma TypedAppend(x: seq<Instr>, y: seq<Instr>)
    requires WellTyped(x) && WellTyped(y)
    ensures WellTyped(x + y)
  {
    hide PlaceOf, OkAt, Plus;
    AtAppend(x, y);
    PlusParts(PlaceOf(x), PlaceOf(y));
    forall k | 0 <= k < |x + y|
      ensures OkAt(x + y, k)
    {
      AtNothing();
      if k < |x| {
        OkInside([], x, y, k);
        assert [] + x + y == x + y;
      } else {
        OkInside(x, y, [], k - |x|);
        assert x + y + [] == x + y;
      }
    }
  }

  lemma AtNothing()
    ensures PlaceOf([]) == Place(0, 0, 0)
  {
  }

  /** An instruction without stack, nesting or jump effect. */
  predicate Plain(i: Instr) {
    Jump(i).None? && !Needs(i) && DepthStep(i) == 0 && NestStep(i) == 0
  }

  lemma TypedPlain(i: Instr)
    requires Plain(i)
    ensures WellTyped([i])
  {
    hide Size;
    AtOne(i);
    AtNothing();
    assert [i][..0] == [];
  }

  /** The places along `pre` + `mid` + `post`, for instructions around a well-typed middle. */
  lemma PlaceInPost(pre: seq<Instr>, mid: seq<Instr>, post: seq<Instr>, k: nat)
    requires k <= |post|
    ensures PlaceOf((pre + mid + post)[..|pre| + |mid| + k])
            == Plus(Plus(PlaceOf(pre), PlaceOf(mid)), PlaceOf(post[..k]))
  {
    hide PlaceOf, Plus;
    assert (pre + mid + post)[..|pre| + |mid| + k] == pre + mid + post[..k];
    AtAppend(pre + mid, post[..k]);
    AtAppend(pre, mid);
  }

  lemma PlaceInPre(pre: seq<Instr>, mid: seq<Instr>, post: seq<Instr>, k: nat)
    requires k <= |pre|
    ensures PlaceOf((pre + mid + post)[..k]) == PlaceOf(pre[..k])
  {
    assert (pre + mid + post)[..k] == pre[..k];
  }

  /** The instruction at `k`, entered at the place `p`; a jump there lands at the boundary `j`. */
  lemma OkHere(all: seq<Instr>, k: nat, p: Place, j: nat)
    requires k < |all| && j <= |all| && PlaceOf(all[..k]) == p && p.depth >= 0 && p.nest >= 0
    requires Needs(all[k]) ==> p.depth >= 1
    requires all[k].Match? ==> p.nest >= 1
    requires Jump(all[k]).Some? ==> PlaceOf(all[..j]) == Plus(p, Place(Size(all[k]) + Jump(all[k]).value, 0, 0))
    ensures OkAt(all, k)
  {
    hide PlaceOf, Plus;
  }

  lemma TypedBalance(ins: seq<Instr>)
    requires WellTyped(ins)
    ensures PlaceOf(ins) == Place(SizeAll(ins), 0, 0)
  {
  }

  lemma TypedOk(ins: seq<Instr>, k: nat)
    requires WellTyped(ins) && k < |ins|
    ensures OkAt(ins, k)
  {
  }

  lemma CheckPlaces()
    ensures PlaceOf([PushCharPos]) == Place(1, 1, 0) && PlaceOf([CheckAdvance]) == Place(1, -1, 0)
  {
    AtOne(PushCharPos);
    AtOne(CheckAdvance);
  }

  lemma TypedChecked(atom: seq<Instr>, check: bool)
    requires WellTyped(atom)
    ensures WellTyped(CheckedAtom(atom, check))
  {
    hide SizeAll, Depth, Nest, OkAt, WellTyped, PlaceOf, DepthStep, NestStep, Size, One;
    if check {
      var pre, post := [PushCharPos], [CheckAdvance];
      var all := pre + atom + post;
      CheckPlaces();
      AtNothing();
      PlaceInPre(pre, atom, post, 0);
      PlaceInPost(pre, atom, post, 0);
      assert pre[..0] == [] && post[..0] == [];
      TypedBalance(atom);
      OkHere(all, 0, Place(0, 0, 0), 0);
      OkHere(all, 1 + |atom|, PlaceOf(all[..1 + |atom|]), 0);
      forall k | 0 <= k < |pre| ensures OkAt(all, k) { assert k == 0; }
      forall k | |pre| + |atom| <= k < |all| ensures OkAt(all, k) { assert k == |pre| + |atom|; }
      Bracket(pre, atom, post);
    }
  }

  lemma TypedStar(body: seq<Instr>, greedy: bool)
    requires WellTyped(body)
    ensures WellTyped([Split(!greedy, SizeAll(body) + 5)] + body + [Goto(-(SizeAll(body) + 10))])
  {
    hide SizeAll, Depth, Nest, OkAt, WellTyped, PlaceOf;
    var split, jump := Split(!greedy, SizeAll(body) + 5), Goto(-(SizeAll(body) + 10));
    var pre, post := [split], [jump];
    var all := pre + body + post;
    AtOne(split);
    AtOne(jump);
    AtNothing();
    PlaceInPre(pre, body, post, 0);
    PlaceInPost(pre, body, post, 0);
    PlaceInPost(pre, body, post, 1);
    assert pre[..0] == [] && post[..0] == [] && post[..1] == post;
    TypedBalance(body);
    OkHere(all, 0, Place(0, 0, 0), |all|);
    OkHere(all, 1 + |body|, PlaceOf(all[..1 + |body|]), 0);
    forall k | 0 <= k < |pre| ensures OkAt(all, k) { assert k == 0; }
    forall k | |pre| + |body| <= k < |all| ensures OkAt(all, k) { assert k == |pre| + |body|; }
    Bracket(pre, body, post);
  }

  lemma TypedOptional(body: seq<Instr>, greedy: bool)
    requires WellTyped(body)
    ensures WellTyped([Split(!greedy, SizeAll(body))] + body)
  {
    hide SizeAll, Depth, Nest, OkAt, WellTyped, PlaceOf;
    var split := Split(!greedy, SizeAll(body));
    var pre, post: seq<Instr> := [split], [];
    var all := pre + body + post;
    AtOne(split);
    AtNothing();
    PlaceInPre(pre, body, post, 0);
    PlaceInPost(pre, body, post, 0);
    assert pre[..0] == [] && post[..0] == [];
    TypedBalance(body);
    OkHere(all, 0, Place(0, 0, 0), |all|);
    Bracket(pre, body, post);
    assert all == pre + body;
  }

  lemma HeadPlaces(push: Instr, split: Instr)
    requires push.PushI32? && split.Split?
    ensures var pre := [push, split];
            && pre[..0] == [] && pre[..2] == pre
            && PlaceOf(pre[..1]) == Place(5, 1, 0) && PlaceOf(pre) == Place(10, 1, 0)
  {
    hide PlaceOf;
    var pre := [push, split];
    AtOne(push);
    AtOne(split);
    AtAppend([push], [split]);
    assert One(push) == Place(5, 1, 0);
    assert One(split) == Place(5, 0, 0);
    assert pre == [push] + [split] && pre[..1] == [push];
  }

  lemma FootPlaces(loop: Instr)
    requires loop.Loop?
    ensures var post := [loop, Drop];
            && post[..0] == [] && post[..2] == post
            && PlaceOf(post[..1]) == Place(5, 0, 0) && PlaceOf(post) == Place(6, -1, 0)
  {
    hide PlaceOf;
    var post := [loop, Drop];
    AtOne(loop);
    AtOne(Drop);
    AtAppend([loop], [Drop]);
    assert One(loop) == Place(5, 0, 0);
    assert One(Drop) == Place(1, -1, 0);
    assert post == [loop] + [Drop] && post[..1] == [loop];
  }

  /** `n` on the stack, then a body, then the foot that jumps back to the boundary `head`. */
  lemma TypedCounted(n: int, body: seq<Instr>, greedy: bool)
    requires WellTyped(body)
    ensures WellTyped([PushI32(n), Split(!greedy, SizeAll(body) + 5)] + body + [Loop(-(SizeAll(body) + 10)), Drop])
  {
    hide SizeAll, Depth, Nest, OkAt, WellTyped, PlaceOf;
    var push, split, loop := PushI32(n), Split(!greedy, SizeAll(body) + 5), Loop(-(SizeAll(body) + 10));
    var pre, post := [push, split], [loop, Drop];
    var all := pre + body + post;
    HeadPlaces(push, split);
    FootPlaces(loop);
    AtNothing();
    PlaceInPre(pre, body, post, 0);
    PlaceInPre(pre, body, post, 1);
    PlaceInPost(pre, body, post, 0);
    PlaceInPost(pre, body, post, 1);
    TypedBalance(body);
    OkHere(all, 0, Place(0, 0, 0), 0);
    OkHere(all, 1, PlaceOf(all[..1]), 3 + |body|);
    OkHere(all, 2 + |body|, PlaceOf(all[..2 + |body|]), 1);
    OkHere(all, 3 + |body|, PlaceOf(all[..3 + |body|]), 0);
    forall k | 0 <= k < |pre| ensures OkAt(all, k) { assert k == 0 || k == 1; }
    forall k | |pre| + |body| <= k < |all| ensures OkAt(all, k) {
      assert k == |pre| + |body| || k == |pre| + |body| + 1;
    }
    Bracket(pre, body, post);
  }

  lemma TypedMin(n: int, body: seq<Instr>)
    requires WellTyped(body)
    ensures WellTyped([PushI32(n)] + body + [Loop(-(SizeAll(body) + 5)), Drop])
  {
    hide SizeAll, Depth, Nest, OkAt, WellTyped, PlaceOf;
    var push, loop := PushI32(n), Loop(-(SizeAll(body) + 5));
    var pre, post := [push], [loop, Drop];
    var all := pre + body + post;
    AtOne(push);
    FootPlaces(loop);
    AtNothing();
    assert PlaceOf(pre) == Place(5, 1, 0) && pre[..0] == [] && pre[..1] == pre;
    PlaceInPre(pre, body, post, 0);
    PlaceInPre(pre, body, post, 1);
    PlaceInPost(pre, body, post, 0);
    PlaceInPost(pre, body, post, 1);
    TypedBalance(body);
    OkHere(all, 0, Place(0, 0, 0), 0);
    OkHere(all, 1 + |body|, PlaceOf(all[..1 + |body|]), 1);
    OkHere(all, 2 + |body|, PlaceOf(all[..2 + |body|]), 0);
    forall k | 0 <= k < |pre| ensures OkAt(all, k) { assert k == 0; }
    forall k | |pre| + |body| <= k < |all| ensures OkAt(all, k) {
      assert k == |pre| + |body| || k == |pre| + |body| + 1;
    }
    Bracket(pre, body, post);
  }

  lemma TypedPlus(body: seq<Instr>, greedy: bool)
    requires WellTyped(body)
    ensures WellTyped(body + [Split(greedy, -(SizeAll(body) + 5))])
  {
    hide SizeAll, Depth, Nest, OkAt, WellTyped, PlaceOf;
    var split := Split(greedy, -(SizeAll(body) + 5));
    var pre: seq<Instr>, post := [], [split];
    var all := pre + body + post;
    AtOne(split);
    AtNothing();
    PlaceInPost(pre, body, post, 0);
    assert post[..0] == [] && all[..0] == [];
    TypedBalance(body);
    assert pre + body == body;
    OkHere(all, |body|, PlaceOf(all[..|body|]), 0);
    forall k | |pre| + |body| <= k < |all| ensures OkAt(all, k) { assert k == |pre| + |body|; }
    Bracket(pre, body, post);
    assert all == body + post;
  }

  /** An instruction that opens a nested body closed by a match. */
  lemma TypedNested(i: Instr, body: seq<Instr>)
    requires WellTyped(body) && NestStep(i) == 1 && DepthStep(i) == 0 && !Needs(i) && Jump(i) == Some(SizeAll(body) + 1)
    ensures WellTyped([i] + body + [Match])
  {
    hide SizeAll, Depth, Nest, Size, OkAt, WellTyped, PlaceOf;
    var pre, post := [i], [Match];
    var all := pre + body + post;
    AtOne(i);
    AtOne(Match);
    AtNothing();
    PlaceInPre(pre, body, post, 0);
    PlaceInPost(pre, body, post, 0);
    PlaceInPost(pre, body, post, 1);
    assert pre[..0] == [] && post[..0] == [] && post[..1] == post;
    assert Size(Match) == 1 by { MatchSize(); }
    TypedBalance(body);
    OkHere(all, 0, Place(0, 0, 0), |all|);
    OkHere(all, 1 + |body|, PlaceOf(all[..1 + |body|]), 0);
    forall k | 0 <= k < |pre| ensures OkAt(all, k) { assert k == 0; }
    forall k | |pre| + |body| <= k < |all| ensures OkAt(all, k) { assert k == |pre| + |body|; }
    Bracket(pre, body, post);
  }

  lemma MatchSize()
    ensures Size(Match) == 1
  {
  }

  lemma TypedAlt(left: seq<Instr>, right: seq<Instr>)
    requires WellTyped(left) && WellTyped(right)
    ensures WellTyped(AltCode(left, right))
  {
    hide SizeAll, Depth, Nest, OkAt, WellTyped, PlaceOf;
    var split, jump := Split(false, SizeAll(left) + 5), Goto(SizeAll(right));
    var pre, post := [split], [jump] + right;
    var all := pre + left + post;
    assert all == AltCode(left, right);
    AtOne(split);
    AtOne(jump);
    AtNothing();
    AtAppend([jump], right);
    PlaceInPre(pre, left, post, 0);
    PlaceInPost(pre, left, post, 0);
    PlaceInPost(pre, left, post, 1);
    PlaceInPost(pre, left, post, |post|);
    assert pre[..0] == [] && post[..0] == [] && post[..1] == [jump] && post[..|post|] == post;
    TypedBalance(left);
    TypedBalance(right);
    OkHere(all, 0, Place(0, 0, 0), 2 + |left|);
    OkHere(all, 1 + |left|, PlaceOf(all[..1 + |left|]), |all|);
    forall k | 2 + |left| <= k < |all|
      ensures OkAt(all, k)
    {
      AtAppend(pre + left, [jump]);
      AtAppend(pre, left);
      TypedOk(right, k - 2 - |left|);
      OkInside(pre + left + [jump], right, [], k - 2 - |left|);
      assert pre + left + [jump] + right + [] == all;
    }
    Bracket(pre, left, post);
  }
}
