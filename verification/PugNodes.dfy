/** Which tokens become nodes of the tree, told by the tokens themselves. */
module PugNodes {
  import opened Options
  import opened PugTokens

  /** Between the tag at `t` and the token at `i`, all of one depth, there are only ids, classes,
      attributes, texts and interpolations. */
  predicate LedBy(tokens: seq<Token>, t: int, i: int) {
    && 0 <= t < i < |tokens| && tokens[t].kind.Tag? && tokens[t].depth == tokens[i].depth
    && forall m :: t < m < i ==> tokens[m].depth == tokens[i].depth && MayFollow(tokens[m])
  }

  predicate MayFollow(t: Token) {
    match t.kind
    case Id => true
    case Class => true
    case Attribute => true
    case Text => true
    case Interpolation => true
    case _ => false
  }

  ghost predicate Led(tokens: seq<Token>, i: int) {
    exists t :: LedBy(tokens, t, i)
  }

  /** The streams that lines of well-formed markup give: classes, ids and attributes belong to a
      tag, attributes have values, and there are no tokens of the two bookkeeping kinds. */
  ghost predicate Markup(tokens: seq<Token>) {
    forall i :: 0 <= i < |tokens| ==>
      match tokens[i].kind
      case Class => Led(tokens, i)
      case Id => Led(tokens, i)
      case Attribute => Led(tokens, i) && tokens[i].hasValue
      case Indentation => false
      case Count => false
      case _ => true
  }

  /** Text and interpolations are nodes unless a tag leads them; classes, ids and attributes and the
      end marker are none; everything else is. */
  ghost predicate IsNode(tokens: seq<Token>, i: int) {
    0 <= i < |tokens| &&
    match tokens[i].kind
    case Text => !Led(tokens, i)
    case Interpolation => !Led(tokens, i)
    case Class => false
    case Id => false
    case Attribute => false
    case Eof => false
    case _ => true
  }

  /** The course of the inner loop: the tokens it passes are led by the tag, and it stops where that
      ends. */
  lemma {:induction false} PassesLed(tokens: seq<Token>, t: nat, i: nat)
    requires Stream(tokens) && Markup(tokens) && t < i <= |tokens| && tokens[t].kind.Tag?
    requires forall m :: t < m < i ==> tokens[m].depth == tokens[t].depth && MayFollow(tokens[m])
    ensures var r := AttrEnd(tokens, i, tokens[t].depth);
            && r.Some? && i <= r.value <= |tokens|
            && (forall m :: t < m < r.value ==> tokens[m].depth == tokens[t].depth && MayFollow(tokens[m]))
            && (r.value < |tokens| ==> tokens[r.value].depth != tokens[t].depth || !MayFollow(tokens[r.value]))
    decreases |tokens| - i
  {
    if i < |tokens| && tokens[i].depth == tokens[t].depth && MayFollow(tokens[i]) {
      PassesLed(tokens, t, i + 1);
    }
  }

  /** At the head of the loop no token that could follow a tag is led by one. */
  ghost predicate AtHead(tokens: seq<Token>, i: int) {
    0 <= i < |tokens| && (MayFollow(tokens[i]) ==> !Led(tokens, i))
  }

  lemma AfterTag(tokens: seq<Token>, t: nat, j: nat)
    requires t < j < |tokens| && tokens[t].kind.Tag?
    requires forall m :: t < m < j ==> tokens[m].depth == tokens[t].depth && MayFollow(tokens[m])
    requires tokens[j].depth != tokens[t].depth || !MayFollow(tokens[j])
    ensures AtHead(tokens, j)
    ensures forall m :: t < m < j ==> !IsNode(tokens, m)
  {
    forall m | t < m < j ensures !IsNode(tokens, m) {
      assert LedBy(tokens, t, m);
    }
    forall s | LedBy(tokens, s, j) ensures MayFollow(tokens[j]) ==> s < t {
      assert s > t ==> MayFollow(tokens[s]);
    }
    forall s | LedBy(tokens, s, j) ensures MayFollow(tokens[j]) ==> s >= t {
      assert s < t ==> MayFollow(tokens[t]);
    }
  }

  lemma AfterOther(tokens: seq<Token>, i: nat)
    requires AtHead(tokens, i) && i + 1 < |tokens| && !tokens[i].kind.Tag?
    ensures AtHead(tokens, i + 1)
  {
    if Led(tokens, i + 1) {
      var s :| LedBy(tokens, s, i + 1);
      assert MayFollow(tokens[i]) && LedBy(tokens, s, i);
    }
  }

  lemma NodeHere(tokens: seq<Token>, i: nat)
    requires Markup(tokens) && AtHead(tokens, i) && !tokens[i].kind.Eof?
    ensures IsNode(tokens, i) && !IsDefault(tokens[i].kind)
  {
  }

  /** The list of nodes from a place on: each token that is a node, once and in order. */
  lemma {:induction false} NodesFrom(tokens: seq<Token>, i: nat)
    requires Stream(tokens) && Markup(tokens) && AtHead(tokens, i)
    ensures Parse(tokens, i).Some? && Plain(tokens, i)
    ensures var r := Parse(tokens, i).value;
            && (forall k :: 0 <= k < |r| ==> i <= r[k] && IsNode(tokens, r[k]))
            && (forall j :: i <= j && IsNode(tokens, j) ==> j in r)
            && (forall k, l :: 0 <= k < l < |r| ==> r[k] < r[l])
    decreases |tokens| - i
  {
    assert tokens[i].kind.Eof? ==> !IsDefault(tokens[i].kind);
    hide Led, LedBy, Markup, MayFollow, IsDefault;
    if tokens[i].kind.Eof? {
      assert i == |tokens| - 1;
    } else {
      NodeHere(tokens, i);
      assert i + 1 < |tokens|;
      var next: nat;
      if tokens[i].kind.Tag? {
        PassesLed(tokens, i, i + 1);
        next := AttrEnd(tokens, i + 1, tokens[i].depth).value;
        AttrEndInside(tokens, i + 1, tokens[i].depth);
        AfterTag(tokens, i, next);
      } else {
        next := i + 1;
        AfterOther(tokens, i);
      }
      NodesFrom(tokens, next);
      var rest := Parse(tokens, next).value;
      assert Parse(tokens, i).value == [i] + rest;
      forall j | i <= j && IsNode(tokens, j) ensures j in [i] + rest {
        assert j == i || j >= next;
      }
    }
  }

  /** On every stream of markup the parser returns, and the nodes are exactly these tokens; the
      default branch is never taken, so that each parent is the nearest earlier node less deep. */
  lemma NodesAre(tokens: seq<Token>)
    requires Stream(tokens) && Markup(tokens)
    ensures Parse(tokens, 0).Some? && Plain(tokens, 0)
    ensures var r := Parse(tokens, 0).value;
            && (forall j :: j in r <==> IsNode(tokens, j))
            && (forall k, l :: 0 <= k < l < |r| ==> r[k] < r[l])
  {
    forall t ensures !LedBy(tokens, t, 0) { }
    NodesFrom(tokens, 0);
  }

  /** Where a node should start, a token of these kinds takes the token behind it along, unless that
      is the end marker: whatever it is, it becomes no node. */
  lemma StrayTakesNext(tokens: seq<Token>, i: nat)
    requires Stream(tokens) && i + 1 < |tokens|
    requires tokens[i].kind in {Class, Id, Attribute, Indentation, Count}
    ensures Parse(tokens, i) == if i + 2 < |tokens| then Parse(tokens, i + 2) else Some([])
    ensures Parse(tokens, i).Some? ==> i !in Parse(tokens, i).value && i + 1 !in Parse(tokens, i).value
  {
  }
}
