/** Tokens of the Pug front end, and the course of the parser over a stream of them
    (pug_parser.h): which tokens become nodes, and when the parser comes to an end at all. */
module PugTokens {
  import opened Options

  datatype TokenType =
    | Tag | Class | Id | Attribute | Text | Indentation | Dot | Pipe | Comment | BlockComment | Interpolation
    | Code | Doctype | Include | Extends | Mixin | Call | Eof | Count

  /** `hasValue` is false for a null value. */
  datatype Token = Token(kind: TokenType, hasValue: bool, line: nat, column: nat, depth: nat)

  /** What a lexer hands over: one end marker, at the end. */
  predicate Stream(tokens: seq<Token>) {
    && tokens != []
    && (forall k :: 0 <= k < |tokens| ==> (tokens[k].kind.Eof? <==> k == |tokens| - 1))
  }

  /** The default branch of parse_node: no node starts with such a token. */
  predicate IsDefault(kind: TokenType) {
    kind.Class? || kind.Id? || kind.Attribute? || kind.Indentation? || kind.Count?
  }

  /** The tokens that the inner loop of parse_node adds to a tag. */
  predicate Decorates(kind: TokenType) {
    kind.Id? || kind.Class? || kind.Attribute? || kind.Text? || kind.Interpolation?
  }

  /** A token at which parse_attributes returns without moving on. */
  predicate Holds(t: Token) {
    t.kind.Attribute? && !t.hasValue
  }

  /** Where the inner loop stops, when it does. */
  function AttrEnd(tokens: seq<Token>, i: nat, depth: nat): (r: Option<nat>)
    requires i <= |tokens|
    ensures r.Some? ==> i <= r.value <= |tokens|
    decreases |tokens| - i
  {
    if i == |tokens| || tokens[i].depth != depth || !Decorates(tokens[i].kind) then Some(i)
    else if Holds(tokens[i]) then None
    else AttrEnd(tokens, i + 1, depth)
  }

  /** Where parse_node leaves the cursor when it makes a node of token `i`. */
  function NodeEnd(tokens: seq<Token>, i: nat): (r: Option<nat>)
    requires i < |tokens|
    ensures r.Some? ==> i < r.value <= |tokens|
  {
    if tokens[i].kind.Tag? then AttrEnd(tokens, i + 1, tokens[i].depth) else Some(i + 1)
  }

  /** The tokens that become nodes, from cursor `i` on; None when the parser never returns. */
  function Parse(tokens: seq<Token>, i: nat): (r: Option<seq<nat>>)
    ensures r.Some? ==> forall k :: 0 <= k < |r.value| ==> i <= r.value[k] < |tokens|
    decreases |tokens| - i
  {
    if i >= |tokens| then None
    else if tokens[i].kind.Eof? then Some([])
    else if IsDefault(tokens[i].kind) then
      if i + 1 < |tokens| && tokens[i + 1].kind.Eof? then Some([]) else Parse(tokens, i + 2)
    else
      match NodeEnd(tokens, i)
      case None => None
      case Some(j) =>
        match Parse(tokens, j)
        case None => None
        case Some(rest) => Some([i] + rest)
  }

  /** The default branch is never taken from cursor `i` on. */
  predicate Plain(tokens: seq<Token>, i: nat)
    decreases |tokens| - i
  {
    i < |tokens| && !IsDefault(tokens[i].kind) &&
    (tokens[i].kind.Eof? || (NodeEnd(tokens, i).Some? && Plain(tokens, NodeEnd(tokens, i).value)))
  }

  /** Where control is: at the head of the loop of parse_pug, in the inner loop of parse_node for
      a tag of some depth, or out. */
  datatype Control = Head(cur: nat) | Inner(cur: nat, depth: nat) | Out

  function Advance(tokens: seq<Token>, s: Control): Control {
    match s
    case Out => Out
    case Head(i) =>
      if i >= |tokens| then Head(i + 1)
      else if tokens[i].kind.Eof? then Out
      else if IsDefault(tokens[i].kind) then
        if i + 1 < |tokens| && tokens[i + 1].kind.Eof? then Out else Head(i + 2)
      else if tokens[i].kind.Tag? then Inner(i + 1, tokens[i].depth)
      else Head(i + 1)
    case Inner(i, depth) =>
      if i >= |tokens| || tokens[i].depth != depth || !Decorates(tokens[i].kind) then Head(i)
      else if Holds(tokens[i]) then Inner(i, depth)
      else Inner(i + 1, depth)
  }

  function After(tokens: seq<Token>, s: Control, n: nat): Control
    decreases n
  {
    if n == 0 then s else After(tokens, Advance(tokens, s), n - 1)
  }

  /** What Parse foretells from a state. */
  function Ends(tokens: seq<Token>, s: Control): bool {
    match s
    case Out => true
    case Head(i) => Parse(tokens, i).Some?
    case Inner(i, depth) =>
      i <= |tokens| && AttrEnd(tokens, i, depth).Some? && Parse(tokens, AttrEnd(tokens, i, depth).value).Some?
  }

  lemma EndsStep(tokens: seq<Token>, s: Control)
    requires s.Inner? ==> s.cur <= |tokens|
    ensures var s1 := Advance(tokens, s); (s1.Inner? ==> s1.cur <= |tokens|) && (Ends(tokens, s) <==> Ends(tokens, s1))
  {
  }

  function Distance(tokens: seq<Token>, s: Control): nat {
    match s
    case Out => 0
    case Head(i) => if i > |tokens| then 1 else 2 * (|tokens| - i) + 2
    case Inner(i, _) => if i > |tokens| then 1 else 2 * (|tokens| - i) + 3
  }

  /** A parser that is to end gets out in so many steps. */
  lemma {:induction false} EndsReached(tokens: seq<Token>, s: Control) returns (n: nat)
    requires (s.Inner? ==> s.cur <= |tokens|) && Ends(tokens, s)
    ensures After(tokens, s, n).Out?
    decreases Distance(tokens, s)
  {
    if s.Out? {
      n := 0;
    } else {
      EndsStep(tokens, s);
      var m := EndsReached(tokens, Advance(tokens, s));
      n := m + 1;
    }
  }

  lemma {:induction false} NeverOut(tokens: seq<Token>, s: Control, n: nat)
    requires (s.Inner? ==> s.cur <= |tokens|) && !Ends(tokens, s)
    ensures !After(tokens, s, n).Out?
    decreases n
  {
    if n > 0 {
      EndsStep(tokens, s);
      NeverOut(tokens, Advance(tokens, s), n - 1);
    }
  }

  /** parse_pug returns exactly when Parse is defined. */
  lemma ReturnsIff(tokens: seq<Token>)
    ensures Parse(tokens, 0).Some? <==> exists n: nat :: After(tokens, Head(0), n).Out?
  {
    if Parse(tokens, 0).Some? {
      var n := EndsReached(tokens, Head(0));
    } else {
      forall n: nat ensures !After(tokens, Head(0), n).Out? { NeverOut(tokens, Head(0), n); }
    }
  }

  /** Control comes to the head of the loop with the cursor at `t`. */
  predicate Comes(tokens: seq<Token>, i: nat, t: nat)
    decreases |tokens| - i
  {
    i < |tokens| && (i == t ||
      (!tokens[i].kind.Eof? &&
       if IsDefault(tokens[i].kind) then !(i + 1 < |tokens| && tokens[i + 1].kind.Eof?) && Comes(tokens, i + 2, t)
       else NodeEnd(tokens, i).Some? && Comes(tokens, NodeEnd(tokens, i).value, t)))
  }

  /** An attribute token without a value, reached from the tag at `t` through tokens that
      decorate it. */
  predicate StuckAt(tokens: seq<Token>, t: nat, i: nat) {
    && t < i < |tokens| && tokens[t].kind.Tag? && Holds(tokens[i])
    && (forall m :: t < m <= i ==> tokens[m].depth == tokens[t].depth && Decorates(tokens[m].kind))
  }

  ghost predicate Blocked(tokens: seq<Token>, i: nat, depth: nat) {
    exists j: nat :: StuckFrom(tokens, i, depth, j)
  }

  predicate StuckFrom(tokens: seq<Token>, i: nat, depth: nat, j: nat) {
    && i <= j < |tokens| && Holds(tokens[j])
    && (forall m :: i <= m <= j ==> tokens[m].depth == depth && Decorates(tokens[m].kind))
  }

  lemma {:induction false} AttrEndBlocked(tokens: seq<Token>, i: nat, depth: nat)
    requires i <= |tokens|
    ensures AttrEnd(tokens, i, depth).None? <==> Blocked(tokens, i, depth)
    decreases |tokens| - i
  {
    if i < |tokens| && tokens[i].depth == depth && Decorates(tokens[i].kind) {
      if Holds(tokens[i]) {
        assert StuckFrom(tokens, i, depth, i);
      } else {
        AttrEndBlocked(tokens, i + 1, depth);
        if Blocked(tokens, i + 1, depth) {
          var j: nat :| StuckFrom(tokens, i + 1, depth, j);
          assert StuckFrom(tokens, i, depth, j);
        }
        if Blocked(tokens, i, depth) {
          var j: nat :| StuckFrom(tokens, i, depth, j);
          assert StuckFrom(tokens, i + 1, depth, j);
        }
      }
    }
  }

  lemma {:induction false} StuckComes(tokens: seq<Token>, i: nat)
    requires Stream(tokens) && i < |tokens|
    ensures Parse(tokens, i).None? <==> exists t: nat, j: nat :: Comes(tokens, i, t) && StuckAt(tokens, t, j)
    decreases |tokens| - i
  {
    var here := tokens[i].kind.Tag? && NodeEnd(tokens, i).None?;
    if tokens[i].kind.Tag? {
      AttrEndBlocked(tokens, i + 1, tokens[i].depth);
      if Blocked(tokens, i + 1, tokens[i].depth) {
        var j: nat :| StuckFrom(tokens, i + 1, tokens[i].depth, j);
        assert StuckAt(tokens, i, j);
      }
      forall j: nat | StuckAt(tokens, i, j)
        ensures here
      {
        assert StuckFrom(tokens, i + 1, tokens[i].depth, j);
      }
    } else {
      assert forall j: nat :: !StuckAt(tokens, i, j);
    }
    assert here <==> exists j: nat :: StuckAt(tokens, i, j);
    if !tokens[i].kind.Eof? && !here {
      if !IsDefault(tokens[i].kind) {
        NodeEndInside(tokens, i);
        StuckComes(tokens, NodeEnd(tokens, i).value);
      } else if !tokens[i + 1].kind.Eof? {
        StuckComes(tokens, i + 2);
      }
    }
  }

  /** No node swallows the end marker. */
  lemma {:induction false} AttrEndInside(tokens: seq<Token>, i: nat, depth: nat)
    requires Stream(tokens) && i < |tokens| && AttrEnd(tokens, i, depth).Some?
    ensures AttrEnd(tokens, i, depth).value < |tokens|
    decreases |tokens| - i
  {
    if tokens[i].depth == depth && Decorates(tokens[i].kind) {
      AttrEndInside(tokens, i + 1, depth);
    }
  }

  lemma NodeEndInside(tokens: seq<Token>, i: nat)
    requires Stream(tokens) && i < |tokens| - 1 && NodeEnd(tokens, i).Some?
    ensures NodeEnd(tokens, i).value < |tokens|
  {
    if tokens[i].kind.Tag? { AttrEndInside(tokens, i + 1, tokens[i].depth); }
  }

  /** On a stream with its end marker parse_pug hangs exactly when some attribute token without a
      value decorates a tag at which control arrives. */
  lemma HangsIff(tokens: seq<Token>)
    requires Stream(tokens)
    ensures (forall n: nat :: !After(tokens, Head(0), n).Out?) <==>
            exists t: nat, i: nat :: Comes(tokens, 0, t) && StuckAt(tokens, t, i)
  {
    ReturnsIff(tokens);
    StuckComes(tokens, 0);
  }

  /** In particular it returns when every attribute token has a value. */
  lemma ReturnsWithValues(tokens: seq<Token>)
    requires Stream(tokens) && forall k :: 0 <= k < |tokens| ==> !Holds(tokens[k])
    ensures Parse(tokens, 0).Some?
  {
    StuckComes(tokens, 0);
  }

  /** A tag followed by an attribute token without a value: control never gets out. */
  lemma HangExample()
    ensures var tokens := [Token(Tag, true, 1, 1, 0), Token(Attribute, false, 1, 2, 0), Token(Eof, false, 1, 3, 0)];
            Stream(tokens) && forall n: nat :: !After(tokens, Head(0), n).Out?
  {
    var tokens := [Token(Tag, true, 1, 1, 0), Token(Attribute, false, 1, 2, 0), Token(Eof, false, 1, 3, 0)];
    assert AttrEnd(tokens, 1, 0).None?;
    assert Parse(tokens, 0).None?;
    ReturnsIff(tokens);
  }
}
