/** The tree builder of the Pug parser (pug_parser.h): nodes on the heap with parent pointers, a
    cursor over the tokens, and a current parent that walks back up. */
module PugTree {
  import opened PugTokens
  import opened Preorder

  /** The depth of the root node: -1 kept in an unsigned field. */
  const ROOT_DEPTH: nat := 0xffff_ffff

  class ASTNode {
    var nodeType: TokenType
    const depth: nat
    const line: nat
    const column: nat
    var parent: ASTNode?
    var children: seq<ASTNode>

    /** ast_node_create, with the position that parse_node fills in. */
    constructor (nodeType: TokenType, depth: nat, line: nat, column: nat)
      ensures this.nodeType == nodeType && this.depth == depth && this.line == line && this.column == column
      ensures parent == null && children == []
    {
      this.nodeType, this.depth, this.line, this.column := nodeType, depth, line, column;
      parent, children := null, [];
    }

    /** ast_node_add_child. */
    method AddChild(child: ASTNode)
      modifies this`children, child`parent
      ensures children == old(children) + [child] && child.parent == this
      ensures child != this ==> child.children == old(child.children)
    {
      children := children + [child];
      child.parent := this;
    }
  }

  ghost predicate Distinct(nodes: seq<ASTNode>) {
    forall i, j :: 0 <= i < j < |nodes| ==> nodes[i] != nodes[j]
  }

  ghost predicate Parents(nodes: seq<ASTNode>, par: seq<int>)
    reads nodes
  {
    && |nodes| == |par| && Grown(par) && nodes[0].parent == null
    && (forall k :: 0 < k < |nodes| ==> nodes[k].parent == nodes[par[k]])
  }

  ghost predicate Children(nodes: seq<ASTNode>, par: seq<int>)
    reads nodes
  {
    forall k :: 0 <= k < |nodes| ==> Lists(nodes[k].children, nodes, Kids(par, k))
  }

  /** `nodes` lists a tree in the order given by `par`: each parent pointer and each list of
      children is the one that `par` prescribes. */
  ghost predicate Shape(nodes: seq<ASTNode>, par: seq<int>)
    reads nodes
  {
    Distinct(nodes) && Parents(nodes, par) && Children(nodes, par)
  }

  ghost predicate Lists(children: seq<ASTNode>, nodes: seq<ASTNode>, ks: seq<nat>) {
    && |children| == |ks|
    && (forall i :: 0 <= i < |ks| ==> ks[i] < |nodes| && children[i] == nodes[ks[i]])
  }

  /** Below the root depths increase along every edge. */
  ghost predicate Deeper(nodes: seq<ASTNode>, par: seq<int>)
    requires |nodes| == |par|
  {
    forall k :: 0 < k < |nodes| && 0 < par[k] < k ==> nodes[par[k]].depth < nodes[k].depth
  }

  /** No node between a node and its parent is less deep than the node. */
  ghost predicate Nearest(nodes: seq<ASTNode>, par: seq<int>)
    requires |nodes| == |par|
  {
    forall k, j :: 0 < k < |nodes| && par[k] < j < k && 0 < j ==> nodes[k].depth <= nodes[j].depth
  }

  /** The nodes after the root were made from the tokens `at`. */
  ghost predicate MadeFrom(nodes: seq<ASTNode>, tokens: seq<Token>, at: seq<nat>) {
    && |nodes| == |at| + 1
    && (forall k :: 0 <= k < |at| ==> at[k] < |tokens| && nodes[k + 1].depth == tokens[at[k]].depth
                                      && nodes[k + 1].line == tokens[at[k]].line
                                      && nodes[k + 1].column == tokens[at[k]].column)
  }

  /** A piped or a dotted block becomes a text node; every other node has the type of its token. */
  ghost predicate Typed(nodes: seq<ASTNode>, tokens: seq<Token>, at: seq<nat>)
    reads nodes`nodeType
  {
    && |nodes| == |at| + 1
    && (forall k :: 0 <= k < |at| && at[k] < |tokens| ==>
          nodes[k + 1].nodeType == match tokens[at[k]].kind { case Pipe => Text case Dot => Text case kind => kind })
  }

  /** Adds a node as the last child of a node that is above the last one. */
  method Attach(parent: ASTNode, node: ASTNode, ghost nodes: seq<ASTNode>, ghost par: seq<int>, ghost p: nat)
    requires Shape(nodes, par) && p < |nodes| && nodes[p] == parent && Above(par, p, |par| - 1)
    requires node !in nodes && node.children == []
    modifies parent`children, node`parent
    ensures Shape(nodes + [node], par + [p])
  {
    hide Lists, Kids, Grown, Above, Distinct;
    GrownSnoc(par, p);
    ghost var nodes1, par1 := nodes + [node], par + [p];
    forall k | 0 <= k < |nodes|
      ensures Lists(nodes[k].children + if k == p then [node] else [], nodes1, Kids(par1, k))
    {
      ListsSnoc(nodes[k].children, nodes, node, par, p, k);
    }
    PreNewKids(par, p);
    ListsNone(nodes1);
    DistinctSnoc(nodes, node);
    label before:
    parent.AddChild(node);
    assert Children(nodes1, par1) by {
      forall k | 0 <= k < |nodes1|
        ensures Lists(nodes1[k].children, nodes1, Kids(par1, k))
      {
        if k < |nodes| {
          if k != p { DistinctAt(nodes, k, p); }
          assert nodes[k].children == old@before(nodes[k].children) + if k == p then [node] else [];
        }
      }
    }
    assert Parents(nodes1, par1) by {
      hide Children;
      forall k | 0 < k < |nodes1|
        ensures nodes1[k].parent == nodes1[par1[k]]
      {
        GrownAt(par1, k);
        assert k < |nodes| ==> nodes[k] != node && nodes[k].parent == old(nodes[k].parent);
      }
    }
  }

  lemma GrownAt(par: seq<int>, k: nat)
    requires Grown(par) && 0 < k < |par|
    ensures 0 <= par[k] < k
  {
  }

  lemma DistinctSnoc(nodes: seq<ASTNode>, node: ASTNode)
    requires Distinct(nodes) && node !in nodes
    ensures Distinct(nodes + [node])
  {
  }

  lemma DistinctAt(nodes: seq<ASTNode>, i: nat, j: nat)
    requires Distinct(nodes) && i < |nodes| && j < |nodes| && i != j
    ensures nodes[i] != nodes[j]
  {
  }

  lemma ListsNone(nodes: seq<ASTNode>)
    ensures Lists([], nodes, [])
  {
  }

  lemma PreNewKids(par: seq<int>, p: nat)
    requires Grown(par + [p])
    ensures Kids(par + [p], |par|) == []
  {
    NoKids(par + [p], |par|);
  }

  lemma ListsSnoc(children: seq<ASTNode>, nodes: seq<ASTNode>, node: ASTNode, par: seq<int>, p: nat, k: nat)
    requires Lists(children, nodes, Kids(par, k)) && |par| == |nodes|
    ensures Lists(children + if k == p then [node] else [], nodes + [node], Kids(par + [p], k))
  {
    KidsSnoc(par, p, k);
  }

  class ParserContext {
    const tokens: seq<Token>
    var rootNode: ASTNode?
    var currentParent: ASTNode?
    var currentToken: nat
    var currentDepth: nat

    /** parser_context_create, with the tokens handed over. */
    constructor (tokens: seq<Token>)
      ensures this.tokens == tokens && currentToken == 0
    {
      this.tokens := tokens;
      rootNode, currentParent, currentToken, currentDepth := null, null, 0, 0;
    }

    predicate AtEof()
      reads this
    {
      currentToken < |tokens| && tokens[currentToken].kind.Eof?
    }

    /** parse_node: a node for the token at the cursor, or null at the end marker, past the end
        and, one token further on, in the default branch. */
    method ParseNode() returns (node: ASTNode?)
      requires currentToken < |tokens| && !tokens[currentToken].kind.Eof? && !IsDefault(tokens[currentToken].kind) ==>
                 NodeEnd(tokens, currentToken).Some?
      modifies this`currentToken
      ensures var i := old(currentToken);
              if i >= |tokens| || tokens[i].kind.Eof? then node == null && currentToken == i
              else if IsDefault(tokens[i].kind) then node == null && currentToken == i + 1
              else
                && node != null && fresh(node) && currentToken == NodeEnd(tokens, i).value
                && node.parent == null && node.children == []
                && node.depth == tokens[i].depth && node.line == tokens[i].line && node.column == tokens[i].column
                && node.nodeType == (if tokens[i].kind.Pipe? || tokens[i].kind.Dot? then Text else tokens[i].kind)
    {
      var i := currentToken;
      if i >= |tokens| || tokens[i].kind.Eof? {
        return null;
      }
      var token := tokens[i];
      if IsDefault(token.kind) {
        currentToken := i + 1;
        return null;
      }
      node := new ASTNode(token.kind, token.depth, token.line, token.column);
      if token.kind.Pipe? || token.kind.Dot? {
        node.nodeType := Text;
      }
      currentToken := i + 1;
      if !token.kind.Tag? {
        return;
      }
      while currentToken < |tokens| && tokens[currentToken].depth == node.depth && Decorates(tokens[currentToken].kind)
        invariant i < currentToken <= |tokens|
        invariant NodeEnd(tokens, i) == AttrEnd(tokens, currentToken, token.depth)
        invariant node.parent == null && node.children == [] && node.nodeType == Tag
        decreases |tokens| - currentToken
      {
        // an attribute without a value would not be passed
        assert !Holds(tokens[currentToken]);
        currentToken := currentToken + 1;
      }
    }

    /** The walk from the current parent up to the root, or to a node less deep than the new one. */
    method Backtrack(depth: nat, ghost nodes: seq<ASTNode>, ghost par: seq<int>, ghost p: nat) returns (ghost q: nat)
      requires Shape(nodes, par) && p < |nodes| && nodes[p] == currentParent && Above(par, p, |par| - 1)
      modifies this`currentParent
      ensures q <= p && nodes[q] == currentParent && Above(par, q, |par| - 1)
      ensures Shape(nodes, par)
      ensures q == 0 || nodes[q].depth < depth
      ensures Nearest(nodes, par) && AllDeep(nodes, p, depth) ==> AllDeep(nodes, q, depth)
    {
      hide Shape, Nearest, AllDeep, Above, Grown;
      ParentOf(nodes, par, p);
      q := p;
      while currentParent.parent != null && depth <= currentParent.depth
        invariant Shape(nodes, par) && |par| == |nodes|
        invariant q <= p && nodes[q] == currentParent && Above(par, q, |par| - 1)
        invariant Nearest(nodes, par) && AllDeep(nodes, p, depth) ==> AllDeep(nodes, q, depth)
        decreases q
      {
        ParentOf(nodes, par, q);
        StepUp(par, q);
        if Nearest(nodes, par) && AllDeep(nodes, q, depth) { DeepUp(nodes, par, q, depth); }
        currentParent := currentParent.parent;
        q := par[q];
      }
      ParentOf(nodes, par, q);
    }

    /** Puts a new node in its place. */
    method Place(node: ASTNode, ghost nodes: seq<ASTNode>, ghost par: seq<int>, ghost p0: nat) returns (ghost p: nat)
      requires Shape(nodes, par) && |par| == |nodes| && p0 < |nodes| && nodes[p0] == currentParent
      requires Above(par, p0, |par| - 1) && node !in nodes && node.children == []
      modifies this`currentParent, this`currentDepth, nodes`children, node`parent
      ensures p < |nodes| && nodes[p] == currentParent && currentDepth == node.depth
      ensures Shape(nodes + [node], par + [p])
      ensures Above(par + [p], p, |par|) && Above(par + [p], |par|, |par|)
      ensures Deeper(nodes, par) ==> Deeper(nodes + [node], par + [p])
      ensures Nearest(nodes, par) && AllDeep(nodes, p0, node.depth) ==>
                Nearest(nodes + [node], par + [p]) && forall d: nat :: d <= node.depth ==> AllDeep(nodes + [node], p, d)
      ensures forall d: nat :: AllDeep(nodes + [node], |nodes|, d)
    {
      hide Shape, Deeper, Nearest, AllDeep, Above, Grown;
      p := Backtrack(node.depth, nodes, par, p0);
      DepthsSnoc(nodes, par, p, node);
      AboveNew(par, p);
      Attach(currentParent, node, nodes, par, p);
      currentDepth := node.depth;
    }

    /** Adds a node, and makes it the parent of what comes next when that is deeper. */
    method Add(node: ASTNode, ghost nodes: seq<ASTNode>, ghost par: seq<int>, ghost p0: nat)
      returns (ghost q: nat, ghost p: nat)
      requires Shape(nodes, par) && |par| == |nodes| && p0 < |nodes| && nodes[p0] == currentParent
      requires Above(par, p0, |par| - 1) && node !in nodes && node.children == []
      modifies this`currentParent, this`currentDepth, nodes`children, node`parent
      ensures p <= |nodes| && (nodes + [node])[p] == currentParent && Above(par + [q], p, |par|)
      ensures Shape(nodes + [node], par + [q])
      ensures Deeper(nodes, par) ==> Deeper(nodes + [node], par + [q])
      ensures Nearest(nodes, par) && AllDeep(nodes, p0, node.depth) ==>
                && Nearest(nodes + [node], par + [q])
                && (currentToken < |tokens| ==> AllDeep(nodes + [node], p, tokens[currentToken].depth))
    {
      hide Shape, Deeper, Nearest, AllDeep, Above, Grown;
      q := Place(node, nodes, par, p0);
      p := q;
      if currentToken < |tokens| && tokens[currentToken].depth > node.depth {
        currentParent := node;
        p := |nodes|;
      }
    }

    /** parse_pug: on every stream on which it returns, a tree whose preorder is the order of the
        node tokens, with depths increasing along every edge below the root; when no token takes
        the default branch, each parent is the nearest earlier node that is less deep. */
    method ParsePug() returns (root: ASTNode, ghost nodes: seq<ASTNode>, ghost par: seq<int>)
      requires currentToken == 0 && Parse(tokens, 0).Some?
      modifies this
      ensures nodes != [] && nodes[0] == root == rootNode && root.depth == ROOT_DEPTH
      ensures Shape(nodes, par) && Pre(par, 0) == Upto(|nodes|)
      ensures MadeFrom(nodes, tokens, Parse(tokens, 0).value) && Typed(nodes, tokens, Parse(tokens, 0).value)
      ensures Deeper(nodes, par)
      ensures Plain(tokens, 0) ==> Nearest(nodes, par)
    {
      hide Shape, Deeper, Nearest, MadeFrom, Typed, AllDeep, Above, Grown, Parse, Plain, NodeEnd, Pre, Upto;
      root := new ASTNode(Tag, ROOT_DEPTH, 0, 0);
      rootNode, currentParent, currentDepth := root, root, ROOT_DEPTH;
      nodes, par := [root], [-1];
      ghost var p: nat, done: seq<nat> := 0, [];
      StartShape(root, tokens);
      ParseStep(tokens, 0);
      while true
        invariant currentToken < |tokens| && Parse(tokens, currentToken).Some?
        invariant Parse(tokens, 0).value == done + Parse(tokens, currentToken).value
        invariant MadeFrom(nodes, tokens, done) && Typed(nodes, tokens, done)
        invariant nodes != [] && nodes[0] == root == rootNode && |par| == |nodes|
        invariant forall k :: 0 <= k < |nodes| ==> fresh(nodes[k])
        invariant Shape(nodes, par) && Deeper(nodes, par)
        invariant p < |nodes| && nodes[p] == currentParent && Above(par, p, |par| - 1)
        invariant Plain(tokens, 0) ==> Plain(tokens, currentToken) && Nearest(nodes, par)
        invariant Plain(tokens, 0) ==> AllDeep(nodes, p, tokens[currentToken].depth)
        decreases |tokens| - currentToken
      {
        ghost var i := currentToken;
        ParseStep(tokens, i);
        var node := ParseNode();
        if node == null {
          if AtEof() {
            assert done + [] == done;
            break;
          }
          currentToken := currentToken + 1;
          continue;
        }
        MadeSnoc(nodes, tokens, done, node, i);
        TypedSnoc(nodes, tokens, done, node, i);
        ghost var q: nat;
        q, p := Add(node, nodes, par, p);
        par, nodes := par + [q], nodes + [node];
        done := done + [i];
      }
      ParentOf(nodes, par, p);
      PreorderIsOrder(par);
    }
  }

  /** What one round of parse_pug has to do with the rest. */
  lemma ParseStep(tokens: seq<Token>, i: nat)
    requires Parse(tokens, i).Some?
    ensures i < |tokens|
    ensures var all := Parse(tokens, i).value;
            if tokens[i].kind.Eof? then all == []
            else if IsDefault(tokens[i].kind) then
              !Plain(tokens, i) &&
              if i + 1 < |tokens| && tokens[i + 1].kind.Eof? then all == []
              else i + 2 < |tokens| && Parse(tokens, i + 2).Some? && all == Parse(tokens, i + 2).value
            else
              && NodeEnd(tokens, i).Some? && Parse(tokens, NodeEnd(tokens, i).value).Some?
              && all == [i] + Parse(tokens, NodeEnd(tokens, i).value).value
              && i < NodeEnd(tokens, i).value < |tokens|
              && (Plain(tokens, i) ==> Plain(tokens, NodeEnd(tokens, i).value))
  {
    if !tokens[i].kind.Eof? && !IsDefault(tokens[i].kind) {
      assert Parse(tokens, NodeEnd(tokens, i).value).Some?;
    }
  }

  /** No node after `p` is less deep than `depth`. */
  ghost predicate AllDeep(nodes: seq<ASTNode>, p: nat, depth: nat) {
    forall j :: p < j < |nodes| ==> depth <= nodes[j].depth
  }

  /** In such a tree every node but the root is among the children of its parent. */
  lemma ChildOfParent(nodes: seq<ASTNode>, par: seq<int>, k: nat)
    requires Shape(nodes, par) && 0 < k < |nodes|
    ensures 0 <= par[k] < k && nodes[k].parent == nodes[par[k]] && nodes[k] in nodes[par[k]].children
  {
    GrownAt(par, k);
    var i := KidsHas(par, par[k], k);
    assert Lists(nodes[par[k]].children, nodes, Kids(par, par[k]));
    assert nodes[par[k]].children[i] == nodes[k];
  }

  lemma StartShape(root: ASTNode, tokens: seq<Token>)
    requires root.parent == null && root.children == []
    ensures Shape([root], [-1]) && Deeper([root], [-1]) && Nearest([root], [-1]) && Above([-1], 0, 0)
    ensures MadeFrom([root], tokens, []) && Typed([root], tokens, []) && forall d: nat :: AllDeep([root], 0, d)
  {
    NoKids([-1], 0);
  }

  lemma ParentOf(nodes: seq<ASTNode>, par: seq<int>, q: nat)
    requires Shape(nodes, par) && q < |nodes|
    ensures |par| == |nodes| && Grown(par)
    ensures q == 0 ==> nodes[q].parent == null
    ensures q > 0 ==> 0 <= par[q] < q && nodes[q].parent == nodes[par[q]]
  {
  }

  lemma StepUp(par: seq<int>, q: nat)
    requires 0 < q < |par| && 0 <= par[q] < q && Above(par, q, |par| - 1)
    ensures Above(par, par[q], |par| - 1)
  {
    AboveTrans(par, par[q], q, |par| - 1);
  }

  /** What lies between a node and its parent is as deep as the node. */
  lemma DeepUp(nodes: seq<ASTNode>, par: seq<int>, q: nat, depth: nat)
    requires |par| == |nodes| && 0 < q < |nodes| && 0 <= par[q] < q
    requires Nearest(nodes, par) && AllDeep(nodes, q, depth) && depth <= nodes[q].depth
    ensures AllDeep(nodes, par[q], depth)
  {
  }

  /** The properties of depths after one more node. */
  lemma DepthsSnoc(nodes: seq<ASTNode>, par: seq<int>, p: nat, node: ASTNode)
    requires |par| == |nodes| && p < |nodes| && (p == 0 || nodes[p].depth < node.depth)
    ensures Deeper(nodes, par) ==> Deeper(nodes + [node], par + [p])
    ensures Nearest(nodes, par) && AllDeep(nodes, p, node.depth) ==> Nearest(nodes + [node], par + [p])
    ensures forall d: nat :: d <= node.depth && AllDeep(nodes, p, node.depth) ==> AllDeep(nodes + [node], p, d)
    ensures forall d: nat :: AllDeep(nodes + [node], |nodes|, d)
  {
  }

  lemma MadeSnoc(nodes: seq<ASTNode>, tokens: seq<Token>, at: seq<nat>, node: ASTNode, i: nat)
    requires MadeFrom(nodes, tokens, at) && i < |tokens|
    requires node.depth == tokens[i].depth && node.line == tokens[i].line && node.column == tokens[i].column
    ensures MadeFrom(nodes + [node], tokens, at + [i])
  {
  }

  lemma TypedSnoc(nodes: seq<ASTNode>, tokens: seq<Token>, at: seq<nat>, node: ASTNode, i: nat)
    requires Typed(nodes, tokens, at) && i < |tokens|
    requires node.nodeType == if tokens[i].kind.Pipe? || tokens[i].kind.Dot? then Text else tokens[i].kind
    ensures Typed(nodes + [node], tokens, at + [i])
  {
  }

  /** The depths along every way down from a child of the root. */
  lemma {:induction false} AncestorsShallower(nodes: seq<ASTNode>, par: seq<int>, j: nat, k: nat)
    requires |par| == |nodes| && Grown(par) && Deeper(nodes, par) && 0 < j < k < |nodes| && Above(par, j, k)
    ensures nodes[j].depth < nodes[k].depth
    decreases k
  {
    if par[k] != j {
      AboveLess(par, j, par[k]);
      AncestorsShallower(nodes, par, j, par[k]);
    }
  }

  lemma AboveNew(par: seq<int>, p: nat)
    requires p < |par|
    ensures Above(par + [p], p, |par|) && Above(par + [p], |par|, |par|)
  {
  }
}
