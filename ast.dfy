/**
  The syntax tree of a filter: groups of child nodes, comparisons and logical connectives,
  their constructors and their text renderings. Rendering can fail the way the Go code
  panics: a comparison node without a comparison, a comparison without arguments, or a
  logical node holding neither And nor Or.
*/
module Ast {
  import opened Options
  import opened GoStrings

  /** The node kinds, Go `int` constants. */
  type NodeType = int
  const NodeGroup: NodeType := 0
  const NodeComparison: NodeType := 1
  const NodeLogical: NodeType := 2

  /** The logical connectives, Go `int` constants. */
  type Logic = int
  const And: Logic := 0
  const Or: Logic := 1

  /**
    A comparison: a selector, the operator the operator table gives for the operator
    token (its text, the zero value `""` when the table has no entry) and the arguments.
  */
  datatype Comparison = Comparison(selector: string, operator: string, arguments: seq<string>)

  /**
    A node. `comparison` is None for Go's nil pointer; the fields a kind does not use keep
    their zero values.
  */
  datatype Node = Node(nodeType: NodeType, nodes: seq<Node>, comparison: Option<Comparison>, logic: Logic)

  /**
    What a parser call comes to: the root it returns, a panic, or no return at all
    (the lexer loops forever, so the parser waits for a token that never comes).
  */
  datatype Outcome = Parsed(root: Node) | Panics | Diverges

  /** A group node with the children `ns`. */
  function Group(ns: seq<Node>): (n: Node)
    ensures n == NewNode(NodeGroup).(nodes := ns)
  {
    Node(NodeGroup, ns, None, And)
  }

  function NewNode(typ: NodeType): (n: Node)
    ensures n.nodeType == typ && n.nodes == [] && n.comparison == None && n.logic == And
  {
    Node(typ, [], None, And)
  }

  function NewCompNode(comp: Option<Comparison>): (n: Node)
    ensures n.nodeType == NodeComparison && n.nodes == [] && n.comparison == comp && n.logic == And
  {
    Node(NodeComparison, [], comp, And)
  }

  function NewLogicNode(l: Logic): (n: Node)
    ensures n.nodeType == NodeLogical && n.nodes == [] && n.comparison == None && n.logic == l
  {
    Node(NodeLogical, [], None, l)
  }

  function NewComparison(sel: string): (c: Comparison)
    ensures c.selector == sel && c.operator == "" && c.arguments == []
  {
    Comparison(sel, "", [])
  }

  /** `Logic.String`: `;` for And, `,` for Or; any other value panics (None). */
  function LogicString(l: Logic): (r: Option<string>)
    ensures l == And ==> r == Some(";")
    ensures l == Or ==> r == Some(",")
    ensures r.Some? <==> l == And || l == Or
  {
    if l == And then Some(";")
    else if l == Or then Some(",")
    else None
  }

  /** The argument part of a rendered comparison: one quoted argument, or a parenthesised quoted list. */
  function ArgsString(args: seq<string>): (r: Option<string>)
    ensures r.Some? <==> |args| >= 1
  {
    if |args| > 1 then Some("('" + Join(args, "','") + "')")
    else if |args| == 1 then Some("'" + args[0] + "'")
    else None
  }

  /** `Comparison.String`: `sel=op='a'`, or `sel=op=('a1','a2',...)`; it panics without arguments. */
  function CompString(c: Comparison): (r: Option<string>)
    ensures r.Some? <==> |c.arguments| >= 1
  {
    match ArgsString(c.arguments)
    case None => None
    case Some(args) => Some(c.selector + "=" + c.operator + "=" + args)
  }

  /**
    `Node.String`: a group is the concatenation of its children's renderings, a comparison
    node renders its comparison, a logical node its connective, and any other kind
    `unknown_node_type`. A group panics exactly when one of its children does.
  */
  function Render(n: Node): (r: Option<string>)
    ensures n.nodeType == NodeComparison ==> (r.Some? <==> n.comparison.Some? && |n.comparison.value.arguments| >= 1)
    ensures n.nodeType == NodeLogical ==> (r.Some? <==> n.logic == And || n.logic == Or)
    ensures n.nodeType == NodeLogical && r.Some? ==> r == Some(";") || r == Some(",")
    ensures n.nodeType != NodeGroup && n.nodeType != NodeComparison && n.nodeType != NodeLogical ==> r == Some("unknown_node_type")
    decreases n, 1
  {
    if n.nodeType == NodeGroup then RenderAll(n.nodes)
    else if n.nodeType == NodeComparison then
      match n.comparison
      case None => None
      case Some(c) => CompString(c)
    else if n.nodeType == NodeLogical then LogicString(n.logic)
    else Some("unknown_node_type")
  }

  /** The renderings of `ns` one after the other; None exactly when one of them panics. */
  function RenderAll(ns: seq<Node>): (r: Option<string>)
    ensures r.Some? <==> forall i :: 0 <= i < |ns| ==> Render(ns[i]).Some?
    ensures ns == [] ==> r == Some("")
    decreases ns, 0
  {
    if ns == [] then Some("")
    else
      var front := ns[..|ns| - 1];
      assert forall i :: 0 <= i < |front| ==> front[i] == ns[i];
      match RenderAll(front)
      case None => None
      case Some(front) =>
        match Render(ns[|ns| - 1])
        case None => None
        case Some(last) => Some(front + last)
  }

  /** Two renderings one after the other, or None when either panics. */
  function Concat(a: Option<string>, b: Option<string>): Option<string> {
    match a
    case None => None
    case Some(x) =>
      match b
      case None => None
      case Some(y) => Some(x + y)
  }

  /** Rendering a group of `a + b` renders the children of `a`, then those of `b`. */
  lemma {:induction false} RenderAllAppend(a: seq<Node>, b: seq<Node>)
    ensures RenderAll(a + b) == Concat(RenderAll(a), RenderAll(b))
    decreases |b|
  {
    if b == [] {
      assert a + b == a;
      match RenderAll(a)
      case None =>
      case Some(x) => assert x + "" == x;
    } else {
      var ab := a + b;
      assert ab[..|ab| - 1] == a + b[..|b| - 1];
      assert ab[|ab| - 1] == b[|b| - 1];
      RenderAllAppend(a, b[..|b| - 1]);
      match RenderAll(a)
      case None =>
      case Some(x) =>
        match RenderAll(b[..|b| - 1])
        case None =>
        case Some(y) =>
          match Render(b[|b| - 1])
          case None =>
          case Some(z) => assert x + y + z == x + (y + z);
    }
  }

  /**
    A node the parsers can build: a group of such nodes, a comparison node with a
    comparison that has an argument, or a logical node holding And or Or.
  */
  predicate WellFormed(n: Node)
    decreases n, 1
  {
    if n.nodeType == NodeGroup then AllWellFormed(n.nodes)
    else if n.nodeType == NodeComparison then n.comparison.Some? && |n.comparison.value.arguments| >= 1
    else n.nodeType == NodeLogical && (n.logic == And || n.logic == Or)
  }

  predicate AllWellFormed(ns: seq<Node>)
    decreases ns, 0
  {
    forall i :: 0 <= i < |ns| ==> WellFormed(ns[i])
  }

  /** A well-formed node renders without panicking. */
  lemma {:induction false} WellFormedRenders(n: Node)
    requires WellFormed(n)
    ensures Render(n).Some?
    decreases n, 1
  {
    if n.nodeType == NodeGroup {
      AllWellFormedRender(n.nodes);
    }
  }

  lemma {:induction false} AllWellFormedRender(ns: seq<Node>)
    requires AllWellFormed(ns)
    ensures RenderAll(ns).Some?
    decreases ns, 0
  {
    if ns != [] {
      AllWellFormedRender(ns[..|ns| - 1]);
      WellFormedRenders(ns[|ns| - 1]);
    }
  }

  /**
    The new nodes render as the source promises: an empty group as `""`, a comparison node
    as its comparison and a logical node as its connective; each is well formed exactly
    when it renders without panicking.
  */
  lemma NewNodesRender(c: Comparison, l: Logic)
    ensures Render(NewNode(NodeGroup)) == Some("") && WellFormed(NewNode(NodeGroup))
    ensures Render(NewCompNode(Some(c))) == CompString(c)
    ensures WellFormed(NewCompNode(Some(c))) <==> Render(NewCompNode(Some(c))).Some?
    ensures Render(NewCompNode(None)) == None
    ensures Render(NewLogicNode(l)) == LogicString(l)
    ensures WellFormed(NewLogicNode(l)) <==> Render(NewLogicNode(l)).Some?
  {
  }

  /**
    The group structure of a node list removed: every group is replaced by the flattened
    list of its children, so only comparison and logical nodes remain, in order.
  */
  function Flatten(ns: seq<Node>): seq<Node>
    decreases ns
  {
    if ns == [] then []
    else
      var last := ns[|ns| - 1];
      Flatten(ns[..|ns| - 1]) + (if last.nodeType == NodeGroup then Flatten(last.nodes) else [last])
  }

  lemma {:induction false} FlattenAppend(a: seq<Node>, b: seq<Node>)
    ensures Flatten(a + b) == Flatten(a) + Flatten(b)
    decreases |b|
  {
    if b == [] {
      assert a + b == a;
    } else {
      var ab := a + b;
      assert ab[..|ab| - 1] == a + b[..|b| - 1];
      assert ab[|ab| - 1] == b[|b| - 1];
      FlattenAppend(a, b[..|b| - 1]);
    }
  }
}
