/**
  ParseFilter: the grouped lexer's token stream turned into a tree of groups, comparisons
  and logical nodes, with a stack of the groups that are open.

  The Go code keeps pointers to the open group nodes and appends to them in place; here
  the stack holds the child lists of the open groups (the root's first), and a group
  becomes a node of its parent when it is closed. Nothing is appended to a parent while
  one of its children is open, so the finished tree is the same.
*/
module FilterParser {
  import opened Options
  import opened Lex
  import opened FilterLexer
  import opened Ast

  /** The operator table lookup: the table's entry, or the zero value `""` when there is none. */
  function Lookup(operators: map<string, string>, symbol: string): string {
    if symbol in operators then operators[symbol] else ""
  }

  /** The parser's variables between tokens: the open groups' children and the current comparison. */
  datatype Parser = Parser(stack: seq<seq<Node>>, comp: Option<Comparison>)

  /** What one token does to the parser: it goes on, stops at the end of the stream, or panics. */
  datatype Feed = Going(next: Parser) | Stop | Crash

  /** Appends `n` to the children of the innermost open group. */
  function AddNode(stack: seq<seq<Node>>, n: Node): (r: seq<seq<Node>>)
    requires |stack| >= 1
    ensures |r| == |stack| && r[..|r| - 1] == stack[..|stack| - 1] && r[|r| - 1] == stack[|stack| - 1] + [n]
  {
    stack[..|stack| - 1] + [stack[|stack| - 1] + [n]]
  }

  /** Closes the innermost open group: it becomes the last child of the group around it. */
  function Pop(stack: seq<seq<Node>>): (r: seq<seq<Node>>)
    requires |stack| >= 2
    ensures |r| == |stack| - 1
  {
    AddNode(stack[..|stack| - 1], Group(stack[|stack| - 1]))
  }

  /** The root as it stands: the open groups closed one by one. */
  function Close(stack: seq<seq<Node>>): (root: Node)
    requires |stack| >= 1
    ensures root.nodeType == NodeGroup
    decreases |stack|
  {
    if |stack| == 1 then Group(stack[0]) else Close(Pop(stack))
  }

  /** One turn of the parser loop. */
  function Absorb(p: Parser, t: Token, operators: map<string, string>): (f: Feed)
    requires |p.stack| >= 1
    ensures f.Going? ==> |f.next.stack| >= 1
  {
    match t.kind
    case TypeName => Going(p.(comp := Some(NewComparison(t.value))))
    case TypeOperator =>
      if p.comp.None? then Crash
      else Going(p.(comp := Some(p.comp.value.(operator := Lookup(operators, t.value)))))
    case TypeValue =>
      if p.comp.None? then Crash
      else Going(p.(comp := Some(p.comp.value.(arguments := p.comp.value.arguments + [t.value]))))
    case TypeValuesEnd => Going(p.(stack := AddNode(p.stack, NewCompNode(p.comp))))
    case TypeOr => Going(p.(stack := AddNode(p.stack, NewLogicNode(Or))))
    case TypeAnd => Going(p.(stack := AddNode(p.stack, NewLogicNode(And))))
    case TypeGroupStart => Going(p.(stack := p.stack + [NewNode(NodeGroup).nodes]))
    case TypeGroupEnd => if |p.stack| == 1 then Crash else Going(p.(stack := Pop(p.stack)))
    case TypeError => Stop
    case TypeEOF => Stop
    case TypeValuesStart => Going(p)
  }

  /**
    The parser run over the tokens `ts` from `p`. It ends with a group at the root, and
    it runs past the last token only when no token is an EOF or an error.
  */
  function ParseFrom(ts: seq<Token>, p: Parser, operators: map<string, string>): (r: Outcome)
    requires |p.stack| >= 1
    ensures r.Parsed? ==> r.root.nodeType == NodeGroup
    ensures r.Diverges? ==> forall i :: 0 <= i < |ts| ==> ts[i].kind != TypeEOF && ts[i].kind != TypeError
    decreases |ts|
  {
    if ts == [] then Diverges
    else
      match Absorb(p, ts[0], operators)
      case Going(q) => ParseFrom(ts[1..], q, operators)
      case Stop => Parsed(Close(p.stack))
      case Crash => Panics
  }

  /** The parser from its initial state: only the root is open, and there is no comparison yet. */
  function ParseTokens(ts: seq<Token>, operators: map<string, string>): (r: Outcome)
    ensures r.Parsed? ==> r.root.nodeType == NodeGroup
    ensures r.Diverges? ==> !Halts(ts)
  {
    ParseFrom(ts, Parser([[]], None), operators)
  }

  /** The run from the `i`th token is that token's turn followed by the run from the next one. */
  lemma ParseFromStep(ts: seq<Token>, i: nat, p: Parser, operators: map<string, string>)
    requires i < |ts| && |p.stack| >= 1
    ensures ParseFrom(ts[i..], p, operators) == match Absorb(p, ts[i], operators)
      case Going(q) => ParseFrom(ts[i + 1..], q, operators)
      case Stop => Parsed(Close(p.stack))
      case Crash => Panics
  {
    assert ts[i..][0] == ts[i] && ts[i..][1..] == ts[i + 1..];
  }

  /** `ParseFilter(input)` over the operator table `operators`. */
  method ParseFilter(input: string, operators: map<string, string>) returns (r: Outcome)
    ensures r == ParseTokens(Tokens(Grouped, input), operators)
  {
    var tokens := LexAll(Grouped, input);
    var comp: Option<Comparison> := None;
    var nodes: seq<seq<Node>> := [[]];
    var i := 0;
    while i < |tokens|
      invariant i <= |tokens| && |nodes| >= 1
      invariant ParseFrom(tokens[i..], Parser(nodes, comp), operators) == ParseTokens(tokens, operators)
      decreases |tokens| - i
    {
      var tok := tokens[i];
      ghost var p := Parser(nodes, comp);
      ParseFromStep(tokens, i, p, operators);
      match tok.kind {
        case TypeName =>
          comp := Some(NewComparison(tok.value));
        case TypeOperator =>
          if comp.None? {
            return Panics;
          }
          comp := Some(comp.value.(operator := Lookup(operators, tok.value)));
        case TypeValue =>
          if comp.None? {
            return Panics;
          }
          comp := Some(comp.value.(arguments := comp.value.arguments + [tok.value]));
        case TypeValuesEnd =>
          nodes := AddNode(nodes, NewCompNode(comp));
        case TypeOr =>
          nodes := AddNode(nodes, NewLogicNode(Or));
        case TypeAnd =>
          nodes := AddNode(nodes, NewLogicNode(And));
        case TypeGroupStart =>
          var group := NewNode(NodeGroup);
          nodes := nodes + [group.nodes];
        case TypeGroupEnd =>
          if |nodes| == 1 {
            return Panics;
          }
          nodes := Pop(nodes);
        case TypeError =>
          return Parsed(Close(nodes));
        case TypeEOF =>
          return Parsed(Close(nodes));
        case TypeValuesStart =>
      }
      i := i + 1;
    }
    return Diverges;
  }
}
