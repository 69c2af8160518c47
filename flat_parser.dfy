/**
  `fp.Parse`: the older parser. It reads the flat lexer's stream into one root group,
  appending comparisons and logical nodes to it in token order; group tokens are ignored.
*/
module FlatParser {
  import opened Options
  import opened Lex
  import opened FilterLexer
  import opened Ast
  import FilterParser

  /** The parser's variables between tokens: the root's children and the current comparison. */
  datatype FlatState = FlatState(nodes: seq<Node>, comp: Option<Comparison>)

  datatype FlatFeed = Going(next: FlatState) | Stop | Crash

  /** One turn of the parser loop; a token kind the loop has no case for changes nothing. */
  function FlatAbsorb(p: FlatState, t: Token, operators: map<string, string>): FlatFeed {
    match t.kind
    case TypeName => Going(p.(comp := Some(NewComparison(t.value))))
    case TypeOperator =>
      if p.comp.None? then Crash
      else Going(p.(comp := Some(p.comp.value.(operator := FilterParser.Lookup(operators, t.value)))))
    case TypeValue =>
      if p.comp.None? then Crash
      else Going(p.(comp := Some(p.comp.value.(arguments := p.comp.value.arguments + [t.value]))))
    case TypeValuesEnd => Going(p.(nodes := p.nodes + [NewCompNode(p.comp)]))
    case TypeOr => Going(p.(nodes := p.nodes + [NewLogicNode(Or)]))
    case TypeAnd => Going(p.(nodes := p.nodes + [NewLogicNode(And)]))
    case TypeError => Stop
    case TypeEOF => Stop
    case TypeValuesStart => Going(p)
    case TypeGroupStart => Going(p)
    case TypeGroupEnd => Going(p)
  }

  /**
    The parser loop over the tokens `ts` from `p`. It ends with a group at the root, and
    it runs past the last token only when no token is an EOF or an error.
  */
  function FlatFrom(ts: seq<Token>, p: FlatState, operators: map<string, string>): (r: Outcome)
    ensures r.Parsed? ==> r.root.nodeType == NodeGroup
    ensures r.Diverges? ==> forall i :: 0 <= i < |ts| ==> ts[i].kind != TypeEOF && ts[i].kind != TypeError
    decreases |ts|
  {
    if ts == [] then Diverges
    else
      match FlatAbsorb(p, ts[0], operators)
      case Going(q) => FlatFrom(ts[1..], q, operators)
      case Stop => Parsed(Group(p.nodes))
      case Crash => Panics
  }

  function FlatTokens(ts: seq<Token>, operators: map<string, string>): (r: Outcome)
    ensures r.Parsed? ==> r.root.nodeType == NodeGroup
    ensures r.Diverges? ==> !Halts(ts)
  {
    FlatFrom(ts, FlatState([], None), operators)
  }

  /** `fp.Parse(input)` over the operator table `operators`. */
  method Parse(input: string, operators: map<string, string>) returns (r: Outcome)
    ensures r == FlatTokens(Tokens(Flat, input), operators)
  {
    var tokens := LexAll(Flat, input);
    var root := NewNode(NodeGroup);
    var comp: Option<Comparison> := None;
    var i := 0;
    while i < |tokens|
      invariant i <= |tokens| && root.nodeType == NodeGroup && root.comparison == None && root.logic == And
      invariant FlatFrom(tokens[i..], FlatState(root.nodes, comp), operators) == FlatTokens(tokens, operators)
      decreases |tokens| - i
    {
      var tok := tokens[i];
      ghost var p := FlatState(root.nodes, comp);
      assert tokens[i..][0] == tok && tokens[i..][1..] == tokens[i + 1..];
      match tok.kind {
        case TypeName =>
          comp := Some(NewComparison(tok.value));
        case TypeOperator =>
          if comp.None? {
            return Panics;
          }
          comp := Some(comp.value.(operator := FilterParser.Lookup(operators, tok.value)));
        case TypeValue =>
          if comp.None? {
            return Panics;
          }
          comp := Some(comp.value.(arguments := comp.value.arguments + [tok.value]));
        case TypeValuesEnd =>
          root := root.(nodes := root.nodes + [NewCompNode(comp)]);
        case TypeOr =>
          root := root.(nodes := root.nodes + [NewLogicNode(Or)]);
        case TypeAnd =>
          root := root.(nodes := root.nodes + [NewLogicNode(And)]);
        case TypeError =>
          return Parsed(root);
        case TypeEOF =>
          return Parsed(root);
        case TypeValuesStart =>
        case TypeGroupStart =>
        case TypeGroupEnd =>
      }
      assert FlatAbsorb(p, tok, operators) == Going(FlatState(root.nodes, comp));
      i := i + 1;
    }
    return Diverges;
  }
}
