/**
  What `fp.Parse` makes of the flat lexer's streams, and how it relates to ParseFilter:
  the grouped tree with its groups dissolved is the flat parser's root, and without
  parentheses in the input the two parsers agree.
*/
module FlatParserFacts {
  import opened Options
  import opened GoStrings
  import opened Lex
  import opened FilterLexer
  import opened FilterLexerFacts
  import opened Ast
  import opened FilterParser
  import opened FilterParserFacts
  import opened FlatParser

  /** No node of `ns` is a group. */
  predicate NoGroups(ns: seq<Node>) {
    forall i :: 0 <= i < |ns| ==> ns[i].nodeType != NodeGroup
  }

  predicate FlatFits(ph: Phase, p: FlatState) {
    AllWellFormed(p.nodes) && NoGroups(p.nodes)
    && (Reading(ph) ==> p.comp.Some?)
    && (ph == MoreVals ==> p.comp.Some? && |p.comp.value.arguments| >= 1)
  }

  lemma AppendFits(ns: seq<Node>, n: Node)
    requires AllWellFormed(ns) && NoGroups(ns) && WellFormed(n) && n.nodeType != NodeGroup
    ensures AllWellFormed(ns + [n]) && NoGroups(ns + [n])
  {
    var r := ns + [n];
    forall i | 0 <= i < |r| ensures WellFormed(r[i]) && r[i].nodeType != NodeGroup {
      if i < |ns| {
        assert r[i] == ns[i];
      }
    }
  }

  lemma FlatAbsorbFits(ph: Phase, p: FlatState, t: Token, operators: map<string, string>)
    requires FlatFits(ph, p) && Advance(ph, t.kind).Some?
    ensures match FlatAbsorb(p, t, operators)
      case Going(q) => Advance(ph, t.kind).value != End && FlatFits(Advance(ph, t.kind).value, q)
      case Stop => Advance(ph, t.kind) == Some(End) && t.kind == TypeEOF
      case Crash => false
  {
    match t.kind
    case TypeValuesEnd => AppendFits(p.nodes, NewCompNode(p.comp));
    case TypeOr => AppendFits(p.nodes, NewLogicNode(Or));
    case TypeAnd => AppendFits(p.nodes, NewLogicNode(And));
    case _ =>
  }

  lemma {:induction false} FlatFromFacts(ts: seq<Token>, ph: Phase, p: FlatState, operators: map<string, string>)
    requires ph != End && FlatFits(ph, p) && Run(ts, ph).Some?
    ensures !FlatFrom(ts, p, operators).Panics?
    ensures FlatFrom(ts, p, operators).Diverges? <==> !Halts(ts)
    ensures FlatFrom(ts, p, operators).Parsed? ==>
      var root := FlatFrom(ts, p, operators).root;
      root.nodeType == NodeGroup && WellFormed(root) && NoGroups(root.nodes)
    decreases |ts|
  {
    if ts != [] {
      var t := ts[0];
      FlatAbsorbFits(ph, p, t, operators);
      match FlatAbsorb(p, t, operators)
      case Going(q) =>
        FlatFromFacts(ts[1..], Advance(ph, t.kind).value, q, operators);
        if ts[1..] != [] {
          assert ts[|ts| - 1] == ts[1..][|ts[1..]| - 1];
        }
      case Stop =>
        assert Run(ts[1..], End).Some?;
        assert ts[1..] == [];
      case Crash =>
    }
  }

  /**
    What `fp.Parse(input)` comes to: it never panics, it never returns exactly when the
    lexer loops forever, and otherwise its root is one group whose children are
    comparison and logical nodes only, all of which render: exactly the stream's nodes.
  */
  lemma ParseOutcome(input: string, operators: map<string, string>)
    ensures !FlatTokens(Tokens(Flat, input), operators).Panics?
    ensures FlatTokens(Tokens(Flat, input), operators).Diverges? <==> !Halts(Tokens(Flat, input))
    ensures FlatTokens(Tokens(Flat, input), operators).Parsed? ==>
      var root := FlatTokens(Tokens(Flat, input), operators).root;
      root.nodeType == NodeGroup && NoGroups(root.nodes) && WellFormed(root) && Render(root).Some?
    ensures Halts(Tokens(Flat, input)) ==>
      FlatTokens(Tokens(Flat, input), operators) == Parsed(Group(Nodes(Tokens(Flat, input), operators)))
  {
    TokensShape(Flat, input);
    if Halts(Tokens(Flat, input)) {
      FlatTree(Tokens(Flat, input), operators);
    }
    FlatFromFacts(Tokens(Flat, input), Expr, FlatState([], None), operators);
    if FlatTokens(Tokens(Flat, input), operators).Parsed? {
      WellFormedRenders(FlatTokens(Tokens(Flat, input), operators).root);
    }
  }

  // ---------------------------------------------------------------------------
  // The nodes a stream describes
  // ---------------------------------------------------------------------------

  /**
    The comparisons and connectives of a stream in order, parentheses left out: each
    comparison becomes its node and each `;` or `,` its logical node. The list stops at
    EOF or at a token out of place.
  */
  function Nodes(ts: seq<Token>, operators: map<string, string>): seq<Node>
    decreases |ts|
  {
    if ts == [] then []
    else if ComparisonAt(ts) then [ComparisonNode(ts, operators)] + Nodes(ts[ValueRunEnd(ts, 3) + 1..], operators)
    else if ts[0].kind == TypeAnd || ts[0].kind == TypeOr then
      [NewLogicNode(if ts[0].kind == TypeAnd then And else Or)] + Nodes(ts[1..], operators)
    else if ts[0].kind == TypeGroupStart || ts[0].kind == TypeGroupEnd then Nodes(ts[1..], operators)
    else []
  }

  lemma FlatStep(ts: seq<Token>, i: nat, p: FlatState, q: FlatState, operators: map<string, string>)
    requires i < |ts| && FlatAbsorb(p, ts[i], operators) == FlatParser.Going(q)
    ensures FlatFrom(ts[i..], p, operators) == FlatFrom(ts[i + 1..], q, operators)
  {
    assert ts[i..][0] == ts[i] && ts[i..][1..] == ts[i + 1..];
  }

  /** The value tokens from `i` on add their texts to the comparison under way. */
  lemma {:induction false} FlatValuesParse(ts: seq<Token>, i: nat, ns: seq<Node>, cmp: Comparison, operators: map<string, string>)
    requires i <= |ts|
    ensures var j := ValueRunEnd(ts, i);
      FlatFrom(ts[i..], FlatState(ns, Some(cmp)), operators)
        == FlatFrom(ts[j..], FlatState(ns, Some(cmp.(arguments := cmp.arguments + Texts(ts[i..j])))), operators)
    decreases |ts| - i
  {
    var j := ValueRunEnd(ts, i);
    if i == j {
      assert cmp.arguments + Texts(ts[i..j]) == cmp.arguments;
    } else {
      var cmp1 := cmp.(arguments := cmp.arguments + [ts[i].value]);
      FlatStep(ts, i, FlatState(ns, Some(cmp)), FlatState(ns, Some(cmp1)), operators);
      FlatValuesParse(ts, i + 1, ns, cmp1, operators);
      TextsCons(ts, i, j);
      assert cmp1.arguments + Texts(ts[i + 1..j]) == cmp.arguments + Texts(ts[i..j]);
    }
  }

  /** The tokens of a comparison append its node to the root. */
  lemma FlatComparisonParse(ts: seq<Token>, p: FlatState, operators: map<string, string>)
    requires ComparisonAt(ts)
    ensures var n := ComparisonNode(ts, operators);
      FlatFrom(ts, p, operators) == FlatFrom(ts[ValueRunEnd(ts, 3) + 1..], FlatState(p.nodes + [n], n.comparison), operators)
  {
    var j := ValueRunEnd(ts, 3);
    var n := ComparisonNode(ts, operators);
    var named := FlatState(p.nodes, Some(NewComparison(ts[0].value)));
    var cmp := Ast.Comparison(ts[0].value, Lookup(operators, ts[1].value), []);
    var q := FlatState(p.nodes, Some(cmp));
    var valued := FlatState(p.nodes, n.comparison);
    assert FlatFrom(ts, p, operators) == FlatFrom(ts[3..], q, operators) by {
      assert ts[0..] == ts;
      FlatStep(ts, 0, p, named, operators);
      FlatStep(ts, 1, named, q, operators);
      FlatStep(ts, 2, q, q, operators);
    }
    assert FlatFrom(ts[3..], q, operators) == FlatFrom(ts[j..], valued, operators) by {
      FlatValuesParse(ts, 3, p.nodes, cmp, operators);
      assert cmp.(arguments := cmp.arguments + Texts(ts[3..j])) == n.comparison.value;
    }
    FlatStep(ts, j, FlatState(p.nodes, n.comparison), FlatState(p.nodes + [n], n.comparison), operators);
  }

  lemma NodesAtComparison(ts: seq<Token>, operators: map<string, string>)
    requires ComparisonAt(ts)
    ensures Nodes(ts, operators) == [ComparisonNode(ts, operators)] + Nodes(ts[ValueRunEnd(ts, 3) + 1..], operators)
  {
  }

  lemma NodesAtToken(ts: seq<Token>, operators: map<string, string>)
    requires ts != [] && ts[0].kind != TypeName
    ensures Nodes(ts, operators) ==
      if ts[0].kind == TypeAnd || ts[0].kind == TypeOr then
        [NewLogicNode(if ts[0].kind == TypeAnd then And else Or)] + Nodes(ts[1..], operators)
      else if ts[0].kind == TypeGroupStart || ts[0].kind == TypeGroupEnd then Nodes(ts[1..], operators)
      else []
  {
  }

  /**
    Over a stream that keeps to the grammar and reaches its end, `fp.Parse`'s loop appends
    exactly the stream's nodes to the root and returns it at EOF.
  */
  lemma {:induction false} FlatFromNodes(ts: seq<Token>, ph: Phase, p: FlatState, operators: map<string, string>)
    requires Between(ph) && Run(ts, ph) == Some(End)
    ensures FlatFrom(ts, p, operators) == Parsed(Group(p.nodes + Nodes(ts, operators)))
    decreases |ts|, 1
  {
    var k := ts[0].kind;
    var next := Advance(ph, k).value;
    assert Run(ts[1..], next) == Some(End);
    if k == TypeName {
      FlatComparisonNodes(ts, p, operators);
    } else if k == TypeAnd || k == TypeOr {
      FlatLogicNodes(ts, p, operators);
    } else if k == TypeGroupStart || k == TypeGroupEnd {
      FlatGroupTokenNodes(ts, next, p, operators);
    } else {
      FlatEOFNodes(ts, p, operators);
    }
  }

  lemma {:induction false} FlatComparisonNodes(ts: seq<Token>, p: FlatState, operators: map<string, string>)
    requires ts != [] && ts[0].kind == TypeName && Run(ts, Expr) == Some(End)
    ensures FlatFrom(ts, p, operators) == Parsed(Group(p.nodes + Nodes(ts, operators)))
    decreases |ts|, 0
  {
    ComparisonRun(ts);
    var n := ComparisonNode(ts, operators);
    var tail := ts[ValueRunEnd(ts, 3) + 1..];
    FlatComparisonParse(ts, p, operators);
    FlatFromNodes(tail, Joint, FlatState(p.nodes + [n], n.comparison), operators);
    NodesAtComparison(ts, operators);
    assert p.nodes + [n] + Nodes(tail, operators) == p.nodes + ([n] + Nodes(tail, operators));
  }

  lemma {:induction false} FlatLogicNodes(ts: seq<Token>, p: FlatState, operators: map<string, string>)
    requires ts != [] && (ts[0].kind == TypeAnd || ts[0].kind == TypeOr) && Run(ts[1..], Expr) == Some(End)
    ensures FlatFrom(ts, p, operators) == Parsed(Group(p.nodes + Nodes(ts, operators)))
    decreases |ts|, 0
  {
    var n := NewLogicNode(if ts[0].kind == TypeAnd then And else Or);
    var q := p.(nodes := p.nodes + [n]);
    assert FlatFrom(ts, p, operators) == FlatFrom(ts[1..], q, operators) by {
      assert ts[0..] == ts;
      FlatStep(ts, 0, p, q, operators);
    }
    assert Nodes(ts, operators) == [n] + Nodes(ts[1..], operators) by {
      NodesAtToken(ts, operators);
    }
    FlatFromNodes(ts[1..], Expr, q, operators);
    assert p.nodes + [n] + Nodes(ts[1..], operators) == p.nodes + ([n] + Nodes(ts[1..], operators));
  }

  lemma {:induction false} FlatGroupTokenNodes(ts: seq<Token>, next: Phase, p: FlatState, operators: map<string, string>)
    requires ts != [] && (ts[0].kind == TypeGroupStart || ts[0].kind == TypeGroupEnd)
    requires Between(next) && Run(ts[1..], next) == Some(End)
    ensures FlatFrom(ts, p, operators) == Parsed(Group(p.nodes + Nodes(ts, operators)))
    decreases |ts|, 0
  {
    assert ts[0..] == ts;
    NodesAtToken(ts, operators);
    FlatStep(ts, 0, p, p, operators);
    FlatFromNodes(ts[1..], next, p, operators);
  }

  lemma FlatEOFNodes(ts: seq<Token>, p: FlatState, operators: map<string, string>)
    requires ts != [] && ts[0].kind == TypeEOF
    ensures FlatFrom(ts, p, operators) == Parsed(Group(p.nodes + Nodes(ts, operators)))
  {
    NodesAtToken(ts, operators);
    assert p.nodes + [] == p.nodes;
  }

  /** For a stream that keeps to the grammar and reaches its end, `fp.Parse`'s root holds the stream's nodes. */
  lemma FlatTree(ts: seq<Token>, operators: map<string, string>)
    requires Run(ts, Expr) == Some(End)
    ensures FlatTokens(ts, operators) == Parsed(Group(Nodes(ts, operators)))
  {
    FlatFromNodes(ts, Expr, FlatState([], None), operators);
    assert [] + Nodes(ts, operators) == Nodes(ts, operators);
  }

  // ---------------------------------------------------------------------------
  // A comparison with a list of values
  // ---------------------------------------------------------------------------

  lemma {:induction false} ValueRunEndAt(ts: seq<Token>, i: nat, j: nat)
    requires i <= j < |ts| && ts[j].kind != TypeValue && forall k :: i <= k < j ==> ts[k].kind == TypeValue
    ensures ValueRunEnd(ts, i) == j
    decreases j - i
  {
    if i < j {
      ValueRunEndAt(ts, i + 1, j);
    }
  }

  /** The stream of `sel op (v1,…,vn)` is one comparison: its name, its operator and the values' texts. */
  lemma ListComparisonAt(sel: string, op: string, parts: seq<string>, operators: map<string, string>)
    requires |parts| >= 1
    ensures var ts := ListComparisonTokens(sel, op, parts);
      ComparisonAt(ts) && ValueRunEnd(ts, 3) == |parts| + 3 && ts[|parts| + 4..] == [Token(TypeEOF, "")]
      && ComparisonNode(ts, operators) == NewCompNode(Some(Ast.Comparison(sel, Lookup(operators, op), parts)))
  {
    var ts := ListComparisonTokens(sel, op, parts);
    var n := |parts|;
    ValueTokensAt(parts);
    forall k | 0 <= k < n ensures ts[k + 3] == Token(TypeValue, parts[k]) {
      assert ts[k + 3] == ValueTokens(parts)[k];
    }
    assert ts[n + 3] == Token(TypeValuesEnd, "");
    ValueRunEndAt(ts, 3, n + 3);
    assert Texts(ts[3..n + 3]) == parts;
    assert ts[n + 4..] == [Token(TypeEOF, "")];
  }

  lemma {:induction false} ListStreamParses(sel: string, op: string, parts: seq<string>, operators: map<string, string>)
    requires |parts| >= 1
    ensures var ts := ListComparisonTokens(sel, op, parts);
      var node := NewCompNode(Some(Ast.Comparison(sel, Lookup(operators, op), parts)));
      ParseTokens(ts, operators) == Parsed(Group([node]))
  {
    var ts := ListComparisonTokens(sel, op, parts);
    var node := NewCompNode(Some(Ast.Comparison(sel, Lookup(operators, op), parts)));
    ListComparisonAt(sel, op, parts, operators);
    ComparisonParse(ts, Parser([[]], None), operators);
    var none: seq<Node> := [];
    assert none + [node] == [node];
    var root: seq<seq<Node>> := [none];
    assert root[..0] == [] && root[0] == none;
    assert AddNode(root, node) == [[node]];
    RootStop(ts[|parts| + 4..], [node], operators);
  }

  lemma {:induction false} ListStreamParsesFlat(sel: string, op: string, parts: seq<string>, operators: map<string, string>)
    requires |parts| >= 1
    ensures var ts := ListComparisonTokens(sel, op, parts);
      var node := NewCompNode(Some(Ast.Comparison(sel, Lookup(operators, op), parts)));
      FlatTokens(ts, operators) == Parsed(Group([node]))
  {
    var ts := ListComparisonTokens(sel, op, parts);
    var node := NewCompNode(Some(Ast.Comparison(sel, Lookup(operators, op), parts)));
    ListComparisonAt(sel, op, parts, operators);
    FlatComparisonParse(ts, FlatState([], None), operators);
    assert [] + [node] == [node];
    FlatEOFNodes(ts[|parts| + 4..], FlatState([node], None), operators);
    NodesAtToken(ts[|parts| + 4..], operators);
    assert [node] + [] == [node];
  }

  /**
    `sel op (v1,…,vn)` with bare values: ParseFilter and `fp.Parse` both return a root
    holding one comparison of `sel`, the table's operator for `op`, and the values
    `v1,…,vn` in order.
  */
  lemma {:induction false} ListComparisonParses(sel: string, w: string, parts: seq<string>, operators: map<string, string>)
    requires Selector(sel) && OperatorWord(w)
    requires |parts| >= 1 && forall i :: 0 <= i < |parts| ==> Bare(parts[i])
    ensures var input := sel + ("=" + w + "=") + "(" + Join(parts, ",") + ")";
      var node := NewCompNode(Some(Ast.Comparison(sel, Lookup(operators, "=" + w + "="), parts)));
      ParseTokens(Tokens(Grouped, input), operators) == Parsed(Group([node]))
      && FlatTokens(Tokens(Flat, input), operators) == Parsed(Group([node]))
  {
    ListComparisonLexes(Grouped, sel, w, parts);
    ListComparisonLexes(Flat, sel, w, parts);
    ListStreamParses(sel, "=" + w + "=", parts, operators);
    ListStreamParsesFlat(sel, "=" + w + "=", parts, operators);
  }

  // ---------------------------------------------------------------------------
  // The grouped tree, flattened
  // ---------------------------------------------------------------------------

  /** The open groups' children, one group after the other, with their own groups dissolved. */
  function FlatAll(stack: seq<seq<Node>>): seq<Node>
    decreases |stack|
  {
    if stack == [] then [] else FlatAll(stack[..|stack| - 1]) + Flatten(stack[|stack| - 1])
  }

  lemma FlattenOne(n: Node)
    ensures Flatten([n]) == if n.nodeType == NodeGroup then Flatten(n.nodes) else [n]
  {
    assert [n][..0] == [];
  }

  lemma AddNodeFlat(stack: seq<seq<Node>>, n: Node)
    requires |stack| >= 1
    ensures FlatAll(AddNode(stack, n)) == FlatAll(stack) + Flatten([n])
  {
    var r := AddNode(stack, n);
    var top := stack[|stack| - 1];
    assert r[..|r| - 1] == stack[..|stack| - 1];
    FlattenAppend(top, [n]);
  }

  lemma PopFlat(stack: seq<seq<Node>>)
    requires |stack| >= 2
    ensures FlatAll(Pop(stack)) == FlatAll(stack)
  {
    var inner := stack[..|stack| - 1];
    var top := stack[|stack| - 1];
    AddNodeFlat(inner, Group(top));
    FlattenOne(Group(top));
  }

  lemma PushFlat(stack: seq<seq<Node>>)
    ensures FlatAll(stack + [[]]) == FlatAll(stack)
  {
    assert (stack + [[]])[..|stack|] == stack;
  }

  lemma {:induction false} CloseFlat(stack: seq<seq<Node>>)
    requires |stack| >= 1
    ensures Flatten(Close(stack).nodes) == FlatAll(stack)
    decreases |stack|
  {
    if |stack| == 1 {
      assert stack[..0] == [];
    } else {
      PopFlat(stack);
      CloseFlat(Pop(stack));
    }
  }

  /** One token moves the grouped parser and the flat parser over the flattened stack alike. */
  lemma AbsorbFlattens(p: Parser, t: Token, operators: map<string, string>)
    requires |p.stack| >= 1 && Absorb(p, t, operators).Going?
    ensures |Absorb(p, t, operators).next.stack| >= 1
    ensures var q := Absorb(p, t, operators).next;
      FlatAbsorb(FlatState(FlatAll(p.stack), p.comp), t, operators) == FlatParser.Going(FlatState(FlatAll(q.stack), q.comp))
  {
    match t.kind {
      case TypeValuesEnd => AddNodeFlat(p.stack, NewCompNode(p.comp)); FlattenOne(NewCompNode(p.comp));
      case TypeOr => AddNodeFlat(p.stack, NewLogicNode(Or)); FlattenOne(NewLogicNode(Or));
      case TypeAnd => AddNodeFlat(p.stack, NewLogicNode(And)); FlattenOne(NewLogicNode(And));
      case TypeGroupStart => PushFlat(p.stack);
      case TypeGroupEnd => PopFlat(p.stack);
      case _ =>
    }
  }

  lemma {:induction false} ParseFromFlattens(ts: seq<Token>, p: Parser, operators: map<string, string>)
    requires |p.stack| >= 1 && ParseFrom(ts, p, operators).Parsed?
    ensures FlatFrom(ts, FlatState(FlatAll(p.stack), p.comp), operators)
      == Parsed(Group(Flatten(ParseFrom(ts, p, operators).root.nodes)))
    decreases |ts|
  {
    var t := ts[0];
    match Absorb(p, t, operators)
    case Going(q) =>
      AbsorbFlattens(p, t, operators);
      ParseFromFlattens(ts[1..], q, operators);
    case Stop =>
      CloseFlat(p.stack);
  }

  /**
    The tree Level reads holds, groups dissolved, exactly the stream's nodes up to where
    the level stops: the stream's nodes are the level's, then those after it.
  */
  lemma {:induction false} LevelNodes(ts: seq<Token>, ph: Phase, operators: map<string, string>)
    requires Between(ph) && Run(ts, ph) == Some(End)
    ensures var r := Level(ts, operators);
      Nodes(ts, operators) == Flatten(r.nodes) + Nodes(r.rest, operators)
    decreases |ts|, 1
  {
    var k := ts[0].kind;
    if ComparisonAt(ts) {
      LevelAtComparison(ts, operators);
      NodesAtComparison(ts, operators);
      ComparisonRun(ts);
      ItemLevelNodes(ts, ComparisonNode(ts, operators), ts[ValueRunEnd(ts, 3) + 1..], Joint, operators);
    } else if k == TypeAnd || k == TypeOr {
      LevelAtLogic(ts, operators);
      NodesAtToken(ts, operators);
      ItemLevelNodes(ts, NewLogicNode(if k == TypeAnd then And else Or), ts[1..], Expr, operators);
    } else if k == TypeGroupStart {
      GroupLevelNodes(ts, operators);
    } else {
      LevelAtStop(ts, operators);
      assert Nodes(ts, operators) == [] + Nodes(ts, operators);
    }
  }

  lemma Regroup(x: seq<Node>, a: seq<Node>, b: seq<Node>)
    ensures x + (a + b) == x + a + b
  {
  }

  /** A comparison or a connective followed by the level after it. */
  lemma {:induction false} ItemLevelNodes(ts: seq<Token>, n: Node, tail: seq<Token>, ph: Phase, operators: map<string, string>)
    requires |tail| < |ts| && n.nodeType != NodeGroup && Between(ph) && Run(tail, ph) == Some(End)
    requires Level(ts, operators) == LevelRead([n] + Level(tail, operators).nodes, Level(tail, operators).rest)
    requires Nodes(ts, operators) == [n] + Nodes(tail, operators)
    ensures var r := Level(ts, operators);
      Nodes(ts, operators) == Flatten(r.nodes) + Nodes(r.rest, operators)
    decreases |ts|, 0
  {
    var more := Level(tail, operators);
    LevelNodes(tail, ph, operators);
    FlattenAppend([n], more.nodes);
    FlattenOne(n);
    Regroup([n], Flatten(more.nodes), Nodes(more.rest, operators));
  }

  lemma {:induction false} GroupLevelNodes(ts: seq<Token>, operators: map<string, string>)
    requires ts != [] && ts[0].kind == TypeGroupStart && Run(ts, Expr) == Some(End)
    ensures var r := Level(ts, operators);
      Nodes(ts, operators) == Flatten(r.nodes) + Nodes(r.rest, operators)
    decreases |ts|, 0
  {
    var inner := Level(ts[1..], operators);
    LevelAtGroup(ts, operators);
    NodesAtToken(ts, operators);
    LevelRest(ts[1..], Expr, operators);
    LevelNodes(ts[1..], Expr, operators);
    AfterGroupNodes(inner, operators);
  }

  /** The end of GroupLevelNodes: the group closed at its group end, or left open at EOF. */
  lemma {:induction false} AfterGroupNodes(inner: LevelRead, operators: map<string, string>)
    requires inner.rest != [] && (inner.rest[0].kind == TypeEOF || inner.rest[0].kind == TypeGroupEnd)
    requires Run(inner.rest, Joint) == Some(End)
    ensures var g := Group(inner.nodes);
      var r := if inner.rest[0].kind == TypeGroupEnd then
          LevelRead([g] + Level(inner.rest[1..], operators).nodes, Level(inner.rest[1..], operators).rest)
        else LevelRead([g], inner.rest);
      Flatten(inner.nodes) + Nodes(inner.rest, operators) == Flatten(r.nodes) + Nodes(r.rest, operators)
    decreases |inner.rest|, 1
  {
    FlattenOne(Group(inner.nodes));
    if inner.rest[0].kind == TypeGroupEnd {
      AfterGroupClosed(inner, operators);
    }
  }

  /** The group closed at its group end: the level goes on after it. */
  lemma {:induction false} AfterGroupClosed(inner: LevelRead, operators: map<string, string>)
    requires inner.rest != [] && inner.rest[0].kind == TypeGroupEnd && Run(inner.rest, Joint) == Some(End)
    ensures var more := Level(inner.rest[1..], operators);
      Flatten(inner.nodes) + Nodes(inner.rest, operators) == Flatten([Group(inner.nodes)] + more.nodes) + Nodes(more.rest, operators)
    decreases |inner.rest|, 0
  {
    var g := Group(inner.nodes);
    var more := Level(inner.rest[1..], operators);
    FlattenOne(g);
    NodesAtToken(inner.rest, operators);
    assert Run(inner.rest[1..], Shut) == Some(End) by {
      ShutAfterGroupEnd(inner.rest);
    }
    LevelNodes(inner.rest[1..], Shut, operators);
    assert Nodes(inner.rest, operators) == Flatten(more.nodes) + Nodes(more.rest, operators);
    FlattenAppend([g], more.nodes);
    Regroup(Flatten(inner.nodes), Flatten(more.nodes), Nodes(more.rest, operators));
  }

  /**
    A `(` opens a group that holds, its own groups dissolved, exactly the nodes up to
    the `)` that matches it: the nodes after the `(` are the group's, then those from the
    matching `)` on. A group that no `)` closes runs to the EOF.
  */
  lemma GroupHoldsToMatch(ts: seq<Token>, ph: Phase, operators: map<string, string>)
    requires Between(ph) && Run(ts, ph) == Some(End) && ts != [] && ts[0].kind == TypeGroupStart
    ensures var m := Matching(ts[1..], 0);
      var lv := Level(ts, operators);
      lv.nodes != [] && lv.nodes[0] == Group(Level(ts[1..], operators).nodes)
      && m != [] && (m[0].kind == TypeGroupEnd || m[0].kind == TypeEOF)
      && Nodes(ts[1..], operators) == Flatten(lv.nodes[0].nodes) + Nodes(m, operators)
  {
    assert Run(ts[1..], Expr) == Some(End);
    LevelAtGroup(ts, operators);
    LevelRest(ts[1..], Expr, operators);
    LevelMatches(ts[1..], Expr, operators);
    LevelNodes(ts[1..], Expr, operators);
  }

  /**
    The tree ParseFilter returns for an input whose lexing stops: the root holds Level's
    nodes, which are, groups dissolved, the stream's nodes; it panics instead exactly when
    the level stops at a `)` that would close the root.
  */
  lemma ParseFilterTree(input: string, operators: map<string, string>)
    ensures var ts := Tokens(Grouped, input);
      var lv := Level(ts, operators);
      Halts(ts) ==>
        lv.rest != []
        && (lv.rest[0].kind == TypeGroupEnd ==> ParseTokens(ts, operators) == Panics)
        && (lv.rest[0].kind != TypeGroupEnd ==>
              ParseTokens(ts, operators) == Parsed(Group(lv.nodes)) && Flatten(lv.nodes) == Nodes(ts, operators))
  {
    var ts := Tokens(Grouped, input);
    TokensShape(Grouped, input);
    if Halts(ts) {
      var lv := Level(ts, operators);
      ParseTokensTree(ts, operators);
      LevelRest(ts, Expr, operators);
      LevelNodes(ts, Expr, operators);
      if lv.rest[0].kind == TypeEOF {
        NodesAtToken(lv.rest, operators);
        assert Flatten(lv.nodes) + [] == Flatten(lv.nodes);
      }
    }
  }

  /**
    Whenever ParseFilter returns a tree for a token stream, `fp.Parse` returns, for the
    same stream, the root whose children are that tree's comparison and logical nodes in
    the same order, its groups dissolved.
  */
  lemma GroupedFlattens(ts: seq<Token>, operators: map<string, string>)
    requires ParseTokens(ts, operators).Parsed?
    ensures FlatTokens(ts, operators) == Parsed(Group(Flatten(ParseTokens(ts, operators).root.nodes)))
  {
    assert FlatAll([[]]) == [];
    ParseFromFlattens(ts, Parser([[]], None), operators);
  }

  // ---------------------------------------------------------------------------
  // Input without parentheses
  // ---------------------------------------------------------------------------

  lemma {:induction false} NoGroupsParseAlike(ts: seq<Token>, nodes: seq<Node>, comp: Option<Comparison>, operators: map<string, string>)
    requires NoGroupTokens(ts)
    ensures ParseFrom(ts, Parser([nodes], comp), operators) == FlatFrom(ts, FlatState(nodes, comp), operators)
    decreases |ts|
  {
    if ts != [] {
      assert ts[0].kind != TypeGroupStart && ts[0].kind != TypeGroupEnd;
      assert NoGroupTokens(ts[1..]) by {
        forall i | 0 <= i < |ts[1..]| ensures ts[1..][i].kind != TypeGroupStart && ts[1..][i].kind != TypeGroupEnd {
          assert ts[1..][i] == ts[i + 1];
        }
      }
      match Absorb(Parser([nodes], comp), ts[0], operators)
      case Going(q) =>
        assert |q.stack| == 1;
        NoGroupsParseAlike(ts[1..], q.stack[0], q.comp, operators);
      case Stop =>
      case Crash =>
    }
  }

  /**
    Without parentheses in the input, ParseFilter and `fp.Parse` (over the same operator
    table) come to the same outcome, and a tree either returns has no groups below the root.
  */
  lemma ParsersAgree(input: string, operators: map<string, string>)
    requires '(' !in input && ')' !in input
    ensures ParseTokens(Tokens(Grouped, input), operators) == FlatTokens(Tokens(Flat, input), operators)
    ensures FlatTokens(Tokens(Flat, input), operators).Parsed? ==>
      NoGroups(FlatTokens(Tokens(Flat, input), operators).root.nodes)
  {
    DialectsAgree(input);
    FlatNoGroups(input);
    NoGroupsParseAlike(Tokens(Flat, input), [], None, operators);
    ParseOutcome(input, operators);
  }
}
