/**
  What ParseFilter makes of the streams the grouped lexer delivers: it panics exactly on a
  `)` that would close the root, it never returns exactly when the lexer loops, and
  otherwise the tree it returns renders without panicking.
*/
module FilterParserFacts {
  import opened Options
  import opened Lex
  import opened FilterLexer
  import opened FilterLexerFacts
  import opened Ast
  import opened FilterParser

  /**
    The stream closes the root, when read with `depth` groups open (the root counted):
    a group end arrives while only the root is open, before the stream stops.
  */
  function StrayFrom(ts: seq<Token>, depth: nat): bool
    decreases |ts|
  {
    if ts == [] then false
    else
      match ts[0].kind
      case TypeEOF => false
      case TypeError => false
      case TypeGroupStart => StrayFrom(ts[1..], depth + 1)
      case TypeGroupEnd => depth <= 1 || StrayFrom(ts[1..], depth - 1)
      case _ => StrayFrom(ts[1..], depth)
  }

  /** The number of open groups after the token `k`, from `depth`. */
  function Deepen(depth: nat, k: TokenKind): nat {
    if k == TypeGroupStart then depth + 1
    else if k == TypeGroupEnd && depth > 0 then depth - 1
    else depth
  }

  predicate StackWellFormed(stack: seq<seq<Node>>) {
    forall i :: 0 <= i < |stack| ==> AllWellFormed(stack[i])
  }

  /** The phases from a comparison's name to its values' end, while a comparison is under way. */
  predicate Reading(ph: Phase) {
    ph == Op || ph == ValStart || ph == FirstVal || ph == MoreVals
  }

  /**
    The parser's variables fit the grammar phase: every node built so far is well formed,
    a comparison is under way from its name on, and it has an argument once a value was read.
  */
  predicate Fits(ph: Phase, p: Parser) {
    StackWellFormed(p.stack)
    && (Reading(ph) ==> p.comp.Some?)
    && (ph == MoreVals ==> p.comp.Some? && |p.comp.value.arguments| >= 1)
  }

  lemma AddNodeWellFormed(stack: seq<seq<Node>>, n: Node)
    requires |stack| >= 1 && StackWellFormed(stack) && WellFormed(n)
    ensures StackWellFormed(AddNode(stack, n))
  {
    var r := AddNode(stack, n);
    forall i | 0 <= i < |r| ensures AllWellFormed(r[i]) {
      if i < |r| - 1 {
        assert r[i] == r[..|r| - 1][i] == stack[i];
      } else {
        var top := stack[|stack| - 1];
        assert AllWellFormed(top);
        assert r[i] == top + [n];
        forall j | 0 <= j < |r[i]| ensures WellFormed(r[i][j]) {
          if j < |top| {
            assert r[i][j] == top[j];
          }
        }
      }
    }
  }

  lemma PopWellFormed(stack: seq<seq<Node>>)
    requires |stack| >= 2 && StackWellFormed(stack)
    ensures StackWellFormed(Pop(stack))
  {
    var inner := stack[..|stack| - 1];
    assert StackWellFormed(inner) by {
      forall i | 0 <= i < |inner| ensures AllWellFormed(inner[i]) {
        assert inner[i] == stack[i];
      }
    }
    assert AllWellFormed(stack[|stack| - 1]);
    assert WellFormed(Group(stack[|stack| - 1]));
    AddNodeWellFormed(inner, Group(stack[|stack| - 1]));
  }

  lemma PushWellFormed(stack: seq<seq<Node>>)
    requires StackWellFormed(stack)
    ensures StackWellFormed(stack + [[]])
  {
    var r := stack + [[]];
    forall i | 0 <= i < |r| ensures AllWellFormed(r[i]) {
      if i < |stack| {
        assert r[i] == stack[i];
      }
    }
  }

  /** Closing the open groups of a well-formed stack gives a well-formed root. */
  lemma {:induction false} CloseWellFormed(stack: seq<seq<Node>>)
    requires |stack| >= 1 && StackWellFormed(stack)
    ensures WellFormed(Close(stack))
    decreases |stack|
  {
    if |stack| == 1 {
      assert AllWellFormed(stack[0]);
    } else {
      PopWellFormed(stack);
      CloseWellFormed(Pop(stack));
    }
  }

  /**
    What one token the grammar allows does to parser variables that fit the grammar: they
    go on fitting the next phase, with the depth the token gives, or the parser stops on
    an EOF, or it panics on a `)` while only the root is open.
  */
  predicate FitsAfter(ph: Phase, p: Parser, t: Token, operators: map<string, string>)
    requires |p.stack| >= 1 && Advance(ph, t.kind).Some?
  {
    match Absorb(p, t, operators)
    case Going(q) =>
      Advance(ph, t.kind).value != End && Fits(Advance(ph, t.kind).value, q)
      && |q.stack| == Deepen(|p.stack|, t.kind)
    case Stop => Advance(ph, t.kind) == Some(End) && t.kind == TypeEOF
    case Crash => t.kind == TypeGroupEnd && |p.stack| == 1
  }

  lemma NodeFits(ph: Phase, p: Parser, t: Token, operators: map<string, string>)
    requires |p.stack| >= 1 && Fits(ph, p) && Advance(ph, t.kind).Some?
    requires t.kind == TypeValuesEnd || t.kind == TypeOr || t.kind == TypeAnd
    ensures FitsAfter(ph, p, t, operators)
  {
    if t.kind == TypeValuesEnd {
      AddNodeWellFormed(p.stack, NewCompNode(p.comp));
    } else {
      AddNodeWellFormed(p.stack, NewLogicNode(if t.kind == TypeOr then Or else And));
    }
  }

  lemma GroupStartFits(ph: Phase, p: Parser, t: Token, operators: map<string, string>)
    requires |p.stack| >= 1 && Fits(ph, p) && Advance(ph, t.kind).Some? && t.kind == TypeGroupStart
    ensures FitsAfter(ph, p, t, operators)
  {
    PushWellFormed(p.stack);
    assert Absorb(p, t, operators) == Going(p.(stack := p.stack + [[]]));
  }

  lemma GroupEndFits(ph: Phase, p: Parser, t: Token, operators: map<string, string>)
    requires |p.stack| >= 1 && Fits(ph, p) && Advance(ph, t.kind).Some? && t.kind == TypeGroupEnd
    ensures FitsAfter(ph, p, t, operators)
  {
    if |p.stack| > 1 {
      PopWellFormed(p.stack);
      assert Absorb(p, t, operators) == Going(p.(stack := Pop(p.stack)));
    }
  }

  lemma ComparisonFits(ph: Phase, p: Parser, t: Token, operators: map<string, string>)
    requires |p.stack| >= 1 && Fits(ph, p) && Advance(ph, t.kind).Some?
    requires t.kind == TypeName || t.kind == TypeOperator || t.kind == TypeValue || t.kind == TypeValuesStart
    ensures FitsAfter(ph, p, t, operators)
  {
  }

  /** One token the grammar allows keeps the parser's variables fitting the grammar. */
  lemma AbsorbFits(ph: Phase, p: Parser, t: Token, operators: map<string, string>)
    requires |p.stack| >= 1 && Fits(ph, p) && Advance(ph, t.kind).Some?
    ensures FitsAfter(ph, p, t, operators)
    ensures t.kind == TypeGroupEnd && |p.stack| == 1 ==> Absorb(p, t, operators) == Crash
  {
    match t.kind
    case TypeValuesEnd => NodeFits(ph, p, t, operators);
    case TypeOr => NodeFits(ph, p, t, operators);
    case TypeAnd => NodeFits(ph, p, t, operators);
    case TypeGroupStart => GroupStartFits(ph, p, t, operators);
    case TypeGroupEnd => GroupEndFits(ph, p, t, operators);
    case TypeName => ComparisonFits(ph, p, t, operators);
    case TypeOperator => ComparisonFits(ph, p, t, operators);
    case TypeValue => ComparisonFits(ph, p, t, operators);
    case TypeValuesStart => ComparisonFits(ph, p, t, operators);
    case TypeEOF =>
    case TypeError =>
  }

  /**
    Over a stream that keeps to the grammar, the parser panics exactly when the stream
    closes the root, never returns exactly when the stream neither does that nor ends
    with EOF, and returns a well-formed root otherwise.
  */
  lemma {:induction false} ParseFromFacts(ts: seq<Token>, ph: Phase, p: Parser, operators: map<string, string>)
    requires |p.stack| >= 1 && ph != End && Fits(ph, p) && Run(ts, ph).Some?
    ensures ParseFrom(ts, p, operators).Panics? <==> StrayFrom(ts, |p.stack|)
    ensures ParseFrom(ts, p, operators).Diverges? <==> !StrayFrom(ts, |p.stack|) && !Halts(ts)
    ensures ParseFrom(ts, p, operators).Parsed? ==> WellFormed(ParseFrom(ts, p, operators).root)
    decreases |ts|
  {
    if ts != [] {
      var t := ts[0];
      AbsorbFits(ph, p, t, operators);
      match Absorb(p, t, operators)
      case Going(q) =>
        var ph2 := Advance(ph, t.kind).value;
        ParseFromFacts(ts[1..], ph2, q, operators);
        if ts[1..] != [] {
          assert ts[|ts| - 1] == ts[1..][|ts[1..]| - 1];
        }
      case Stop =>
        assert Run(ts[1..], End).Some?;
        assert ts[1..] == [];
        CloseWellFormed(p.stack);
      case Crash =>
    }
  }

  /**
    What `ParseFilter(input)` comes to: it panics exactly when a `)` closes the root, it
    never returns exactly when the lexer loops forever (and no such `)` came first), and the
    root it returns renders without panicking.
  */
  lemma ParseFilterOutcome(input: string, operators: map<string, string>)
    ensures ParseTokens(Tokens(Grouped, input), operators).Panics? <==> StrayFrom(Tokens(Grouped, input), 1)
    ensures ParseTokens(Tokens(Grouped, input), operators).Diverges?
      <==> !StrayFrom(Tokens(Grouped, input), 1) && !Halts(Tokens(Grouped, input))
    ensures ParseTokens(Tokens(Grouped, input), operators).Parsed? ==>
      WellFormed(ParseTokens(Tokens(Grouped, input), operators).root)
      && Render(ParseTokens(Tokens(Grouped, input), operators).root).Some?
  {
    var ts := Tokens(Grouped, input);
    TokensShape(Grouped, input);
    assert StackWellFormed([[]]);
    ParseFromFacts(ts, Expr, Parser([[]], None), operators);
    if ParseTokens(ts, operators).Parsed? {
      WellFormedRenders(ParseTokens(ts, operators).root);
    }
  }

  // ---------------------------------------------------------------------------
  // The tree a stream describes
  // ---------------------------------------------------------------------------

  /** The first position at or after `i` that holds no value token. */
  function ValueRunEnd(ts: seq<Token>, i: nat): (j: nat)
    requires i <= |ts|
    ensures i <= j <= |ts| && (j < |ts| ==> ts[j].kind != TypeValue)
    ensures forall k :: i <= k < j ==> ts[k].kind == TypeValue
    decreases |ts| - i
  {
    if i < |ts| && ts[i].kind == TypeValue then ValueRunEnd(ts, i + 1) else i
  }

  /** The texts of the tokens, in order. */
  function Texts(ts: seq<Token>): seq<string> {
    seq(|ts|, i requires 0 <= i < |ts| => ts[i].value)
  }

  /** A comparison at the front of `ts`: Name, Operator, ValuesStart, the value tokens, ValuesEnd. */
  predicate ComparisonAt(ts: seq<Token>) {
    |ts| >= 3 && ts[0].kind == TypeName && ts[1].kind == TypeOperator && ts[2].kind == TypeValuesStart
    && ValueRunEnd(ts, 3) < |ts| && ts[ValueRunEnd(ts, 3)].kind == TypeValuesEnd
  }

  /** The node of the comparison at the front: the name's text, the table's operator for the operator's text, the values' texts. */
  function ComparisonNode(ts: seq<Token>, operators: map<string, string>): Node
    requires ComparisonAt(ts)
  {
    NewCompNode(Some(Ast.Comparison(ts[0].value, Lookup(operators, ts[1].value), Texts(ts[3..ValueRunEnd(ts, 3)]))))
  }

  /** One level of the tree read from a stream: its nodes, and the tokens from where the level stops. */
  datatype LevelRead = LevelRead(nodes: seq<Node>, rest: seq<Token>)

  /**
    The tree a stream describes, one level read from its front: each comparison becomes a
    comparison node and each connective a logical node, in order, and a group start
    becomes a group holding the level that follows it, up to its group end. The level
    stops at a group end (left at the front of `rest`), at EOF, or at a token out of place.
  */
  function Level(ts: seq<Token>, operators: map<string, string>): (r: LevelRead)
    ensures |r.rest| <= |ts|
    decreases |ts|
  {
    if ts == [] then LevelRead([], [])
    else if ComparisonAt(ts) then
      var more := Level(ts[ValueRunEnd(ts, 3) + 1..], operators);
      LevelRead([ComparisonNode(ts, operators)] + more.nodes, more.rest)
    else if ts[0].kind == TypeAnd || ts[0].kind == TypeOr then
      var more := Level(ts[1..], operators);
      LevelRead([NewLogicNode(if ts[0].kind == TypeAnd then And else Or)] + more.nodes, more.rest)
    else if ts[0].kind == TypeGroupStart then
      var inner := Level(ts[1..], operators);
      if inner.rest != [] && inner.rest[0].kind == TypeGroupEnd then
        var more := Level(inner.rest[1..], operators);
        LevelRead([Group(inner.nodes)] + more.nodes, more.rest)
      else
        LevelRead([Group(inner.nodes)], inner.rest)
    else LevelRead([], ts)
  }

  /** The phases between two items of a stream: before a comparison, after one, after a group end. */
  predicate Between(ph: Phase) {
    ph == Expr || ph == Joint || ph == Shut
  }

  /** Within the grammar, the values of a comparison run up to its ValuesEnd, and the joint follows. */
  lemma {:induction false} RunToValuesEnd(ts: seq<Token>, i: nat, ph: Phase)
    requires i <= |ts| && (ph == FirstVal || ph == MoreVals) && Run(ts[i..], ph) == Some(End)
    ensures ValueRunEnd(ts, i) < |ts| && ts[ValueRunEnd(ts, i)].kind == TypeValuesEnd
    ensures Run(ts[ValueRunEnd(ts, i) + 1..], Joint) == Some(End)
    decreases |ts| - i
  {
    assert i < |ts|;
    assert ts[i..][0] == ts[i] && ts[i..][1..] == ts[i + 1..];
    if ts[i].kind == TypeValue {
      RunToValuesEnd(ts, i + 1, MoreVals);
    }
  }

  /** Within the grammar, a name starts a whole comparison, and the joint follows it. */
  lemma ComparisonRun(ts: seq<Token>)
    requires ts != [] && ts[0].kind == TypeName && Run(ts, Expr) == Some(End)
    ensures ComparisonAt(ts) && Run(ts[ValueRunEnd(ts, 3) + 1..], Joint) == Some(End)
  {
    assert Run(ts[1..], Op) == Some(End);
    assert ts[1..][0] == ts[1] && ts[1..][1..] == ts[2..];
    assert Run(ts[2..], ValStart) == Some(End);
    assert ts[2..][0] == ts[2] && ts[2..][1..] == ts[3..];
    assert Run(ts[3..], FirstVal) == Some(End);
    RunToValuesEnd(ts, 3, FirstVal);
  }

  /** A turn of the loop that goes on moves the run from the `i`th token to the next one. */
  lemma GoingStep(ts: seq<Token>, i: nat, p: Parser, q: Parser, operators: map<string, string>)
    requires i < |ts| && |p.stack| >= 1 && Absorb(p, ts[i], operators) == Going(q)
    ensures ParseFrom(ts[i..], p, operators) == ParseFrom(ts[i + 1..], q, operators)
  {
    ParseFromStep(ts, i, p, operators);
  }

  lemma TextsCons(ts: seq<Token>, i: nat, j: nat)
    requires i < j <= |ts|
    ensures Texts(ts[i..j]) == [ts[i].value] + Texts(ts[i + 1..j])
  {
  }

  /** The value tokens from `i` on add their texts to the comparison under way. */
  lemma {:induction false} ValuesParse(ts: seq<Token>, i: nat, stack: seq<seq<Node>>, cmp: Comparison, operators: map<string, string>)
    requires i <= |ts| && |stack| >= 1
    ensures var j := ValueRunEnd(ts, i);
      ParseFrom(ts[i..], Parser(stack, Some(cmp)), operators)
        == ParseFrom(ts[j..], Parser(stack, Some(cmp.(arguments := cmp.arguments + Texts(ts[i..j])))), operators)
    decreases |ts| - i
  {
    var j := ValueRunEnd(ts, i);
    if i == j {
      assert cmp.arguments + Texts(ts[i..j]) == cmp.arguments;
    } else {
      var cmp1 := cmp.(arguments := cmp.arguments + [ts[i].value]);
      GoingStep(ts, i, Parser(stack, Some(cmp)), Parser(stack, Some(cmp1)), operators);
      ValuesParse(ts, i + 1, stack, cmp1, operators);
      TextsCons(ts, i, j);
      assert cmp1.arguments + Texts(ts[i + 1..j]) == cmp.arguments + Texts(ts[i..j]);
    }
  }

  /** The name, the operator and the values' start begin a comparison with no arguments yet. */
  lemma ComparisonHead(ts: seq<Token>, p: Parser, operators: map<string, string>)
    requires |p.stack| >= 1 && ComparisonAt(ts)
    ensures ParseFrom(ts, p, operators)
      == ParseFrom(ts[3..], Parser(p.stack, Some(Ast.Comparison(ts[0].value, Lookup(operators, ts[1].value), []))), operators)
  {
    var named := Parser(p.stack, Some(NewComparison(ts[0].value)));
    var q := Parser(p.stack, Some(Ast.Comparison(ts[0].value, Lookup(operators, ts[1].value), [])));
    assert ts[0..] == ts;
    GoingStep(ts, 0, p, named, operators);
    GoingStep(ts, 1, named, q, operators);
    GoingStep(ts, 2, q, q, operators);
  }

  /** The tokens of a comparison add its node to the innermost open group. */
  lemma ComparisonParse(ts: seq<Token>, p: Parser, operators: map<string, string>)
    requires |p.stack| >= 1 && ComparisonAt(ts)
    ensures var n := ComparisonNode(ts, operators);
      ParseFrom(ts, p, operators)
        == ParseFrom(ts[ValueRunEnd(ts, 3) + 1..], Parser(AddNode(p.stack, n), n.comparison), operators)
  {
    var j := ValueRunEnd(ts, 3);
    var n := ComparisonNode(ts, operators);
    var cmp := Ast.Comparison(ts[0].value, Lookup(operators, ts[1].value), []);
    var valued := Parser(p.stack, n.comparison);
    assert ParseFrom(ts, p, operators) == ParseFrom(ts[3..], Parser(p.stack, Some(cmp)), operators) by {
      ComparisonHead(ts, p, operators);
    }
    assert ParseFrom(ts[3..], Parser(p.stack, Some(cmp)), operators) == ParseFrom(ts[j..], valued, operators) by {
      ValuesParse(ts, 3, p.stack, cmp, operators);
      assert cmp.(arguments := cmp.arguments + Texts(ts[3..j])) == n.comparison.value;
    }
    GoingStep(ts, j, valued, Parser(AddNode(p.stack, n), n.comparison), operators);
  }

  /** Node lists appended to the innermost open group. */
  function AddNodes(stack: seq<seq<Node>>, ns: seq<Node>): (r: seq<seq<Node>>)
    requires |stack| >= 1
  {
    stack[..|stack| - 1] + [stack[|stack| - 1] + ns]
  }

  lemma AddNodesNone(stack: seq<seq<Node>>)
    requires |stack| >= 1
    ensures AddNodes(stack, []) == stack
  {
    assert stack[|stack| - 1] + [] == stack[|stack| - 1];
  }

  lemma AddNodesCons(stack: seq<seq<Node>>, n: Node, ns: seq<Node>)
    requires |stack| >= 1
    ensures AddNodes(AddNode(stack, n), ns) == AddNodes(stack, [n] + ns)
  {
    assert stack[|stack| - 1] + [n] + ns == stack[|stack| - 1] + ([n] + ns);
  }

  /**
    Within the grammar, a level that reaches the end of the stream stops at EOF or at a
    group end, and what it leaves is a joint that reaches the end.
  */
  lemma {:induction false} LevelRest(ts: seq<Token>, ph: Phase, operators: map<string, string>)
    requires Between(ph) && Run(ts, ph) == Some(End)
    ensures var r := Level(ts, operators).rest;
      r != [] && (r[0].kind == TypeEOF || r[0].kind == TypeGroupEnd) && Run(r, Joint) == Some(End)
    decreases |ts|
  {
    if ComparisonAt(ts) {
      ComparisonRun(ts);
      LevelRest(ts[ValueRunEnd(ts, 3) + 1..], Joint, operators);
    } else if ts[0].kind == TypeAnd || ts[0].kind == TypeOr {
      LevelRest(ts[1..], Expr, operators);
    } else if ts[0].kind == TypeGroupStart {
      LevelRest(ts[1..], Expr, operators);
      var inner := Level(ts[1..], operators);
      if inner.rest[0].kind == TypeGroupEnd {
        LevelRest(inner.rest[1..], Shut, operators);
      }
    } else if ts[0].kind == TypeName {
      ComparisonRun(ts);
    }
  }

  lemma LevelAtComparison(ts: seq<Token>, operators: map<string, string>)
    requires ComparisonAt(ts)
    ensures var more := Level(ts[ValueRunEnd(ts, 3) + 1..], operators);
      Level(ts, operators) == LevelRead([ComparisonNode(ts, operators)] + more.nodes, more.rest)
  {
  }

  lemma LevelAtLogic(ts: seq<Token>, operators: map<string, string>)
    requires ts != [] && (ts[0].kind == TypeAnd || ts[0].kind == TypeOr)
    ensures var more := Level(ts[1..], operators);
      Level(ts, operators) == LevelRead([NewLogicNode(if ts[0].kind == TypeAnd then And else Or)] + more.nodes, more.rest)
  {
  }

  lemma LevelAtGroup(ts: seq<Token>, operators: map<string, string>)
    requires ts != [] && ts[0].kind == TypeGroupStart
    ensures var inner := Level(ts[1..], operators);
      Level(ts, operators) ==
        if inner.rest != [] && inner.rest[0].kind == TypeGroupEnd then
          LevelRead([Group(inner.nodes)] + Level(inner.rest[1..], operators).nodes, Level(inner.rest[1..], operators).rest)
        else LevelRead([Group(inner.nodes)], inner.rest)
  {
  }

  lemma LevelAtStop(ts: seq<Token>, operators: map<string, string>)
    requires ts != [] && !ComparisonAt(ts) && ts[0].kind !in {TypeAnd, TypeOr, TypeGroupStart}
    ensures Level(ts, operators) == LevelRead([], ts)
  {
  }

  /**
    Between two items of a stream the current comparison does not matter: the next
    comparison starts afresh with its name, and nothing else reads it.
  */
  lemma {:induction false} CompIrrelevant(ts: seq<Token>, ph: Phase, s: seq<seq<Node>>, c1: Option<Comparison>,
                                          c2: Option<Comparison>, operators: map<string, string>)
    requires |s| >= 1 && Between(ph) && Run(ts, ph) == Some(End)
    ensures ParseFrom(ts, Parser(s, c1), operators) == ParseFrom(ts, Parser(s, c2), operators)
    decreases |ts|
  {
    assert ts[0..] == ts;
    var k := ts[0].kind;
    var next := Advance(ph, k).value;
    assert Run(ts[1..], next) == Some(End);
    var a := Absorb(Parser(s, c1), ts[0], operators);
    var b := Absorb(Parser(s, c2), ts[0], operators);
    AbsorbBetween(ph, s, c1, c2, ts[0], operators);
    ParseFromStep(ts, 0, Parser(s, c1), operators);
    ParseFromStep(ts, 0, Parser(s, c2), operators);
    if a.Going? && k != TypeName {
      CompIrrelevant(ts[1..], next, a.next.stack, c1, c2, operators);
    }
  }

  /** One token between two items of a stream treats two comparisons alike, and keeps each one unless it starts another. */
  lemma AbsorbBetween(ph: Phase, s: seq<seq<Node>>, c1: Option<Comparison>, c2: Option<Comparison>, t: Token,
                      operators: map<string, string>)
    requires |s| >= 1 && Between(ph) && Advance(ph, t.kind).Some?
    ensures var a, b := Absorb(Parser(s, c1), t, operators), Absorb(Parser(s, c2), t, operators);
      if t.kind == TypeName then a == b
      else
        a.Going? == b.Going? && (!a.Going? ==> a == b)
        && (a.Going? ==> a.next == Parser(a.next.stack, c1) && b.next == Parser(a.next.stack, c2)
                         && Between(Advance(ph, t.kind).value))
  {
  }

  lemma PushAddNodes(stack: seq<seq<Node>>, ns: seq<Node>)
    ensures AddNodes(stack + [[]], ns) == stack + [ns]
  {
    assert (stack + [[]])[..|stack|] == stack;
    assert [] + ns == ns;
  }

  lemma PopOpen(stack: seq<seq<Node>>, ns: seq<Node>)
    requires |stack| >= 1
    ensures Pop(stack + [ns]) == AddNode(stack, Group(ns))
  {
    assert (stack + [ns])[..|stack|] == stack;
  }

  /**
    Over a stream that keeps to the grammar and reaches its end, the parser reads one
    level as Level says: its nodes are appended to the innermost open group, and the
    parser goes on from where the level stops.
  */
  lemma {:induction false} LevelParse(ts: seq<Token>, ph: Phase, p: Parser, operators: map<string, string>)
    requires |p.stack| >= 1 && Between(ph) && Run(ts, ph) == Some(End)
    ensures var r := Level(ts, operators);
      ParseFrom(ts, p, operators) == ParseFrom(r.rest, Parser(AddNodes(p.stack, r.nodes), p.comp), operators)
    decreases |ts|, 1
  {
    if ComparisonAt(ts) {
      ComparisonLevel(ts, p, operators);
    } else if ts[0].kind == TypeAnd || ts[0].kind == TypeOr {
      LogicLevel(ts, ph, p, operators);
    } else if ts[0].kind == TypeGroupStart {
      GroupLevel(ts, ph, p, operators);
    } else {
      LevelAtStop(ts, operators);
      AddNodesNone(p.stack);
    }
  }

  lemma {:induction false} ComparisonLevel(ts: seq<Token>, p: Parser, operators: map<string, string>)
    requires |p.stack| >= 1 && ComparisonAt(ts) && Run(ts, Expr) == Some(End)
    ensures var r := Level(ts, operators);
      ParseFrom(ts, p, operators) == ParseFrom(r.rest, Parser(AddNodes(p.stack, r.nodes), p.comp), operators)
    decreases |ts|, 0
  {
    ComparisonRun(ts);
    var n := ComparisonNode(ts, operators);
    var tail := ts[ValueRunEnd(ts, 3) + 1..];
    var q := Parser(AddNode(p.stack, n), n.comparison);
    var more := Level(tail, operators);
    LevelParse(tail, Joint, q, operators);
    ComparisonParse(ts, p, operators);
    AddNodesCons(p.stack, n, more.nodes);
    LevelAtComparison(ts, operators);
    LevelRest(tail, Joint, operators);
    CompIrrelevant(more.rest, Joint, AddNodes(q.stack, more.nodes), q.comp, p.comp, operators);
  }

  lemma {:induction false} LogicLevel(ts: seq<Token>, ph: Phase, p: Parser, operators: map<string, string>)
    requires |p.stack| >= 1 && Between(ph) && Run(ts, ph) == Some(End)
    requires ts != [] && (ts[0].kind == TypeAnd || ts[0].kind == TypeOr)
    ensures var r := Level(ts, operators);
      ParseFrom(ts, p, operators) == ParseFrom(r.rest, Parser(AddNodes(p.stack, r.nodes), p.comp), operators)
    decreases |ts|, 0
  {
    var n := NewLogicNode(if ts[0].kind == TypeAnd then And else Or);
    var q := p.(stack := AddNode(p.stack, n));
    var more := Level(ts[1..], operators);
    assert ts[0..] == ts;
    GoingStep(ts, 0, p, q, operators);
    LevelParse(ts[1..], Expr, q, operators);
    AddNodesCons(p.stack, n, more.nodes);
    LevelAtLogic(ts, operators);
  }

  /** The group case of LevelParse: the group's level becomes one group node. */
  lemma {:induction false} GroupLevel(ts: seq<Token>, ph: Phase, p: Parser, operators: map<string, string>)
    requires |p.stack| >= 1 && Between(ph) && Run(ts, ph) == Some(End)
    requires ts != [] && ts[0].kind == TypeGroupStart
    ensures var r := Level(ts, operators);
      ParseFrom(ts, p, operators) == ParseFrom(r.rest, Parser(AddNodes(p.stack, r.nodes), p.comp), operators)
    decreases |ts|, 0
  {
    var inner := Level(ts[1..], operators);
    var pushed := p.(stack := p.stack + [[]]);
    var open := p.stack + [inner.nodes];
    assert ts[0..] == ts;
    GoingStep(ts, 0, p, pushed, operators);
    LevelParse(ts[1..], Expr, pushed, operators);
    PushAddNodes(p.stack, inner.nodes);
    assert ParseFrom(ts, p, operators) == ParseFrom(inner.rest, Parser(open, p.comp), operators);
    LevelRest(ts[1..], Expr, operators);
    LevelAtGroup(ts, operators);
    AfterGroup(inner, open, p, operators);
  }

  /** The end of GroupLevel: the group closed at its group end, or left open at EOF. */
  lemma {:induction false} AfterGroup(inner: LevelRead, open: seq<seq<Node>>, p: Parser, operators: map<string, string>)
    requires |p.stack| >= 1 && open == p.stack + [inner.nodes]
    requires inner.rest != [] && (inner.rest[0].kind == TypeEOF || inner.rest[0].kind == TypeGroupEnd)
    requires Run(inner.rest, Joint) == Some(End)
    ensures var g := Group(inner.nodes);
      var r := if inner.rest[0].kind == TypeGroupEnd then
          LevelRead([g] + Level(inner.rest[1..], operators).nodes, Level(inner.rest[1..], operators).rest)
        else LevelRead([g], inner.rest);
      ParseFrom(inner.rest, Parser(open, p.comp), operators) == ParseFrom(r.rest, Parser(AddNodes(p.stack, r.nodes), p.comp), operators)
    decreases |inner.rest|, 2
  {
    var g := Group(inner.nodes);
    PopOpen(p.stack, inner.nodes);
    if inner.rest[0].kind == TypeGroupEnd {
      GroupEndLevel(inner.rest, open, g, p, operators);
    } else {
      assert AddNodes(p.stack, [g]) == AddNode(p.stack, g);
      StopsAlike(inner.rest, open, AddNode(p.stack, g), p.comp, operators);
    }
  }

  /** After a group's level, its group end closes it and the level around it goes on. */
  lemma {:induction false} GroupEndLevel(rest: seq<Token>, open: seq<seq<Node>>, g: Node, p: Parser, operators: map<string, string>)
    requires |p.stack| >= 1 && |open| >= 2 && Pop(open) == AddNode(p.stack, g)
    requires rest != [] && rest[0].kind == TypeGroupEnd && Run(rest[1..], Shut) == Some(End)
    ensures var more := Level(rest[1..], operators);
      ParseFrom(rest, Parser(open, p.comp), operators)
        == ParseFrom(more.rest, Parser(AddNodes(p.stack, [g] + more.nodes), p.comp), operators)
    decreases |rest|, 1
  {
    var q := Parser(AddNode(p.stack, g), p.comp);
    assert rest[0..] == rest;
    GoingStep(rest, 0, Parser(open, p.comp), q, operators);
    LevelParse(rest[1..], Shut, q, operators);
    AddNodesCons(p.stack, g, Level(rest[1..], operators).nodes);
  }

  /** At EOF, two stacks that close to the same root come to the same outcome. */
  lemma StopsAlike(ts: seq<Token>, a: seq<seq<Node>>, b: seq<seq<Node>>, c: Option<Comparison>, operators: map<string, string>)
    requires ts != [] && ts[0].kind == TypeEOF && |a| >= 2 && |b| >= 1 && b == Pop(a)
    ensures ParseFrom(ts, Parser(a, c), operators) == ParseFrom(ts, Parser(b, c), operators)
  {
  }

  /**
    The tokens from the `)` that closes the innermost group open at the front of `ts`,
    with `depth` more groups opened within it still to be closed first, or from the EOF
    that comes before it.
  */
  function Matching(ts: seq<Token>, depth: nat): (r: seq<Token>)
    ensures |r| <= |ts|
    decreases |ts|
  {
    if ts == [] then []
    else if ts[0].kind == TypeEOF then ts
    else if ts[0].kind == TypeGroupEnd then (if depth == 0 then ts else Matching(ts[1..], depth - 1))
    else if ts[0].kind == TypeGroupStart then Matching(ts[1..], depth + 1)
    else Matching(ts[1..], depth)
  }

  /** After the `)` found at depth `e`, the search at `d` more levels goes on from the next token at depth `d`. */
  lemma {:induction false} MatchingShift(ts: seq<Token>, e: nat, d: nat)
    requires Matching(ts, e) != [] && Matching(ts, e)[0].kind == TypeGroupEnd
    ensures Matching(ts, e + d + 1) == Matching(Matching(ts, e)[1..], d)
    decreases |ts|
  {
    var k := ts[0].kind;
    if k == TypeGroupEnd && e > 0 {
      MatchingShift(ts[1..], e - 1, d);
    } else if k == TypeGroupStart {
      MatchingShift(ts[1..], e + 1, d);
    } else if k != TypeGroupEnd && k != TypeEOF {
      MatchingShift(ts[1..], e, d);
    }
  }

  /** An EOF found at depth `e` is found at every greater depth. */
  lemma {:induction false} MatchingEOF(ts: seq<Token>, e: nat, d: nat)
    requires Matching(ts, e) != [] && Matching(ts, e)[0].kind == TypeEOF
    ensures Matching(ts, e + d) == Matching(ts, e)
    decreases |ts|
  {
    var k := ts[0].kind;
    if k == TypeGroupEnd {
      MatchingEOF(ts[1..], e - 1, d);
    } else if k == TypeGroupStart {
      MatchingEOF(ts[1..], e + 1, d);
    } else if k != TypeEOF {
      MatchingEOF(ts[1..], e, d);
    }
  }

  /** The search passes over the tokens of a comparison. */
  lemma {:induction false} MatchingSkip(ts: seq<Token>, i: nat, d: nat)
    requires i <= |ts| && forall k :: 0 <= k < i ==> ts[k].kind !in {TypeEOF, TypeGroupStart, TypeGroupEnd}
    ensures Matching(ts, d) == Matching(ts[i..], d)
    decreases i
  {
    if i > 0 {
      assert ts[0].kind !in {TypeEOF, TypeGroupStart, TypeGroupEnd};
      MatchingSkip(ts[1..], i - 1, d);
      assert ts[1..][i - 1..] == ts[i..];
    } else {
      assert ts[0..] == ts;
    }
  }

  lemma MatchingComparison(ts: seq<Token>, d: nat)
    requires ComparisonAt(ts)
    ensures Matching(ts, d) == Matching(ts[ValueRunEnd(ts, 3) + 1..], d)
  {
    var j := ValueRunEnd(ts, 3);
    forall k | 0 <= k < j + 1 ensures ts[k].kind !in {TypeEOF, TypeGroupStart, TypeGroupEnd} {
      if 3 <= k < j {
        assert ts[k].kind == TypeValue;
      }
    }
    MatchingSkip(ts, j + 1, d);
  }

  /**
    Within the grammar, a level stops exactly at the `)` that matches the group it is
    inside of, or at the EOF when that group is never closed.
  */
  lemma {:induction false} LevelMatches(ts: seq<Token>, ph: Phase, operators: map<string, string>)
    requires Between(ph) && Run(ts, ph) == Some(End)
    ensures Level(ts, operators).rest == Matching(ts, 0)
    decreases |ts|, 2
  {
    var k := ts[0].kind;
    if ComparisonAt(ts) {
      ComparisonRun(ts);
      LevelAtComparison(ts, operators);
      LevelMatches(ts[ValueRunEnd(ts, 3) + 1..], Joint, operators);
      MatchingComparison(ts, 0);
    } else if k == TypeAnd || k == TypeOr {
      LevelAtLogic(ts, operators);
      LevelMatches(ts[1..], Expr, operators);
      assert Matching(ts, 0) == Matching(ts[1..], 0);
    } else if k == TypeGroupStart {
      GroupMatches(ts, operators);
    } else if k == TypeName {
      ComparisonRun(ts);
    } else {
      LevelAtStop(ts, operators);
    }
  }

  lemma {:induction false} GroupMatches(ts: seq<Token>, operators: map<string, string>)
    requires ts != [] && ts[0].kind == TypeGroupStart && Run(ts, Expr) == Some(End)
    ensures Level(ts, operators).rest == Matching(ts, 0)
    decreases |ts|, 1
  {
    var inner := Level(ts[1..], operators);
    LevelRest(ts[1..], Expr, operators);
    LevelMatches(ts[1..], Expr, operators);
    if inner.rest[0].kind == TypeGroupEnd {
      ShutAfterGroupEnd(inner.rest);
      ClosedGroupMatches(ts, operators);
    } else {
      OpenGroupMatches(ts, operators);
    }
  }

  lemma ShutAfterGroupEnd(rest: seq<Token>)
    requires rest != [] && rest[0].kind == TypeGroupEnd && Run(rest, Joint) == Some(End)
    ensures Run(rest[1..], Shut) == Some(End)
  {
  }

  lemma {:induction false} ClosedGroupMatches(ts: seq<Token>, operators: map<string, string>)
    requires ts != [] && ts[0].kind == TypeGroupStart
    requires var rest := Level(ts[1..], operators).rest;
      rest == Matching(ts[1..], 0) && rest != [] && rest[0].kind == TypeGroupEnd && Run(rest[1..], Shut) == Some(End)
    ensures Level(ts, operators).rest == Matching(ts, 0)
    decreases |ts|, 0
  {
    var rest := Level(ts[1..], operators).rest;
    ClosedGroupLevel(ts, operators);
    MatchingPastGroup(ts, rest);
    LevelMatches(rest[1..], Shut, operators);
  }

  lemma ClosedGroupLevel(ts: seq<Token>, operators: map<string, string>)
    requires ts != [] && ts[0].kind == TypeGroupStart
    requires var rest := Level(ts[1..], operators).rest; rest != [] && rest[0].kind == TypeGroupEnd
    ensures Level(ts, operators).rest == Level(Level(ts[1..], operators).rest[1..], operators).rest
  {
    LevelAtGroup(ts, operators);
  }

  lemma MatchingPastGroup(ts: seq<Token>, rest: seq<Token>)
    requires ts != [] && ts[0].kind == TypeGroupStart
    requires rest == Matching(ts[1..], 0) && rest != [] && rest[0].kind == TypeGroupEnd
    ensures Matching(ts, 0) == Matching(rest[1..], 0)
  {
    assert Matching(ts, 0) == Matching(ts[1..], 1);
    MatchingShift(ts[1..], 0, 0);
  }

  lemma OpenGroupMatches(ts: seq<Token>, operators: map<string, string>)
    requires ts != [] && ts[0].kind == TypeGroupStart
    requires var rest := Level(ts[1..], operators).rest;
      rest == Matching(ts[1..], 0) && rest != [] && rest[0].kind == TypeEOF
    ensures Level(ts, operators).rest == Matching(ts, 0)
  {
    assert Matching(ts, 0) == Matching(ts[1..], 1);
    LevelAtGroup(ts, operators);
    MatchingEOF(ts[1..], 0, 1);
  }

  /**
    A stream that keeps to the grammar and reaches its end is parsed into the tree it
    describes: the root holds Level's nodes, unless Level stops at a `)` that would close
    the root, where the parser panics.
  */
  lemma {:induction false} ParseTokensTree(ts: seq<Token>, operators: map<string, string>)
    requires Run(ts, Expr) == Some(End)
    ensures var lv := Level(ts, operators);
      lv.rest != []
      && (lv.rest[0].kind == TypeGroupEnd ==> ParseTokens(ts, operators) == Panics)
      && (lv.rest[0].kind != TypeGroupEnd ==> ParseTokens(ts, operators) == Parsed(Group(lv.nodes)))
  {
    var lv := Level(ts, operators);
    LevelRest(ts, Expr, operators);
    LevelParse(ts, Expr, Parser([[]], None), operators);
    assert ParseTokens(ts, operators) == ParseFrom(ts, Parser([[]], None), operators);
    var root: seq<seq<Node>> := [];
    PushAddNodes(root, lv.nodes);
    assert root + [[]] == [[]] && root + [lv.nodes] == [lv.nodes];
    assert ParseTokens(ts, operators) == ParseFrom(lv.rest, Parser([lv.nodes], None), operators);
    RootStop(lv.rest, lv.nodes, operators);
  }

  /** With only the root open, EOF gives the root and `)` panics. */
  lemma RootStop(rest: seq<Token>, ns: seq<Node>, operators: map<string, string>)
    requires rest != [] && (rest[0].kind == TypeEOF || rest[0].kind == TypeGroupEnd)
    ensures rest[0].kind == TypeGroupEnd ==> ParseFrom(rest, Parser([ns], None), operators) == Panics
    ensures rest[0].kind == TypeEOF ==> ParseFrom(rest, Parser([ns], None), operators) == Parsed(Group(ns))
  {
  }
}
