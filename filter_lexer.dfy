/**
  The filter lexer: a state machine over the lexer cursor that turns filter text into
  tokens.

  Two dialects share the states. `Grouped` is the lexer of the current parser: it starts
  by looking for group parentheses and turns a `)` after a value into a group end.
  `Flat` is the lexer of the older flat parser: it starts at the name state and knows no
  group tokens. Everything else (names, operators, bare, quoted and listed values, the
  connectives) is the same code in both.

  Each state is given twice: as a function from a position to what the state emits, where
  the cursor ends up and which state comes next (the specification), and as a method that
  drives the cursor the way the source does, proved to do what the function says. Where
  the source loops forever without reading further, the function says `Spin` and the
  method returns `Loops` instead of looping.
*/
module FilterLexer {
  import opened Options
  import opened GoStrings
  import opened Lex

  /** The characters that end a name. */
  const NameStops: string := "=<>!"
  /** The characters that end a bare value: the reserved characters and the space. */
  const Reserved: string := "\"'();,=!~<>"
  const ReservedVal: string := Reserved + " "

  datatype Dialect = Grouped | Flat

  /** The lexer states: lexComparison, lexName, lexOperator, lexValues and lexLogic. */
  datatype State = Comparison | Name | Operator | Values | Logic

  /** The state lexing starts in, and the one each connective leads back to. */
  function Start(d: Dialect): State {
    if d == Grouped then Comparison else Name
  }

  /** The order in which the states follow each other without reading input. */
  function Rank(st: State): nat {
    match st
    case Comparison => 4
    case Name => 3
    case Operator => 2
    case Values => 1
    case Logic => 0
  }

  /**
    What one state does from some position: go to a state at a new position having
    emitted `out`, stop (the state function returned nil), or spin forever having
    emitted `out` first.
  */
  datatype Move =
    | Goto(state: State, pos: nat, out: seq<Token>)
    | Halt(pos: nat, out: seq<Token>)
    | Spin(out: seq<Token>)

  /** What a state method reports back to the driver. */
  datatype Transition = To(state: State) | Done | Loops

  /** The result of scanning one value: its text and the position after it, or a loop. */
  datatype Scan = Scanned(value: string, end: nat) | Stuck

  /** The value tokens of a parenthesised list, and the position after its `)`, if one is reached. */
  datatype ListScan = ListScan(out: seq<Token>, end: Option<nat>)

  // ---------------------------------------------------------------------------
  // The states as functions
  // ---------------------------------------------------------------------------

  /**
    The closing quote of a quoted value whose text starts at `k`: the scan jumps to the
    next `q`; when the character before it is a backslash the quote is taken as escaped
    and the scan goes on after it. An escaping backslash at the very end of the input
    makes the source loop forever (`None`); running out of input otherwise ends the
    value at the end of the input.
  */
  function QuoteClose(s: string, q: char, k: nat): (e: Option<nat>)
    requires 1 <= k <= |s|
    ensures e.Some? ==> k <= e.value <= |s|
    decreases |s| - k
  {
    var e := RunEnd(s, k, [q]);
    if s[e - 1] == '\\' then (if e == |s| then None else QuoteClose(s, q, e + 1))
    else Some(e)
  }

  /** A quoted value opened by the quote at `p`: the raw text up to the closing quote. */
  function ScanQuoted(s: string, p: nat): (r: Scan)
    requires p < |s|
    ensures r.Scanned? ==> p < r.end <= |s|
  {
    match QuoteClose(s, s[p], p + 1)
    case None => Stuck
    case Some(e) => Scanned(s[p + 1..e], if e < |s| then e + 1 else e)
  }

  /** lexValue: a single- or double-quoted value, or else a bare run up to a reserved character or a space. */
  function ScanValue(s: string, p: nat): (r: Scan)
    requires p <= |s|
    ensures r.Scanned? ==> p <= r.end <= |s|
  {
    if p < |s| && (s[p] == '\'' || s[p] == '"') then ScanQuoted(s, p)
    else
      var e := RunEnd(s, p, ReservedVal);
      Scanned(s[p..e], e)
  }

  /**
    The list loop of lexValues, from just after `(`: a value, then `,` (next value), `)`
    (done) or anything else (the next value starts right there). When a value took no
    input and is followed by neither `,` nor `)`, the source repeats that round forever.
    A list that is closed holds at least one value.
  */
  function ScanList(s: string, p: nat): (r: ListScan)
    requires p <= |s|
    ensures r.end.Some? ==> p < r.end.value <= |s| && |r.out| > 0
    decreases |s| - p
  {
    match ScanValue(s, p)
    case Stuck => ListScan([], None)
    case Scanned(v, e) =>
      if e < |s| && s[e] == ',' then
        var rest := ScanList(s, e + 1);
        ListScan([Token(TypeValue, v)] + rest.out, rest.end)
      else if e < |s| && s[e] == ')' then
        ListScan([Token(TypeValue, v)], Some(e + 1))
      else if e == p then
        ListScan([Token(TypeValue, v)], None)
      else
        var rest := ScanList(s, e);
        ListScan([Token(TypeValue, v)] + rest.out, rest.end)
  }

  /** lexComparison: an opening `(` is a group start; otherwise a name follows. */
  function StepComparison(s: string, p: nat): Move
    requires p <= |s|
  {
    if p < |s| && s[p] == '(' then Goto(Comparison, p + 1, [Token(TypeGroupStart, "(")])
    else Goto(Name, p, [])
  }

  /** lexName: stop at the end of the input, otherwise the run up to the first `=`, `<`, `>` or `!`. */
  function StepName(s: string, p: nat): Move
    requires p <= |s|
  {
    if p == |s| then Halt(p, [])
    else
      var e := RunEnd(s, p, NameStops);
      Goto(Operator, e, [Token(TypeName, s[p..e])])
  }

  /**
    lexOperator: from a `=`, everything through the next `=` (the source loops forever
    when there is none); otherwise at most one of `>`, `<`, `!` and then at most one `=`.
  */
  function StepOperator(s: string, p: nat): Move
    requires p <= |s|
  {
    if p < |s| && s[p] == '=' then
      var e := RunEnd(s, p + 1, "=");
      if e == |s| then Spin([]) else Goto(Values, e + 1, [Token(TypeOperator, s[p..e + 1])])
    else
      var q := if p < |s| && s[p] in "><!" then p + 1 else p;
      var r := if q < |s| && s[q] == '=' then q + 1 else q;
      Goto(Values, r, [Token(TypeOperator, s[p..r])])
  }

  /** lexValues: a parenthesised list of values or a single value, between ValuesStart and ValuesEnd. */
  function StepValues(s: string, p: nat): Move
    requires p <= |s|
  {
    if p < |s| && s[p] == '(' then StepList(s, p + 1) else StepSingle(s, p)
  }

  /** The list branch of lexValues, from just after the `(`. */
  function StepList(s: string, q: nat): Move
    requires q <= |s|
  {
    var ls := ScanList(s, q);
    var out := [Token(TypeValuesStart, "")] + ls.out;
    match ls.end
    case None => Spin(out)
    case Some(e) => Goto(Logic, e, out + [Token(TypeValuesEnd, "")])
  }

  /** The single-value branch of lexValues. */
  function StepSingle(s: string, p: nat): Move
    requires p <= |s|
  {
    match ScanValue(s, p)
    case Stuck => Spin([Token(TypeValuesStart, "")])
    case Scanned(v, e) =>
      Goto(Logic, e, [Token(TypeValuesStart, ""), Token(TypeValue, v), Token(TypeValuesEnd, "")])
  }

  /**
    lexLogic: stop at the end of the input; in the grouped dialect one `)` becomes a group
    end; then comes a connective, or nothing more.
  */
  function StepLogic(d: Dialect, s: string, p: nat): Move
    requires p <= |s|
  {
    if p == |s| then Halt(p, [])
    else if d == Grouped && s[p] == ')' then After([Token(TypeGroupEnd, ")")], StepConnective(d, s, p + 1))
    else StepConnective(d, s, p)
  }

  /** The move `m`, with the tokens `out` emitted before it. */
  function After(out: seq<Token>, m: Move): Move {
    match m
    case Goto(st, p, o) => Goto(st, p, out + o)
    case Halt(p, o) => Halt(p, out + o)
    case Spin(o) => Spin(out + o)
  }

  /**
    The rest of lexLogic from `q`: spaces are skipped; `and` or `;`
    is a conjunction and `,` or `or` a disjunction, each followed by skipped spaces and a
    new comparison; anything else stops the lexer.
  */
  function StepConnective(d: Dialect, s: string, q: nat): (r: Move)
    requires q <= |s|
    ensures r.Goto? ==> q < r.pos <= |s|
  {
    ConnectiveAt(d, s, RunWhile(s, q, " "))
  }

  /** The connective, if any, at `p`, where the spaces end. */
  function ConnectiveAt(d: Dialect, s: string, p: nat): (r: Move)
    requires p <= |s|
    ensures r.Goto? ==> p < r.pos <= |s|
  {
    if OccursAt(s, "and", p) || OccursAt(s, ";", p) then
      var w := if OccursAt(s, "and", p) then "and" else ";";
      Goto(Start(d), RunWhile(s, p + |w|, " "), [Token(TypeAnd, w)])
    else if OccursAt(s, ",", p) || OccursAt(s, "or", p) then
      var w := if OccursAt(s, ",", p) then "," else "or";
      Goto(Start(d), RunWhile(s, p + |w|, " "), [Token(TypeOr, w)])
    else
      Halt(p, [])
  }

  /** One state's step. Every step reads input or moves to a state of lower rank. */
  function Step(d: Dialect, st: State, s: string, p: nat): (r: Move)
    requires p <= |s|
    ensures r.Goto? ==> p <= r.pos <= |s| && (p < r.pos || Rank(r.state) < Rank(st))
  {
    match st
    case Comparison => StepComparison(s, p)
    case Name => StepName(s, p)
    case Operator => StepOperator(s, p)
    case Values => StepValues(s, p)
    case Logic => StepLogic(d, s, p)
  }

  /**
    The tokens the lexer delivers from state `st` at position `p`. They end with an EOF
    token exactly when lexing stops; without one, the lexer loops forever after them.
  */
  function LexFrom(d: Dialect, s: string, st: State, p: nat): seq<Token>
    requires p <= |s|
    decreases |s| - p, Rank(st)
  {
    match Step(d, st, s, p)
    case Goto(next, q, out) => out + LexFrom(d, s, next, q)
    case Halt(_, out) => out + [Token(TypeEOF, "")]
    case Spin(out) => out
  }

  /** The whole token stream of `s`. */
  function Tokens(d: Dialect, s: string): seq<Token> {
    LexFrom(d, s, Start(d), 0)
  }

  /** The stream ends with EOF: the lexer stopped. */
  predicate Halts(ts: seq<Token>) {
    |ts| > 0 && ts[|ts| - 1].kind == TypeEOF
  }

  // ---------------------------------------------------------------------------
  // The states as methods over the cursor
  // ---------------------------------------------------------------------------

  /** The cursor did what `step` says, starting from the tokens `tokens0`. */
  ghost predicate Took(l: Lexer, t: Transition, step: Move, tokens0: seq<Token>)
    reads l
  {
    match step
    case Goto(st, p, out) => t == To(st) && l.pos == p && l.start == p && l.tokens == tokens0 + out
    case Halt(p, out) => t == Done && l.pos == p && l.start == p && l.tokens == tokens0 + out
    case Spin(out) => t == Loops && l.tokens == tokens0 + out
  }

  method LexComparison(l: Lexer) returns (t: Transition)
    requires l.Valid() && l.start == l.pos
    modifies l
    ensures l.Valid() && Took(l, t, StepComparison(l.input, old(l.pos)), old(l.tokens))
  {
    var open := l.Accept("(");
    if open {
      assert l.input[l.start..l.pos] == "(";
      l.Emit(TypeGroupStart);
      return To(Comparison);
    }
    return To(Name);
  }

  method LexName(l: Lexer) returns (t: Transition)
    requires l.Valid() && l.start == l.pos
    modifies l
    ensures l.Valid() && Took(l, t, StepName(l.input, old(l.pos)), old(l.tokens))
  {
    var r := l.Peek();
    if r == EOF {
      return Done;
    }
    l.AcceptButRun(NameStops);
    l.Emit(TypeName);
    return To(Operator);
  }

  method LexOperator(l: Lexer) returns (t: Transition)
    requires l.Valid() && l.start == l.pos
    modifies l
    ensures l.Valid() && Took(l, t, StepOperator(l.input, old(l.pos)), old(l.tokens))
  {
    var padded := l.Accept("=");
    if padded {
      while true
        invariant l.Valid() && l.start == old(l.pos) < l.pos
        invariant RunEnd(l.input, l.pos, "=") == RunEnd(l.input, old(l.pos) + 1, "=")
        invariant l.tokens == old(l.tokens)
        decreases |l.input| - l.pos
      {
        var r := l.Next();
        if r == Ch('=') {
          l.Emit(TypeOperator);
          return To(Values);
        }
        if r == EOF {
          // Next keeps returning EOF without moving: the source loops here forever.
          return Loops;
        }
      }
    }
    var comparator := l.Accept("><!");
    var equals := l.Accept("=");
    l.Emit(TypeOperator);
    return To(Values);
  }

  /**
    lexQuotedValue: when the cursor is at `quote`, lexes the quoted value and reports it
    processed; otherwise changes nothing.
  */
  method LexQuotedValue(l: Lexer, quote: char) returns (processed: bool, loops: bool)
    requires l.Valid() && l.start == l.pos && quote != '\\'
    modifies l
    ensures l.Valid()
    ensures processed == (old(l.pos) < |l.input| && l.input[old(l.pos)] == quote)
    ensures !processed ==> !loops && l.pos == old(l.pos) && l.start == l.pos && l.tokens == old(l.tokens)
    ensures processed ==>
      match ScanQuoted(l.input, old(l.pos))
      case Stuck => loops && l.tokens == old(l.tokens)
      case Scanned(v, e) => !loops && l.pos == e && l.start == e && l.tokens == old(l.tokens) + [Token(TypeValue, v)]
  {
    processed := l.Accept([quote]);
    if !processed {
      return false, false;
    }
    l.Ignore();
    loops := LexQuotedText(l, quote);
  }

  /**
    The loop of lexQuotedValue, from just after the opening quote: the text up to the
    closing quote becomes a value, and the closing quote is skipped.
  */
  method LexQuotedText(l: Lexer, quote: char) returns (loops: bool)
    requires l.Valid() && 1 <= l.start == l.pos && quote != '\\'
    modifies l
    ensures l.Valid()
    ensures match QuoteClose(l.input, quote, old(l.pos))
      case None => loops && l.tokens == old(l.tokens)
      case Some(e) =>
        !loops && l.pos == (if e < |l.input| then e + 1 else e) && l.start == l.pos
        && l.tokens == old(l.tokens) + [Token(TypeValue, l.input[old(l.pos)..e])]
  {
    while true
      invariant l.Valid() && l.start == old(l.pos) <= l.pos
      invariant QuoteClose(l.input, quote, l.pos) == QuoteClose(l.input, quote, l.start)
      invariant l.tokens == old(l.tokens)
      decreases |l.input| - l.pos
    {
      ghost var k := l.pos;
      l.AcceptButRun([quote]);
      ghost var e := l.pos;
      l.Dec(1);
      var escaped := l.Accept("\\");
      if escaped {
        var atEnd := l.pos == |l.input|;
        var r := l.Next();
        if atEnd {
          // The quote is escaped by a backslash at the end of the input: every further
          // round does the same, and the source loops here forever.
          assert QuoteClose(l.input, quote, k) == None;
          return true;
        }
        assert QuoteClose(l.input, quote, k) == QuoteClose(l.input, quote, l.pos);
      } else {
        var r := l.Next();
        assert QuoteClose(l.input, quote, k) == Some(e);
        l.Emit(TypeValue);
        var closed := l.Accept([quote]);
        l.Ignore();
        return false;
      }
    }
  }

  /** lexValue: a quoted value, or else a bare one. */
  method LexValue(l: Lexer) returns (loops: bool)
    requires l.Valid() && l.start == l.pos
    modifies l
    ensures l.Valid()
    ensures match ScanValue(l.input, old(l.pos))
      case Stuck => loops && l.tokens == old(l.tokens)
      case Scanned(v, e) => !loops && l.pos == e && l.start == e && l.tokens == old(l.tokens) + [Token(TypeValue, v)]
  {
    var processed;
    processed, loops := LexQuotedValue(l, '\'');
    if processed {
      return;
    }
    processed, loops := LexQuotedValue(l, '"');
    if processed {
      return;
    }
    l.AcceptButRun(ReservedVal);
    l.Emit(TypeValue);
    return false;
  }

  /**
    The list loop of lexValues, from just after the `(`: emits the listed values and, when
    the list is closed, leaves the cursor just after its `)`.
  */
  method LexValueList(l: Lexer) returns (loops: bool)
    requires l.Valid() && l.start == l.pos
    modifies l
    ensures l.Valid()
    ensures l.tokens == old(l.tokens) + ScanList(l.input, old(l.pos)).out
    ensures match ScanList(l.input, old(l.pos)).end
      case None => loops
      case Some(e) => !loops && l.pos == e && l.start <= l.pos
  {
    ghost var p0 := l.pos;
    ghost var done: seq<Token> := [];
    while true
      invariant l.Valid() && l.start == l.pos && p0 <= l.pos
      invariant ScanList(l.input, p0).out == done + ScanList(l.input, l.pos).out
      invariant ScanList(l.input, p0).end == ScanList(l.input, l.pos).end
      invariant l.tokens == old(l.tokens) + done
      decreases |l.input| - l.pos
    {
      ghost var rest := ScanList(l.input, l.pos);
      var round, v := LexListRound(l);
      if round.Continue? {
        Associative(done, [Token(TypeValue, v)], ScanList(l.input, l.pos).out);
        Associative(old(l.tokens), done, [Token(TypeValue, v)]);
        done := done + [Token(TypeValue, v)];
      } else {
        Associative(old(l.tokens), done, rest.out);
        return round == Loop;
      }
    }
  }

  lemma Associative<T>(a: seq<T>, b: seq<T>, c: seq<T>)
    ensures (a + b) + c == a + (b + c)
  {
  }

  /** How a round of the list loop ends. */
  datatype Round = Continue | Closed | Loop

  /**
    One round of the list loop of lexValues: a value, then a `,` or a `)`. A round that
    neither continues nor closes the list loops forever.
  */
  method LexListRound(l: Lexer) returns (round: Round, ghost v: string)
    requires l.Valid() && l.start == l.pos
    modifies l
    ensures l.Valid()
    ensures var rest := ScanList(l.input, old(l.pos));
      match round
      case Continue =>
        old(l.pos) < l.pos && l.start == l.pos && l.tokens == old(l.tokens) + [Token(TypeValue, v)]
        && rest.out == [Token(TypeValue, v)] + ScanList(l.input, l.pos).out
        && rest.end == ScanList(l.input, l.pos).end
      case Closed =>
        l.tokens == old(l.tokens) + rest.out && rest.end == Some(l.pos) && l.start <= l.pos
      case Loop =>
        l.tokens == old(l.tokens) + rest.out && rest.end == None
  {
    var before := l.pos;
    ghost var sv := ScanValue(l.input, before);
    var loops := LexValue(l);
    if loops {
      return Loop, "";
    }
    v := sv.value;
    var comma := l.Accept(",");
    if comma {
      l.Ignore();
      return Continue, v;
    }
    var close := l.Accept(")");
    if close {
      return Closed, v;
    }
    if l.pos == before {
      // Nothing was read and no separator follows: the source repeats this round forever.
      return Loop, v;
    }
    return Continue, v;
  }

  method LexValues(l: Lexer) returns (t: Transition)
    requires l.Valid() && l.start == l.pos
    modifies l
    ensures l.Valid() && Took(l, t, StepValues(l.input, old(l.pos)), old(l.tokens))
  {
    var open := l.Accept("(");
    if open {
      l.Ignore();
      t := LexListValues(l);
    } else {
      t := LexSingleValue(l);
    }
  }

  /** The list branch of lexValues, after the `(`. */
  method LexListValues(l: Lexer) returns (t: Transition)
    requires l.Valid() && l.start == l.pos
    modifies l
    ensures l.Valid() && Took(l, t, StepList(l.input, old(l.pos)), old(l.tokens))
  {
    ghost var ls := ScanList(l.input, l.pos);
    assert l.input[l.start..l.pos] == "";
    l.Emit(TypeValuesStart);
    var loops := LexValueList(l);
    Associative(old(l.tokens), [Token(TypeValuesStart, "")], ls.out);
    if loops {
      return Loops;
    }
    l.Ignore();
    assert l.input[l.start..l.pos] == "";
    l.Emit(TypeValuesEnd);
    Associative(old(l.tokens), [Token(TypeValuesStart, "")] + ls.out, [Token(TypeValuesEnd, "")]);
    return To(Logic);
  }

  /** The single-value branch of lexValues. */
  method LexSingleValue(l: Lexer) returns (t: Transition)
    requires l.Valid() && l.start == l.pos
    modifies l
    ensures l.Valid() && Took(l, t, StepSingle(l.input, old(l.pos)), old(l.tokens))
  {
    assert l.input[l.start..l.pos] == "";
    l.Emit(TypeValuesStart);
    var loops := LexValue(l);
    if loops {
      return Loops;
    }
    assert l.input[l.start..l.pos] == "";
    l.Emit(TypeValuesEnd);
    return To(Logic);
  }

  /** eatSpaces: skips a run of spaces. */
  method EatSpaces(l: Lexer)
    requires l.Valid()
    modifies l
    ensures l.Valid() && l.pos == RunWhile(l.input, old(l.pos), " ") && l.start == l.pos
    ensures l.tokens == old(l.tokens)
  {
    l.AcceptRun(" ");
    l.Ignore();
  }

  method LexLogic(d: Dialect, l: Lexer) returns (t: Transition)
    requires l.Valid() && l.start == l.pos
    modifies l
    ensures l.Valid() && Took(l, t, StepLogic(d, l.input, old(l.pos)), old(l.tokens))
  {
    var r := l.Peek();
    if r == EOF {
      return Done;
    }
    if d == Grouped {
      var close := l.Accept(")");
      if close {
        assert l.input[l.start..l.pos] == ")";
        l.Emit(TypeGroupEnd);
        t := LexConnective(d, l);
        TookAfter(l, t, StepConnective(d, l.input, old(l.pos) + 1), old(l.tokens), [Token(TypeGroupEnd, ")")]);
        return;
      }
    }
    t := LexConnective(d, l);
  }

  /** A move taken after emitting `out` is the move `After(out, m)` taken before. */
  lemma TookAfter(l: Lexer, t: Transition, m: Move, tokens0: seq<Token>, out: seq<Token>)
    requires Took(l, t, m, tokens0 + out)
    ensures Took(l, t, After(out, m), tokens0)
  {
    match m
    case Goto(_, _, o) => Associative(tokens0, out, o);
    case Halt(_, o) => Associative(tokens0, out, o);
    case Spin(o) => Associative(tokens0, out, o);
  }

  /** The connective part of lexLogic. */
  method LexConnective(d: Dialect, l: Lexer) returns (t: Transition)
    requires l.Valid() && l.start == l.pos
    modifies l
    ensures l.Valid() && Took(l, t, StepConnective(d, l.input, old(l.pos)), old(l.tokens))
  {
    EatSpaces(l);
    t := LexConnectiveWord(d, l);
  }

  /** The connective part of lexLogic after the spaces. */
  method LexConnectiveWord(d: Dialect, l: Lexer) returns (t: Transition)
    requires l.Valid() && l.start == l.pos
    modifies l
    ensures l.Valid() && Took(l, t, ConnectiveAt(d, l.input, old(l.pos)), old(l.tokens))
  {
    var ok := ConsumeEither(l, "and", ";");
    if ok {
      l.Emit(TypeAnd);
      EatSpaces(l);
      return To(Start(d));
    }
    ok := ConsumeEither(l, ",", "or");
    if ok {
      l.Emit(TypeOr);
      EatSpaces(l);
      return To(Start(d));
    }
    return Done;
  }

  /** `l.Consume(a) || l.Consume(b)`: moves past `a`, or else past `b`, when the input continues with it. */
  method ConsumeEither(l: Lexer, a: string, b: string) returns (ok: bool)
    requires l.Valid()
    modifies l`pos
    ensures l.Valid()
    ensures ok == (OccursAt(l.input, a, old(l.pos)) || OccursAt(l.input, b, old(l.pos)))
    ensures var w := if OccursAt(l.input, a, old(l.pos)) then a else b;
      l.pos == (if ok then old(l.pos) + |w| else old(l.pos)) && (ok ==> l.input[old(l.pos)..l.pos] == w)
  {
    ok := l.Consume(a);
    if !ok {
      ok := l.Consume(b);
    }
  }

  /** Runs the function of state `st`. */
  method RunState(d: Dialect, st: State, l: Lexer) returns (t: Transition)
    requires l.Valid() && l.start == l.pos
    modifies l
    ensures l.Valid() && Took(l, t, Step(d, st, l.input, old(l.pos)), old(l.tokens))
  {
    match st {
      case Comparison => t := LexComparison(l);
      case Name => t := LexName(l);
      case Operator => t := LexOperator(l);
      case Values => t := LexValues(l);
      case Logic => t := LexLogic(d, l);
    }
  }

  /**
    Runs the state machine over `input` from the dialect's start state and returns the
    tokens it delivers; when a state returns nil the stream is closed with EOF.
  */
  method LexAll(d: Dialect, input: string) returns (tokens: seq<Token>)
    ensures tokens == Tokens(d, input)
  {
    var l := new Lexer(input);
    var st := Start(d);
    while true
      invariant l.Valid() && l.start == l.pos && l.input == input
      invariant l.tokens + LexFrom(d, input, st, l.pos) == Tokens(d, input)
      decreases |input| - l.pos, Rank(st)
    {
      ghost var p, tokens0 := l.pos, l.tokens;
      var t := RunState(d, st, l);
      ghost var m := Step(d, st, input, p);
      match t {
        case To(next) =>
          Associative(tokens0, m.out, LexFrom(d, input, next, l.pos));
          st := next;
        case Done =>
          assert l.input[l.start..l.pos] == "";
          l.Emit(TypeEOF);
          Associative(tokens0, m.out, [Token(TypeEOF, "")]);
          return l.tokens;
        case Loops =>
          return l.tokens;
      }
    }
  }
}
