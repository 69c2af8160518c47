/**
  What the filter lexer's token streams look like: the grammar every stream follows, the
  tokens each state emits, how the two dialects differ, and where the lexer loops.
*/
module FilterLexerFacts {
  import opened Options
  import opened GoStrings
  import opened Lex
  import opened FilterLexer

  // ---------------------------------------------------------------------------
  // The grammar of token streams
  // ---------------------------------------------------------------------------

  /**
    Where a token stream stands in the grammar
      stream     = { GroupStart } ( EOF | comparison joint )
      comparison = Name Operator ValuesStart Value { Value } ValuesEnd
      joint      = [ GroupEnd ] ( EOF | ( And | Or ) stream )
  */
  datatype Phase = Expr | Op | ValStart | FirstVal | MoreVals | Joint | Shut | End

  function Advance(ph: Phase, k: TokenKind): Option<Phase> {
    match ph
    case Expr =>
      if k == TypeGroupStart then Some(Expr)
      else if k == TypeName then Some(Op)
      else if k == TypeEOF then Some(End)
      else None
    case Op => if k == TypeOperator then Some(ValStart) else None
    case ValStart => if k == TypeValuesStart then Some(FirstVal) else None
    case FirstVal => if k == TypeValue then Some(MoreVals) else None
    case MoreVals =>
      if k == TypeValue then Some(MoreVals)
      else if k == TypeValuesEnd then Some(Joint)
      else None
    case Joint =>
      if k == TypeGroupEnd then Some(Shut)
      else if k == TypeAnd || k == TypeOr then Some(Expr)
      else if k == TypeEOF then Some(End)
      else None
    case Shut =>
      if k == TypeAnd || k == TypeOr then Some(Expr)
      else if k == TypeEOF then Some(End)
      else None
    case End => None
  }

  /** The phase after reading `ts` from `ph`, or None when `ts` breaks the grammar. */
  function Run(ts: seq<Token>, ph: Phase): Option<Phase>
    decreases |ts|
  {
    if ts == [] then Some(ph)
    else
      match Advance(ph, ts[0].kind)
      case None => None
      case Some(next) => Run(ts[1..], next)
  }

  /** The phase each lexer state starts in. */
  function PhaseOf(st: State): Phase {
    match st
    case Comparison => Expr
    case Name => Expr
    case Operator => Op
    case Values => ValStart
    case Logic => Joint
  }

  lemma {:induction false} RunAppend(a: seq<Token>, b: seq<Token>, ph: Phase)
    ensures Run(a + b, ph) == match Run(a, ph) case None => None case Some(q) => Run(b, q)
    decreases |a|
  {
    if a == [] {
      assert a + b == b;
    } else {
      assert (a + b)[0] == a[0];
      assert (a + b)[1..] == a[1..] + b;
      match Advance(ph, a[0].kind)
      case None =>
      case Some(next) => RunAppend(a[1..], b, next);
    }
  }

  /** The token list holds value tokens only. */
  predicate AllValues(ts: seq<Token>) {
    forall i :: 0 <= i < |ts| ==> ts[i].kind == TypeValue
  }

  lemma {:induction false} RunValues(ts: seq<Token>, ph: Phase)
    requires AllValues(ts) && (ph == FirstVal || ph == MoreVals)
    ensures Run(ts, ph) == if ts == [] then Some(ph) else Some(MoreVals)
    decreases |ts|
  {
    if ts != [] {
      RunValues(ts[1..], MoreVals);
    }
  }

  lemma AllValuesCons(v: string, ts: seq<Token>)
    requires AllValues(ts)
    ensures AllValues([Token(TypeValue, v)] + ts)
  {
  }

  /** Where the list scan from `p` goes on after its first value, if it does. */
  function ListRest(s: string, p: nat): (q: Option<nat>)
    requires p <= |s|
    ensures q.Some? ==> p < q.value <= |s|
  {
    match ScanValue(s, p)
    case Stuck => None
    case Scanned(_, e) =>
      if e < |s| && s[e] == ',' then Some(e + 1)
      else if (e < |s| && s[e] == ')') || e == p then None
      else Some(e)
  }

  /** The list scan is empty, or a value token followed by the scan from `ListRest`. */
  lemma ScanListCons(s: string, p: nat)
    requires p <= |s|
    ensures var out := ScanList(s, p).out;
      out == [] || (out[0].kind == TypeValue
        && out[1..] == if ListRest(s, p).Some? then ScanList(s, ListRest(s, p).value).out else [])
  {
  }

  /** The list scan emits value tokens only. */
  lemma {:induction false} ScanListValues(s: string, p: nat)
    requires p <= |s|
    ensures AllValues(ScanList(s, p).out)
    decreases |s| - p
  {
    ScanListCons(s, p);
    var out := ScanList(s, p).out;
    if out != [] {
      if ListRest(s, p).Some? {
        ScanListValues(s, ListRest(s, p).value);
      }
      forall i | 0 <= i < |out| ensures out[i].kind == TypeValue {
        if i > 0 {
          assert out[i] == out[1..][i - 1];
        }
      }
    }
  }

  /** A bare value: some text without reserved characters or spaces. */
  predicate Bare(v: string) {
    v != [] && forall k :: 0 <= k < |v| ==> v[k] !in ReservedVal
  }

  /** Where `a + b` occurs, `a` occurs, and `b` right after it. */
  lemma OccursSplit(s: string, a: string, b: string, p: nat)
    requires OccursAt(s, a + b, p)
    ensures OccursAt(s, a, p) && OccursAt(s, b, p + |a|)
  {
    assert s[p..p + |a|] == s[p..p + |a + b|][..|a|];
    assert s[p + |a|..p + |a| + |b|] == s[p..p + |a + b|][|a|..];
  }

  /** A bare value where the input has it, followed by a reserved character, is what ScanValue reads. */
  lemma BareScan(s: string, p: nat, v: string)
    requires Bare(v) && OccursAt(s, v, p) && p + |v| < |s| && (s[p + |v|] == ',' || s[p + |v|] == ')')
    ensures ScanValue(s, p) == Scanned(v, p + |v|)
  {
    var e := p + |v|;
    assert s[e] in ReservedVal;
    forall k | p <= k < e
      ensures s[k] !in ReservedVal
    {
      assert s[k] == s[p..e][k - p] == v[k - p];
    }
    RunEndAt(s, p, ReservedVal, e);
    assert s[p] == v[0];
  }

  /** A list of bare values at `p`: the values separated by `,`, then `)`. */
  predicate ListAt(s: string, p: nat, parts: seq<string>)
    decreases |parts|
  {
    |parts| >= 1 && Bare(parts[0]) && OccursAt(s, parts[0], p) && p + |parts[0]| < |s|
    && if |parts| == 1 then s[p + |parts[0]|] == ')'
       else s[p + |parts[0]|] == ',' && ListAt(s, p + |parts[0]| + 1, parts[1..])
  }

  /** One value token per text, in order. */
  function ValueTokens(vs: seq<string>): seq<Token>
    decreases |vs|
  {
    if vs == [] then [] else [Token(TypeValue, vs[0])] + ValueTokens(vs[1..])
  }

  lemma {:induction false} ValueTokensAt(vs: seq<string>)
    ensures |ValueTokens(vs)| == |vs|
    ensures forall i :: 0 <= i < |vs| ==> ValueTokens(vs)[i] == Token(TypeValue, vs[i])
    decreases |vs|
  {
    if vs != [] {
      ValueTokensAt(vs[1..]);
      forall i | 0 <= i < |vs| ensures ValueTokens(vs)[i] == Token(TypeValue, vs[i]) {
        if i > 0 {
          assert ValueTokens(vs)[i] == ValueTokens(vs[1..])[i - 1];
          assert vs[i] == vs[1..][i - 1];
        }
      }
    }
  }

  /** The joined text of bare values, followed by `)`, is a list of them. */
  lemma {:induction false} JoinedListAt(s: string, p: nat, parts: seq<string>)
    requires |parts| >= 1 && forall i :: 0 <= i < |parts| ==> Bare(parts[i])
    requires OccursAt(s, Join(parts, ",") + ")", p)
    ensures ListAt(s, p, parts)
    decreases |parts|
  {
    var v := parts[0];
    var e := p + |v|;
    assert Bare(v);
    if |parts| == 1 {
      OccursSplit(s, v, ")", p);
      assert s[e] == s[e..e + 1][0];
    } else {
      var rest := parts[1..];
      var tail := Join(rest, ",") + ")";
      assert Join(parts, ",") + ")" == v + ("," + tail);
      OccursSplit(s, v, "," + tail, p);
      OccursSplit(s, ",", tail, e);
      assert s[e] == s[e..e + 1][0];
      forall i | 0 <= i < |rest| ensures Bare(rest[i]) {
        assert rest[i] == parts[i + 1];
      }
      JoinedListAt(s, e + 1, rest);
    }
  }

  /** After a value that a `,` or a `)` follows, the list scan goes on after the comma or ends after the parenthesis. */
  lemma ScanListAfter(s: string, p: nat, v: string, e: nat)
    requires p <= |s| && ScanValue(s, p) == Scanned(v, e) && e < |s|
    ensures s[e] == ',' ==> ScanList(s, p) == ListScan([Token(TypeValue, v)] + ScanList(s, e + 1).out, ScanList(s, e + 1).end)
    ensures s[e] == ')' ==> ScanList(s, p) == ListScan([Token(TypeValue, v)], Some(e + 1))
  {
  }

  /** Values that ScanValue reads one after the other from `p`, each followed by `,` and the last by `)`. */
  predicate ScansAsList(s: string, p: nat, parts: seq<string>)
    decreases |parts|
  {
    p <= |s| && |parts| >= 1 && ScanValue(s, p) == Scanned(parts[0], p + |parts[0]|) && p + |parts[0]| < |s|
    && if |parts| == 1 then s[p + |parts[0]|] == ')'
       else s[p + |parts[0]|] == ',' && ScansAsList(s, p + |parts[0]| + 1, parts[1..])
  }

  lemma {:induction false} ListAtScans(s: string, p: nat, parts: seq<string>)
    requires ListAt(s, p, parts)
    ensures ScansAsList(s, p, parts)
    decreases |parts|
  {
    BareScan(s, p, parts[0]);
    if |parts| > 1 {
      ListAtScans(s, p + |parts[0]| + 1, parts[1..]);
    }
  }

  lemma ListOne(s: string, p: nat, parts: seq<string>)
    requires ScansAsList(s, p, parts) && |parts| == 1
    ensures ScanList(s, p).out == ValueTokens(parts)
    ensures ScanList(s, p).end == Some(p + |Join(parts, ",")| + 1)
  {
    ScanListAfter(s, p, parts[0], p + |parts[0]|);
  }

  lemma ListCons(s: string, p: nat, parts: seq<string>)
    requires ScansAsList(s, p, parts) && |parts| >= 2
    requires ScanList(s, p + |parts[0]| + 1).out == ValueTokens(parts[1..])
    requires ScanList(s, p + |parts[0]| + 1).end == Some(p + |parts[0]| + 1 + |Join(parts[1..], ",")| + 1)
    ensures ScanList(s, p).out == ValueTokens(parts)
    ensures ScanList(s, p).end == Some(p + |Join(parts, ",")| + 1)
  {
    ScanListAfter(s, p, parts[0], p + |parts[0]|);
  }

  /** The list scan of such values reads them all and ends after the `)`. */
  lemma {:induction false} ListAtScan(s: string, p: nat, parts: seq<string>)
    requires ScansAsList(s, p, parts)
    ensures ScanList(s, p).out == ValueTokens(parts)
    ensures ScanList(s, p).end == Some(p + |Join(parts, ",")| + 1)
    decreases |parts|
  {
    if |parts| == 1 {
      ListOne(s, p, parts);
    } else {
      ListAtScan(s, p + |parts[0]| + 1, parts[1..]);
      ListCons(s, p, parts);
    }
  }

  /**
    A parenthesised list of bare values, read from just after its `(`: one value token per
    comma-separated element, in order, and the scan ends just after the `)`.
  */
  lemma BareListValues(s: string, p: nat, parts: seq<string>)
    requires |parts| >= 1 && forall i :: 0 <= i < |parts| ==> Bare(parts[i])
    requires OccursAt(s, Join(parts, ",") + ")", p)
    ensures var ls := ScanList(s, p);
      ls.end == Some(p + |Join(parts, ",")| + 1) && |ls.out| == |parts|
      && forall i :: 0 <= i < |parts| ==> ls.out[i] == Token(TypeValue, parts[i])
  {
    JoinedListAt(s, p, parts);
    ListAtScans(s, p, parts);
    ListAtScan(s, p, parts);
    ValueTokensAt(parts);
  }

  /** The move keeps to the grammar from `ph`: to the next state's phase, to the end once EOF follows, or somewhere. */
  predicate Shaped(m: Move, ph: Phase) {
    match m
    case Goto(next, _, out) => Run(out, ph) == Some(PhaseOf(next))
    case Halt(_, out) => Run(out + [Token(TypeEOF, "")], ph) == Some(End)
    case Spin(out) => Run(out, ph).Some?
  }

  /** Every step of every state keeps to the grammar. */
  lemma StepShape(d: Dialect, st: State, s: string, p: nat)
    requires p <= |s|
    ensures Shaped(Step(d, st, s, p), PhaseOf(st))
  {
    match st
    case Comparison => ComparisonShape(s, p);
    case Name => NameShape(s, p);
    case Operator => OperatorShape(s, p);
    case Values => ValuesShape(s, p);
    case Logic => LogicStepShape(d, s, p);
  }

  lemma ComparisonShape(s: string, p: nat)
    requires p <= |s|
    ensures Shaped(StepComparison(s, p), Expr)
  {
  }

  lemma NameShape(s: string, p: nat)
    requires p <= |s|
    ensures Shaped(StepName(s, p), Expr)
  {
  }

  lemma OperatorShape(s: string, p: nat)
    requires p <= |s|
    ensures Shaped(StepOperator(s, p), Op)
  {
  }

  lemma ValuesShape(s: string, p: nat)
    requires p <= |s|
    ensures Shaped(StepValues(s, p), ValStart)
  {
    if p < |s| && s[p] == '(' {
      ListShape(s, p + 1);
    } else {
      SingleShape(s, p);
    }
  }

  lemma LogicStepShape(d: Dialect, s: string, p: nat)
    requires p <= |s|
    ensures Shaped(StepLogic(d, s, p), Joint)
  {
    if p < |s| && d == Grouped && s[p] == ')' {
      LogicShape(d, s, p);
    }
  }

  lemma ListShape(s: string, q: nat)
    requires q <= |s|
    ensures match StepList(s, q)
      case Goto(next, _, out) => next == Logic && Run(out, ValStart) == Some(Joint)
      case Halt(_, _) => false
      case Spin(out) => Run(out, ValStart).Some?
  {
    var ls := ScanList(s, q);
    ScanListValues(s, q);
    RunValues(ls.out, FirstVal);
    var vs := [Token(TypeValuesStart, "")];
    assert Run(vs, ValStart) == Some(FirstVal);
    RunAppend(vs, ls.out, ValStart);
    if ls.end.Some? {
      assert Run(vs + ls.out, ValStart) == Some(MoreVals);
      RunAppend(vs + ls.out, [Token(TypeValuesEnd, "")], ValStart);
      assert Run([Token(TypeValuesEnd, "")], MoreVals) == Some(Joint);
    }
  }

  lemma SingleShape(s: string, p: nat)
    requires p <= |s|
    ensures match StepSingle(s, p)
      case Goto(next, _, out) => next == Logic && Run(out, ValStart) == Some(Joint)
      case Halt(_, _) => false
      case Spin(out) => Run(out, ValStart).Some?
  {
    match ScanValue(s, p)
    case Stuck =>
    case Scanned(v, _) =>
      var ts := [Token(TypeValuesStart, ""), Token(TypeValue, v), Token(TypeValuesEnd, "")];
      assert ts[1..][1..][1..] == [];
      assert Run(ts[1..][1..], MoreVals) == Some(Joint);
  }

  lemma LogicShape(d: Dialect, s: string, p: nat)
    requires p < |s| && d == Grouped && s[p] == ')'
    ensures match StepLogic(d, s, p)
      case Goto(next, _, out) => Run(out, Joint) == Some(PhaseOf(next))
      case Halt(_, out) => Run(out + [Token(TypeEOF, "")], Joint) == Some(End)
      case Spin(_) => false
  {
    var ge := [Token(TypeGroupEnd, ")")];
    assert Run(ge, Joint) == Some(Shut);
    match StepConnective(d, s, p + 1)
    case Goto(next, _, out) =>
      RunAppend(ge, out, Joint);
    case Halt(_, out) =>
      assert out == [];
      RunAppend(ge, [Token(TypeEOF, "")], Joint);
      assert ge + out + [Token(TypeEOF, "")] == ge + [Token(TypeEOF, "")];
    case Spin(_) =>
  }

  /**
    Every stream the lexer delivers keeps to the grammar, and it reaches the end of the
    grammar exactly when lexing stops.
  */
  lemma {:induction false} LexFromShape(d: Dialect, s: string, st: State, p: nat)
    requires p <= |s|
    ensures Run(LexFrom(d, s, st, p), PhaseOf(st)).Some?
    ensures Halts(LexFrom(d, s, st, p)) <==> Run(LexFrom(d, s, st, p), PhaseOf(st)) == Some(End)
    decreases |s| - p, Rank(st)
  {
    StepShape(d, st, s, p);
    match Step(d, st, s, p)
    case Goto(next, q, out) =>
      LexFromShape(d, s, next, q);
      RunAppend(out, LexFrom(d, s, next, q), PhaseOf(st));
      EndIffHalts(LexFrom(d, s, st, p), PhaseOf(st));
    case Halt(_, out) =>
      EndIffHalts(LexFrom(d, s, st, p), PhaseOf(st));
    case Spin(out) =>
      EndIffHalts(LexFrom(d, s, st, p), PhaseOf(st));
  }

  /** Within the grammar, the end is reached exactly by a stream that ends with EOF. */
  lemma {:induction false} EndIffHalts(ts: seq<Token>, ph: Phase)
    requires ph != End && Run(ts, ph).Some?
    ensures Run(ts, ph) == Some(End) <==> Halts(ts)
    decreases |ts|
  {
    if ts != [] {
      var next := Advance(ph, ts[0].kind).value;
      if ts[1..] != [] {
        assert next != End;
        EndIffHalts(ts[1..], next);
        assert ts[|ts| - 1] == ts[1..][|ts[1..]| - 1];
      }
    }
  }

  /**
    The token stream of any filter text follows the grammar above: comparisons of the
    shape Name, Operator, ValuesStart, one or more Values, ValuesEnd, joined by And or Or,
    with group tokens around them; it ends with EOF exactly when lexing stops, and then
    nothing follows the EOF.
  */
  lemma TokensShape(d: Dialect, s: string)
    ensures Run(Tokens(d, s), Expr).Some?
    ensures Halts(Tokens(d, s)) <==> Run(Tokens(d, s), Expr) == Some(End)
  {
    LexFromShape(d, s, Start(d), 0);
  }

  // ---------------------------------------------------------------------------
  // The tokens of each state
  // ---------------------------------------------------------------------------

  /**
    At the end of the input lexName emits nothing and stops; otherwise its token is the
    longest run of characters containing no `=`, `<`, `>` or `!`.
  */
  lemma NameToken(s: string, p: nat)
    requires p <= |s|
    ensures p == |s| <==> StepName(s, p).Halt?
    ensures p < |s| ==> exists e :: (p <= e <= |s| && StepName(s, p) == Goto(Operator, e, [Token(TypeName, s[p..e])])
      && (forall k :: p <= k < e ==> s[k] !in NameStops) && (e == |s| || s[e] in NameStops))
  {
    if p < |s| {
      RunEndFirst(s, p, NameStops);
    }
  }

  /**
    An operator starting with `=` runs through the next `=`, and lexing loops forever when
    there is none; any other operator is at most one of `>`, `<`, `!` followed by at most one `=`.
  */
  lemma OperatorToken(s: string, p: nat)
    requires p <= |s|
    ensures p < |s| && s[p] == '=' ==>
      ((forall k :: p < k < |s| ==> s[k] != '=') <==> StepOperator(s, p) == Spin([]))
    ensures p < |s| && s[p] == '=' && !StepOperator(s, p).Spin? ==>
      exists e :: (p < e < |s| && s[e] == '=' && (forall k :: p < k < e ==> s[k] != '=')
        && StepOperator(s, p) == Goto(Values, e + 1, [Token(TypeOperator, s[p..e + 1])]))
    ensures !(p < |s| && s[p] == '=') ==> exists op :: (StepOperator(s, p) == Goto(Values, p + |op|, [Token(TypeOperator, op)])
      && |op| <= 2 && p + |op| <= |s| && s[p..p + |op|] == op
      && (|op| == 2 ==> op[0] in "><!" && op[1] == '=')
      && (|op| == 1 ==> op[0] in "><!="))
  {
    if p < |s| && s[p] == '=' {
      EqualsOperator(s, p);
    } else {
      OtherOperator(s, p);
    }
  }

  lemma EqualsOperator(s: string, p: nat)
    requires p < |s| && s[p] == '='
    ensures (forall k :: p < k < |s| ==> s[k] != '=') <==> StepOperator(s, p) == Spin([])
    ensures !StepOperator(s, p).Spin? ==>
      exists e :: (p < e < |s| && s[e] == '=' && (forall k :: p < k < e ==> s[k] != '=')
        && StepOperator(s, p) == Goto(Values, e + 1, [Token(TypeOperator, s[p..e + 1])]))
  {
    var e := RunEnd(s, p + 1, "=");
    RunEndFirst(s, p + 1, "=");
    if e < |s| {
      assert s[e] == '=';
    }
  }

  lemma OtherOperator(s: string, p: nat)
    requires p <= |s| && !(p < |s| && s[p] == '=')
    ensures exists op :: (StepOperator(s, p) == Goto(Values, p + |op|, [Token(TypeOperator, op)])
      && |op| <= 2 && p + |op| <= |s| && s[p..p + |op|] == op
      && (|op| == 2 ==> op[0] in "><!" && op[1] == '=')
      && (|op| == 1 ==> op[0] in "><!="))
  {
    var q := if p < |s| && s[p] in "><!" then p + 1 else p;
    var r := if q < |s| && s[q] == '=' then q + 1 else q;
    var op := s[p..r];
    assert StepOperator(s, p) == Goto(Values, r, [Token(TypeOperator, op)]);
    assert |op| == r - p;
    if r == p + 2 {
      assert op[0] == s[p] && op[1] == s[p + 1];
    } else if r == p + 1 {
      assert op[0] == s[p];
    }
  }

  /**
    The closing quote of a quoted value: the first quote at or after `k` that does not
    follow a backslash. When there is none, the value runs to the end of the input, unless
    the input ends with a backslash, in which case lexing loops forever.
  */
  lemma {:induction false} QuoteCloseIsFirstUnescaped(s: string, q: char, k: nat)
    requires 1 <= k <= |s| && s[k - 1] != '\\' && q != '\\'
    ensures match QuoteClose(s, q, k)
      case Some(e) =>
        (e == |s| || s[e] == q) && s[e - 1] != '\\'
        && forall j :: k <= j < e && s[j] == q ==> s[j - 1] == '\\'
      case None =>
        s[|s| - 1] == '\\' && forall j :: k <= j < |s| && s[j] == q ==> s[j - 1] == '\\'
    decreases |s| - k
  {
    var e := RunEnd(s, k, [q]);
    RunEndFirst(s, k, [q]);
    if s[e - 1] == '\\' && e < |s| {
      assert s[e] == q;
      QuoteCloseIsFirstUnescaped(s, q, e + 1);
    }
  }

  /**
    The quote opened at `p` closes at `e`: `e` is the end of the input or a quote like the
    opening one, it does not follow a backslash, and every such quote before it does.
  */
  predicate ClosesAt(s: string, p: nat, e: nat) {
    p < e <= |s| && (e == |s| || s[e] == s[p]) && s[e - 1] != '\\'
    && forall j :: p < j < e && s[j] == s[p] ==> s[j - 1] == '\\'
  }

  /**
    A quoted value is the raw text between the opening quote and the first quote after it
    that does not follow a backslash: escaping backslashes are kept, and without such a
    quote the value runs to the end of the input, unless the input ends with a backslash,
    in which case lexing loops forever. The value ends after its closing quote.
  */
  lemma QuotedValueText(s: string, p: nat)
    requires p < |s| && (s[p] == '\'' || s[p] == '"')
    ensures var r := ScanValue(s, p);
      r.Scanned? ==>
        exists e: nat :: ClosesAt(s, p, e) && r.value == s[p + 1..e] && (e < |s| ==> r.end == e + 1) && (e == |s| ==> r.end == e)
    ensures ScanValue(s, p).Stuck? <==>
      s[|s| - 1] == '\\' && forall j :: p < j < |s| && s[j] == s[p] ==> s[j - 1] == '\\'
  {
    QuoteCloseIsFirstUnescaped(s, s[p], p + 1);
    match QuoteClose(s, s[p], p + 1)
    case None =>
    case Some(e) =>
      assert ClosesAt(s, p, e);
      if e < |s| {
        assert s[e] == s[p] && s[e - 1] != '\\';
      }
  }

  /**
    A bare value is the longest run of characters that are neither reserved nor a space;
    it may be empty.
  */
  lemma BareValueText(s: string, p: nat)
    requires p <= |s| && !(p < |s| && (s[p] == '\'' || s[p] == '"'))
    ensures ScanValue(s, p).Scanned?
    ensures var e := ScanValue(s, p).end;
      ScanValue(s, p).value == s[p..e] && (forall k :: p <= k < e ==> s[k] !in ReservedVal)
      && (e == |s| || s[e] in ReservedVal)
  {
    RunEndFirst(s, p, ReservedVal);
  }

  /**
    After a value, lexLogic stops at the end of the input; it reads at most one `)`
    (grouped dialect only), skips spaces and then needs a connective: `and` or `;` make a
    conjunction and `,` or `or` a disjunction; with anything else it stops and the rest
    of the input is dropped.
  */
  lemma LogicTokens(d: Dialect, s: string, p: nat)
    requires p <= |s|
    ensures var m := StepLogic(d, s, p);
      (m.Goto? ==> (m.state == Start(d)
        && (m.out == [Token(TypeAnd, "and")] || m.out == [Token(TypeAnd, ";")]
            || m.out == [Token(TypeOr, ",")] || m.out == [Token(TypeOr, "or")]
            || (d == Grouped && |m.out| == 2 && m.out[0] == Token(TypeGroupEnd, ")")
                && m.out[1].kind in {TypeAnd, TypeOr}))))
      && (m.Halt? ==> m.out == [] || (d == Grouped && m.out == [Token(TypeGroupEnd, ")")]))
      && !m.Spin?
  {
  }

  // ---------------------------------------------------------------------------
  // The two dialects
  // ---------------------------------------------------------------------------

  predicate NoGroupTokens(ts: seq<Token>) {
    forall i :: 0 <= i < |ts| ==> ts[i].kind != TypeGroupStart && ts[i].kind != TypeGroupEnd
  }

  lemma NoGroupAppend(a: seq<Token>, b: seq<Token>)
    requires NoGroupTokens(a) && NoGroupTokens(b)
    ensures NoGroupTokens(a + b)
  {
  }

  /** In the flat dialect no step emits a group token, and none leads to the comparison state. */
  lemma FlatStepNoGroups(s: string, st: State, p: nat)
    requires p <= |s| && st != Comparison
    ensures NoGroupTokens(Step(Flat, st, s, p).out)
    ensures Step(Flat, st, s, p).Goto? ==> Step(Flat, st, s, p).state != Comparison
  {
    match st
    case Comparison =>
    case Name => assert Step(Flat, st, s, p) == StepName(s, p);
    case Operator => assert Step(Flat, st, s, p) == StepOperator(s, p);
    case Values => ValuesNoGroups(s, p);
    case Logic => assert Step(Flat, st, s, p) == StepConnective(Flat, s, p) || p == |s|;
  }

  lemma ValuesNoGroups(s: string, p: nat)
    requires p <= |s|
    ensures NoGroupTokens(StepValues(s, p).out)
    ensures StepValues(s, p).Goto? ==> StepValues(s, p).state == Logic
  {
    if p < |s| && s[p] == '(' {
      ScanListValues(s, p + 1);
      var ls := ScanList(s, p + 1);
      var vs := [Token(TypeValuesStart, "")];
      NoGroupAppend(vs, ls.out);
      NoGroupAppend(vs + ls.out, [Token(TypeValuesEnd, "")]);
    }
  }

  lemma {:induction false} FlatLexFromNoGroups(s: string, st: State, p: nat)
    requires p <= |s| && st != Comparison
    ensures NoGroupTokens(LexFrom(Flat, s, st, p))
    decreases |s| - p, Rank(st)
  {
    FlatStepNoGroups(s, st, p);
    match Step(Flat, st, s, p)
    case Goto(next, q, out) =>
      FlatLexFromNoGroups(s, next, q);
      NoGroupAppend(out, LexFrom(Flat, s, next, q));
    case Halt(_, out) =>
      NoGroupAppend(out, [Token(TypeEOF, "")]);
    case Spin(out) =>
  }

  /** The flat lexer emits no group tokens: a `(` is part of a name or ends a bare value. */
  lemma FlatNoGroups(s: string)
    ensures NoGroupTokens(Tokens(Flat, s))
  {
    FlatLexFromNoGroups(s, Name, 0);
  }

  lemma {:induction false} DialectsAgreeFrom(s: string, st: State, p: nat)
    requires p <= |s| && '(' !in s && ')' !in s && st != Comparison
    ensures LexFrom(Flat, s, st, p) == LexFrom(Grouped, s, st, p)
    decreases |s| - p, Rank(st)
  {
    assert p < |s| ==> s[p] != '(' && s[p] != ')';
    assert Step(Flat, st, s, p) == Step(Grouped, st, s, p) || st == Logic;
    match Step(Flat, st, s, p)
    case Goto(next, q, out) =>
      DialectsAgreeFrom(s, next, q);
      if st == Logic {
        assert next == Name;
        assert Step(Grouped, st, s, p) == Goto(Comparison, q, out);
        assert q < |s| ==> s[q] != '(';
        assert LexFrom(Grouped, s, Comparison, q) == LexFrom(Grouped, s, Name, q);
      }
    case Halt(_, _) =>
    case Spin(_) =>
  }

  /** Without parentheses in the input, the two dialects lex alike. */
  lemma DialectsAgree(s: string)
    requires '(' !in s && ')' !in s
    ensures Tokens(Flat, s) == Tokens(Grouped, s)
  {
    DialectsAgreeFrom(s, Name, 0);
    assert 0 < |s| ==> s[0] != '(';
  }

  // ---------------------------------------------------------------------------
  // A comparison with a list of values
  // ---------------------------------------------------------------------------

  /** A selector the lexer reads as a whole name: not empty, no `(` first, none of `=<>!`. */
  predicate Selector(sel: string) {
    sel != [] && sel[0] != '(' && forall k :: 0 <= k < |sel| ==> sel[k] !in NameStops
  }

  /** The text between the two `=` of an operator such as `=in=`. */
  predicate OperatorWord(w: string) {
    forall k :: 0 <= k < |w| ==> w[k] != '='
  }

  /** The tokens of `sel op (v1,…,vn)` followed by the end of the input. */
  function ListComparisonTokens(sel: string, op: string, parts: seq<string>): seq<Token> {
    [Token(TypeName, sel), Token(TypeOperator, op), Token(TypeValuesStart, "")]
    + ValueTokens(parts) + [Token(TypeValuesEnd, ""), Token(TypeEOF, "")]
  }

  lemma SelectorStep(s: string, sel: string)
    requires Selector(sel) && |sel| < |s| && s[..|sel|] == sel && s[|sel|] == '='
    ensures StepName(s, 0) == Goto(Operator, |sel|, [Token(TypeName, sel)])
  {
    forall k | 0 <= k < |sel| ensures s[k] !in NameStops {
      assert s[k] == s[..|sel|][k];
    }
    RunEndAt(s, 0, NameStops, |sel|);
  }

  lemma OperatorWordStep(s: string, a: nat, w: string)
    requires OperatorWord(w) && OccursAt(s, "=" + w + "=", a) && a + |w| + 2 < |s|
    ensures StepOperator(s, a) == Goto(Values, a + |w| + 2, [Token(TypeOperator, "=" + w + "=")])
  {
    var b := a + |w| + 1;
    assert s[a] == s[a..a + |w| + 2][0];
    assert s[b] == s[a..a + |w| + 2][|w| + 1];
    forall k | a + 1 <= k < b ensures s[k] != '=' {
      assert s[k] == s[a..a + |w| + 2][k - a] == w[k - a - 1];
    }
    RunEndAt(s, a + 1, "=", b);
  }

  lemma ListStep(s: string, q: nat, parts: seq<string>)
    requires |parts| >= 1 && forall i :: 0 <= i < |parts| ==> Bare(parts[i])
    requires q < |s| && s[q] == '(' && OccursAt(s, Join(parts, ",") + ")", q + 1)
    ensures StepValues(s, q) == Goto(Logic, q + 1 + |Join(parts, ",")| + 1,
      [Token(TypeValuesStart, "")] + ValueTokens(parts) + [Token(TypeValuesEnd, "")])
  {
    JoinedListAt(s, q + 1, parts);
    ListAtScans(s, q + 1, parts);
    ListAtScan(s, q + 1, parts);
  }

  /** The stream from a state the lexer leaves by a move: the move's tokens, then the rest. */
  lemma LexGoto(d: Dialect, s: string, st: State, p: nat, next: State, q: nat, out: seq<Token>)
    requires p <= q <= |s| && Step(d, st, s, p) == Goto(next, q, out)
    ensures LexFrom(d, s, st, p) == out + LexFrom(d, s, next, q)
  {
  }

  /** The lexer's three moves over such a comparison, where its pieces stand in the input. */
  lemma ListComparisonSteps(d: Dialect, s: string, sel: string, w: string, parts: seq<string>)
    requires Selector(sel) && OperatorWord(w)
    requires |parts| >= 1 && forall i :: 0 <= i < |parts| ==> Bare(parts[i])
    requires var a := |sel|; var q := a + |w| + 2;
      q + 1 + |Join(parts, ",")| + 1 == |s| && s[..a] == sel && s[a] == '=' && OccursAt(s, "=" + w + "=", a)
      && s[q] == '(' && OccursAt(s, Join(parts, ",") + ")", q + 1)
    ensures var a := |sel|; var q := a + |w| + 2;
      Step(d, Name, s, 0) == Goto(Operator, a, [Token(TypeName, sel)])
      && Step(d, Operator, s, a) == Goto(Values, q, [Token(TypeOperator, "=" + w + "=")])
      && Step(d, Values, s, q) == Goto(Logic, |s|,
           [Token(TypeValuesStart, "")] + ValueTokens(parts) + [Token(TypeValuesEnd, "")])
  {
    var a := |sel|;
    var q := a + |w| + 2;
    assert Step(d, Name, s, 0) == Goto(Operator, a, [Token(TypeName, sel)]) by {
      SelectorStep(s, sel);
    }
    assert Step(d, Operator, s, a) == Goto(Values, q, [Token(TypeOperator, "=" + w + "=")]) by {
      OperatorWordStep(s, a, w);
    }
    ListStep(s, q, parts);
  }

  /** Three moves from the name state that end at the end of the input, then the stop. */
  lemma MovesToEnd(d: Dialect, s: string, a: nat, q: nat, t1: seq<Token>, t2: seq<Token>, t3: seq<Token>)
    requires a <= q <= |s|
    requires Step(d, Name, s, 0) == Goto(Operator, a, t1)
    requires Step(d, Operator, s, a) == Goto(Values, q, t2)
    requires Step(d, Values, s, q) == Goto(Logic, |s|, t3)
    ensures LexFrom(d, s, Name, 0) == t1 + (t2 + (t3 + [Token(TypeEOF, "")]))
  {
    LexGoto(d, s, Name, 0, Operator, a, t1);
    LexGoto(d, s, Operator, a, Values, q, t2);
    LexGoto(d, s, Values, q, Logic, |s|, t3);
  }

  /** A text that does not open with `(` starts, in either dialect, at the name state. */
  lemma StartAtName(d: Dialect, s: string)
    requires s != [] && s[0] != '('
    ensures Tokens(d, s) == LexFrom(d, s, Name, 0)
  {
  }

  /** Where the pieces of `sel op (v1,…,vn)` stand in the text. */
  lemma ListComparisonLayout(sel: string, w: string, parts: seq<string>)
    ensures var s := sel + ("=" + w + "=") + "(" + Join(parts, ",") + ")";
      var a := |sel|; var q := a + |w| + 2;
      q + 1 + |Join(parts, ",")| + 1 == |s| && s[..a] == sel && s[a] == '=' && OccursAt(s, "=" + w + "=", a)
      && s[q] == '(' && OccursAt(s, Join(parts, ",") + ")", q + 1)
      && (sel != [] ==> s[0] == sel[0])
  {
    var op := "=" + w + "=";
    var list := Join(parts, ",") + ")";
    var s := sel + op + "(" + list;
    var a := |sel|;
    var q := a + |w| + 2;
    assert s == sel + op + "(" + Join(parts, ",") + ")";
    assert s[..a] == sel;
    assert s[a..a + |op|] == op;
    assert s[a] == op[0];
    assert s[q] == '(';
    assert s[q + 1..q + 1 + |list|] == list;
  }

  lemma ListTokensSplit(sel: string, op: string, parts: seq<string>)
    ensures ListComparisonTokens(sel, op, parts) == [Token(TypeName, sel)] + ([Token(TypeOperator, op)]
      + (([Token(TypeValuesStart, "")] + ValueTokens(parts) + [Token(TypeValuesEnd, "")]) + [Token(TypeEOF, "")]))
  {
  }

  /** The tokens of such a comparison, where its pieces stand in the text. */
  lemma ListComparisonAt(d: Dialect, s: string, sel: string, w: string, parts: seq<string>)
    requires Selector(sel) && OperatorWord(w)
    requires |parts| >= 1 && forall i :: 0 <= i < |parts| ==> Bare(parts[i])
    requires var a := |sel|; var q := a + |w| + 2;
      q + 1 + |Join(parts, ",")| + 1 == |s| && s[..a] == sel && s[a] == '=' && OccursAt(s, "=" + w + "=", a)
      && s[q] == '(' && OccursAt(s, Join(parts, ",") + ")", q + 1) && s[0] == sel[0]
    ensures Tokens(d, s) == ListComparisonTokens(sel, "=" + w + "=", parts)
  {
    var vs := [Token(TypeValuesStart, "")] + ValueTokens(parts) + [Token(TypeValuesEnd, "")];
    ListComparisonSteps(d, s, sel, w, parts);
    MovesToEnd(d, s, |sel|, |sel| + |w| + 2, [Token(TypeName, sel)], [Token(TypeOperator, "=" + w + "=")], vs);
    StartAtName(d, s);
    ListTokensSplit(sel, "=" + w + "=", parts);
  }

  /**
    A selector, an `=…=` operator and a parenthesised list of bare values lex, in either
    dialect, to the name, the operator, one value token per element in order, and EOF.
  */
  lemma ListComparisonLexes(d: Dialect, sel: string, w: string, parts: seq<string>)
    requires Selector(sel) && OperatorWord(w)
    requires |parts| >= 1 && forall i :: 0 <= i < |parts| ==> Bare(parts[i])
    ensures Tokens(d, sel + ("=" + w + "=") + "(" + Join(parts, ",") + ")")
      == ListComparisonTokens(sel, "=" + w + "=", parts)
  {
    ListComparisonLayout(sel, w, parts);
    ListComparisonAt(d, sel + ("=" + w + "=") + "(" + Join(parts, ",") + ")", sel, w, parts);
  }
}
