/**
  `RSQL.parseFilter`: reads the filter expression from the query values under the
  configured filter tag, and stores what ParseFilter makes of it in the parameters.
*/
module Filter {
  import opened Options
  import opened Lex
  import opened FilterLexer
  import opened Ast
  import opened FilterParser
  import opened FilterParserFacts

  /**
    The parsed query. Only the filter is written here; the other fields are listed so that
    the frame shows they stay as they are. The sort entries of `Sorts` are not part of
    this model.
  */
  class Params {
    var selects: seq<string>
    var filters: Option<Node>
    var limit: nat
    var offset: nat
    var cursor: string

    constructor ()
      ensures selects == [] && filters == None && limit == 0 && offset == 0 && cursor == ""
    {
      selects, filters, limit, offset, cursor := [], None, 0, 0, "";
    }
  }

  /** How a call of parseFilter ends: it returns nil, it panics, or it never returns. */
  datatype Exit = ReturnedNil | Panicked | Hung

  /** The filter expression the query gives: the value under `tag`, when there is one and it is not empty. */
  function FilterRequest(values: map<string, string>, tag: string): (r: Option<string>)
    ensures r.Some? <==> tag in values && values[tag] != ""
    ensures r.Some? ==> r.value == values[tag]
  {
    if tag in values && |values[tag]| >= 1 then Some(values[tag]) else None
  }

  /**
    `p.parseFilter(values, params)` for an `RSQL` whose filter tag is `filterTag`, over the
    operator table `operators`. Without a filter expression nothing changes; otherwise
    the filter becomes ParseFilter's tree. ParseFilter never reports an error, so the call
    returns nil whenever it returns; when ParseFilter panics or loops, the filter is not
    assigned.
  */
  method ParseFilterInto(filterTag: string, operators: map<string, string>, values: map<string, string>, params: Params)
    returns (exit: Exit)
    modifies params`filters
    ensures match FilterRequest(values, filterTag)
      case None => exit == ReturnedNil && params.filters == old(params.filters)
      case Some(val) =>
        match ParseTokens(Tokens(Grouped, val), operators)
        case Parsed(root) => exit == ReturnedNil && params.filters == Some(root)
        case Panics => exit == Panicked && params.filters == old(params.filters)
        case Diverges => exit == Hung && params.filters == old(params.filters)
  {
    if filterTag !in values || |values[filterTag]| < 1 {
      return ReturnedNil;
    }
    var val := values[filterTag];
    var r := ParseFilter(val, operators);
    match r {
      case Parsed(root) =>
        params.filters := Some(root);
        return ReturnedNil;
      case Panics =>
        return Panicked;
      case Diverges =>
        return Hung;
    }
  }

  /**
    The filter parseFilter stores is a tree that renders: whenever the call returns with a
    filter expression given, the filter is well formed and its rendering does not panic,
    and the call panics exactly when a `)` in the expression closes the root.
  */
  lemma StoredFilterRenders(operators: map<string, string>, values: map<string, string>, filterTag: string)
    requires FilterRequest(values, filterTag).Some?
    ensures var o := ParseTokens(Tokens(Grouped, values[filterTag]), operators);
      (o.Parsed? ==> WellFormed(o.root) && Render(o.root).Some?)
      && (o.Panics? <==> StrayFrom(Tokens(Grouped, values[filterTag]), 1))
  {
    ParseFilterOutcome(values[filterTag], operators);
  }
}
