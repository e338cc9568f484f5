/** From a decoded JSON value to a filter tree. */
module FilterParser {
  import opened Wrappers
  import opened Whitespace
  import opened QueryStrings
  import opened FilterTree

  // ----- Keys

  datatype Keyword =
    | Conjuncts | Disjuncts | MustNot | Query | TermKey | Min | Max | MatchKey | PrefixKey | WildcardKey
    | MatchAllKey | MatchNoneKey | Field | InclusiveMin | InclusiveMax

  function Name(k: Keyword): string {
    match k
    case Conjuncts => "conjuncts"
    case Disjuncts => "disjuncts"
    case MustNot => "must_not"
    case Query => "query"
    case TermKey => "term"
    case Min => "min"
    case Max => "max"
    case MatchKey => "match"
    case PrefixKey => "prefix"
    case WildcardKey => "wildcard"
    case MatchAllKey => "match_all"
    case MatchNoneKey => "match_none"
    case Field => "field"
    case InclusiveMin => "inclusive_min"
    case InclusiveMax => "inclusive_max"
  }

  type Raw = map<string, Json>

  predicate Has(raw: Raw, k: Keyword) {
    Name(k) in raw
  }

  function Get(raw: Raw, k: Keyword): Json
    requires Has(raw, k)
  {
    raw[Name(k)]
  }

  /** Decoding null gives a nil map, which has no keys. */
  function Fields(j: Json): Raw {
    if j.JObj? then j.fields else map[]
  }

  predicate IsMap(j: Json) {
    j.JObj? || j.JNull?
  }

  datatype ParseError =
    | InvalidFilter
    | UnsupportedFilter(raw: Raw)
    | MissingField
    | InvalidValue(key: Keyword)
    | UnsupportedQuery(term: string)

  // ----- What the parser computes

  /** Decoding into a Go string; null leaves it empty. */
  function ParsedString(raw: Raw, k: Keyword): Result<string, ParseError>
    requires Has(raw, k)
  {
    match Get(raw, k)
    case JStr(text) => Ok(text)
    case JNull => Ok("")
    case _ => Err(InvalidValue(k))
  }

  function ParsedField(raw: Raw): Result<string, ParseError> {
    if Has(raw, Field) then ParsedString(raw, Field) else Err(MissingField)
  }

  function ParsedTerm(raw: Raw): Result<FilterNode, ParseError>
    requires Has(raw, TermKey)
  {
    var field := ParsedField(raw);
    if field.Err? then Err(field.error) else Ok(Term(field.value, Get(raw, TermKey)))
  }

  /** The three leaves with a string operand. */
  function StringLeaf(k: Keyword, field: string, operand: string): FilterNode {
    if k == MatchKey then Match(field, operand)
    else if k == PrefixKey then Prefix(field, operand)
    else Wild(field, operand)
  }

  function ParsedLeaf(raw: Raw, k: Keyword): Result<FilterNode, ParseError>
    requires Has(raw, k)
  {
    var operand := ParsedString(raw, k);
    if operand.Err? then Err(operand.error)
    else
      var field := ParsedField(raw);
      if field.Err? then Err(field.error) else Ok(StringLeaf(k, field.value, operand.value))
  }

  /** A flag that is true unless set; null leaves it true. */
  function ParsedFlag(raw: Raw, k: Keyword): Result<bool, ParseError> {
    if !Has(raw, k) then Ok(true)
    else
      match Get(raw, k)
      case JBool(truth) => Ok(truth)
      case JNull => Ok(true)
      case _ => Err(InvalidValue(k))
  }

  function Bound(raw: Raw, k: Keyword): Json {
    if Has(raw, k) then Get(raw, k) else JNull
  }

  function ParsedRange(raw: Raw): Result<FilterNode, ParseError> {
    var field := ParsedField(raw);
    if field.Err? then Err(field.error)
    else
      var lo := ParsedFlag(raw, InclusiveMin);
      if lo.Err? then Err(lo.error)
      else
        var hi := ParsedFlag(raw, InclusiveMax);
        if hi.Err? then Err(hi.error)
        else Ok(Range(field.value, Bound(raw, Min), Bound(raw, Max), lo.value, hi.value))
  }

  /** One piece of a query string: a blank piece is skipped, one without a colon fails. */
  function ReadPiece(piece: string): Result<seq<QueryTerm>, ParseError> {
    var term := TrimSpace(piece);
    if term == "" then Ok([])
    else
      var split := SplitAt(term);
      if split.None? then Err(UnsupportedQuery(term)) else Ok([QueryTerm(split.value.0, Unescape(split.value.1))])
  }

  /** The terms of a query string, up to the first piece that fails. */
  function ParsedTerms(pieces: seq<string>): Result<seq<QueryTerm>, ParseError> {
    if pieces == [] then Ok([])
    else
      var init := ParsedTerms(pieces[..|pieces| - 1]);
      if init.Err? then init
      else
        var last := ReadPiece(pieces[|pieces| - 1]);
        if last.Err? then last else Ok(init.value + last.value)
  }

  function ParsedQuery(text: string): Result<FilterNode, ParseError> {
    if text == "*" || text == "" then Ok(MatchAll)
    else
      var terms := ParsedTerms(SplitOr(text));
      if terms.Err? then Err(terms.error)
      else if terms.value == [] then Ok(MatchAll)
      else Ok(QueryString(terms.value))
  }

  /** The first `n` children of a list, stopping at the first error. */
  function ParsedItems(list: Json, n: nat): Result<seq<FilterNode>, ParseError>
    requires list.JArr? && IsMapList(list) && n <= |list.items|
    decreases list, 0, n
  {
    if n == 0 then Ok([])
    else
      var init := ParsedItems(list, n - 1);
      if init.Err? then init
      else
        var child := Parsed(list.items[n - 1]);
        if child.Err? then Err(child.error) else Ok(init.value + [child.value])
  }

  predicate IsMapList(j: Json) {
    j.JNull? || (j.JArr? && forall i :: 0 <= i < |j.items| ==> IsMap(j.items[i]))
  }

  function ParsedList(j: Json, k: Keyword): Result<seq<FilterNode>, ParseError>
    decreases j, 0
  {
    var raw := Fields(j);
    if !Has(raw, k) then Ok([])
    else if !IsMapList(Get(raw, k)) then Err(InvalidValue(k))
    else if Get(raw, k).JNull? then Ok([])
    else ParsedItems(Get(raw, k), |Get(raw, k).items|)
  }

  function ParsedMustNot(j: Json): Result<Option<FilterNode>, ParseError>
    decreases j, 0
  {
    var raw := Fields(j);
    if !Has(raw, MustNot) then Ok(None)
    else if !IsMap(Get(raw, MustNot)) then Err(InvalidValue(MustNot))
    else
      var child := Parsed(Get(raw, MustNot));
      if child.Err? then Err(child.error) else Ok(Some(child.value))
  }

  function ParsedBool(j: Json): Result<FilterNode, ParseError>
    decreases j, 1
  {
    var conjuncts := ParsedList(j, Conjuncts);
    if conjuncts.Err? then Err(conjuncts.error)
    else
      var disjuncts := ParsedList(j, Disjuncts);
      if disjuncts.Err? then Err(disjuncts.error)
      else
        var mustNot := ParsedMustNot(j);
        if mustNot.Err? then Err(mustNot.error)
        else Ok(Bool(conjuncts.value, disjuncts.value, mustNot.value))
  }

  predicate IsBool(raw: Raw) {
    Has(raw, Conjuncts) || Has(raw, Disjuncts) || Has(raw, MustNot)
  }

  /** The filters that are not combinations of others, in the order the keys are looked for. */
  function ParsedSimple(raw: Raw): Result<FilterNode, ParseError> {
    if Has(raw, Query) then
      var text := ParsedString(raw, Query);
      if text.Err? then Err(text.error) else ParsedQuery(text.value)
    else if Has(raw, TermKey) then ParsedTerm(raw)
    else if Has(raw, Min) || Has(raw, Max) then ParsedRange(raw)
    else if Has(raw, MatchKey) then ParsedLeaf(raw, MatchKey)
    else if Has(raw, PrefixKey) then ParsedLeaf(raw, PrefixKey)
    else if Has(raw, WildcardKey) then ParsedLeaf(raw, WildcardKey)
    else if Has(raw, MatchAllKey) then Ok(MatchAll)
    else if Has(raw, MatchNoneKey) then Ok(MatchNone)
    else Err(UnsupportedFilter(raw))
  }

  function Parsed(j: Json): Result<FilterNode, ParseError>
    requires IsMap(j)
    decreases j, 2
  {
    if IsBool(Fields(j)) then ParsedBool(j) else ParsedSimple(Fields(j))
  }

  // ----- The parser

  /** `ParseFilter`: no filter at all matches everything. */
  method ParseFilter(filter: Option<Json>) returns (r: Result<FilterNode, ParseError>)
    ensures r == if filter.None? then Ok(MatchAll) else if IsMap(filter.value) then Parsed(filter.value) else Err(InvalidFilter)
  {
    if filter.None? {
      return Ok(MatchAll);
    }
    if !IsMap(filter.value) {
      return Err(InvalidFilter);
    }
    r := ParseRaw(filter.value);
  }

  method ParseRaw(j: Json) returns (r: Result<FilterNode, ParseError>)
    requires IsMap(j)
    ensures r == Parsed(j)
    decreases j, 2
  {
    hide Name, ParsedBool, ParsedQuery;
    var raw := Fields(j);
    if Has(raw, Conjuncts) || Has(raw, Disjuncts) || Has(raw, MustNot) {
      r := ParseBool(j);
    } else if Has(raw, Query) {
      var text := ParsedString(raw, Query);
      if text.Err? {
        return Err(text.error);
      }
      r := ParseQueryString(text.value);
    } else {
      r := ParsedSimple(raw);
    }
  }

  method ParseItems(list: Json) returns (r: Result<seq<FilterNode>, ParseError>)
    requires list.JArr? && IsMapList(list)
    ensures r == ParsedItems(list, |list.items|)
    decreases list, 0
  {
    hide Parsed;
    var nodes: seq<FilterNode> := [];
    for i := 0 to |list.items|
      invariant ParsedItems(list, i) == Ok(nodes)
    {
      var child := ParseRaw(list.items[i]);
      if child.Err? {
        ErrorStays(list, i + 1, |list.items|);
        return Err(child.error);
      }
      nodes := nodes + [child.value];
    }
    return Ok(nodes);
  }

  lemma {:induction false} ErrorStays(list: Json, n: nat, m: nat)
    requires list.JArr? && IsMapList(list) && n <= m <= |list.items|
    requires ParsedItems(list, n).Err?
    ensures ParsedItems(list, m) == ParsedItems(list, n)
  {
    if n < m {
      ErrorStays(list, n, m - 1);
    }
  }

  method ParseBool(j: Json) returns (r: Result<FilterNode, ParseError>)
    requires IsBool(Fields(j))
    ensures r == ParsedBool(j)
    decreases j, 1
  {
    hide Name, ParsedItems, Parsed;
    var raw := Fields(j);
    var conjuncts: seq<FilterNode>, disjuncts: seq<FilterNode>, mustNot: Option<FilterNode> := [], [], None;
    if Has(raw, Conjuncts) {
      if !IsMapList(Get(raw, Conjuncts)) {
        return Err(InvalidValue(Conjuncts));
      }
      if Get(raw, Conjuncts).JArr? {
        var children := ParseItems(Get(raw, Conjuncts));
        if children.Err? {
          return Err(children.error);
        }
        conjuncts := children.value;
      }
    }
    if Has(raw, Disjuncts) {
      if !IsMapList(Get(raw, Disjuncts)) {
        return Err(InvalidValue(Disjuncts));
      }
      if Get(raw, Disjuncts).JArr? {
        var children := ParseItems(Get(raw, Disjuncts));
        if children.Err? {
          return Err(children.error);
        }
        disjuncts := children.value;
      }
    }
    if Has(raw, MustNot) {
      if !IsMap(Get(raw, MustNot)) {
        return Err(InvalidValue(MustNot));
      }
      var child := ParseRaw(Get(raw, MustNot));
      if child.Err? {
        return Err(child.error);
      }
      mustNot := Some(child.value);
    }
    return Ok(Bool(conjuncts, disjuncts, mustNot));
  }

  lemma {:induction false} QueryErrorStays(pieces: seq<string>, n: nat)
    requires n <= |pieces| && ParsedTerms(pieces[..n]).Err?
    ensures ParsedTerms(pieces) == ParsedTerms(pieces[..n])
    decreases |pieces|
  {
    if n == |pieces| {
      assert pieces[..n] == pieces;
    } else {
      assert pieces[..|pieces| - 1][..n] == pieces[..n];
      QueryErrorStays(pieces[..|pieces| - 1], n);
    }
  }

  method ParseQueryString(text: string) returns (r: Result<FilterNode, ParseError>)
    ensures r == ParsedQuery(text)
  {
    hide SplitAt, Unescape, TrimSpace, SplitOr;
    if text == "*" || text == "" {
      return Ok(MatchAll);
    }
    var pieces := SplitOr(text);
    var parsed: seq<QueryTerm> := [];
    for i := 0 to |pieces|
      invariant ParsedTerms(pieces[..i]) == Ok(parsed)
    {
      assert pieces[..i + 1][..i] == pieces[..i];
      var term := TrimSpace(pieces[i]);
      if term == "" {
        assert parsed + [] == parsed;
        continue;
      }
      var field, value, ok := SplitFieldValue(term);
      if !ok {
        QueryErrorStays(pieces, i + 1);
        return Err(UnsupportedQuery(term));
      }
      value := UnescapeQueryString(value);
      parsed := parsed + [QueryTerm(field, value)];
    }
    assert pieces[..|pieces|] == pieces;
    if |parsed| == 0 {
      return Ok(MatchAll);
    }
    return Ok(QueryString(parsed));
  }
}
