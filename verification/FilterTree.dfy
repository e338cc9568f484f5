/** Filter trees and their evaluation against a document. */
module FilterTree {
  import opened Wrappers
  import opened Wildcard

  /** A JSON value, as the decoder delivers it; `JNull` is Go's nil. */
  datatype Json =
    | JNull
    | JBool(truth: bool)
    | JNum(number: real)
    | JStr(text: string)
    | JArr(items: seq<Json>)
    | JObj(fields: map<string, Json>)

  type Doc = map<string, Json>

  datatype QueryTerm = QueryTerm(field: string, value: string)

  /** `lower` and `upper` are `JNull` where the bound is missing. */
  datatype FilterNode =
    | MatchAll
    | MatchNone
    | Term(field: string, value: Json)
    | Match(field: string, word: string)
    | Prefix(field: string, prefix: string)
    | Wild(field: string, pattern: string)
    | Range(field: string, lower: Json, upper: Json, inclusiveMin: bool, inclusiveMax: bool)
    | Bool(conjuncts: seq<FilterNode>, disjuncts: seq<FilterNode>, mustNot: Option<FilterNode>)
    | QueryString(terms: seq<QueryTerm>)

  /** How values compare: equality with coercion, and an order giving -1, 0 or 1. */
  datatype Compare = Compare(equal: (Json, Json) -> bool, order: (Json, Json) -> int)

  // ----- What a filter means

  /** The document has a value for the field. */
  predicate HasValue(doc: Doc, field: string) {
    field in doc && doc[field] != JNull
  }

  predicate FieldEquals(cmp: Compare, doc: Doc, field: string, value: Json) {
    HasValue(doc, field) && cmp.equal(doc[field], value)
  }

  predicate AboveMin(cmp: Compare, v: Json, lower: Json, inclusive: bool) {
    lower == JNull || cmp.order(v, lower) > 0 || (inclusive && cmp.order(v, lower) == 0)
  }

  predicate BelowMax(cmp: Compare, v: Json, upper: Json, inclusive: bool) {
    upper == JNull || cmp.order(v, upper) < 0 || (inclusive && cmp.order(v, upper) == 0)
  }

  ghost predicate Holds(n: FilterNode, cmp: Compare, doc: Doc) {
    match n
    case MatchAll => true
    case MatchNone => false
    case Term(field, value) => FieldEquals(cmp, doc, field, value)
    case Match(field, value) => FieldEquals(cmp, doc, field, JStr(value))
    case Prefix(field, prefix) => field in doc && doc[field].JStr? && prefix <= doc[field].text
    case Wild(field, pattern) => field in doc && doc[field].JStr? && Matches(pattern, doc[field].text)
    case Range(field, lower, upper, inclusiveMin, inclusiveMax) =>
      HasValue(doc, field) && AboveMin(cmp, doc[field], lower, inclusiveMin) && BelowMax(cmp, doc[field], upper, inclusiveMax)
    case Bool(conjuncts, disjuncts, mustNot) =>
      && (forall c :: c in conjuncts ==> Holds(c, cmp, doc))
      && (disjuncts != [] ==> exists d :: d in disjuncts && Holds(d, cmp, doc))
      && !(mustNot.Some? && Holds(mustNot.value, cmp, doc))
    case QueryString(terms) =>
      terms == [] || exists t :: t in terms && FieldEquals(cmp, doc, t.field, JStr(t.value))
  }

  // ----- Evaluation

  /** The error an `Evaluate` could return; no node ever makes one. */
  datatype EvalError = EvalError(message: string)

  /** Evaluates with early exits; `Ok` with the meaning of the filter, whatever the document. */
  method Evaluate(n: FilterNode, cmp: Compare, doc: Doc) returns (r: Result<bool, EvalError>)
    ensures r == Ok(Holds(n, cmp, doc))
    decreases n, 1
  {
    match n {
      case MatchAll => return Ok(true);
      case MatchNone => return Ok(false);
      case Term(field, value) =>
        if field !in doc || doc[field] == JNull {
          return Ok(false);
        }
        return Ok(cmp.equal(doc[field], value));
      case Match(field, value) =>
        if field !in doc || doc[field] == JNull {
          return Ok(false);
        }
        return Ok(cmp.equal(doc[field], JStr(value)));
      case Prefix(field, prefix) =>
        if field !in doc || doc[field] == JNull || !doc[field].JStr? {
          return Ok(false);
        }
        return Ok(prefix <= doc[field].text);
      case Wild(field, pattern) =>
        if field !in doc || doc[field] == JNull || !doc[field].JStr? {
          return Ok(false);
        }
        var matched := MatchWildcard(pattern, doc[field].text);
        return Ok(matched);
      case Range(_, _, _, _, _) => r := EvaluateRange(n, cmp, doc);
      case Bool(_, _, _) => r := EvaluateBool(n, cmp, doc);
      case QueryString(_) => r := EvaluateQueryString(n, cmp, doc);
    }
  }

  method EvaluateRange(n: FilterNode, cmp: Compare, doc: Doc) returns (r: Result<bool, EvalError>)
    requires n.Range?
    ensures r == Ok(Holds(n, cmp, doc))
  {
    if n.field !in doc || doc[n.field] == JNull {
      return Ok(false);
    }
    var docVal := doc[n.field];
    if n.lower != JNull {
      var c := cmp.order(docVal, n.lower);
      if n.inclusiveMin {
        if c < 0 {
          return Ok(false);
        }
      } else {
        if c <= 0 {
          return Ok(false);
        }
      }
    }
    if n.upper != JNull {
      var c := cmp.order(docVal, n.upper);
      if n.inclusiveMax {
        if c > 0 {
          return Ok(false);
        }
      } else {
        if c >= 0 {
          return Ok(false);
        }
      }
    }
    return Ok(true);
  }

  method EvaluateBool(n: FilterNode, cmp: Compare, doc: Doc) returns (r: Result<bool, EvalError>)
    requires n.Bool?
    ensures r == Ok(Holds(n, cmp, doc))
    decreases n, 0
  {
    for i := 0 to |n.conjuncts|
      invariant forall k :: 0 <= k < i ==> Holds(n.conjuncts[k], cmp, doc)
    {
      var c := Evaluate(n.conjuncts[i], cmp, doc);
      if c.Err? {
        return c;
      }
      if !c.value {
        return Ok(false);
      }
    }
    if |n.disjuncts| > 0 {
      var anyMatch := false;
      for i := 0 to |n.disjuncts|
        invariant !anyMatch
        invariant forall k :: 0 <= k < i ==> !Holds(n.disjuncts[k], cmp, doc)
      {
        var d := Evaluate(n.disjuncts[i], cmp, doc);
        if d.Err? {
          return d;
        }
        if d.value {
          anyMatch := true;
          break;
        }
      }
      if !anyMatch {
        return Ok(false);
      }
    }
    if n.mustNot.Some? {
      var m := Evaluate(n.mustNot.value, cmp, doc);
      if m.Err? {
        return m;
      }
      if m.value {
        return Ok(false);
      }
    }
    return Ok(true);
  }

  method EvaluateQueryString(n: FilterNode, cmp: Compare, doc: Doc) returns (r: Result<bool, EvalError>)
    requires n.QueryString?
    ensures r == Ok(Holds(n, cmp, doc))
  {
    if |n.terms| == 0 {
      return Ok(true);
    }
    for i := 0 to |n.terms|
      invariant forall k :: 0 <= k < i ==> !FieldEquals(cmp, doc, n.terms[k].field, JStr(n.terms[k].value))
    {
      var t := n.terms[i];
      if t.field !in doc || doc[t.field] == JNull {
        continue;
      }
      if cmp.equal(doc[t.field], JStr(t.value)) {
        return Ok(true);
      }
    }
    return Ok(false);
  }
}
