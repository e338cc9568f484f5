/** What a JSON filter means, read off the JSON value itself, and that the parser and the tree it
    makes agree with it. */
module FilterMeaning {
  import opened Wrappers
  import opened Whitespace
  import opened Wildcard
  import opened QueryStrings
  import opened FilterTree
  import opened FilterParser

  // ----- The meaning of a JSON value

  predicate IsText(v: Json) {
    v.JStr? || v.JNull?
  }

  /** A null string is the empty one. */
  function Text(v: Json): string {
    if v.JStr? then v.text else ""
  }

  predicate IsFlag(v: Json) {
    v.JBool? || v.JNull?
  }

  predicate HasField(raw: Raw) {
    "field" in raw && IsText(raw["field"])
  }

  /** A piece of a query string that is more than white space says that a field has a value. */
  ghost predicate Says(piece: string, field: string, value: string) {
    TrimSpace(piece) == field + ":" + value && Plain(field)
  }

  ghost predicate SaysSomething(piece: string) {
    exists field, value :: Says(piece, field, value)
  }

  ghost predicate GoodQuery(text: string) {
    text == "*" || text == "" || forall piece :: piece in SplitOr(text) && TrimSpace(piece) != "" ==> SaysSomething(piece)
  }

  predicate IsCombination(raw: Raw) {
    "conjuncts" in raw || "disjuncts" in raw || "must_not" in raw
  }

  /** The value is a filter that the parser has to take. */
  ghost predicate Acceptable(j: Json)
    decreases j, 0
  {
    j.JObj? &&
    var raw := j.fields;
    if IsCombination(raw) then
      && ("conjuncts" in raw ==> AllAcceptable(raw["conjuncts"]))
      && ("disjuncts" in raw ==> AllAcceptable(raw["disjuncts"]))
      && ("must_not" in raw ==> Acceptable(raw["must_not"]))
    else if "query" in raw then IsText(raw["query"]) && GoodQuery(Text(raw["query"]))
    else if "term" in raw then HasField(raw)
    else if "min" in raw || "max" in raw then
      && HasField(raw)
      && ("inclusive_min" in raw ==> IsFlag(raw["inclusive_min"]))
      && ("inclusive_max" in raw ==> IsFlag(raw["inclusive_max"]))
    else if "match" in raw then IsText(raw["match"]) && HasField(raw)
    else if "prefix" in raw then IsText(raw["prefix"]) && HasField(raw)
    else if "wildcard" in raw then IsText(raw["wildcard"]) && HasField(raw)
    else "match_all" in raw || "match_none" in raw
  }

  ghost predicate AllAcceptable(list: Json)
    decreases list, 1
  {
    list.JNull? || (list.JArr? && forall i :: 0 <= i < |list.items| ==> Acceptable(list.items[i]))
  }

  predicate Carries(doc: Doc, field: string) {
    field in doc && doc[field] != JNull
  }

  /** Where the query is more than white space, some piece of it holds. */
  ghost predicate QueryMeans(text: string, cmp: Compare, doc: Doc) {
    || text == "*"
    || (forall piece :: piece in SplitOr(text) ==> TrimSpace(piece) == "")
    || exists piece, field, value :: piece in SplitOr(text) && Says(piece, field, value)
         && Carries(doc, field) && cmp.equal(doc[field], JStr(Unescape(value)))
  }

  /** Above the lower bound, if there is one; the bound itself counts unless the flag is false. */
  predicate MinMeans(raw: Raw, cmp: Compare, v: Json) {
    "min" in raw && raw["min"] != JNull ==>
      || cmp.order(v, raw["min"]) > 0
      || (cmp.order(v, raw["min"]) == 0 && !("inclusive_min" in raw && raw["inclusive_min"] == JBool(false)))
  }

  predicate MaxMeans(raw: Raw, cmp: Compare, v: Json) {
    "max" in raw && raw["max"] != JNull ==>
      || cmp.order(v, raw["max"]) < 0
      || (cmp.order(v, raw["max"]) == 0 && !("inclusive_max" in raw && raw["inclusive_max"] == JBool(false)))
  }

  /** The document matches the filter. */
  ghost predicate Means(j: Json, cmp: Compare, doc: Doc)
    requires j.JObj?
    decreases j, 0
  {
    var raw := j.fields;
    if IsCombination(raw) then
      && ("conjuncts" in raw ==> AllMean(raw["conjuncts"], cmp, doc))
      && ("disjuncts" in raw ==> SomeMeans(raw["disjuncts"], cmp, doc))
      && ("must_not" in raw && raw["must_not"].JObj? ==> !Means(raw["must_not"], cmp, doc))
    else if "query" in raw then QueryMeans(Text(raw["query"]), cmp, doc)
    else if "match_all" in raw && !IsLeaf(raw) then true
    else if !IsLeaf(raw) then false
    else
      "field" in raw &&
      var field := Text(raw["field"]);
      field in doc && doc[field] != JNull &&
      if "term" in raw then cmp.equal(doc[field], raw["term"])
      else if "min" in raw || "max" in raw then MinMeans(raw, cmp, doc[field]) && MaxMeans(raw, cmp, doc[field])
      else if "match" in raw then cmp.equal(doc[field], JStr(Text(raw["match"])))
      else if "prefix" in raw then doc[field].JStr? && Text(raw["prefix"]) <= doc[field].text
      else doc[field].JStr? && Matches(Text(raw["wildcard"]), doc[field].text)
  }

  /** One of the keys that compare a field with something. */
  predicate IsLeaf(raw: Raw) {
    "term" in raw || "min" in raw || "max" in raw || "match" in raw || "prefix" in raw || "wildcard" in raw
  }

  ghost predicate AllMean(list: Json, cmp: Compare, doc: Doc)
    decreases list, 1
  {
    list.JArr? ==> forall i :: 0 <= i < |list.items| && list.items[i].JObj? ==> Means(list.items[i], cmp, doc)
  }

  /** No list and an empty one restrict nothing. */
  ghost predicate SomeMeans(list: Json, cmp: Compare, doc: Doc)
    decreases list, 1
  {
    list.JArr? && list.items != [] ==> exists i :: 0 <= i < |list.items| && list.items[i].JObj? && Means(list.items[i], cmp, doc)
  }

  // ----- The parser agrees

  /** The value is taken exactly if it is acceptable, and the tree then means what it means. */
  ghost predicate Agrees(r: Result<FilterNode, ParseError>, j: Json, cmp: Compare, doc: Doc) {
    && (r.Ok? <==> Acceptable(j))
    && (r.Ok? ==> (Holds(r.value, cmp, doc) <==> Means(j, cmp, doc)))
  }

  lemma FieldParsed(raw: Raw)
    ensures ParsedField(raw).Ok? <==> HasField(raw)
    ensures ParsedField(raw).Ok? ==> ParsedField(raw).value == Text(raw["field"])
  {
  }

  lemma OperandParsed(raw: Raw, k: Keyword)
    requires Has(raw, k)
    ensures ParsedString(raw, k).Ok? <==> IsText(Get(raw, k))
    ensures ParsedString(raw, k).Ok? ==> ParsedString(raw, k).value == Text(Get(raw, k))
  {
  }

  lemma RangeAgrees(j: Json, cmp: Compare, doc: Doc)
    requires j.JObj? && !IsCombination(j.fields) && "query" !in j.fields && "term" !in j.fields
    requires "min" in j.fields || "max" in j.fields
    ensures Agrees(ParsedRange(j.fields), j, cmp, doc)
  {
    FieldParsed(j.fields);
    hide ParsedField, HasField, Matches;
  }

  lemma TermAgrees(j: Json, cmp: Compare, doc: Doc)
    requires j.JObj? && !IsCombination(j.fields) && "query" !in j.fields && "term" in j.fields
    ensures Agrees(ParsedTerm(j.fields), j, cmp, doc)
  {
    FieldParsed(j.fields);
    hide ParsedField, HasField, Matches;
  }

  lemma LeafAgrees(j: Json, k: Keyword, cmp: Compare, doc: Doc)
    requires j.JObj? && !IsCombination(j.fields) && "query" !in j.fields && "term" !in j.fields
    requires "min" !in j.fields && "max" !in j.fields && Has(j.fields, k)
    requires || k == MatchKey
             || (k == PrefixKey && "match" !in j.fields)
             || (k == WildcardKey && "match" !in j.fields && "prefix" !in j.fields)
    ensures Agrees(ParsedLeaf(j.fields, k), j, cmp, doc)
  {
    FieldParsed(j.fields);
    OperandParsed(j.fields, k);
    hide ParsedField, HasField, Matches, ParsedString;
  }

  // ----- Query strings

  lemma SplitSays(piece: string, field: string, value: string)
    requires TrimSpace(piece) != ""
    ensures Says(piece, field, value) <==> SplitAt(TrimSpace(piece)) == Some((field, value))
  {
    hide TrimSpace, SplitAt, Plain;
    if Says(piece, field, value) {
      SplitExactly(field, value);
    }
    if SplitAt(TrimSpace(piece)) == Some((field, value)) {
      SplitIsAtColon(TrimSpace(piece));
    }
  }

  lemma SplitSaysSomething(piece: string)
    requires TrimSpace(piece) != ""
    ensures SaysSomething(piece) <==> SplitAt(TrimSpace(piece)).Some?
  {
    hide TrimSpace, SplitAt, Says;
    if SplitAt(TrimSpace(piece)).Some? {
      var pair := SplitAt(TrimSpace(piece)).value;
      SplitSays(piece, pair.0, pair.1);
    }
    if SaysSomething(piece) {
      var field, value :| Says(piece, field, value);
      SplitSays(piece, field, value);
    }
  }

  lemma BlankSaysNothing(piece: string)
    requires TrimSpace(piece) == ""
    ensures !SaysSomething(piece)
  {
    hide TrimSpace, Plain;
    forall field, value
      ensures !Says(piece, field, value)
    {
      assert |field + ":" + value| > 0;
    }
  }

  /** Some of the terms, one of them said by the piece, holds of the document. */
  ghost predicate PieceHolds(piece: string, cmp: Compare, doc: Doc) {
    exists field, value :: Says(piece, field, value) && Carries(doc, field) && cmp.equal(doc[field], JStr(Unescape(value)))
  }

  ghost predicate SomeHold(terms: seq<QueryTerm>, cmp: Compare, doc: Doc) {
    exists t :: t in terms && FieldEquals(cmp, doc, t.field, JStr(t.value))
  }

  lemma PieceRead(piece: string, cmp: Compare, doc: Doc)
    ensures var r := ReadPiece(piece);
            && (r.Ok? <==> TrimSpace(piece) == "" || SaysSomething(piece))
            && (r.Ok? ==> |r.value| == if TrimSpace(piece) == "" then 0 else 1)
            && (r.Ok? ==> (SomeHold(r.value, cmp, doc) <==> PieceHolds(piece, cmp, doc)))
  {
    hide TrimSpace, SplitAt, Plain, Unescape, Says;
    if TrimSpace(piece) == "" {
      BlankSaysNothing(piece);
    } else {
      SplitSaysSomething(piece);
      if SplitAt(TrimSpace(piece)).Some? {
        var pair := SplitAt(TrimSpace(piece)).value;
        SplitSays(piece, pair.0, pair.1);
        forall field, value | Says(piece, field, value)
          ensures (field, value) == pair
        {
          SplitSays(piece, field, value);
        }
        var t := QueryTerm(pair.0, Unescape(pair.1));
        assert ReadPiece(piece) == Ok([t]);
        assert forall x :: x in [t] <==> x == t;
      }
    }
  }

  lemma SomeHoldAppend(a: seq<QueryTerm>, b: seq<QueryTerm>, cmp: Compare, doc: Doc)
    ensures SomeHold(a + b, cmp, doc) <==> SomeHold(a, cmp, doc) || SomeHold(b, cmp, doc)
  {
    hide FieldEquals;
  }

  ghost predicate GoodPieces(pieces: seq<string>) {
    forall piece :: piece in pieces && TrimSpace(piece) != "" ==> SaysSomething(piece)
  }

  ghost predicate AllBlank(pieces: seq<string>) {
    forall piece :: piece in pieces ==> TrimSpace(piece) == ""
  }

  ghost predicate SomePieceHolds(pieces: seq<string>, cmp: Compare, doc: Doc) {
    exists piece :: piece in pieces && PieceHolds(piece, cmp, doc)
  }

  lemma PiecesOneMore(init: seq<string>, piece: string, cmp: Compare, doc: Doc)
    ensures var all := init + [piece];
            && (GoodPieces(all) <==> GoodPieces(init) && (TrimSpace(piece) == "" || SaysSomething(piece)))
            && (AllBlank(all) <==> AllBlank(init) && TrimSpace(piece) == "")
            && (SomePieceHolds(all, cmp, doc) <==> SomePieceHolds(init, cmp, doc) || PieceHolds(piece, cmp, doc))
  {
    hide TrimSpace, SaysSomething, PieceHolds;
    var all := init + [piece];
    assert piece in all && forall x :: x in all <==> x in init || x == piece;
  }

  lemma {:induction false} PiecesRead(pieces: seq<string>, cmp: Compare, doc: Doc)
    ensures var r := ParsedTerms(pieces);
            && (r.Ok? <==> GoodPieces(pieces))
            && (r.Ok? ==> (r.value == [] <==> AllBlank(pieces)))
            && (r.Ok? ==> (SomeHold(r.value, cmp, doc) <==> SomePieceHolds(pieces, cmp, doc)))
    decreases |pieces|
  {
    hide ReadPiece, SomeHold, PieceHolds, SaysSomething, TrimSpace;
    if pieces == [] {
      assert !SomeHold([], cmp, doc) by {
        NothingHolds(cmp, doc);
      }
    } else {
      var init, piece := pieces[..|pieces| - 1], pieces[|pieces| - 1];
      assert pieces == init + [piece];
      hide GoodPieces, AllBlank, SomePieceHolds;
      PiecesRead(init, cmp, doc);
      PieceRead(piece, cmp, doc);
      PiecesOneMore(init, piece, cmp, doc);
      if ParsedTerms(init).Ok? && ReadPiece(piece).Ok? {
        SomeHoldAppend(ParsedTerms(init).value, ReadPiece(piece).value, cmp, doc);
      }
    }
  }

  lemma NothingHolds(cmp: Compare, doc: Doc)
    ensures !SomeHold([], cmp, doc)
  {
  }

  lemma QueryAgrees(text: string, cmp: Compare, doc: Doc)
    ensures ParsedQuery(text).Ok? <==> GoodQuery(text)
    ensures ParsedQuery(text).Ok? ==> (Holds(ParsedQuery(text).value, cmp, doc) <==> QueryMeans(text, cmp, doc))
  {
    var pieces := SplitOr(text);
    PiecesRead(pieces, cmp, doc);
    assert SomePieceHolds(pieces, cmp, doc) <==>
      exists piece, field, value :: piece in pieces && Says(piece, field, value)
        && Carries(doc, field) && cmp.equal(doc[field], JStr(Unescape(value)));
    if text == "" {
      EmptyQuery();
    }
    hide TrimSpace, SplitOr, Says, Unescape, ParsedTerms, Matches;
  }

  lemma EmptyQuery()
    ensures SplitOr("") == [""] && TrimSpace("") == ""
  {
  }

  // ----- Combinations

  lemma {:induction false} ItemsAgree(list: Json, n: nat, cmp: Compare, doc: Doc)
    requires list.JArr? && IsMapList(list) && n <= |list.items|
    ensures var r := ParsedItems(list, n);
            && (r.Ok? <==> forall i :: 0 <= i < n ==> Acceptable(list.items[i]))
            && (r.Ok? ==> |r.value| == n)
            && (r.Ok? ==> forall i :: 0 <= i < n ==> list.items[i].JObj? && (Holds(r.value[i], cmp, doc) <==> Means(list.items[i], cmp, doc)))
    decreases list, 0, n
  {
    hide Parsed, Holds, Means, Acceptable;
    if n > 0 {
      ItemsAgree(list, n - 1, cmp, doc);
      ParsingKeepsMeaning(list.items[n - 1], cmp, doc);
    }
  }

  lemma ListTaken(j: Json, k: Keyword)
    requires j.JObj? && Has(j.fields, k) && !Get(j.fields, k).JArr?
    ensures AllAcceptable(Get(j.fields, k)) <==> ParsedList(j, k).Ok?
    ensures ParsedList(j, k).Ok? ==> ParsedList(j, k).value == []
  {
    hide ParsedItems;
  }

  lemma NodesMean(list: Json, nodes: seq<FilterNode>, cmp: Compare, doc: Doc)
    requires list.JArr? && IsMapList(list) && |nodes| == |list.items|
    requires forall i :: 0 <= i < |nodes| ==> list.items[i].JObj? && (Holds(nodes[i], cmp, doc) <==> Means(list.items[i], cmp, doc))
    ensures (forall c :: c in nodes ==> Holds(c, cmp, doc)) <==> AllMean(list, cmp, doc)
    ensures (nodes != [] ==> exists d :: d in nodes && Holds(d, cmp, doc)) <==> SomeMeans(list, cmp, doc)
  {
    hide Holds, Means, Acceptable;
    assert forall i :: 0 <= i < |nodes| ==> nodes[i] in nodes;
  }

  /** A list of children that is a map list. */
  lemma {:induction false} ListAgrees(j: Json, k: Keyword, cmp: Compare, doc: Doc)
    requires j.JObj? && Has(j.fields, k)
    ensures var r := ParsedList(j, k);
            var list := Get(j.fields, k);
            && (r.Ok? <==> AllAcceptable(list))
            && (r.Ok? ==> ((forall c :: c in r.value ==> Holds(c, cmp, doc)) <==> AllMean(list, cmp, doc)))
            && (r.Ok? ==> ((r.value != [] ==> exists d :: d in r.value && Holds(d, cmp, doc)) <==> SomeMeans(list, cmp, doc)))
    decreases j, 0
  {
    var list := Get(j.fields, k);
    if !list.JArr? {
      ListTaken(j, k);
    } else if IsMapList(list) {
      ItemsAgree(list, |list.items|, cmp, doc);
      var r := ParsedItems(list, |list.items|);
      assert ParsedList(j, k) == r by {
        hide ParsedItems, Holds, Means, Acceptable;
      }
      hide Holds, Means, Acceptable, ParsedItems, ParsedList, Has, Get, AllMean, SomeMeans;
      if r.Ok? {
        NodesMean(list, r.value, cmp, doc);
      }
    } else {
      hide Holds, Means;
      assert !AllAcceptable(list) by {
        NotMapsNotAcceptable(list);
      }
    }
  }

  lemma NotMapsNotAcceptable(list: Json)
    requires list.JArr? && !IsMapList(list)
    ensures !AllAcceptable(list)
  {
    var i :| 0 <= i < |list.items| && !IsMap(list.items[i]);
    assert !Acceptable(list.items[i]);
  }

  lemma {:induction false} MustNotAgrees(j: Json, cmp: Compare, doc: Doc)
    requires j.JObj?
    ensures var r := ParsedMustNot(j);
            && (r.Ok? <==> ("must_not" in j.fields ==> Acceptable(j.fields["must_not"])))
            && (r.Ok? ==> ((r.value.Some? && Holds(r.value.value, cmp, doc))
                  <==> ("must_not" in j.fields && j.fields["must_not"].JObj? && Means(j.fields["must_not"], cmp, doc))))
    decreases j, 0
  {
    hide Parsed, Holds, Means;
    if "must_not" in j.fields {
      var child := j.fields["must_not"];
      if IsMap(child) {
        hide Acceptable;
        ParsingKeepsMeaning(child, cmp, doc);
      }
    }
  }

  lemma CombinationAgrees(j: Json, cmp: Compare, doc: Doc, conjuncts: Result<seq<FilterNode>, ParseError>,
                          disjuncts: Result<seq<FilterNode>, ParseError>, mustNot: Result<Option<FilterNode>, ParseError>)
    requires j.JObj? && IsCombination(j.fields)
    requires conjuncts == ParsedList(j, Conjuncts) && disjuncts == ParsedList(j, Disjuncts) && mustNot == ParsedMustNot(j)
    requires conjuncts.Ok? <==> ("conjuncts" in j.fields ==> AllAcceptable(j.fields["conjuncts"]))
    requires disjuncts.Ok? <==> ("disjuncts" in j.fields ==> AllAcceptable(j.fields["disjuncts"]))
    requires mustNot.Ok? <==> ("must_not" in j.fields ==> Acceptable(j.fields["must_not"]))
    requires conjuncts.Ok? ==>
      ((forall c :: c in conjuncts.value ==> Holds(c, cmp, doc)) <==> ("conjuncts" in j.fields ==> AllMean(j.fields["conjuncts"], cmp, doc)))
    requires disjuncts.Ok? ==>
      ((disjuncts.value != [] ==> exists d :: d in disjuncts.value && Holds(d, cmp, doc))
        <==> ("disjuncts" in j.fields ==> SomeMeans(j.fields["disjuncts"], cmp, doc)))
    requires mustNot.Ok? ==>
      ((mustNot.value.Some? && Holds(mustNot.value.value, cmp, doc))
        <==> ("must_not" in j.fields && j.fields["must_not"].JObj? && Means(j.fields["must_not"], cmp, doc)))
    ensures Agrees(ParsedBool(j), j, cmp, doc)
  {
    hide ParsedList, ParsedMustNot, AllAcceptable, AllMean, SomeMeans;
  }

  lemma AbsentList(j: Json, k: Keyword)
    requires j.JObj? && !Has(j.fields, k)
    ensures ParsedList(j, k) == Ok([])
  {
  }

  lemma {:induction false} BoolAgrees(j: Json, cmp: Compare, doc: Doc)
    requires j.JObj? && IsCombination(j.fields)
    ensures Agrees(ParsedBool(j), j, cmp, doc)
    decreases j, 1
  {
    var raw := j.fields;
    assert (Has(raw, Conjuncts) <==> "conjuncts" in raw) && (Has(raw, Disjuncts) <==> "disjuncts" in raw);
    assert ("conjuncts" in raw ==> Get(raw, Conjuncts) == raw["conjuncts"]) && ("disjuncts" in raw ==> Get(raw, Disjuncts) == raw["disjuncts"]);
    hide Holds, Means, Acceptable, ParsedList, ParsedMustNot, AllAcceptable, AllMean, SomeMeans, Has, Get, Agrees, IsCombination, ParsedBool;
    if "conjuncts" in raw {
      ListAgrees(j, Conjuncts, cmp, doc);
    } else {
      AbsentList(j, Conjuncts);
    }
    if "disjuncts" in raw {
      ListAgrees(j, Disjuncts, cmp, doc);
    } else {
      AbsentList(j, Disjuncts);
    }
    MustNotAgrees(j, cmp, doc);
    CombinationAgrees(j, cmp, doc, ParsedList(j, Conjuncts), ParsedList(j, Disjuncts), ParsedMustNot(j));
  }

  lemma SimpleAgrees(j: Json, cmp: Compare, doc: Doc)
    requires j.JObj? && !IsCombination(j.fields)
    ensures Agrees(ParsedSimple(j.fields), j, cmp, doc)
  {
    var raw := j.fields;
    if "query" in raw {
      OperandParsed(raw, Query);
      hide ParsedString, ParsedQuery, GoodQuery, QueryMeans, Holds;
      if IsText(raw["query"]) {
        QueryAgrees(Text(raw["query"]), cmp, doc);
      }
    } else if "term" in raw {
      TermAgrees(j, cmp, doc);
      hide Agrees, ParsedTerm;
    } else if "min" in raw || "max" in raw {
      RangeAgrees(j, cmp, doc);
      hide Agrees, ParsedRange;
    } else if "match" in raw {
      LeafAgrees(j, MatchKey, cmp, doc);
      hide Agrees, ParsedLeaf;
    } else if "prefix" in raw {
      LeafAgrees(j, PrefixKey, cmp, doc);
      hide Agrees, ParsedLeaf;
    } else if "wildcard" in raw {
      LeafAgrees(j, WildcardKey, cmp, doc);
      hide Agrees, ParsedLeaf;
    }
  }

  /** Of every JSON value, read key by key: the parser takes it exactly if it is an acceptable
      filter, and the tree it makes then holds of a document exactly if the value means so.  An
      object is decided by the first of its keys in the order of `Acceptable`; missing bounds,
      null lists and empty lists restrict nothing; flags are true unless they are false; null
      strings are empty ones; and blank pieces of a query say nothing. */
  lemma {:induction false} ParsingKeepsMeaning(j: Json, cmp: Compare, doc: Doc)
    requires IsMap(j)
    ensures Parsed(j).Ok? <==> Acceptable(j)
    ensures Parsed(j).Ok? ==> j.JObj? && (Holds(Parsed(j).value, cmp, doc) <==> Means(j, cmp, doc))
    decreases j, 2
  {
    if j.JNull? {
      NullIsRefused(j);
    } else {
      assert IsBool(j.fields) <==> IsCombination(j.fields);
      hide Holds, Means, Acceptable, ParsedBool, ParsedSimple, IsBool, IsCombination;
      if IsCombination(j.fields) {
        BoolAgrees(j, cmp, doc);
      } else {
        SimpleAgrees(j, cmp, doc);
      }
    }
  }

  lemma NullIsRefused(j: Json)
    requires j.JNull?
    ensures Parsed(j).Err? && !Acceptable(j)
  {
  }

  /** A lower bound with no flag, and a document exactly on the bound: it matches. */
  lemma BoundIsIncluded(bound: Json, cmp: Compare)
    requires bound != JNull && cmp.order(bound, bound) == 0
    ensures var j := JObj(map["field" := JStr("age"), "min" := bound]);
            Parsed(j).Ok? && Holds(Parsed(j).value, cmp, map["age" := bound])
  {
    var j := JObj(map["field" := JStr("age"), "min" := bound]);
    ParsingKeepsMeaning(j, cmp, map["age" := bound]);
    hide Parsed, Holds;
  }

  // ----- Errors

  /** A value that has none of the keys. */
  predicate NoKey(raw: Raw) {
    !IsCombination(raw) && "query" !in raw && !IsLeaf(raw) && "match_all" !in raw && "match_none" !in raw
  }

  /** The value of the key is of a kind that the parser cannot use there. */
  predicate WrongKind(raw: Raw, k: Keyword) {
    Has(raw, k) &&
    match k
    case Conjuncts => !IsMapList(Get(raw, k))
    case Disjuncts => !IsMapList(Get(raw, k))
    case MustNot => !IsMap(Get(raw, k))
    case InclusiveMin => !IsFlag(Get(raw, k))
    case InclusiveMax => !IsFlag(Get(raw, k))
    case _ => !IsText(Get(raw, k))
  }

  ghost predicate BadTerm(text: string, term: string) {
    term != "" && exists piece :: piece in SplitOr(text) && TrimSpace(piece) == term && !SaysSomething(piece)
  }

  /** The error names something that is wrong with the value itself. */
  ghost predicate OwnFault(raw: Raw, e: ParseError) {
    match e
    case InvalidFilter => false
    case UnsupportedFilter(r) => r == raw && NoKey(raw)
    case MissingField => IsLeaf(raw) && "field" !in raw
    case InvalidValue(k) => WrongKind(raw, k)
    case UnsupportedQuery(term) => "query" in raw && IsText(raw["query"]) && BadTerm(Text(raw["query"]), term)
  }

  /** ... or with a part of it. */
  ghost predicate Fault(j: Json, e: ParseError)
    decreases j, 0
  {
    || OwnFault(Fields(j), e)
    || (j.JObj? && "conjuncts" in j.fields && ListFault(j.fields["conjuncts"], e))
    || (j.JObj? && "disjuncts" in j.fields && ListFault(j.fields["disjuncts"], e))
    || (j.JObj? && "must_not" in j.fields && Fault(j.fields["must_not"], e))
  }

  ghost predicate ListFault(list: Json, e: ParseError)
    decreases list, 1
  {
    list.JArr? && exists i :: 0 <= i < |list.items| && Fault(list.items[i], e)
  }

  lemma {:induction false} PiecesFault(pieces: seq<string>)
    ensures var r := ParsedTerms(pieces);
            && (r.Err? ==> r.error.UnsupportedQuery? && r.error.term != "")
            && (r.Err? ==> exists piece :: piece in pieces && TrimSpace(piece) == r.error.term && !SaysSomething(piece))
    decreases |pieces|
  {
    hide TrimSpace, SaysSomething, SplitAt, Unescape;
    if pieces != [] {
      var init, piece := pieces[..|pieces| - 1], pieces[|pieces| - 1];
      PiecesFault(init);
      assert piece in pieces && forall x :: x in init ==> x in pieces;
      if TrimSpace(piece) != "" {
        SplitSaysSomething(piece);
      }
    }
  }

  lemma SimpleFault(raw: Raw)
    requires !IsCombination(raw)
    ensures ParsedSimple(raw).Err? ==> OwnFault(raw, ParsedSimple(raw).error)
  {
    hide TrimSpace, SaysSomething, SplitOr, ParsedTerms;
    if "query" in raw {
      PiecesFault(SplitOr(Text(raw["query"])));
    }
  }

  lemma {:induction false} ItemsFault(list: Json, n: nat)
    requires list.JArr? && IsMapList(list) && n <= |list.items|
    ensures ParsedItems(list, n).Err? ==> ListFault(list, ParsedItems(list, n).error)
    decreases list, 0, n
  {
    hide Parsed, Fault;
    if n > 0 {
      ItemsFault(list, n - 1);
      ErrorsAreFaults(list.items[n - 1]);
    }
  }

  lemma {:induction false} ListErrors(j: Json, k: Keyword)
    requires j.JObj? && (k == Conjuncts || k == Disjuncts)
    ensures var r := ParsedList(j, k);
            r.Err? ==> Has(j.fields, k) && (OwnFault(j.fields, r.error) || ListFault(Get(j.fields, k), r.error))
    decreases j, 0
  {
    hide ParsedItems, ListFault;
    if Has(j.fields, k) && IsMapList(Get(j.fields, k)) && Get(j.fields, k).JArr? {
      ItemsFault(Get(j.fields, k), |Get(j.fields, k).items|);
    }
  }

  lemma {:induction false} MustNotErrors(j: Json)
    requires j.JObj?
    ensures var r := ParsedMustNot(j);
            r.Err? ==> "must_not" in j.fields && (OwnFault(j.fields, r.error) || Fault(j.fields["must_not"], r.error))
    decreases j, 0
  {
    hide Parsed, Fault;
    if "must_not" in j.fields && IsMap(j.fields["must_not"]) {
      ErrorsAreFaults(j.fields["must_not"]);
    }
  }

  lemma {:induction false} CombinationFault(j: Json)
    requires j.JObj? && IsCombination(j.fields)
    ensures ParsedBool(j).Err? ==> Fault(j, ParsedBool(j).error)
    decreases j, 1
  {
    ListErrors(j, Conjuncts);
    ListErrors(j, Disjuncts);
    MustNotErrors(j);
    assert (Has(j.fields, Conjuncts) ==> Get(j.fields, Conjuncts) == j.fields["conjuncts"])
        && (Has(j.fields, Disjuncts) ==> Get(j.fields, Disjuncts) == j.fields["disjuncts"]);
    hide ParsedList, ParsedMustNot, OwnFault, ListFault;
  }

  /** Every error of the parser names a fault that is there: an object without any of the keys, a
      leaf without a field, a key whose value is of the wrong kind, or a piece of a query that has
      no field in front of a colon. */
  lemma {:induction false} ErrorsAreFaults(j: Json)
    requires IsMap(j)
    ensures Parsed(j).Err? ==> Fault(j, Parsed(j).error)
    decreases j, 2
  {
    assert IsBool(Fields(j)) <==> IsCombination(Fields(j));
    hide ParsedBool, ParsedSimple, OwnFault, IsBool, IsCombination;
    if IsBool(Fields(j)) {
      assert j.JObj? by {
        CombinationIsObject(j);
      }
      CombinationFault(j);
      hide Fault;
    } else {
      SimpleFault(Fields(j));
    }
  }

  lemma CombinationIsObject(j: Json)
    requires IsCombination(Fields(j))
    ensures j.JObj?
  {
  }
}
