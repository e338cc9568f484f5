/** Printing filter trees as JSON, and why parsing gives them back. */
module FilterRoundTrip {
  import opened Wrappers
  import opened Whitespace
  import opened QueryStrings
  import opened FilterTree
  import opened FilterParser
  import opened QueryRoundTrip

  // ----- Printing

  function Operand(k: Keyword, field: string, operand: Json): Json {
    JObj(map[Name(k) := operand, Name(Field) := JStr(field)])
  }

  function ToJson(special: char -> bool, n: FilterNode): Json
    decreases n
  {
    match n
    case MatchAll => JObj(map[Name(MatchAllKey) := JObj(map[])])
    case MatchNone => JObj(map[Name(MatchNoneKey) := JObj(map[])])
    case Term(field, value) => Operand(TermKey, field, value)
    case Match(field, word) => Operand(MatchKey, field, JStr(word))
    case Prefix(field, prefix) => Operand(PrefixKey, field, JStr(prefix))
    case Wild(field, pattern) => Operand(WildcardKey, field, JStr(pattern))
    case Range(field, lower, upper, inclusiveMin, inclusiveMax) =>
      JObj(map[Name(Field) := JStr(field), Name(Min) := lower, Name(Max) := upper,
               Name(InclusiveMin) := JBool(inclusiveMin), Name(InclusiveMax) := JBool(inclusiveMax)])
    case Bool(conjuncts, disjuncts, mustNot) =>
      var both := map[Name(Conjuncts) := JArr(seq(|conjuncts|, i requires 0 <= i < |conjuncts| => ToJson(special, conjuncts[i]))),
                      Name(Disjuncts) := JArr(seq(|disjuncts|, i requires 0 <= i < |disjuncts| => ToJson(special, disjuncts[i])))];
      JObj(if mustNot.Some? then both[Name(MustNot) := ToJson(special, mustNot.value)] else both)
    case QueryString(terms) => JObj(map[Name(Query) := JStr(QueryText(special, terms))])
  }

  /** Every query string in the tree has terms, and their fields have no stray colons. */
  ghost predicate PlainTree(n: FilterNode) {
    match n
    case Bool(conjuncts, disjuncts, mustNot) =>
      && (forall c :: c in conjuncts ==> PlainTree(c))
      && (forall d :: d in disjuncts ==> PlainTree(d))
      && (mustNot.Some? ==> PlainTree(mustNot.value))
    case QueryString(terms) => terms != [] && forall t :: t in terms ==> Plain(t.field)
    case _ => true
  }

  /** No printed term of a query string in the tree starts or ends with white space, and
      " OR " occurs neither in one nor across a joint. */
  ghost predicate SeparableTree(special: char -> bool, n: FilterNode) {
    match n
    case Bool(conjuncts, disjuncts, mustNot) =>
      && (forall c :: c in conjuncts ==> SeparableTree(special, c))
      && (forall d :: d in disjuncts ==> SeparableTree(special, d))
      && (mustNot.Some? ==> SeparableTree(special, mustNot.value))
    case QueryString(terms) => forall i :: 0 <= i < |terms| ==> Separable(special, terms[i], i == |terms| - 1)
    case _ => true
  }

  ghost predicate WellFormed(special: char -> bool, n: FilterNode) {
    PlainTree(n) && SeparableTree(special, n)
  }

  /** No term of a query string in the tree contains white space. */
  ghost predicate SpacelessTree(n: FilterNode) {
    match n
    case Bool(conjuncts, disjuncts, mustNot) =>
      && (forall c :: c in conjuncts ==> SpacelessTree(c))
      && (forall d :: d in disjuncts ==> SpacelessTree(d))
      && (mustNot.Some? ==> SpacelessTree(mustNot.value))
    case QueryString(terms) => forall t :: t in terms ==> Spaceless(t)
    case _ => true
  }

  // ----- Keys are told apart

  lemma NamesDiffer(a: Keyword, b: Keyword)
    ensures Name(a) == Name(b) <==> a == b
  {
    if Name(a) == Name(b) {
      NameShape(a);
      NameShape(b);
      hide Name;
      var n := Name(a);
      assert |n| == |Name(b)| && n[0] == Name(b)[0] && n[1] == Name(b)[1];
    }
  }

  /** Lengths and a few characters are enough to tell the keys apart. */
  lemma NameShape(k: Keyword)
    ensures |Name(k)| >= 3
    ensures |Name(k)| == 3 ==> (k == Min && Name(k)[1] == 'i') || (k == Max && Name(k)[1] == 'a')
    ensures |Name(k)| == 4 ==> k == TermKey
    ensures |Name(k)| == 5 ==>
      (k == Query && Name(k)[0] == 'q') || (k == MatchKey && Name(k)[0] == 'm') || (k == Field && Name(k)[0] == 'f')
    ensures |Name(k)| == 6 ==> k == PrefixKey
    ensures |Name(k)| == 8 ==> (k == WildcardKey && Name(k)[0] == 'w') || (k == MustNot && Name(k)[0] == 'm')
    ensures |Name(k)| == 9 ==>
      (k == Conjuncts && Name(k)[0] == 'c') || (k == Disjuncts && Name(k)[0] == 'd') || (k == MatchAllKey && Name(k)[0] == 'm')
    ensures |Name(k)| == 10 ==> k == MatchNoneKey
    ensures |Name(k)| == 13 ==> (k == InclusiveMin && Name(k)[11] == 'i') || (k == InclusiveMax && Name(k)[11] == 'a')
    ensures |Name(k)| in {3, 4, 5, 6, 8, 9, 10, 13}
  {
  }

  // ----- Trees

  lemma OneField(k: Keyword, v: Json)
    ensures var raw := map[Name(k) := v];
            Get(raw, k) == v && forall x: Keyword :: Has(raw, x) <==> x == k
  {
    hide Name;
    forall x: Keyword
      ensures Name(x) == Name(k) <==> x == k
    {
      NamesDiffer(x, k);
    }
  }

  lemma OperandFields(k: Keyword, field: string, operand: Json)
    requires k != Field
    ensures var raw := Operand(k, field, operand).fields;
            && (forall x: Keyword :: Has(raw, x) <==> x == k || x == Field)
            && Get(raw, k) == operand && Get(raw, Field) == JStr(field)
  {
    hide Name;
    forall x: Keyword
      ensures (Name(x) == Name(k) <==> x == k) && (Name(x) == Name(Field) <==> x == Field)
    {
      NamesDiffer(x, k);
      NamesDiffer(x, Field);
    }
  }

  /** The keys of a printed range are told apart, and no others are there. */
  lemma RangeFields(special: char -> bool, n: FilterNode)
    requires n.Range?
    ensures var j := ToJson(special, n);
            && j.JObj?
            && (forall x: Keyword :: Has(j.fields, x) <==> x in {Field, Min, Max, InclusiveMin, InclusiveMax})
            && Get(j.fields, Field) == JStr(n.field) && Get(j.fields, Min) == n.lower && Get(j.fields, Max) == n.upper
            && Get(j.fields, InclusiveMin) == JBool(n.inclusiveMin) && Get(j.fields, InclusiveMax) == JBool(n.inclusiveMax)
  {
    hide Name;
    forall x: Keyword, y: Keyword
      ensures Name(x) == Name(y) <==> x == y
    {
      NamesDiffer(x, y);
    }
  }

  lemma ConstantReadsBack(special: char -> bool, n: FilterNode)
    requires n.MatchAll? || n.MatchNone?
    ensures ToJson(special, n).JObj? && !IsBool(ToJson(special, n).fields)
    ensures ParsedSimple(ToJson(special, n).fields) == Ok(n)
  {
    OneField(if n.MatchAll? then MatchAllKey else MatchNoneKey, JObj(map[]));
    hide Name, Has, Get;
  }

  lemma QueryNodeReadsBack(special: char -> bool, n: FilterNode)
    requires special('\\') && n.QueryString?
    ensures ToJson(special, n).JObj? && !IsBool(ToJson(special, n).fields)
    ensures ParsedSimple(ToJson(special, n).fields) == Ok(n) <==> WellFormed(special, n)
  {
    hide Name, ParsedQuery, QueryText, Separable, Plain, Has, Get;
    QueryReadsBack(special, n.terms);
    OneField(Query, JStr(QueryText(special, n.terms)));
    assert QueryPrintable(special, n.terms) <==> WellFormed(special, n) by {
      assert forall i :: 0 <= i < |n.terms| ==> n.terms[i] in n.terms;
    }
  }

  lemma ExactReadsBack(field: string, value: Json)
    ensures !IsBool(Operand(TermKey, field, value).fields)
    ensures ParsedSimple(Operand(TermKey, field, value).fields) == Ok(Term(field, value))
  {
    OperandFields(TermKey, field, value);
    hide Name, Has, Get, Operand;
  }

  lemma LeafParses(k: Keyword, field: string, operand: string)
    requires k != Field
    ensures Has(Operand(k, field, JStr(operand)).fields, k)
    ensures ParsedLeaf(Operand(k, field, JStr(operand)).fields, k) == Ok(StringLeaf(k, field, operand))
  {
    OperandFields(k, field, JStr(operand));
    hide Name, Has, Get, Operand;
  }

  lemma LeafIsReached(raw: Raw, k: Keyword)
    requires k == MatchKey || k == PrefixKey || k == WildcardKey
    requires forall x: Keyword :: Has(raw, x) <==> x == k || x == Field
    ensures !IsBool(raw) && ParsedSimple(raw) == ParsedLeaf(raw, k)
  {
    hide Has, Name, ParsedLeaf, ParsedTerm, ParsedRange, ParsedString, ParsedQuery;
  }

  lemma StringLeafReadsBack(k: Keyword, field: string, operand: string)
    requires k == MatchKey || k == PrefixKey || k == WildcardKey
    ensures !IsBool(Operand(k, field, JStr(operand)).fields)
    ensures ParsedSimple(Operand(k, field, JStr(operand)).fields) == Ok(StringLeaf(k, field, operand))
  {
    OperandFields(k, field, JStr(operand));
    LeafParses(k, field, operand);
    hide *;
    LeafIsReached(Operand(k, field, JStr(operand)).fields, k);
  }

  lemma OperandReadsBack(special: char -> bool, n: FilterNode)
    requires n.Term? || n.Match? || n.Prefix? || n.Wild?
    ensures ToJson(special, n).JObj? && !IsBool(ToJson(special, n).fields)
    ensures ParsedSimple(ToJson(special, n).fields) == Ok(n)
  {
    hide Name, IsBool, ParsedSimple;
    match n
    case Term(field, value) => ExactReadsBack(field, value);
    case Match(field, word) => StringLeafReadsBack(MatchKey, field, word);
    case Prefix(field, prefix) => StringLeafReadsBack(PrefixKey, field, prefix);
    case Wild(field, pattern) => StringLeafReadsBack(WildcardKey, field, pattern);
  }

  lemma RangeReadsBack(special: char -> bool, n: FilterNode)
    requires n.Range?
    ensures ToJson(special, n).JObj? && !IsBool(ToJson(special, n).fields)
    ensures ParsedSimple(ToJson(special, n).fields) == Ok(n)
  {
    RangeFields(special, n);
    hide Name, Has, Get, ToJson;
  }

  ghost predicate ReadsBack(special: char -> bool, n: FilterNode) {
    IsMap(ToJson(special, n)) && Parsed(ToJson(special, n)) == Ok(n)
  }

  function Printed(special: char -> bool, nodes: seq<FilterNode>): (r: Json)
    ensures r.JArr?
  {
    JArr(seq(|nodes|, i requires 0 <= i < |nodes| => ToJson(special, nodes[i])))
  }

  lemma PrintedIsObject(special: char -> bool, n: FilterNode)
    ensures ToJson(special, n).JObj?
  {
    hide Name, QueryText;
  }

  lemma PrintedIsList(special: char -> bool, nodes: seq<FilterNode>)
    ensures IsMapList(Printed(special, nodes)) && |Printed(special, nodes).items| == |nodes|
    ensures forall i :: 0 <= i < |nodes| ==> Printed(special, nodes).items[i] == ToJson(special, nodes[i])
  {
    hide ToJson;
    forall i | 0 <= i < |nodes|
      ensures IsMap(Printed(special, nodes).items[i])
    {
      PrintedIsObject(special, nodes[i]);
    }
  }

  lemma {:induction false} ItemsReadBack(special: char -> bool, nodes: seq<FilterNode>, m: nat)
    requires m <= |nodes|
    ensures IsMapList(Printed(special, nodes)) && |Printed(special, nodes).items| == |nodes|
    ensures ParsedItems(Printed(special, nodes), m) == Ok(nodes[..m]) <==> forall i :: 0 <= i < m ==> ReadsBack(special, nodes[i])
  {
    PrintedIsList(special, nodes);
    hide ToJson, Parsed, Printed, IsMapList;
    if m > 0 {
      ItemsReadBack(special, nodes, m - 1);
      PrintedIsObject(special, nodes[m - 1]);
      assert nodes[..m] == nodes[..m - 1] + [nodes[m - 1]];
      OneMoreItem(Printed(special, nodes), nodes, m);
    }
  }

  lemma OneMoreItem(list: Json, nodes: seq<FilterNode>, m: nat)
    requires list.JArr? && IsMapList(list) && |list.items| == |nodes| && 0 < m <= |nodes|
    ensures ParsedItems(list, m) == Ok(nodes[..m]) <==>
      ParsedItems(list, m - 1) == Ok(nodes[..m - 1]) && Parsed(list.items[m - 1]) == Ok(nodes[m - 1])
  {
    hide Parsed;
    assert nodes[..m] == nodes[..m - 1] + [nodes[m - 1]];
    if ParsedItems(list, m) == Ok(nodes[..m]) {
      var init, child := ParsedItems(list, m - 1).value, Parsed(list.items[m - 1]).value;
      assert init + [child] == nodes[..m];
      assert (init + [child])[..|init|] == init;
    }
  }

  /** The fields of a printed combination. */
  lemma BoolFields(special: char -> bool, n: FilterNode)
    requires n.Bool?
    ensures var j := ToJson(special, n);
            && j.JObj?
            && Has(j.fields, Conjuncts) && Get(j.fields, Conjuncts) == Printed(special, n.conjuncts)
            && Has(j.fields, Disjuncts) && Get(j.fields, Disjuncts) == Printed(special, n.disjuncts)
            && (Has(j.fields, MustNot) <==> n.mustNot.Some?)
            && (n.mustNot.Some? ==> Get(j.fields, MustNot) == ToJson(special, n.mustNot.value))
  {
    hide Name;
    NamesDiffer(Conjuncts, Disjuncts);
    NamesDiffer(Conjuncts, MustNot);
    NamesDiffer(Disjuncts, MustNot);
  }

  lemma ListReadsBack(special: char -> bool, j: Json, k: Keyword, nodes: seq<FilterNode>)
    requires j.JObj? && Has(j.fields, k) && Get(j.fields, k) == Printed(special, nodes)
    ensures ParsedList(j, k) == Ok(nodes) <==> forall i :: 0 <= i < |nodes| ==> ReadsBack(special, nodes[i])
  {
    ItemsReadBack(special, nodes, |nodes|);
    hide ParsedItems, ReadsBack, Has, Get, IsMapList;
    assert nodes[..|nodes|] == nodes;
  }

  lemma MustNotReadsBack(special: char -> bool, j: Json, node: Option<FilterNode>)
    requires j.JObj? && (Has(j.fields, MustNot) <==> node.Some?)
    requires node.Some? ==> Get(j.fields, MustNot) == ToJson(special, node.value)
    ensures ParsedMustNot(j) == Ok(node) <==> (node.Some? ==> ReadsBack(special, node.value))
  {
    hide Parsed, ToJson, Has, Get;
    if node.Some? {
      PrintedIsObject(special, node.value);
    }
  }

  lemma BoolReadsBack(special: char -> bool, n: FilterNode)
    requires n.Bool?
    ensures ReadsBack(special, n) <==>
      && (forall i :: 0 <= i < |n.conjuncts| ==> ReadsBack(special, n.conjuncts[i]))
      && (forall i :: 0 <= i < |n.disjuncts| ==> ReadsBack(special, n.disjuncts[i]))
      && (n.mustNot.Some? ==> ReadsBack(special, n.mustNot.value))
  {
    var j := ToJson(special, n);
    hide ToJson, Get, Has, ParsedList, ParsedMustNot, ParsedSimple;
    BoolFields(special, n);
    ListReadsBack(special, j, Conjuncts, n.conjuncts);
    ListReadsBack(special, j, Disjuncts, n.disjuncts);
    MustNotReadsBack(special, j, n.mustNot);
    BoolParses(j, n);
  }

  lemma BoolParses(j: Json, n: FilterNode)
    requires n.Bool? && j.JObj? && IsBool(j.fields)
    ensures Parsed(j) == Ok(n) <==>
      ParsedList(j, Conjuncts) == Ok(n.conjuncts) && ParsedList(j, Disjuncts) == Ok(n.disjuncts) && ParsedMustNot(j) == Ok(n.mustNot)
  {
    hide IsBool, ParsedList, ParsedMustNot, ParsedSimple;
  }

  lemma WellFormedBool(special: char -> bool, n: FilterNode)
    requires n.Bool?
    ensures WellFormed(special, n) <==>
      && (forall i :: 0 <= i < |n.conjuncts| ==> WellFormed(special, n.conjuncts[i]))
      && (forall i :: 0 <= i < |n.disjuncts| ==> WellFormed(special, n.disjuncts[i]))
      && (n.mustNot.Some? ==> WellFormed(special, n.mustNot.value))
  {
    if forall i :: 0 <= i < |n.conjuncts| ==> WellFormed(special, n.conjuncts[i]) {
      assert forall c :: c in n.conjuncts ==> PlainTree(c) && SeparableTree(special, c);
    }
    if forall i :: 0 <= i < |n.disjuncts| ==> WellFormed(special, n.disjuncts[i]) {
      assert forall d :: d in n.disjuncts ==> PlainTree(d) && SeparableTree(special, d);
    }
  }

  /** Parsing undoes printing, on trees of any depth and whatever the writer escapes besides
      the backslash, exactly if the tree is well formed: its query strings have terms, the
      fields no stray colons, and the printed terms can be told apart. */
  lemma {:induction false} ParseUndoesPrint(special: char -> bool, n: FilterNode)
    requires special('\\')
    ensures ReadsBack(special, n) <==> WellFormed(special, n)
    decreases n
  {
    if n.Bool? {
      forall i | 0 <= i < |n.conjuncts|
        ensures ReadsBack(special, n.conjuncts[i]) <==> WellFormed(special, n.conjuncts[i])
      {
        ParseUndoesPrint(special, n.conjuncts[i]);
      }
      forall i | 0 <= i < |n.disjuncts|
        ensures ReadsBack(special, n.disjuncts[i]) <==> WellFormed(special, n.disjuncts[i])
      {
        ParseUndoesPrint(special, n.disjuncts[i]);
      }
      if n.mustNot.Some? {
        ParseUndoesPrint(special, n.mustNot.value);
      }
      hide ReadsBack, WellFormed;
      BoolReadsBack(special, n);
      WellFormedBool(special, n);
    } else {
      hide ToJson, ParsedBool, ParsedSimple, Plain, Separable;
      if n.Range? {
        RangeReadsBack(special, n);
      } else if n.QueryString? {
        QueryNodeReadsBack(special, n);
      } else if n.MatchAll? || n.MatchNone? {
        ConstantReadsBack(special, n);
      } else {
        OperandReadsBack(special, n);
      }
    }
  }

  /** Terms without any white space can always be told apart. */
  lemma {:induction false} SpacelessTreeIsSeparable(special: char -> bool, n: FilterNode)
    requires SpacelessTree(n)
    ensures SeparableTree(special, n)
    decreases n
  {
    hide Spaceless, Separable;
    match n
    case Bool(conjuncts, disjuncts, mustNot) =>
      forall c | c in conjuncts
        ensures SeparableTree(special, c)
      {
        SpacelessTreeIsSeparable(special, c);
      }
      forall d | d in disjuncts
        ensures SeparableTree(special, d)
      {
        SpacelessTreeIsSeparable(special, d);
      }
      if mustNot.Some? {
        SpacelessTreeIsSeparable(special, mustNot.value);
      }
    case QueryString(terms) =>
      forall i | 0 <= i < |terms|
        ensures Separable(special, terms[i], i == |terms| - 1)
      {
        SpacelessIsSeparable(special, terms[i], i == |terms| - 1);
      }
    case _ =>
  }

  // ----- What the parser makes

  lemma {:induction false} ParsedTermsArePlain(pieces: seq<string>)
    ensures ParsedTerms(pieces).Ok? ==> forall t :: t in ParsedTerms(pieces).value ==> Plain(t.field)
    decreases |pieces|
  {
    if pieces != [] {
      var k := |pieces| - 1;
      ParsedTermsArePlain(pieces[..k]);
      if ReadPiece(pieces[k]).Ok? && ReadPiece(pieces[k]).value != [] {
        ReadPieceSplits(pieces[k], ReadPiece(pieces[k]).value[0]);
      }
      hide TrimSpace, SplitAt, Unescape, Plain;
    }
  }

  lemma ParsedSimpleIsPlain(raw: Raw)
    ensures ParsedSimple(raw).Ok? ==> PlainTree(ParsedSimple(raw).value)
  {
    hide Plain, ParsedTerms, SplitOr, Name;
    if Has(raw, Query) && ParsedString(raw, Query).Ok? {
      ParsedTermsArePlain(SplitOr(ParsedString(raw, Query).value));
    }
  }

  lemma {:induction false} ParsedItemsArePlain(list: Json, n: nat)
    requires list.JArr? && IsMapList(list) && n <= |list.items|
    ensures ParsedItems(list, n).Ok? ==> forall c :: c in ParsedItems(list, n).value ==> PlainTree(c)
    decreases list, 0, n
  {
    hide Parsed, PlainTree;
    if n > 0 {
      ParsedItemsArePlain(list, n - 1);
      ParsedIsPlain(list.items[n - 1]);
    }
  }

  lemma {:induction false} ParsedListIsPlain(j: Json, k: Keyword)
    ensures ParsedList(j, k).Ok? ==> forall c :: c in ParsedList(j, k).value ==> PlainTree(c)
    decreases j, 0
  {
    hide ParsedItems, PlainTree;
    if Has(Fields(j), k) && Get(Fields(j), k).JArr? && IsMapList(Get(Fields(j), k)) {
      var list := Get(Fields(j), k);
      ParsedItemsArePlain(list, |list.items|);
    }
  }

  lemma {:induction false} ParsedMustNotIsPlain(j: Json)
    ensures ParsedMustNot(j).Ok? && ParsedMustNot(j).value.Some? ==> PlainTree(ParsedMustNot(j).value.value)
    decreases j, 0
  {
    hide Parsed, PlainTree;
    if Has(Fields(j), MustNot) && IsMap(Get(Fields(j), MustNot)) {
      ParsedIsPlain(Get(Fields(j), MustNot));
    }
  }

  /** Every tree the parser makes meets the first condition of printing. */
  lemma {:induction false} ParsedIsPlain(j: Json)
    requires IsMap(j)
    ensures Parsed(j).Ok? ==> PlainTree(Parsed(j).value)
    decreases j, 2
  {
    hide ParsedSimple, ParsedList, ParsedMustNot, Name, Plain;
    if IsBool(Fields(j)) {
      ParsedListIsPlain(j, Conjuncts);
      ParsedListIsPlain(j, Disjuncts);
      ParsedMustNotIsPlain(j);
    } else {
      ParsedSimpleIsPlain(Fields(j));
    }
  }

  /** What the parser made of a JSON value, printed and parsed again, is the same tree exactly
      if the printed terms of its query strings can be told apart. */
  lemma PrintingNormalises(special: char -> bool, j: Json)
    requires special('\\') && IsMap(j) && Parsed(j).Ok?
    ensures ReadsBack(special, Parsed(j).value) <==> SeparableTree(special, Parsed(j).value)
  {
    hide Parsed, PlainTree, SeparableTree, ReadsBack;
    ParsedIsPlain(j);
    ParseUndoesPrint(special, Parsed(j).value);
  }

  // ----- Which key decides

  const KEY_ORDER: seq<Keyword> :=
    [Conjuncts, Disjuncts, MustNot, Query, TermKey, Min, Max, MatchKey, PrefixKey, WildcardKey, MatchAllKey, MatchNoneKey]

  predicate Makes(k: Keyword, n: FilterNode) {
    match k
    case Conjuncts => n.Bool?
    case Disjuncts => n.Bool?
    case MustNot => n.Bool?
    case Query => n.QueryString? || n.MatchAll?
    case TermKey => n.Term?
    case Min => n.Range?
    case Max => n.Range?
    case MatchKey => n.Match?
    case PrefixKey => n.Prefix?
    case WildcardKey => n.Wild?
    case MatchAllKey => n.MatchAll?
    case MatchNoneKey => n.MatchNone?
    case _ => false
  }

  /** Of all the keys present the first one in the source's order decides the kind of node;
      without any of them the filter is unsupported. */
  lemma FirstKeyDecides(j: Json, i: nat)
    requires IsMap(j) && i <= |KEY_ORDER|
    requires forall h :: 0 <= h < i ==> !Has(Fields(j), KEY_ORDER[h])
    ensures i < |KEY_ORDER| && Has(Fields(j), KEY_ORDER[i]) && Parsed(j).Ok? ==> Makes(KEY_ORDER[i], Parsed(j).value)
    ensures i == |KEY_ORDER| ==> Parsed(j) == Err(UnsupportedFilter(Fields(j)))
  {
    hide Has, ParsedTerms, SplitOr, ParsedList, ParsedMustNot;
    var raw := Fields(j);
    assert i > 0 ==> !Has(raw, KEY_ORDER[0]);
    assert i > 1 ==> !Has(raw, KEY_ORDER[1]);
    assert i > 2 ==> !Has(raw, KEY_ORDER[2]);
    assert i > 3 ==> !Has(raw, KEY_ORDER[3]);
    assert i > 4 ==> !Has(raw, KEY_ORDER[4]);
    assert i > 5 ==> !Has(raw, KEY_ORDER[5]);
    assert i > 6 ==> !Has(raw, KEY_ORDER[6]);
    assert i > 7 ==> !Has(raw, KEY_ORDER[7]);
    assert i > 8 ==> !Has(raw, KEY_ORDER[8]);
    assert i > 9 ==> !Has(raw, KEY_ORDER[9]);
    assert i > 10 ==> !Has(raw, KEY_ORDER[10]);
    assert i > 11 ==> !Has(raw, KEY_ORDER[11]);
  }
}
