/** Printing the terms of a query string, and exactly when the parser gives them back. */
module QueryRoundTrip {
  import opened Wrappers
  import opened Whitespace
  import opened TextSearch
  import opened QueryStrings
  import opened FilterTree
  import opened FilterParser

  // ----- Printing

  /** A term with its value escaped; `special` is the writer's choice of characters to escape. */
  function TermText(special: char -> bool, t: QueryTerm): string {
    t.field + ":" + Escape(special, t.value)
  }

  function TermTexts(special: char -> bool, terms: seq<QueryTerm>): seq<string> {
    seq(|terms|, i requires 0 <= i < |terms| => TermText(special, terms[i]))
  }

  function QueryText(special: char -> bool, terms: seq<QueryTerm>): string {
    JoinOr(TermTexts(special, terms))
  }

  /** The printed term has no white space at its ends and stands alone among the others. */
  predicate Separable(special: char -> bool, t: QueryTerm, last: bool) {
    TrimSpace(TermText(special, t)) == TermText(special, t) && StandsAlone(TermText(special, t), last)
  }

  predicate TermPrintable(special: char -> bool, t: QueryTerm, last: bool) {
    Plain(t.field) && Separable(special, t, last)
  }

  ghost predicate QueryPrintable(special: char -> bool, terms: seq<QueryTerm>) {
    terms != [] && forall i :: 0 <= i < |terms| ==> TermPrintable(special, terms[i], i == |terms| - 1)
  }

  // ----- Reading pieces from the front

  lemma {:induction false} ParsedTermsFront(piece: string, rest: seq<string>)
    ensures ParsedTerms([piece] + rest).Ok? <==> ReadPiece(piece).Ok? && ParsedTerms(rest).Ok?
    ensures ParsedTerms([piece] + rest).Ok? ==> ParsedTerms([piece] + rest).value == ReadPiece(piece).value + ParsedTerms(rest).value
    decreases |rest|
  {
    hide ReadPiece;
    var all := [piece] + rest;
    if rest == [] {
      assert all[..0] == [];
      assert all == [piece];
    } else {
      var k := |rest| - 1;
      assert all[..|all| - 1] == [piece] + rest[..k];
      assert all[|all| - 1] == rest[k];
      ParsedTermsFront(piece, rest[..k]);
    }
  }

  // ----- What a prefix of a printed term reads as

  /** A part of an escaped value that does not stop in front of a backslash unescapes to
      something else. */
  lemma {:induction false} PartUnescapesShort(special: char -> bool, v: string, e: string)
    requires special('\\') && e <= Escape(special, v) && |e| < |Escape(special, v)| && Escape(special, v)[|e|] != '\\'
    ensures Unescape(e) != v
    decreases |v|
  {
    var n := if special(v[0]) then 2 else 1;
    var tail := Escape(special, v[1..]);
    var all := Escape(special, v);
    assert all[n..] == tail;
    if |e| >= n {
      assert e[..n] == all[..n];
      assert e[n..] == tail[..|e| - n];
      assert tail[|e| - n] == all[|e|];
      PartUnescapesShort(special, v[1..], e[n..]);
      assert Unescape(e) == [v[0]] + Unescape(e[n..]);
      assert v == [v[0]] + v[1..];
    } else if |e| == 1 {
      assert e == ['\\'] && all[1] == v[0];
      assert e[1..] == "";
    }
  }

  /** White space trimmed off the end starts where the trimmed string ends. */
  lemma {:induction false} TrimmedTailIsSpace(s: string)
    ensures TrimRight(s) <= s
    ensures |TrimRight(s)| < |s| ==> LeadingSpace(s[|TrimRight(s)|..]) > 0
    decreases |s|
  {
    hide LeadingSpace, TrailingSpace;
    var n := TrailingSpace(s);
    if n > 0 {
      var init := s[..|s| - n];
      TrimmedTailIsSpace(init);
      TrailingSpaceIsSpace(s);
      var k := |TrimRight(init)|;
      assert s[k..] == init[k..] + s[|s| - n..];
      if k < |init| {
        LeadingSpaceAppend(init[k..], s[|s| - n..]);
      } else {
        assert s[k..] == s[|s| - n..];
      }
    }
  }

  lemma SpaceStartsWithoutBackslash(s: string)
    requires LeadingSpace(s) > 0
    ensures s[0] != '\\' && s[0] != ':'
  {
  }

  /** A string that is all white space starts with white space. */
  lemma BlankStartsWithSpace(s: string)
    requires s != "" && TrimSpace(s) == ""
    ensures LeadingSpace(s) > 0
  {
    SqueezeTrim(s);
    assert Squeeze("") == "";
  }

  /** The fields of the terms that were read have no white space at their front. */
  lemma TrimmedFront(s: string)
    ensures LeadingSpace(TrimSpace(s)) == 0
  {
    TrimLeftFront(s);
    TrimmedTailIsSpace(TrimLeft(s));
    var t := TrimLeft(s);
    var r := TrimRight(t);
    assert t == r + t[|r|..];
    LeadingSpaceAppend(r, t[|r|..]);
  }

  lemma {:induction false} TrimLeftFront(s: string)
    ensures LeadingSpace(TrimLeft(s)) == 0
    decreases |s|
  {
    if LeadingSpace(s) > 0 {
      TrimLeftFront(s[LeadingSpace(s)..]);
    }
  }

  lemma ReadFieldFront(piece: string)
    requires ReadPiece(piece).Ok? && ReadPiece(piece).value != []
    ensures LeadingSpace(ReadPiece(piece).value[0].field) == 0
  {
    var term := TrimSpace(piece);
    TrimmedFront(piece);
    SplitIsAtColon(term);
    hide TrimSpace, SplitAt, Unescape, Plain;
    var pair := SplitAt(term).value;
    assert term == pair.0 + (":" + pair.1);
    LeadingSpaceAppend(pair.0, ":" + pair.1);
  }

  lemma {:induction false} ReadFieldsFront(pieces: seq<string>)
    requires ParsedTerms(pieces).Ok?
    ensures forall i :: 0 <= i < |ParsedTerms(pieces).value| ==> LeadingSpace(ParsedTerms(pieces).value[i].field) == 0
    decreases |pieces|
  {
    if pieces != [] {
      var k := |pieces| - 1;
      ReadFieldsFront(pieces[..k]);
      if ReadPiece(pieces[k]).value != [] {
        ReadFieldFront(pieces[k]);
      }
      hide ReadPiece, LeadingSpace;
    }
  }

  /** A printed term whose field does not start with white space does not either. */
  lemma TextFront(special: char -> bool, t: QueryTerm, rest: string)
    requires LeadingSpace(t.field) == 0
    ensures LeadingSpace(TermText(special, t) + rest) == 0
  {
    var e := Escape(special, t.value);
    var tail := ":" + e + rest;
    assert TermText(special, t) + rest == t.field + tail;
    NoStraddleBeforeStart(t.field, tail);
    if t.field == "" {
      assert t.field + tail == tail;
    } else {
      assert t.field[0..] + tail == t.field + tail;
      LeadingSpaceAppend(t.field, tail);
    }
  }

  /** A piece in front of which nothing was cut, and which reads as the printed term, is not
      shorter than that. */
  lemma ReadsAsWhole(special: char -> bool, t: QueryTerm, term: string, behind: string)
    requires special('\\') && term <= TermText(special, t) && (behind == "" || LeadingSpace(behind) > 0)
    requires term + behind <= TermText(special, t) || TermText(special, t) <= term + behind
    requires |term| < |TermText(special, t)| ==> behind != ""
    requires SplitAt(term).Some? && SplitAt(term).value.0 == t.field && Unescape(SplitAt(term).value.1) == t.value
    ensures term == TermText(special, t)
  {
    var text := TermText(special, t);
    SplitIsAtColon(term);
    var e := SplitAt(term).value.1;
    var all := Escape(special, t.value);
    assert term == t.field + ":" + e && text == t.field + ":" + all;
    if |term| < |text| {
      SpaceStartsWithoutBackslash(behind);
      assert text[|term|] == (term + behind)[|term|] == behind[0];
      assert all[|e|] == text[|term|];
      assert e == term[|t.field| + 1..] && all == text[|t.field| + 1..];
      assert e <= all;
      PartUnescapesShort(special, t.value, e);
    }
  }

  // ----- One term

  lemma HasColon(special: char -> bool, t: QueryTerm)
    ensures TermText(special, t) != "" && ':' in TermText(special, t)
  {
    assert TermText(special, t)[|t.field|] == ':';
  }

  lemma TrimmedTermReads(special: char -> bool, t: QueryTerm)
    requires special('\\') && Plain(t.field) && TrimSpace(TermText(special, t)) == TermText(special, t)
    ensures ReadPiece(TermText(special, t)) == Ok([t])
  {
    hide TrimSpace, SplitAt, Escape, Unescape, Plain;
    HasColon(special, t);
    PlainFieldSplits(t.field, Escape(special, t.value));
    EscapedIsUndone(special, t.value);
  }

  /** What a piece that reads as a term says about it. */
  lemma ReadPieceSplits(piece: string, t: QueryTerm)
    requires ReadPiece(piece) == Ok([t])
    ensures var split := SplitAt(TrimSpace(piece));
            split.Some? && split.value.0 == t.field && Unescape(split.value.1) == t.value
    ensures Plain(t.field) && LeadingSpace(t.field) == 0
  {
    SplitIsAtColon(TrimSpace(piece));
    ReadFieldFront(piece);
    hide TrimSpace, SplitAt, Unescape, Plain, LeadingSpace;
  }

  /** A piece at the front of the text, not longer than the printed first term, that reads as
      this term is the printed term. */
  lemma FirstPieceIsTerm(special: char -> bool, t: QueryTerm, s: string, piece: string)
    requires special('\\') && ReadPiece(piece) == Ok([t])
    requires TermText(special, t) <= s && piece <= s && |piece| <= |TermText(special, t)|
    requires |piece| < |s| ==> s[|piece|] == ' '
    ensures piece == TermText(special, t) && TrimSpace(piece) == piece && Plain(t.field)
  {
    var text := TermText(special, t);
    ReadPieceSplits(piece, t);
    TextFront(special, t, s[|text|..]);
    assert s == text + s[|text|..];
    assert s == piece + s[|piece|..];
    LeadingSpaceAppend(piece, s[|piece|..]);
    assert TrimLeft(piece) == piece;
    var term := TrimSpace(piece);
    TrimmedTailIsSpace(piece);
    hide TrimRight, TrimLeft, TrimSpace, ReadPiece, SplitAt, Unescape, Escape, Plain;
    var behind := if |term| < |piece| then piece[|term|..] else if |piece| < |s| then " " else "";
    WholeOfPiece(special, t, s, piece, term, behind);
  }

  lemma PrefixesOf(s: string, text: string, piece: string, term: string, behind: string)
    requires text <= s && piece <= s && |piece| <= |text| && term <= piece
    requires |piece| < |s| ==> s[|piece|] == ' '
    requires behind == if |term| < |piece| then piece[|term|..] else if |piece| < |s| then " " else ""
    ensures term <= text && term + behind <= s
    ensures term + behind <= text || text <= term + behind
  {
    if |term| < |piece| {
      assert term + behind == piece;
    } else if |piece| < |s| {
      assert term + behind == s[..|piece| + 1];
    } else {
      assert term + behind == term == piece;
    }
  }

  lemma WholeOfPiece(special: char -> bool, t: QueryTerm, s: string, piece: string, term: string, behind: string)
    requires special('\\') && TermText(special, t) <= s && piece <= s && |piece| <= |TermText(special, t)| && term <= piece
    requires |piece| < |s| ==> s[|piece|] == ' '
    requires behind == if |term| < |piece| then piece[|term|..] else if |piece| < |s| then " " else ""
    requires |term| < |piece| ==> LeadingSpace(behind) > 0
    requires SplitAt(term).Some? && SplitAt(term).value.0 == t.field && Unescape(SplitAt(term).value.1) == t.value
    ensures term == piece == TermText(special, t)
  {
    assert LeadingSpace(" ") > 0;
    hide *;
    PrefixesOf(s, TermText(special, t), piece, term, behind);
    ReadsAsWhole(special, t, term, behind);
  }

  // ----- All terms

  lemma FirstPieceOf(s: string)
    ensures var piece := SplitOr(s)[0];
            && piece <= s && (|piece| < |s| ==> s[|piece|] == ' ')
            && (|SplitOr(s)| == 1 <==> piece == s)
  {
    var i := Index(s, Or());
    hide FindFrom;
    if i >= 0 {
      assert s[i..i + 4][0] == s[i];
    }
  }

  lemma TextsFront(special: char -> bool, terms: seq<QueryTerm>)
    requires |terms| > 1
    ensures QueryText(special, terms) == TermText(special, terms[0]) + Or() + QueryText(special, terms[1..])
  {
    hide TermText, Or;
    assert TermTexts(special, terms)[1..] == TermTexts(special, terms[1..]);
  }

  lemma FirstTextIsPrefix(special: char -> bool, terms: seq<QueryTerm>)
    requires terms != []
    ensures TermText(special, terms[0]) <= QueryText(special, terms)
    ensures |terms| == 1 ==> QueryText(special, terms) == TermText(special, terms[0])
    ensures |SplitOr(QueryText(special, terms))[0]| <= |TermText(special, terms[0])|
  {
    var text := TermText(special, terms[0]);
    if |terms| > 1 {
      TextsFront(special, terms);
      OrOccursAtJoint(text, QueryText(special, terms[1..]));
    }
    hide TermText, Or, FindFrom;
  }

  /** The first piece of a query string that reads as its terms is not blank. */
  lemma FirstPieceReads(special: char -> bool, terms: seq<QueryTerm>, pieces: seq<string>)
    requires terms != [] && pieces == SplitOr(QueryText(special, terms)) && ParsedTerms(pieces) == Ok(terms)
    ensures ReadPiece(pieces[0]) == Ok([terms[0]])
    ensures ParsedTerms(pieces[1..]) == Ok(terms[1..])
  {
    var s := QueryText(special, terms);
    assert pieces == [pieces[0]] + pieces[1..];
    ParsedTermsFront(pieces[0], pieces[1..]);
    ReadFieldsFront(pieces);
    FirstPieceOf(s);
    FirstTextIsPrefix(special, terms);
    var text := TermText(special, terms[0]);
    TextFront(special, terms[0], s[|text|..]);
    assert s == text + s[|text|..];
    HasColon(special, terms[0]);
    hide QueryText, SplitOr, ParsedTerms, TermText;
    if ReadPiece(pieces[0]).value == [] {
      BlankPiece(pieces[0], s);
      assert false;
    }
    hide ReadPiece;
    assert terms[1..] == (ReadPiece(pieces[0]).value + ParsedTerms(pieces[1..]).value)[1..];
  }

  lemma BlankPiece(piece: string, s: string)
    requires s != "" && piece <= s && TrimSpace(piece) == "" && (|piece| < |s| ==> s[|piece|] == ' ')
    ensures LeadingSpace(s) > 0
  {
    if piece != "" {
      BlankStartsWithSpace(piece);
      assert s == piece + s[|piece|..];
      LeadingSpaceAppend(piece, s[|piece|..]);
    }
  }

  lemma PrintableFront(special: char -> bool, terms: seq<QueryTerm>)
    requires |terms| > 1
    ensures QueryPrintable(special, terms) <==> TermPrintable(special, terms[0], false) && QueryPrintable(special, terms[1..])
  {
    hide TermPrintable;
    if TermPrintable(special, terms[0], false) && QueryPrintable(special, terms[1..]) {
      forall i | 0 <= i < |terms|
        ensures TermPrintable(special, terms[i], i == |terms| - 1)
      {
        assert i > 0 ==> terms[i] == terms[1..][i - 1];
      }
    }
    if QueryPrintable(special, terms) {
      forall i | 0 <= i < |terms[1..]|
        ensures TermPrintable(special, terms[1..][i], i == |terms[1..]| - 1)
      {
        assert terms[1..][i] == terms[i + 1];
      }
    }
  }

  lemma FirstTermPrintable(special: char -> bool, terms: seq<QueryTerm>)
    requires special('\\') && terms != [] && ParsedTerms(SplitOr(QueryText(special, terms))) == Ok(terms)
    ensures TermPrintable(special, terms[0], |terms| == 1)
    ensures SplitOr(QueryText(special, terms))[0] == TermText(special, terms[0])
    ensures ParsedTerms(SplitOr(QueryText(special, terms))[1..]) == Ok(terms[1..])
  {
    var s := QueryText(special, terms);
    var text := TermText(special, terms[0]);
    FirstPieceReads(special, terms, SplitOr(s));
    FirstPieceOf(s);
    FirstTextIsPrefix(special, terms);
    hide ParsedTerms, ReadPiece, SplitOr, TermText, Plain, StandsAlone, QueryText, TrimSpace;
    FirstPieceIsTerm(special, terms[0], s, SplitOr(s)[0]);
    if |terms| == 1 {
      SplitSingle(s);
      assert SplitOr(s) == [s];
    } else {
      TextsFront(special, terms);
      SplitOnlyOnce(text, QueryText(special, terms[1..]));
    }
  }

  /** Printed terms, joined, split and read, are the terms exactly if they are printable. */
  lemma {:induction false} TermsReadBack(special: char -> bool, terms: seq<QueryTerm>)
    requires special('\\') && terms != []
    ensures ParsedTerms(SplitOr(QueryText(special, terms))) == Ok(terms) <==> QueryPrintable(special, terms)
    decreases |terms|
  {
    if ParsedTerms(SplitOr(QueryText(special, terms))) == Ok(terms) {
      FirstTermPrintable(special, terms);
    }
    if TermPrintable(special, terms[0], |terms| == 1) {
      FirstTermReads(special, terms);
    }
    if |terms| == 1 {
      assert QueryPrintable(special, terms) <==> TermPrintable(special, terms[0], true);
    } else {
      hide TermPrintable, SplitOr, ParsedTerms, QueryText;
      PrintableFront(special, terms);
      hide QueryPrintable;
      TermsReadBack(special, terms[1..]);
    }
  }

  /** A printable first term is split off and read; what is behind it decides about the rest. */
  lemma FirstTermReads(special: char -> bool, terms: seq<QueryTerm>)
    requires special('\\') && terms != [] && TermPrintable(special, terms[0], |terms| == 1)
    ensures |terms| == 1 ==> ParsedTerms(SplitOr(QueryText(special, terms))) == Ok(terms)
    ensures |terms| > 1 ==> SplitOr(QueryText(special, terms))[1..] == SplitOr(QueryText(special, terms[1..]))
    ensures |terms| > 1 ==>
      (ParsedTerms(SplitOr(QueryText(special, terms))) == Ok(terms) <==> ParsedTerms(SplitOr(QueryText(special, terms[1..]))) == Ok(terms[1..]))
  {
    var text := TermText(special, terms[0]);
    TrimmedTermReads(special, terms[0]);
    FirstTextIsPrefix(special, terms);
    hide ReadPiece, TermText, Plain, StandsAlone, TrimSpace, SplitOr, ParsedTerms, QueryText;
    assert terms == [terms[0]] + terms[1..];
    if |terms| == 1 {
      assert terms == [terms[0]];
      SplitSingle(text);
      OnePiece(text, terms[0]);
    } else {
      var rest := QueryText(special, terms[1..]);
      TextsFront(special, terms);
      SplitOnce(text, rest);
      ParsedTermsFront(text, SplitOr(rest));
      assert ([text] + SplitOr(rest))[1..] == SplitOr(rest);
      assert ([terms[0]] + terms[1..])[1..] == terms[1..];
      if ParsedTerms(SplitOr(QueryText(special, terms))) == Ok(terms) {
        assert ([terms[0]] + ParsedTerms(SplitOr(rest)).value)[1..] == ParsedTerms(SplitOr(rest)).value;
      }
    }
  }

  lemma OnePiece(text: string, t: QueryTerm)
    requires ReadPiece(text) == Ok([t])
    ensures ParsedTerms([text]) == Ok([t])
  {
    hide ReadPiece;
    var pieces := [text];
    assert pieces[..0] == [];
    assert ParsedTerms(pieces[..0]) == Ok([]);
    assert [] + [t] == [t];
  }

  lemma TextHasColon(special: char -> bool, terms: seq<QueryTerm>)
    requires terms != []
    ensures ':' in QueryText(special, terms)
  {
    FirstTextIsPrefix(special, terms);
    HasColon(special, terms[0]);
  }

  lemma NoTerms(special: char -> bool)
    ensures ParsedQuery(QueryText(special, [])) == Ok(MatchAll)
  {
    assert TermTexts(special, []) == [];
  }

  /** A printed query string reads back exactly if it has terms, their fields have no stray
      colons, no printed term starts or ends with white space, and " OR " occurs neither in a
      printed term nor across a joint. */
  lemma QueryReadsBack(special: char -> bool, terms: seq<QueryTerm>)
    requires special('\\')
    ensures ParsedQuery(QueryText(special, terms)) == Ok(QueryString(terms)) <==> QueryPrintable(special, terms)
  {
    hide QueryText, SplitOr, ParsedTerms, TermPrintable;
    if terms == [] {
      NoTerms(special);
    } else {
      TermsReadBack(special, terms);
      TextHasColon(special, terms);
    }
  }

  // ----- Terms without white space

  /** No white-space character starts anywhere in `s`. */
  ghost predicate NoSpace(s: string) {
    forall i :: 0 <= i < |s| ==> LeadingSpace(s[i..]) == 0
  }

  ghost predicate Spaceless(t: QueryTerm) {
    NoSpace(t.field) && NoSpace(t.value)
  }

  lemma NoSpaceConcat(a: string, b: string)
    requires NoSpace(a) && NoSpace(b) && NoStraddle(a, b)
    ensures NoSpace(a + b)
  {
    forall i | 0 <= i < |a + b|
      ensures LeadingSpace((a + b)[i..]) == 0
    {
      if i < |a| {
        assert (a + b)[i..] == a[i..] + b;
        LeadingSpaceAppend(a[i..], b);
      } else {
        assert (a + b)[i..] == b[i - |a|..];
      }
    }
  }

  /** A backslash only ever breaks up what could have been white space. */
  lemma EscapeFront(special: char -> bool, c: char, rest: string)
    requires LeadingSpace([c] + rest) == 0
    ensures LeadingSpace([c] + Escape(special, rest)) == 0
  {
    var e := Escape(special, rest);
    assert rest != "" ==> e[0] == '\\' || (e[0] == rest[0] && e[1..] == Escape(special, rest[1..]));
    assert |rest| >= 2 && e[0] != '\\' ==> e[1] == '\\' || e[1] == rest[1];
  }

  lemma {:induction false} EscapeNoSpace(special: char -> bool, s: string)
    requires NoSpace(s)
    ensures NoSpace(Escape(special, s))
    decreases |s|
  {
    if s != "" {
      var e := Escape(special, s[1..]);
      assert forall i :: 0 <= i < |s[1..]| ==> s[1..][i..] == s[i + 1..];
      EscapeNoSpace(special, s[1..]);
      assert [s[0]] + s[1..] == s[0..];
      EscapeFront(special, s[0], s[1..]);
      NoSpaceCons(s[0], e);
      if special(s[0]) {
        NoSpaceCons('\\', [s[0]] + e);
        assert ['\\'] + ([s[0]] + e) == Escape(special, s);
      }
    }
  }

  lemma NoSpaceCons(c: char, s: string)
    requires NoSpace(s) && LeadingSpace([c] + s) == 0
    ensures NoSpace([c] + s)
  {
    forall i | 0 <= i < |[c] + s|
      ensures LeadingSpace(([c] + s)[i..]) == 0
    {
      if i > 0 {
        assert ([c] + s)[i..] == s[i - 1..];
      } else {
        assert ([c] + s)[0..] == [c] + s;
      }
    }
  }

  lemma NoSpaceMeansTrimmed(s: string)
    requires NoSpace(s)
    ensures TrimSpace(s) == s && ' ' !in s
  {
    if s != "" {
      assert s[0..] == s;
      assert forall i :: 0 <= i < |s| ==> !IsSpace(s[i..]);
      if TrailingSpace(s) > 0 {
        TrailingSpaceIsSpace(s);
        assert false;
      }
    }
    TrimSpaceFixed(s);
    forall i | 0 <= i < |s|
      ensures s[i] != ' '
    {
      assert s[i..][0] == s[i];
    }
  }

  lemma TermTextNoSpace(special: char -> bool, t: QueryTerm)
    requires Spaceless(t)
    ensures NoSpace(TermText(special, t))
  {
    EscapeNoSpace(special, t.value);
    var e := Escape(special, t.value);
    NoSpaceCons(':', e);
    NoStraddleBeforeStart(t.field, [':'] + e);
    NoSpaceConcat(t.field, [':'] + e);
    assert t.field + ([':'] + e) == TermText(special, t);
  }

  /** A term without white space is separable wherever it stands. */
  lemma SpacelessIsSeparable(special: char -> bool, t: QueryTerm, last: bool)
    requires Spaceless(t)
    ensures Separable(special, t, last)
  {
    TermTextNoSpace(special, t);
    hide NoSpace, TermText, TrimSpace, StandsAlone;
    NoSpaceMeansTrimmed(TermText(special, t));
    BlanklessStandsAlone(TermText(special, t), last);
  }

  // ----- Terms with white space

  function OnlyBackslash(): char -> bool {
    c => c == '\\'
  }

  lemma EscapeFirst(special: char -> bool, c: char, rest: string)
    requires !special(c)
    ensures Escape(special, [c] + rest) == [c] + Escape(special, rest)
  {
    assert ([c] + rest)[1..] == rest;
  }

  lemma {:induction false} NothingToEscape(s: string)
    requires '\\' !in s
    ensures Escape(OnlyBackslash(), s) == s
    decreases |s|
  {
    if s != "" {
      assert s == [s[0]] + s[1..];
      assert s[0] in s;
      hide Escape;
      NothingToEscape(s[1..]);
      EscapeFirst(OnlyBackslash(), s[0], s[1..]);
    }
  }

  /** A single trimmed term with a plain field reads back exactly if " OR " is not in it. */
  lemma OneTermReadsBack(special: char -> bool, t: QueryTerm, text: string)
    requires special('\\') && text == TermText(special, t) && Plain(t.field) && TrimSpace(text) == text
    ensures QueryText(special, [t]) == text
    ensures ParsedQuery(text) == Ok(QueryString([t])) <==> Index(text, Or()) == -1
  {
    FirstTextIsPrefix(special, [t]);
    QueryReadsBack(special, [t]);
    hide ParsedQuery, TermText, QueryText, TrimSpace, Plain, Index;
    var terms := [t];
    assert QueryPrintable(special, terms) <==> TermPrintable(special, terms[0], true);
  }

  lemma FieldAPlain()
    ensures Plain("a")
  {
    assert "a"[1..] == "";
  }

  lemma BackslashEscaped()
    ensures OnlyBackslash()('\\')
  {
  }

  lemma UnescapedText(field: string, value: string)
    requires '\\' !in value
    ensures TermText(OnlyBackslash(), QueryTerm(field, value)) == field + ":" + value
  {
    hide Escape, OnlyBackslash;
    NothingToEscape(value);
  }

  /** The facts about a text that its bytes show. */
  lemma HelloText()
    ensures "a" + ":" + "hello world" == "a:hello world" && '\\' !in "hello world"
    ensures TrimSpace("a:hello world") == "a:hello world"
    ensures Index("a:hello world", Or()) == -1
  {
    hide Index;
    TrimSpaceFixed("a:hello world");
    NoOr("a:hello world");
  }

  lemma NoOr(text: string)
    requires forall i :: 0 <= i < |text| && text[i] == ' ' ==> i + 1 == |text| || text[i + 1] != 'O'
    ensures Index(text, Or()) == -1
  {
    forall i: int
      ensures !OccursAt(text, Or(), i, false)
    {
      if 0 <= i && i + 4 <= |text| {
        var w := text[i..i + 4];
        assert w[0] == text[i] && w[1] == text[i + 1];
      }
    }
  }

  /** A blank inside a value does no harm. */
  lemma InnerBlankExample()
    ensures ParsedQuery("a:hello world") == Ok(QueryString([QueryTerm("a", "hello world")]))
  {
    FieldAPlain();
    HelloText();
    hide *;
    BackslashEscaped();
    UnescapedText("a", "hello world");
    OneTermReadsBack(OnlyBackslash(), QueryTerm("a", "hello world"), "a:hello world");
  }

  lemma OrText()
    ensures "a" + ":" + "x OR y" == "a:x OR y" && '\\' !in "x OR y"
    ensures TrimSpace("a:x OR y") == "a:x OR y"
  {
    TrimSpaceFixed("a:x OR y");
  }

  lemma OrIsThere()
    ensures Index("a:x OR y", Or()) != -1
  {
    var text := "a:x OR y";
    assert text[3..3 + |Or()|] == Or();
    assert OccursAt(text, Or(), 3, false);
  }

  /** The parser can make a value that holds " OR ", from a query with a backslash in front of
      the O.  Printed with nothing but backslashes escaped, it does not read back. */
  lemma EscapedOrExample()
    ensures ParsedQuery("a:x \\OR y") == Ok(QueryString([QueryTerm("a", "x OR y")]))
    ensures QueryText(OnlyBackslash(), [QueryTerm("a", "x OR y")]) == "a:x OR y"
    ensures ParsedQuery("a:x OR y") != Ok(QueryString([QueryTerm("a", "x OR y")]))
  {
    EscapedOrParses();
    FieldAPlain();
    OrText();
    OrIsThere();
    hide *;
    BackslashEscaped();
    UnescapedText("a", "x OR y");
    OneTermReadsBack(OnlyBackslash(), QueryTerm("a", "x OR y"), "a:x OR y");
  }

  lemma EscapedOrSplits()
    ensures TrimSpace("a:x \\OR y") == "a:x \\OR y" && SplitAt("a:x \\OR y") == Some(("a", "x \\OR y"))
  {
    TrimSpaceFixed("a:x \\OR y");
    FieldAPlain();
    assert "a:x \\OR y" == "a" + ":" + "x \\OR y";
    hide TrimSpace, Plain, SplitAt;
    PlainFieldSplits("a", "x \\OR y");
  }

  lemma EscapedOrParses()
    ensures ParsedQuery("a:x \\OR y") == Ok(QueryString([QueryTerm("a", "x OR y")]))
  {
    NoOr("a:x \\OR y");
    EscapedOrSplits();
    UnescapedOr();
    hide Index, TrimSpace, SplitAt, Unescape;
    OnePiece("a:x \\OR y", QueryTerm("a", "x OR y"));
  }

  lemma UnescapedOr()
    ensures Unescape("x \\OR y") == "x OR y"
  {
    var s := "x \\OR y";
    UnescapeFrom("", s, 0, 1);
    UnescapeFrom("x", s, 1, 1);
    UnescapeFrom("x ", s, 2, 2);
    assert s[0..] == s;
    UnescapeTail("R y");
    assert s[4..] == "R y";
  }

  lemma UnescapeTail(s: string)
    requires '\\' !in s
    ensures Unescape(s) == s
    decreases |s|
  {
    if s != "" {
      UnescapeTail(s[1..]);
      assert s == [s[0]] + s[1..];
    }
  }
}
