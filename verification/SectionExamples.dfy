/** Responses on which the streaming parser and the batch parser differ, and responses next to
    them on which they agree however they are cut. */
module SectionExamples {
  import opened Wrappers
  import opened Strings
  import opened Utf8
  import opened Whitespace
  import opened TextSearch
  import opened Sections
  import opened SectionParser
  import opened SectionStreaming
  import opened SectionBatch
  import opened SectionAgreement
  import opened SectionCuts
  import opened SectionCondition

  lemma FirstIsThere(text: string, pattern: string, i: nat, lineStart: bool)
    requires pattern != "" && OccursAt(text, pattern, i, lineStart)
    ensures pattern[0] in text
  {
    assert text[i] == text[i..i + |pattern|][0];
  }

  lemma NoHeaderWithoutHash(body: string, header: string)
    requires '#' !in body && header != "" && header[0] == '#'
    ensures FindHeader(body, header) == -1 && Index(body, header) == -1
  {
    hide OccursAt, FindFrom;
    var k, l := FindHeader(body, header), Index(body, header);
    if k >= 0 {
      FirstIsThere(body, header, k, true);
      assert false;
    }
    if l >= 0 {
      FirstIsThere(body, header, l, false);
      assert false;
    }
  }

  lemma HashlessHasNoHeaderLine(body: string)
    requires '#' !in body
    ensures NoHeaderLine(body)
  {
    LinesAvoid(body, '#');
    hide Lines;
    forall i | 0 <= i < |Lines(body)|
      ensures !IsHeaderLine(Lines(body)[i])
    {
      var line := Lines(body)[i];
      assert |line| >= 3 ==> line[0] in line;
    }
  }

  /** In a body without '#' nothing is taken for a header. */
  lemma HashlessIsPlain(body: string)
    requires '#' !in body
    ensures NoHeaderLine(body) && FindHeader(body, GenerationHeader()) == -1 && FindHeader(body, FollowupHeader()) == -1
    ensures Index(body, FollowupHeader()) == -1 && !Exposed(body) && !LosesLine(body)
  {
    HashlessHasNoHeaderLine(body);
    HeadersAreHeaders();
    NoHeaderWithoutHash(body, GenerationHeader());
    NoHeaderWithoutHash(body, FollowupHeader());
    hide FindFrom, FollowupHeader, GenerationHeader, NoHeaderLine, Valid;
  }

  // ----- A model end token

  function EndTokenResponse(): Response {
    Response("", "x<end_of_turn>\n", "")
  }

  lemma EndTokenAtEnd()
    ensures EndsInToken("x<end_of_turn>", MODEL_END_TOKENS)
  {
    var text := "x<end_of_turn>";
    TrimSpaceFixed(text);
    hide TrimSpace;
    assert text[1..] == MODEL_END_TOKENS[1];
    assert EndsWith(text, MODEL_END_TOKENS[1]);
  }

  /** However it is cut, this response streams the token that the batch parser removes. */
  lemma EndTokenIsStreamed(chunks: seq<string>, scan: string -> Option<real>)
    requires Concat(chunks) == Text(EndTokenResponse())
    ensures Squeeze(GenerationText(Streamed(chunks, scan).events)) != Squeeze(StructuredOf(Text(EndTokenResponse()), scan).generation)
  {
    HashlessIsPlain("");
    HashlessIsPlain("x<end_of_turn>\n");
    EndTokenAtEnd();
    hide Text, Streamed, StructuredOf, Concat, GenerationText, Squeeze, NoHeaderLine, FindFrom,
         GenerationHeader, FollowupHeader, EndsInToken, Exposed, FindHeader, Index, LosesLine;
    assert WithoutLastNewline(EndTokenResponse().generation) == "x<end_of_turn>";
    StreamingAgreesWithBatch(EndTokenResponse(), chunks, scan);
  }

  // ----- A line with the text of the Follow-up header inside

  /** A position at which line `l` starts. */
  lemma {:induction false} LineStart(text: string, l: nat) returns (i: nat)
    requires l < |Lines(text)|
    ensures i <= |text| && (i == 0 || text[i - 1] == '\n') && Lines(text)[l] <= text[i..]
    ensures l == 0 <==> i == 0
    decreases |text|
  {
    i := 0;
    if text != "" {
      var rest := Lines(text[1..]);
      if text[0] == '\n' {
        if l > 0 {
          var k := LineStart(text[1..], l - 1);
          i := k + 1;
          assert text[i..] == text[1..][k..];
        }
      } else {
        var k := LineStart(text[1..], l);
        if l > 0 {
          i := k + 1;
          assert text[i..] == text[1..][k..];
          assert Lines(text)[l] == rest[l];
        } else {
          assert text[1..][0..] == text[1..];
          assert text[0..] == [text[0]] + text[1..];
        }
      }
    }
  }

  lemma OccursBetween(a: string, pattern: string, b: string)
    ensures OccursAt(a + pattern + b, pattern, |a|, false)
  {
    assert (a + pattern + b)[|a|..|a| + |pattern|] == pattern;
  }

  lemma HashesAreThere(text: string, p: int)
    requires OccursAt(text, FollowupHeader(), p, false)
    ensures p + 1 < |text| && text[p] == '#' && text[p + 1] == '#'
  {
    var o := text[p..p + |FollowupHeader()|];
    assert o[0] == text[p] && o[1] == text[p + 1];
  }

  lemma OnlyHashes(a: string, b: string, p: nat)
    requires '#' !in a && '#' !in b
    requires var text := a + FollowupHeader() + b; p + 1 < |text| && text[p] == '#' && text[p + 1] == '#'
    ensures p == |a|
  {
    FollowupHeaderIsHeader();
    hide FollowupHeader, Valid;
  }

  lemma OnlyOccurrence(a: string, b: string, p: int)
    requires '#' !in a && '#' !in b
    ensures OccursAt(a + FollowupHeader() + b, FollowupHeader(), p, false) <==> p == |a|
  {
    var text := a + FollowupHeader() + b;
    OccursBetween(a, FollowupHeader(), b);
    hide FollowupHeader;
    if OccursAt(text, FollowupHeader(), p, false) {
      HashesAreThere(text, p);
      OnlyHashes(a, b, p);
    }
  }

  lemma LastOfFront(a: string, b: string, c: string)
    requires a != ""
    ensures (a + b + c)[|a| - 1] == a[|a| - 1]
  {
  }

  lemma NoHeadingAt(a: string, b: string, i: nat)
    requires '#' !in a && '#' !in b && a != "" && a[|a| - 1] != '\n'
    requires i <= |a + FollowupHeader() + b| && (i == 0 || (a + FollowupHeader() + b)[i - 1] == '\n')
    ensures !IsHeaderLine((a + FollowupHeader() + b)[i..])
  {
    hide FollowupHeader;
    LastOfFront(a, FollowupHeader(), b);
    if IsHeaderLine((a + FollowupHeader() + b)[i..]) {
      OnlyHashes(a, b, i);
      assert false;
    }
  }

  lemma NoHeadingInside(a: string, b: string)
    requires '#' !in a && '#' !in b && a != "" && a[|a| - 1] != '\n'
    ensures NoHeaderLine(a + FollowupHeader() + b)
  {
    var text := a + FollowupHeader() + b;
    hide FollowupHeader, Lines;
    forall l | 0 <= l < |Lines(text)|
      ensures !IsHeaderLine(Lines(text)[l])
    {
      var i := LineStart(text, l);
      assert IsHeaderLine(Lines(text)[l]) ==> IsHeaderLine(text[i..]);
      NoHeadingAt(a, b, i);
    }
  }

  lemma FirstInLine(a: string, b: string)
    requires '#' !in a && '#' !in b
    ensures var text := a + FollowupHeader() + b;
            Index(text, FollowupHeader()) == |a| && (LosesLine(text) <==> '\n' in b)
  {
    FollowupHeaderIsHeader();
    hide FollowupHeader, FindFrom, OccursAt, IsHeader, Valid;
    var text := a + FollowupHeader() + b;
    OnlyOccurrence(a, b, |a|);
    forall p | 0 <= p < |a|
      ensures !OccursAt(text, FollowupHeader(), p, false)
    {
      OnlyOccurrence(a, b, p);
    }
    FirstOccurrence(text, FollowupHeader(), false, |a|);
    assert text[|a|..] == FollowupHeader() + b;
  }

  lemma ExposedInLine(a: string, b: string, k: nat)
    requires '#' !in a && '#' !in b
    ensures ExposedAt(a + FollowupHeader() + b, k) <==> k == |a| && 50 < |a| && 6 < |b| && Valid(a)
  {
    FollowupHeaderIsHeader();
    OnlyOccurrence(a, b, k);
    hide FollowupHeader, OccursAt, Valid, IsHeader;
    assert (a + FollowupHeader() + b)[..|a|] == a;
  }

  /** The text of the Follow-up header between two texts without '#', inside a line. */
  lemma TextInLine(a: string, b: string)
    requires '#' !in a && '#' !in b && a != "" && a[|a| - 1] != '\n'
    ensures var text := a + FollowupHeader() + b;
            && NoHeaderLine(text) && FindHeader(text, GenerationHeader()) == -1 && FindHeader(text, FollowupHeader()) == -1
            && Index(text, FollowupHeader()) == |a|
            && (LosesLine(text) <==> '\n' in b)
            && (Exposed(text) <==> 50 < |a| && 6 < |b| && Valid(a))
  {
    HeadersAreHeaders();
    hide *;
    var text := a + FollowupHeader() + b;
    NoHeadingInside(a, b);
    NoHeaderLineNoHeader(text, GenerationHeader());
    NoHeaderLineNoHeader(text, FollowupHeader());
    FirstInLine(a, b);
    ExposedOnce(a, b);
  }

  lemma ExposedOnce(a: string, b: string)
    requires '#' !in a && '#' !in b
    ensures Exposed(a + FollowupHeader() + b) <==> 50 < |a| && 6 < |b| && Valid(a)
  {
    hide ExposedAt, Valid, FollowupHeader;
    ExposedInLine(a, b, |a|);
    forall k: nat
      ensures ExposedAt(a + FollowupHeader() + b, k) <==> k == |a| && 50 < |a| && 6 < |b| && Valid(a)
    {
      ExposedInLine(a, b, k);
    }
  }

  // ----- Agreement for every cutting

  lemma SameEnd(text: string, suffix: string)
    requires EndsWith(text, suffix) && suffix != ""
    ensures text[|text| - 1] == suffix[|suffix| - 1]
  {
    assert text[|text| - |suffix|..][|suffix| - 1] == text[|text| - 1];
  }

  lemma NoTokenAtEnd(text: string)
    requires LeadingSpace(text) == 0 && TrailingSpace(text) == 0 && text != "" && text[|text| - 1] != '>'
    ensures !EndsInToken(text, MODEL_END_TOKENS)
  {
    TrimSpaceFixed(text);
    hide TrimSpace;
    forall i | 0 <= i < |MODEL_END_TOKENS|
      ensures !EndsWith(text, MODEL_END_TOKENS[i])
    {
      var token := MODEL_END_TOKENS[i];
      assert token[|token| - 1] == '>';
      if EndsWith(text, token) {
        SameEnd(text, token);
        assert false;
      }
    }
  }

  lemma PlainConfidence(generation: string, followup: string, scan: string -> Option<real>)
    requires EndsLine(generation) && FindHeader(generation, FollowupHeader()) == -1
    requires NoHeaderLine(generation) && !EndsInToken(WithoutLastNewline(generation), MODEL_END_TOKENS) && !Exposed(generation)
    requires NoHeaderLine(followup) && !LosesLine(followup)
    ensures AlwaysAgrees(Response("a\n", generation, followup), scan)
  {
    HashlessIsPlain("a\n");
    ScoresWithoutHeaderLine("a\n", scan);
    hide AlwaysAgrees, FindFrom, FindHeader, Index, GenerationHeader, FollowupHeader, NoHeaderLine,
         EndsInToken, Exposed, LosesLine, SameScores;
    AlwaysAgreesExactly(Response("a\n", generation, followup), scan);
  }

  lemma LinePart(a: string, b: string)
    requires a != "" && LeadingSpace(a) == 0 && TrailingSpace(b) == 0 && (b == "" || b[|b| - 1] != '>')
    ensures !EndsInToken(a + FollowupHeader() + b, MODEL_END_TOKENS)
  {
  }

  /** A follow-up line that ends in the header's text and in nothing else: cut in front of that
      text, the parser waits for the end of the line, and gives it back in the end. */
  lemma LastLineIsSafe(scan: string -> Option<real>)
    ensures AlwaysAgrees(Response("a\n", "b\n", "see " + FollowupHeader() + ""), scan)
  {
    HashlessIsPlain("b\n");
    TextInLine("see ", "");
    NoTokenAtEnd("b");
    assert WithoutLastNewline("b\n") == "b";
    hide FollowupHeader, FindFrom, NoHeaderLine, AlwaysAgrees, Exposed, LosesLine, EndsInToken;
    PlainConfidence("b\n", "see " + FollowupHeader() + "", scan);
  }

  lemma GenerationEnd(a: string, b: string)
    requires a != "" && LeadingSpace(a) == 0 && TrailingSpace(b) == 0 && b != "" && b[|b| - 1] != '>'
    ensures EndsLine(a + FollowupHeader() + (b + "\n"))
    ensures !EndsInToken(WithoutLastNewline(a + FollowupHeader() + (b + "\n")), MODEL_END_TOKENS)
  {
    LinePart(a, b);
    hide FollowupHeader, EndsInToken;
    assert WithoutLastNewline(a + FollowupHeader() + (b + "\n")) == a + FollowupHeader() + b;
  }

  /** A generation of one line with the header's text in it: agreement for every cutting if the
      text is near the front or near the end. */
  lemma UnexposedLine(a: string, b: string, scan: string -> Option<real>)
    requires '#' !in a && a != "" && a[|a| - 1] != '\n' && LeadingSpace(a) == 0
    requires '#' !in b && b != "" && b[|b| - 1] != '>' && TrailingSpace(b) == 0
    requires |a| <= 50 || |b| <= 5
    ensures AlwaysAgrees(Response("a\n", a + FollowupHeader() + (b + "\n"), ""), scan)
  {
    hide *;
    HashlessIsPlain("");
    TextInLine(a, b + "\n");
    GenerationEnd(a, b);
    PlainConfidence(a + FollowupHeader() + (b + "\n"), "", scan);
  }

  function Long(): string {
    seq(60, (i: nat) => 'x')
  }

  lemma LongLine()
    ensures |Long()| == 60 && '#' !in Long() && Long()[59] == 'x' && LeadingSpace(Long()) == 0 && Valid(Long())
  {
    hide Valid;
    assert Long()[0] == 'x';
    AsciiIsValid(Long());
  }

  /** Near the front nothing is streamed before the next header has come. */
  lemma FrontIsSafe(scan: string -> Option<real>)
    ensures AlwaysAgrees(Response("a\n", "see " + FollowupHeader() + (" there" + "\n"), ""), scan)
  {
    hide AlwaysAgrees;
    UnexposedLine("see ", " there", scan);
  }

  /** Near the end the next header has come before the line could be brought to the front. */
  lemma EndIsSafe(scan: string -> Option<real>)
    ensures AlwaysAgrees(Response("a\n", Long() + FollowupHeader() + (" end" + "\n"), ""), scan)
  {
    LongLine();
    hide AlwaysAgrees, Long, Valid;
    UnexposedLine(Long(), " end", scan);
  }

  // ----- Cuts that mislead

  /** In the confidence section, cut around the header's text, the whole rest of the response is
      taken for the follow-up, and no event comes. */
  lemma ConfidenceExample(scan: string -> Option<real>)
    ensures var r := Response("see " + FollowupHeader() + "\n", "b\n", "");
            exists chunks: seq<string> :: Concat(chunks) == Text(r) && Streamed(chunks, scan).events == []
  {
    TextInLine("see ", "\n");
    hide FollowupHeader, FindFrom, NoHeaderLine, Exposed, LosesLine, Streamed, Text, Concat, ConfidenceCut;
    var r := Response("see " + FollowupHeader() + "\n", "b\n", "");
    ConfidenceIsLost(r, scan);
    assert Concat(ConfidenceCut(r, 4)) == Text(r);
  }

  lemma PlainSections(confidence: string, generation: string, followup: string)
    requires '#' !in confidence && EndsLine(confidence)
    requires EndsLine(generation) && FindHeader(generation, FollowupHeader()) == -1
    ensures ThreeSections(Response(confidence, generation, followup)) && Index(confidence, FollowupHeader()) == -1
  {
    HashlessIsPlain(confidence);
    hide FindHeader, Index, GenerationHeader, FollowupHeader, NoHeaderLine, Exposed, LosesLine, EndsLine;
  }

  lemma LineShape(a: string, b: string)
    ensures EndsLine(a + FollowupHeader() + (b + "\n")) && (a + FollowupHeader() + (b + "\n"))[..|a|] == a
  {
    hide FollowupHeader;
  }

  lemma ExposedParts(a: string, b: string)
    requires '#' !in a && a != "" && a[|a| - 1] != '\n' && '#' !in b && 50 < |a| && 5 < |b| && Valid(a)
    ensures var r := Response("a\n", a + FollowupHeader() + (b + "\n"), "");
            && ThreeSections(r) && Index(r.confidence, FollowupHeader()) == -1
            && ExposedAt(r.generation, |a|) && r.generation[..|a|] == a
  {
    var generation := a + FollowupHeader() + (b + "\n");
    assert EndsLine("a\n");
    hide *;
    LineShape(a, b);
    TextInLine(a, b + "\n");
    ExposedInLine(a, b + "\n", |a|);
    PlainSections("a\n", generation, "");
  }

  lemma ExposedLine(a: string, b: string, scan: string -> Option<real>)
    requires '#' !in a && a != "" && a[|a| - 1] != '\n' && '#' !in b && 50 < |a| && 5 < |b| && Valid(a)
    ensures var r := Response("a\n", a + FollowupHeader() + (b + "\n"), "");
            exists chunks: seq<string> :: Concat(chunks) == Text(r) && GenerationText(Streamed(chunks, scan).events) == a
  {
    hide *;
    var r := Response("a\n", a + FollowupHeader() + (b + "\n"), "");
    ExposedParts(a, b);
    GenerationIsLost(r, |a|, scan);
    var chunks := GenerationCut(r, |a|);
    assert Concat(chunks) == Text(r);
  }

  /** Far from both ends of the generation, the header's text can be brought to the front of the
      buffer, and the rest of the generation is lost. */
  lemma ExposedExample(scan: string -> Option<real>)
    ensures var r := Response("a\n", Long() + FollowupHeader() + (" and more" + "\n"), "");
            exists chunks: seq<string> :: Concat(chunks) == Text(r) && GenerationText(Streamed(chunks, scan).events) == Long()
  {
    LongLine();
    hide Long, Valid, Streamed, Text, Concat, GenerationText;
    ExposedLine(Long(), " and more", scan);
  }

  function InsideLine(): Response {
    Response("a\n", "b\n", "see " + FollowupHeader() + "\nmore")
  }

  lemma InsideLineSkips()
    ensures InsideLine().followup[..4] == "see " && SkipHeaderLine(InsideLine().followup[4..]) == Some("more")
    ensures InsideLine().followup == "see " + FollowupHeader() + "\nmore"
  {
    FollowupHeaderIsHeader();
    hide FollowupHeader, IsHeader, Valid, SkipHeaderLine;
    SkipsHeaderLine(FollowupHeader(), "more");
    assert InsideLine().followup[4..] == FollowupHeader() + "\n" + "more";
  }

  lemma InsideLineParts()
    ensures ThreeSections(InsideLine()) && Index(InsideLine().confidence, FollowupHeader()) == -1
    ensures NoHeaderLine(InsideLine().generation) && !Exposed(InsideLine().generation)
    ensures NoHeaderLine(InsideLine().followup) && FindHeader(InsideLine().followup, FollowupHeader()) == -1
    ensures LosesLine(InsideLine().followup) && Index(InsideLine().followup, FollowupHeader()) == 4
  {
    assert EndsLine("a\n") && EndsLine("b\n");
    hide FindHeader, Index, GenerationHeader, FollowupHeader, NoHeaderLine, Exposed, LosesLine, EndsLine,
         ThreeSections;
    HashlessIsPlain("b\n");
    TextInLine("see ", "\nmore");
    PlainSections("a\n", "b\n", "see " + FollowupHeader() + "\nmore");
  }

  /** A complete follow-up line with the header's text inside: cut in front of that text, the
      parser takes the rest of the line for a header line and drops it. */
  lemma HeaderTextInsideLine(scan: string -> Option<real>)
    ensures Concat(FollowupCut(InsideLine(), 4)) == Text(InsideLine())
    ensures Streamed(FollowupCut(InsideLine(), 4), scan).followUpBuffer == "see more"
    ensures StructuredOf(Text(InsideLine()), scan).followup == Some("see " + FollowupHeader() + "\nmore")
  {
    InsideLineParts();
    InsideLineSkips();
    hide GenerationHeader, FollowupHeader, FindFrom, FindHeader, Index, NoHeaderLine, Exposed, LosesLine,
         SkipHeaderLine, Streamed, Text, Concat, SectionsOf, ConfidenceOf, StripModelEndTokens, ThreeSections,
         FollowupCut, BatchConfidence;
    FollowupIsLost(InsideLine(), scan);
    InsideLineBatch(scan);
    assert "see " + "more" == "see more";
  }

  lemma InsideLineBatch(scan: string -> Option<real>)
    ensures StructuredOf(Text(InsideLine()), scan).followup == Some(InsideLine().followup)
  {
    InsideLineParts();
    hide GenerationHeader, FollowupHeader, FindFrom, FindHeader, Index, NoHeaderLine, Exposed, LosesLine,
         SkipHeaderLine, Text, SectionsOf, ConfidenceOf, StripModelEndTokens, BatchConfidence, InsideLine;
    BatchSections(InsideLine());
  }

  // ----- A heading of its own

  function Details(): string { "## " + "Details" }

  function HeadingResponse(): Response {
    Response("a\n", "b" + "\n" + Details() + "\n" + "c" + "\n", "")
  }

  lemma {:induction false} BodyOfThree(x: string, y: string, z: string)
    requires '\n' !in x && '\n' !in y && '\n' !in z
    ensures EndsLine(x + "\n" + y + "\n" + z + "\n")
    ensures BodyLinesOf(x + "\n" + y + "\n" + z + "\n") == [x] + [y] + [z]
  {
    var body := x + "\n" + y + "\n" + z;
    assert WithoutLastNewline(body + "\n") == body;
    hide Lines;
    OneLine(x);
    OneLine(y);
    OneLine(z);
    LinesAppend(x + "\n" + y, z);
    LinesAppend(x, y);
  }

  lemma OtherName(name: string)
    requires name != "" && name[0] !in {'C', 'R', 'G', 'F'}
    ensures SectionNamed(name) == NoSection
  {
  }

  lemma HeadingNamed(heading: string, name: string)
    requires heading == "## " + name && name != "" && name[0] !in {'C', 'R', 'G', 'F'}
    requires 33 <= name[0] as int < 127 && 33 <= name[|name| - 1] as int < 127
    ensures IsHeaderLine(heading) && SectionNamed(TrimSpace(heading[3..])) == NoSection
  {
    OtherName(name);
    hide *;
    HeaderName(heading, name);
  }

  lemma OneLineHeading(name: string)
    requires '\n' !in name
    ensures '\n' !in "## " + name
  {
  }

  lemma DetailsIsHeading()
    ensures IsHeaderLine(Details()) && SectionNamed(TrimSpace(Details()[3..])) == NoSection && '\n' !in Details()
  {
    HeadingNamed(Details(), "Details");
    OneLineHeading("Details");
    hide *;
  }

  /** A heading that names no section ends the one before it, and what follows goes nowhere. */
  lemma SplitAtHeading(s: Split, line: string, heading: string, behind: string)
    requires s.current == GenerationSection && s.content == []
    requires !IsHeaderLine(line) && !IsHeaderLine(behind)
    requires IsHeaderLine(heading) && SectionNamed(TrimSpace(heading[3..])) == NoSection
    ensures SplitLines(s, [line] + [heading] + [behind]) == Split(s.sections[GenerationSection := line], NoSection, [])
  {
    hide TrimSpace, IsHeaderLine, SectionNamed, SplitLines;
    var s1, t := Split(s.sections, GenerationSection, [line]), Split(s.sections[GenerationSection := line], NoSection, []);
    assert s.Line(line) == s1 && s1.Line(heading) == t && t.Line(behind) == t;
    SplitLinesAppend(s, [line] + [heading], [behind]);
    SplitLinesAppend(s, [line], [heading]);
    SplitOne(s, line);
    SplitOne(s1, heading);
    SplitOne(t, behind);
  }

  lemma SplitOne(s: Split, line: string)
    ensures SplitLines(s, [line]) == s.Line(line)
  {
    hide TrimSpace, IsHeaderLine, SectionNamed;
    assert [line][1..] == [];
  }

  lemma HeadingAfterGeneration()
    ensures EndsLine(HeadingResponse().confidence) && EndsLine(HeadingResponse().generation)
    ensures AfterGeneration(HeadingResponse()) == Split(AfterConfidence("a\n").Saved()[GenerationSection := "b"], NoSection, [])
  {
    DetailsIsHeading();
    hide TrimSpace, SectionNamed, SplitLines, BodyLinesOf, AfterConfidence, Details;
    BodyOfThree("b", Details(), "c");
    SplitAtHeading(Split(AfterConfidence("a\n").Saved(), GenerationSection, []), "b", Details(), "c");
  }

  lemma HeadingBatch(scan: string -> Option<real>)
    ensures StructuredOf(Text(HeadingResponse()), scan).generation == "b"
  {
    HashlessHasNoHeaderLine("");
    assert StripModelEndTokens("b") == "b" by {
      TrimSpaceFixed("b");
    }
    HeadingAfterGeneration();
    hide Text, ConfidenceOf, SectionsOf, NoHeaderLine, Details, AfterConfidence, AfterGeneration,
         StripModelEndTokens;
    FollowupIsRecovered(HeadingResponse());
  }

  lemma HeadingHasNoF()
    ensures 'F' !in HeadingResponse().generation
  {
    assert 'F' !in Details();
    hide Details;
  }

  lemma HeadingIsStreamable()
    ensures Streamable(HeadingResponse())
  {
    HeadingHasNoF();
    HeadingAfterGeneration();
    var g := HeadingResponse().generation;
    assert HeadingResponse() == Response("a\n", g, "");
    hide *;
    HashlessIsPlain("");
    NoFollowupText(g);
    PlainSections("a\n", g, "");
    NothingLost(HeadingResponse());
  }

  lemma NothingLost(r: Response)
    requires ThreeSections(r) && Index(r.confidence, FollowupHeader()) == -1 && !Exposed(r.generation)
    requires FindHeader(r.followup, FollowupHeader()) == -1 && !LosesLine(r.followup)
    ensures Streamable(r)
  {
    hide FindHeader, Index, FollowupHeader, Exposed, LosesLine, ThreeSections;
  }

  lemma FollowupTextHasF(text: string, p: int, lineStart: bool)
    requires OccursAt(text, FollowupHeader(), p, lineStart)
    ensures 'F' in text
  {
    assert text[p + 3] == text[p..p + |FollowupHeader()|][3] == FollowupHeader()[3];
  }

  lemma NoFollowupText(text: string)
    requires 'F' !in text
    ensures FindHeader(text, FollowupHeader()) == -1 && !Exposed(text)
  {
    hide FollowupHeader, FindFrom, OccursAt, Valid;
    forall p: int, lineStart: bool
      ensures !OccursAt(text, FollowupHeader(), p, lineStart)
    {
      if OccursAt(text, FollowupHeader(), p, lineStart) {
        FollowupTextHasF(text, p, lineStart);
        assert false;
      }
    }
  }

  lemma HeadingIsHeaderLine()
    ensures !NoHeaderLine(HeadingResponse().generation)
  {
    var g := HeadingResponse().generation;
    assert g[1] == '\n' && IsHeaderLine(g[2..]);
    hide Lines, Details;
    var l := HeadingLine(g, 2);
  }

  /** A heading in the generation: the stream has all of the text, for every cutting, but the
      batch parser ends the section at the heading and drops what follows. */
  lemma HeadingExample(chunks: seq<string>, scan: string -> Option<real>)
    requires Concat(chunks) == Text(HeadingResponse())
    ensures StructuredOf(Text(HeadingResponse()), scan).generation == "b"
    ensures Squeeze(GenerationText(Streamed(chunks, scan).events)) == Squeeze(HeadingResponse().generation) != Squeeze("b")
  {
    HashlessHasNoHeaderLine("");
    var r := HeadingResponse();
    assert r.followup == "";
    hide *;
    HeadingAfterGeneration();
    HeadingIsHeaderLine();
    HeadingBatch(scan);
    HeadingIsStreamable();
    StreamingYieldsBodies(r, chunks, scan);
    HeaderLineLosesText(r, scan);
  }

  /** A heading of its own in the follow-up section. */
  lemma FollowupHeadingExample(scan: string -> Option<real>)
    ensures !AlwaysAgrees(Response("a\n", "b\n", "c" + "\n" + Details()), scan)
  {
    var followup := "c" + "\n" + Details();
    assert followup[1] == '\n' && IsHeaderLine(followup[2..]);
    assert EndsLine("a\n") && EndsLine("b\n");
    hide *;
    var l := HeadingLine(followup, 2);
    HasHeaderLine(followup, l);
    HashlessIsPlain("b\n");
    PlainSections("a\n", "b\n", followup);
    TroubledDisagrees(Response("a\n", "b\n", followup), scan);
  }

  lemma HasHeaderLine(body: string, l: nat)
    requires l < |Lines(body)| && IsHeaderLine(Lines(body)[l])
    ensures !NoHeaderLine(body)
  {
    hide Lines, IsHeaderLine;
  }

  lemma TroubledDisagrees(r: Response, scan: string -> Option<real>)
    requires ThreeSections(r) && !NoHeaderLine(r.followup)
    ensures !AlwaysAgrees(r, scan)
  {
    hide AlwaysAgrees, ThreeSections, NoHeaderLine, SameScores, Exposed, LosesLine, EndsInToken, Index;
    AlwaysAgreesExactly(r, scan);
  }

  // ----- A heading in the confidence section

  function Note(): string { "## " + "Note" }
  function Relevance(): string { "Context Relevance: 1" }

  function NotedConfidence(): string {
    Note() + "\n" + Relevance() + "\n"
  }

  lemma NoteIsHeading()
    ensures IsHeaderLine(Note()) && SectionNamed(TrimSpace(Note()[3..])) == NoSection && '\n' !in Note()
  {
    HeadingNamed(Note(), "Note");
    OneLineHeading("Note");
    hide *;
  }

  lemma RelevanceIsPlain()
    ensures '\n' !in Relevance() && !IsHeaderLine(Relevance())
  {
  }

  lemma NotedLines()
    ensures EndsLine(NotedConfidence()) && BodyLinesOf(NotedConfidence()) == [Note()] + [Relevance()]
    ensures Lines(NotedConfidence()) == [Note()] + [Relevance()] + [""]
  {
    NoteIsHeading();
    RelevanceIsPlain();
    hide Lines, Note, Relevance, IsHeaderLine, TrimSpace;
    var body := Note() + "\n" + Relevance();
    assert WithoutLastNewline(NotedConfidence()) == body;
    assert NotedConfidence() == body + "\n" + "";
    OneLine(Note());
    OneLine(Relevance());
    OneLine("");
    LinesAppend(Note(), Relevance());
    LinesAppend(body, "");
  }

  lemma NotedSplit()
    ensures EndsLine(NotedConfidence()) && BatchConfidence(NotedConfidence()) == ""
  {
    NotedLines();
    NoteIsHeading();
    RelevanceIsPlain();
    ConfidenceHeaderName();
    hide TrimSpace, Lines, BodyLinesOf, SplitLines, ConfidenceHeader, NotedConfidence, Note, Relevance,
         IsHeaderLine;
    OpenSection(Start(), ConfidenceHeader(), [Note()] + [Relevance()]);
    NotedRest(Split(map[], ConfidenceSection, []));
  }

  lemma NotedRest(s: Split)
    requires s == Split(map[], ConfidenceSection, [])
    ensures SplitLines(s, [Note()] + [Relevance()]) == Split(map[ConfidenceSection := ""], NoSection, [])
  {
    NoteIsHeading();
    RelevanceIsPlain();
    hide TrimSpace, Note, Relevance, IsHeaderLine, SectionNamed;
    var lines := [Note()] + [Relevance()];
    var t := Split(map[ConfidenceSection := ""], NoSection, []);
    assert s.Line(Note()) == t && t.Line(Relevance()) == t;
    assert lines[1..] == [Relevance()] && [Relevance()][1..] == [];
  }

  lemma NoteScoresNothing(scan: string -> Option<real>)
    ensures ScoreLines(DEFAULT_SCORES, [Note()], scan) == DEFAULT_SCORES
  {
    hide ScoreLines;
    RemnantScoresNothing(DEFAULT_SCORES, Note(), scan);
  }

  lemma RelevanceScores(scan: string -> Option<real>)
    requires forall text :: scan(text) == Some(1.0)
    ensures ScoreLines(DEFAULT_SCORES, [Relevance()] + [""], scan).contextRelevance == 1.0
  {
    TrimSpaceFixed(Relevance());
    TrimSpaceFixed("");
    assert "Context Relevance:" <= Relevance();
    hide TrimSpace;
    var r := ScoreLine(DEFAULT_SCORES, Relevance(), scan);
    assert r.contextRelevance == 1.0;
    BlankLineScoresNothing(r, scan);
    var lines := [Relevance()] + [""];
    assert lines[1..] == [""] && [""][1..] == [];
    assert ScoreLines(r, [""], scan) == r;
  }

  lemma NotedScores(scan: string -> Option<real>)
    requires forall text :: scan(text) == Some(1.0)
    ensures ConfidenceOf(NotedConfidence(), scan).contextRelevance == 1.0
  {
    hide *;
    NotedLines();
    ConfidenceIgnoresTrim(NotedConfidence(), scan);
    LinesScore(scan);
  }

  lemma LinesScore(scan: string -> Option<real>)
    requires forall text :: scan(text) == Some(1.0)
    ensures ScoreLines(DEFAULT_SCORES, [Note()] + [Relevance()] + [""], scan).contextRelevance == 1.0
  {
    hide *;
    NoteScoresNothing(scan);
    RelevanceScores(scan);
    assert [Note()] + [Relevance()] + [""] == [Note()] + ([Relevance()] + [""]);
    ScoreLinesAppend(DEFAULT_SCORES, [Note()], [Relevance()] + [""], scan);
  }

  /** Scores behind a heading in the confidence section: the streaming parser counts them, the
      batch parser does not. */
  lemma ScoresExample(scan: string -> Option<real>)
    requires forall text :: scan(text) == Some(1.0)
    ensures EndsLine(NotedConfidence()) && !SameScores(NotedConfidence(), scan)
  {
    NotedSplit();
    NotedScores(scan);
    EmptyScores(scan);
    hide BatchConfidence, NotedConfidence, ConfidenceOf;
  }

  lemma EmptyScores(scan: string -> Option<real>)
    ensures ConfidenceOf("", scan) == DEFAULT_SCORES
  {
    ConfidenceIgnoresTrim("", scan);
    BlankLineScoresNothing(DEFAULT_SCORES, scan);
    hide TrimSpace, ConfidenceOf, ScoreLine;
    assert Lines("") == [""] && [""][1..] == [];
  }
}
