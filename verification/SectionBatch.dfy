/** What the batch parser makes of a complete response: which bodies it recovers whole, and that
    it recovers no body with a header line in it. */
module SectionBatch {
  import opened Wrappers
  import opened Whitespace
  import opened TextSearch
  import opened Sections
  import opened SectionParser
  import opened SectionStreaming

  /** What `parseStructuredResponse` reads off the sections. */
  datatype Structured = Structured(scores: Option<Scores>, generation: string, followup: Option<string>)

  function StructuredOf(text: string, scan: string -> Option<real>): Structured {
    var sections := SectionsOf(text);
    Structured(
      if ConfidenceSection in sections then Some(ConfidenceOf(sections[ConfidenceSection], scan)) else None,
      StripModelEndTokens(if GenerationSection in sections then sections[GenerationSection] else text),
      if FollowupSection in sections then Some(sections[FollowupSection]) else None)
  }

  /** A body as the batch parser joins it: without its last line feed. */
  function WithoutLastNewline(s: string): string
    requires EndsLine(s)
  {
    if s == "" then "" else s[..|s| - 1]
  }

  function BodyLinesOf(body: string): seq<string>
    requires EndsLine(body)
  {
    if body == "" then [] else Lines(WithoutLastNewline(body))
  }

  lemma SectionLines(header: string, body: string, rest: string)
    requires '\n' !in header && EndsLine(body)
    ensures Lines(header + "\n" + body + rest) == [header] + BodyLinesOf(body) + Lines(rest)
  {
    OneLine(header);
    LinesAppend(header, body + rest);
    assert header + "\n" + body + rest == header + "\n" + (body + rest);
    if body == "" {
      assert body + rest == rest;
      assert [header] + [] == [header];
    } else {
      var b := WithoutLastNewline(body);
      assert body == b + "\n";
      LinesAppend(b, rest);
      assert body + rest == b + "\n" + rest;
      assert [header] + (Lines(b) + Lines(rest)) == [header] + Lines(b) + Lines(rest);
    }
  }

  lemma BodyLinesJoin(body: string)
    requires EndsLine(body) && NoHeaderLine(body)
    ensures JoinLines(BodyLinesOf(body)) == WithoutLastNewline(body)
    ensures forall i :: 0 <= i < |BodyLinesOf(body)| ==> !IsHeaderLine(BodyLinesOf(body)[i])
  {
    if body != "" {
      var b := WithoutLastNewline(body);
      JoinUndoesSplit(b);
      LinesAppend(b, "");
      assert body == b + "\n" + "";
      hide Lines, IsHeaderLine, FindFrom;
      forall i | 0 <= i < |Lines(b)|
        ensures !IsHeaderLine(Lines(b)[i])
      {
        assert Lines(body)[i] == Lines(b)[i];
      }
    }
  }

  /** A header line and the lines behind it fill one section. */
  lemma OneSection(s: Split, header: string, lines: seq<string>)
    requires IsHeaderLine(header) && SectionNamed(TrimSpace(header[3..])) != NoSection
    requires forall i :: 0 <= i < |lines| ==> !IsHeaderLine(lines[i])
    ensures SplitLines(s, [header] + lines) == Split(s.Saved(), SectionNamed(TrimSpace(header[3..])), lines)
  {
    hide TrimSpace, SectionNamed;
    assert s.Line(header) == Split(s.Saved(), SectionNamed(TrimSpace(header[3..])), []);
    assert ([header] + lines)[1..] == lines;
    BodyLines(s.Line(header), lines);
    assert [] + lines == lines;
  }

  lemma HeaderName(header: string, name: string)
    requires header == "## " + name && name != ""
    requires 33 <= name[0] as int < 127 && 33 <= name[|name| - 1] as int < 127
    ensures IsHeaderLine(header) && TrimSpace(header[3..]) == name
  {
    assert header[3..] == name;
    TrimSpaceFixed(name);
  }

  lemma ConfidenceHeaderName()
    ensures IsHeaderLine(ConfidenceHeader()) && SectionNamed(TrimSpace(ConfidenceHeader()[3..])) == ConfidenceSection
  {
    hide TrimSpace;
    HeaderName(ConfidenceHeader(), "Confidence");
  }

  lemma GenerationHeaderName()
    ensures IsHeaderLine(GenerationHeader()) && SectionNamed(TrimSpace(GenerationHeader()[3..])) == GenerationSection
  {
    hide TrimSpace;
    HeaderName(GenerationHeader(), "Generation");
  }

  lemma FollowupHeaderName()
    ensures IsHeaderLine(FollowupHeader()) && SectionNamed(TrimSpace(FollowupHeader()[3..])) == FollowupSection
  {
    hide TrimSpace;
    HeaderName(FollowupHeader(), "Follow-up Questions");
  }

  lemma LinesOfText(r: Response)
    requires EndsLine(r.confidence) && EndsLine(r.generation)
    ensures Lines(Text(r)) == ([ConfidenceHeader()] + BodyLinesOf(r.confidence))
                            + (([GenerationHeader()] + BodyLinesOf(r.generation))
                            + ([FollowupHeader()] + Lines(r.followup)))
  {
    HeadersAreHeaders();
    hide Lines, BodyLinesOf, ConfidenceHeader, GenerationHeader, FollowupHeader;
    SectionLines(ConfidenceHeader(), r.confidence, TailFromGeneration(r));
    SectionLines(GenerationHeader(), r.generation, TailFromFollowup(r));
    OneLine(FollowupHeader());
    LinesAppend(FollowupHeader(), r.followup);
  }

  // ----- The splitter on the three sections

  function Start(): Split {
    Split(map[], NoSection, [])
  }

  function AfterConfidence(confidence: string): Split
    requires EndsLine(confidence)
  {
    SplitLines(Start(), [ConfidenceHeader()] + BodyLinesOf(confidence))
  }

  function AfterGeneration(r: Response): Split
    requires EndsLine(r.confidence) && EndsLine(r.generation)
  {
    SplitLines(Split(AfterConfidence(r.confidence).Saved(), GenerationSection, []), BodyLinesOf(r.generation))
  }

  lemma OpenSection(s: Split, header: string, lines: seq<string>)
    requires IsHeaderLine(header) && SectionNamed(TrimSpace(header[3..])) != NoSection
    ensures SplitLines(s, [header] + lines) == SplitLines(Split(s.Saved(), SectionNamed(TrimSpace(header[3..])), []), lines)
  {
    hide TrimSpace, SectionNamed;
    assert ([header] + lines)[1..] == lines;
  }

  /** The last section is recovered whole if it has no header line. */
  lemma FollowupIsRecovered(r: Response)
    requires EndsLine(r.confidence) && EndsLine(r.generation) && NoHeaderLine(r.followup)
    ensures SectionsOf(Text(r)) == AfterGeneration(r).Saved()[FollowupSection := r.followup]
  {
    GenerationHeaderName();
    FollowupHeaderName();
    LinesOfText(r);
    JoinUndoesSplit(r.followup);
    hide Lines, BodyLinesOf, ConfidenceHeader, GenerationHeader, FollowupHeader, TrimSpace, SectionNamed,
         IsHeaderLine, SplitLines, Text, JoinLines;
    var first, second, third := [ConfidenceHeader()] + BodyLinesOf(r.confidence),
                                [GenerationHeader()] + BodyLinesOf(r.generation),
                                [FollowupHeader()] + Lines(r.followup);
    SplitLinesAppend(Start(), first, second + third);
    SplitLinesAppend(AfterConfidence(r.confidence), second, third);
    OpenSection(AfterConfidence(r.confidence), GenerationHeader(), BodyLinesOf(r.generation));
    OneSection(AfterGeneration(r), FollowupHeader(), Lines(r.followup));
  }

  lemma {:induction false} SectionStays(s: Split, lines: seq<string>, x: Section)
    requires x != NoSection && (s.current == x || x in s.sections)
    ensures x in SplitLines(s, lines).Saved()
    decreases |lines|
  {
    hide IsHeaderLine, TrimSpace, SectionNamed, JoinLines;
    if lines != [] {
      SectionStays(s.Line(lines[0]), lines[1..], x);
    }
  }

  /** What the batch parser takes for the confidence section. */
  function BatchConfidence(confidence: string): string
    requires EndsLine(confidence)
  {
    ConfidenceIsKept(confidence);
    AfterConfidence(confidence).Saved()[ConfidenceSection]
  }

  lemma ConfidenceIsKept(confidence: string)
    requires EndsLine(confidence)
    ensures ConfidenceSection in AfterConfidence(confidence).Saved()
  {
    ConfidenceHeaderName();
    hide ConfidenceHeader, TrimSpace, SectionNamed, IsHeaderLine, SplitLines, BodyLinesOf;
    OpenSection(Start(), ConfidenceHeader(), BodyLinesOf(confidence));
    SectionStays(Split(Start().Saved(), ConfidenceSection, []), BodyLinesOf(confidence), ConfidenceSection);
  }

  lemma WholeConfidence(confidence: string)
    requires EndsLine(confidence) && NoHeaderLine(confidence)
    ensures AfterConfidence(confidence).Saved() == map[ConfidenceSection := WithoutLastNewline(confidence)]
    ensures BatchConfidence(confidence) == WithoutLastNewline(confidence)
  {
    ConfidenceHeaderName();
    BodyLinesJoin(confidence);
    hide ConfidenceHeader, TrimSpace, SectionNamed, IsHeaderLine, SplitLines, BodyLinesOf, JoinLines;
    OneSection(Start(), ConfidenceHeader(), BodyLinesOf(confidence));
  }

  /** The batch parser recovers the bodies of the generation and the follow-up; of a confidence
      body with header lines it takes what `BatchConfidence` says, and of one without all. */
  lemma BatchSections(r: Response)
    requires EndsLine(r.confidence) && EndsLine(r.generation) && NoHeaderLine(r.generation) && NoHeaderLine(r.followup)
    ensures var sections := SectionsOf(Text(r));
            && ConfidenceSection in sections && sections[ConfidenceSection] == BatchConfidence(r.confidence)
            && GenerationSection in sections && sections[GenerationSection] == WithoutLastNewline(r.generation)
            && FollowupSection in sections && sections[FollowupSection] == r.followup
    ensures NoHeaderLine(r.confidence) ==> BatchConfidence(r.confidence) == WithoutLastNewline(r.confidence)
  {
    FollowupIsRecovered(r);
    ConfidenceIsKept(r.confidence);
    BodyLinesJoin(r.generation);
    if NoHeaderLine(r.confidence) {
      WholeConfidence(r.confidence);
    }
    hide Lines, BodyLinesOf, AfterConfidence, SplitLines, SectionsOf, Text, JoinLines, IsHeaderLine;
    BodyLines(Split(AfterConfidence(r.confidence).Saved(), GenerationSection, []), BodyLinesOf(r.generation));
    assert [] + BodyLinesOf(r.generation) == BodyLinesOf(r.generation);
  }

  // ----- No section has a header line

  lemma {:induction false} LinesHaveNoLineFeed(text: string)
    ensures forall i :: 0 <= i < |Lines(text)| ==> '\n' !in Lines(text)[i]
  {
    if text != "" {
      LinesHaveNoLineFeed(text[1..]);
    }
  }

  /** Joining lines and splitting them again gives them back. */
  lemma {:induction false} SplitUndoesJoinLines(lines: seq<string>)
    requires lines != [] && forall i :: 0 <= i < |lines| ==> '\n' !in lines[i]
    ensures Lines(JoinLines(lines)) == lines
    decreases |lines|
  {
    OneLine(lines[0]);
    if |lines| > 1 {
      SplitUndoesJoinLines(lines[1..]);
      LinesAppend(lines[0], JoinLines(lines[1..]));
    }
  }

  predicate PlainLine(line: string) {
    !IsHeaderLine(line) && '\n' !in line
  }

  ghost predicate Headless(s: Split) {
    && (forall x :: x in s.sections ==> NoHeaderLine(s.sections[x]))
    && (forall i :: 0 <= i < |s.content| ==> PlainLine(s.content[i]))
  }

  lemma JoinedHasNoHeaderLine(lines: seq<string>)
    requires forall i :: 0 <= i < |lines| ==> PlainLine(lines[i])
    ensures NoHeaderLine(JoinLines(lines))
  {
    if lines != [] {
      SplitUndoesJoinLines(lines);
    }
  }

  lemma {:induction false} SplitIsHeadless(s: Split, lines: seq<string>)
    requires Headless(s) && forall i :: 0 <= i < |lines| ==> '\n' !in lines[i]
    ensures Headless(SplitLines(s, lines))
    decreases |lines|
  {
    hide IsHeaderLine, NoHeaderLine, TrimSpace, SectionNamed, JoinLines;
    JoinedHasNoHeaderLine(s.content);
    if lines != [] {
      SplitIsHeadless(s.Line(lines[0]), lines[1..]);
    }
  }

  /** Of any text at all, no section the batch parser finds has a header line in it. */
  lemma SectionsHaveNoHeaderLine(text: string, x: Section)
    requires x in SectionsOf(text)
    ensures NoHeaderLine(SectionsOf(text)[x])
  {
    LinesHaveNoLineFeed(text);
    hide NoHeaderLine, Lines, JoinLines;
    SplitIsHeadless(Start(), Lines(text));
    JoinedHasNoHeaderLine(SplitLines(Start(), Lines(text)).content);
  }

  // ----- A header line in the generation

  /** How many bytes of some lines are no white space. */
  function Weight(lines: seq<string>): nat {
    if lines == [] then 0 else |Squeeze(lines[0])| + Weight(lines[1..])
  }

  lemma SqueezeJoin(a: string, b: string)
    ensures Squeeze(a + "\n" + b) == Squeeze(a) + Squeeze(b)
  {
    assert a + "\n" + b == a + ("\n" + b);
    NoStraddleBeforeStart(a, "\n" + b);
    SqueezeAppend(a, "\n" + b);
    assert ("\n" + b)[1..] == b;
  }

  lemma {:induction false} WeightOfJoin(lines: seq<string>)
    ensures |Squeeze(JoinLines(lines))| == Weight(lines)
    decreases |lines|
  {
    hide Squeeze;
    if lines == [] {
      assert Squeeze("") == "" by {
        SqueezeSolid("");
      }
    } else if |lines| > 1 {
      WeightOfJoin(lines[1..]);
      SqueezeJoin(lines[0], JoinLines(lines[1..]));
    } else {
      assert lines[1..] == [];
    }
  }

  lemma {:induction false} WeightOneMore(lines: seq<string>, line: string)
    ensures Weight(lines + [line]) == Weight(lines) + |Squeeze(line)|
    decreases |lines|
  {
    hide Squeeze;
    if lines == [] {
      assert [line][1..] == [] && [] + [line] == [line];
    } else {
      WeightOneMore(lines[1..], line);
      assert (lines + [line])[1..] == lines[1..] + [line];
    }
  }

  lemma HeaderLineWeighs(line: string)
    requires IsHeaderLine(line)
    ensures |Squeeze(line)| > 0
  {
    assert LeadingSpace(line) == 0;
  }

  /** The generation section of a split, as it would be saved now. */
  function Generation(s: Split): string
    requires s.current == GenerationSection || GenerationSection in s.sections
  {
    if s.current == GenerationSection then JoinLines(s.content) else s.sections[GenerationSection]
  }

  lemma OneLineWeighs(s: Split, line: string)
    requires s.current == GenerationSection || GenerationSection in s.sections
    ensures var t := s.Line(line);
            && (t.current == GenerationSection || GenerationSection in t.sections)
            && |Squeeze(Generation(t))| + (if IsHeaderLine(line) then 1 else 0) <= |Squeeze(Generation(s))| + |Squeeze(line)|
  {
    WeightOfJoin(s.content);
    WeightOneMore(s.content, line);
    WeightOfJoin(s.content + [line]);
    WeightOfJoin([]);
    if IsHeaderLine(line) {
      HeaderLineWeighs(line);
    }
    hide Squeeze, Weight, JoinLines, IsHeaderLine, TrimSpace, SectionNamed;
  }

  /** Behind a header line the section holds less than all of the lines. */
  lemma {:induction false} HeaderLineShrinks(s: Split, lines: seq<string>)
    requires s.current == GenerationSection || GenerationSection in s.sections
    ensures var t := SplitLines(s, lines);
            && (t.current == GenerationSection || GenerationSection in t.sections)
            && |Squeeze(Generation(t))| <= |Squeeze(Generation(s))| + Weight(lines)
            && ((exists i :: 0 <= i < |lines| && IsHeaderLine(lines[i])) ==> |Squeeze(Generation(t))| < |Squeeze(Generation(s))| + Weight(lines))
    decreases |lines|
  {
    hide Squeeze, Generation, IsHeaderLine;
    if lines != [] {
      OneLineWeighs(s, lines[0]);
      HeaderLineShrinks(s.Line(lines[0]), lines[1..]);
      forall i | 0 < i < |lines|
        ensures lines[i] == lines[1..][i - 1]
      {
      }
    }
  }

  lemma HeaderLineOfBody(body: string) returns (i: nat)
    requires EndsLine(body) && !NoHeaderLine(body)
    ensures i < |BodyLinesOf(body)| && IsHeaderLine(BodyLinesOf(body)[i])
  {
    if body != "" {
      var b := WithoutLastNewline(body);
      LinesAppend(b, "");
      assert body == b + "\n" + "";
      hide Lines;
      i :| 0 <= i < |Lines(body)| && IsHeaderLine(Lines(body)[i]);
    }
  }

  lemma LastNewlineIsSpace(body: string)
    requires EndsLine(body)
    ensures Squeeze(WithoutLastNewline(body)) == Squeeze(body)
  {
    if body != "" {
      var b := WithoutLastNewline(body);
      assert body == b + "\n";
      NoStraddleBeforeStart(b, "\n");
      SqueezeAppend(b, "\n");
      assert Squeeze("\n") == "";
    }
  }

  lemma BodyJoins(body: string)
    requires EndsLine(body)
    ensures JoinLines(BodyLinesOf(body)) == WithoutLastNewline(body)
  {
    if body != "" {
      JoinUndoesSplit(WithoutLastNewline(body));
    }
  }

  /** Of a generation body with a header line, the batch parser loses something. */
  lemma HeaderLineLosesText(r: Response, scan: string -> Option<real>)
    requires EndsLine(r.confidence) && EndsLine(r.generation) && NoHeaderLine(r.followup)
    requires !NoHeaderLine(r.generation)
    ensures |Squeeze(StructuredOf(Text(r), scan).generation)| < |Squeeze(r.generation)|
  {
    FollowupIsRecovered(r);
    LastNewlineIsSpace(r.generation);
    BodyJoins(r.generation);
    var lines := BodyLinesOf(r.generation);
    var i := HeaderLineOfBody(r.generation);
    WeightOfJoin(lines);
    WeightOfJoin([]);
    hide Text, SectionsOf, Squeeze, Weight, NoHeaderLine, IsHeaderLine, BodyLinesOf, SplitLines, JoinLines,
         AfterConfidence, StripModelEndTokens, Lines;
    var s := Split(AfterConfidence(r.confidence).Saved(), GenerationSection, []);
    HeaderLineShrinks(s, lines);
    assert Weight([]) == 0 by {
      WeightOneMore([], "");
    }
    StripShrinks(Generation(AfterGeneration(r)));
  }
}
