/** Main results about the section parser: what a caller sees of a response streamed in any
    chunks, against what the batch parser makes of the complete response. */
module SectionAgreement {
  import opened Wrappers
  import opened Strings
  import opened Utf8
  import opened Whitespace
  import opened TextSearch
  import opened Sections
  import opened SectionParser
  import opened SectionStreaming
  import opened SectionBatch

  // ----- The state at the end of a stream

  function Streamed(chunks: seq<string>, scan: string -> Option<real>): Parser {
    Flush(ParseChunks(NewParser(true, true), chunks, scan), scan)
  }

  lemma TextLength(r: Response)
    ensures |Text(r)| == |ConfidenceHeader()| + |r.confidence| + |GenerationHeader()| + |r.generation| + |FollowupHeader()| + |r.followup| + 3
    ensures |BeforeConfidence()| == |ConfidenceHeader()| + 1
    ensures |BeforeGeneration(r)| == |ConfidenceHeader()| + |r.confidence| + |GenerationHeader()| + 2
    ensures Text(r) == BeforeFollowup(r) + r.followup
    ensures |BeforeFollowup(r)| == |BeforeGeneration(r)| + |r.generation| + |FollowupHeader()| + 1
  {
  }

  /** Once the whole text is in, the parser is inside the follow-up section with nothing left in
      its buffer but, perhaps, a last line that was taken for a header line. */
  lemma AtEndOfText(p: Parser, r: Response, scan: string -> Option<real>)
    requires Streamable(r) && Tracks(p, r, Text(r), scan) && Settled(p, r, Text(r))
    ensures p.section == FollowupSection && p.followUpBuffer + p.buffer == r.followup
    ensures if p.pendingHeaderSkip then SkipHeaderLine(p.buffer) == None else p.buffer == ""
  {
    HeadersAreHeaders();
    TextLength(r);
    hide ConfidenceHeader, GenerationHeader, FollowupHeader, IsHeader, Valid, GenerationText,
         ConfidenceEvents, FindFrom, TrimSpace, ConfidenceOf;
    if p.section == FollowupSection && p.pendingHeaderSkip && EndsInLastLine(p, r, Text(r)) {
      LastLineIsThere(p, r);
    } else if p.pendingHeaderSkip {
      var newline := PendingHasNewline(p, r, scan);
      SkipSucceeds(p.buffer, newline);
    } else {
      hide Text, BeforeFollowup;
      if p.section == FollowupSection {
        assert (BeforeFollowup(r) + p.followUpBuffer)[|BeforeFollowup(r)|..] == p.followUpBuffer;
        assert (BeforeFollowup(r) + r.followup)[|BeforeFollowup(r)|..] == r.followup;
        assert BeforeFollowup(r) + p.followUpBuffer + "" == BeforeFollowup(r) + p.followUpBuffer;
      }
    }
  }

  lemma LastLineIsThere(p: Parser, r: Response)
    requires Text(r) == BeforeFollowup(r) + p.followUpBuffer + p.buffer
    ensures p.followUpBuffer + p.buffer == r.followup
  {
    TextLength(r);
    var w := p.followUpBuffer + p.buffer;
    hide Text, BeforeFollowup;
    assert BeforeFollowup(r) + w == BeforeFollowup(r) + r.followup;
    assert (BeforeFollowup(r) + w)[|BeforeFollowup(r)|..] == w;
    assert (BeforeFollowup(r) + r.followup)[|BeforeFollowup(r)|..] == r.followup;
  }

  lemma PendingHasNewline(p: Parser, r: Response, scan: string -> Option<real>) returns (i: nat)
    requires Streamable(r) && Tracks(p, r, Text(r), scan) && p.pendingHeaderSkip
    requires !(p.section == FollowupSection && EndsInLastLine(p, r, Text(r)))
    ensures i < |p.buffer| && p.buffer[i] == '\n'
  {
    HeadersAreHeaders();
    hide ConfidenceHeader, GenerationHeader, FollowupHeader, IsHeader, Valid, GenerationText,
         ConfidenceEvents, FindFrom, TrimSpace, ConfidenceOf;
    match p.section
    case ConfidenceSection =>
      i := |ConfidenceHeader()|;
      assert Text(r)[i] == '\n';
    case GenerationSection =>
      i := |GenerationHeader()|;
      var before := BeforeConfidence() + r.confidence;
      assert Text(r) == before + GenerationHeader() + ("\n" + r.generation + TailFromFollowup(r));
      assert Text(r)[|before| + i] == '\n';
    case FollowupSection =>
      i := |FollowupHeader()|;
      var before := BeforeGeneration(r) + r.generation;
      assert Text(r) == before + FollowupHeader() + ("\n" + r.followup);
      assert Text(r)[|before| + i] == '\n';
  }

  lemma SkipSucceeds(buffer: string, i: nat)
    requires i < |buffer| && buffer[i] == '\n'
    ensures SkipHeaderLine(buffer) != None
  {
    NewlineOccurs(buffer, i);
  }

  /** What the parser holds at the end of the stream, from any of its settled states on. */
  lemma StateAtEnd(p0: Parser, r: Response, before: string, chunks: seq<string>, scan: string -> Option<real>)
    requires Streamable(r) && before + Concat(chunks) == Text(r)
    requires Tracks(p0, r, before, scan) && Settled(p0, r, before)
    ensures var p := Flush(ParseChunks(p0, chunks, scan), scan);
            && p.followUpBuffer == r.followup
            && ConfidenceEmitted(p, r, scan)
            && exists n: nat :: GenerationComplete(p, r, n)
  {
    HeadersAreHeaders();
    hide Text, ConfidenceHeader, GenerationHeader, FollowupHeader, IsHeader, Valid, GenerationText,
         ConfidenceEvents, FindFrom, TrimSpace, ConfidenceOf, ParseChunks;
    ChunksKeep(p0, r, before, chunks, scan);
    var p := ParseChunks(p0, chunks, scan);
    assert ConfidenceEmitted(p, r, scan) && exists n: nat :: GenerationComplete(p, r, n) by {
      AtEndOfText(p, r, scan);
    }
    AtEndOfText(p, r, scan);
    hide Tracks, Settled;
    FlushesLastLine(p, scan);
    var n: nat :| GenerationComplete(p, r, n);
    assert GenerationComplete(Flush(p, scan), r, n);
  }

  lemma StreamedState(r: Response, chunks: seq<string>, scan: string -> Option<real>)
    requires Streamable(r) && Concat(chunks) == Text(r)
    ensures var p := Streamed(chunks, scan);
            && p.followUpBuffer == r.followup
            && ConfidenceEmitted(p, r, scan)
            && exists n: nat :: GenerationComplete(p, r, n)
  {
    HeadersAreHeaders();
    hide Text, ConfidenceHeader, GenerationHeader, FollowupHeader, IsHeader, Valid, GenerationText,
         ConfidenceEvents, FindFrom, TrimSpace, ConfidenceOf, ParseChunks, Flush;
    assert "" + Concat(chunks) == Concat(chunks);
    StateAtEnd(NewParser(true, true), r, "", chunks, scan);
  }

  lemma FlushesLastLine(p: Parser, scan: string -> Option<real>)
    requires p.section == FollowupSection && (if p.pendingHeaderSkip then SkipHeaderLine(p.buffer) == None else p.buffer == "")
    ensures Flush(p, scan) == p.(followUpBuffer := p.followUpBuffer + p.buffer, buffer := "")
  {
    hide SkipHeaderLine, StripModelEndTokens, ConfidenceOf;
    assert p.followUpBuffer + "" == p.followUpBuffer;
  }

  // ----- Agreement

  /** The beginning of the Generation header left behind the confidence text scores nothing. */
  lemma HeaderRemnantScoresNothing(body: string, text: string, scan: string -> Option<real>)
    requires EndsLine(body) && body != ""
    requires body <= text < body + GenerationHeader()
    ensures ConfidenceOf(text, scan) == ConfidenceOf(WithoutLastNewline(body), scan)
  {
    var b := WithoutLastNewline(body);
    var remnant := text[|body|..];
    assert text == b + "\n" + remnant;
    assert remnant == GenerationHeader()[..|remnant|];
    HeadersAreHeaders();
    assert '\n' !in remnant;
    ConfidenceIgnoresTrim(text, scan);
    ConfidenceIgnoresTrim(b, scan);
    LinesAppend(b, remnant);
    OneLine(remnant);
    ScoreLinesAppend(DEFAULT_SCORES, Lines(b), [remnant], scan);
    RemnantScoresNothing(ScoreLines(DEFAULT_SCORES, Lines(b), scan), remnant, scan);
  }

  lemma RemnantScoresNothing(s: Scores, remnant: string, scan: string -> Option<real>)
    requires remnant == "" || remnant[0] == '#'
    ensures ScoreLines(s, [remnant], scan) == s
  {
    if remnant != "" {
      assert LeadingSpace(remnant) == 0;
      TrimRightEnds(remnant);
      var line := TrimSpace(remnant);
      assert line <= remnant;
      if line != "" {
        assert line[0] == '#';
        assert "Generation Confidence:"[0] == 'G' && "Context Relevance:"[0] == 'C';
      }
    }
    var one: seq<string> := [remnant];
    assert one[1..] == [];
  }

  /** The bodies as the callbacks and the follow-up buffer have them: a confidence body that is
      not empty gives exactly one confidence event, with the scores of the body; the generation
      events concatenate to the generation body modulo white space, and they are all valid
      UTF-8 if the body is. */
  ghost predicate YieldsBodies(p: Parser, r: Response, scan: string -> Option<real>) {
    && p.followUpBuffer == r.followup
    && (r.confidence != "" ==> ConfidenceEvents(p.events) == [ConfidenceOf(r.confidence, scan)])
    && Squeeze(GenerationText(p.events)) == Squeeze(r.generation)
    && (Valid(r.generation) ==> GenerationEventsValid(p.events))
  }

  lemma StateYieldsBodies(p: Parser, r: Response, n: nat, scan: string -> Option<real>)
    requires ThreeSections(r) && p.followUpBuffer == r.followup && ConfidenceEmitted(p, r, scan) && GenerationComplete(p, r, n)
    ensures YieldsBodies(p, r, scan)
  {
    hide Squeeze, ConfidenceHeader, GenerationHeader, FollowupHeader, Valid, GenerationText, ConfidenceEvents, FindFrom,
         TrimSpace, ConfidenceOf;
    if r.confidence != "" {
      assert r.confidence < r.confidence + GenerationHeader() by {
        HeadersAreHeaders();
      }
      HeaderRemnantScoresNothing(r.confidence, p.confidenceBuffer, scan);
      HeaderRemnantScoresNothing(r.confidence, r.confidence, scan);
    }
    StreamedModuloSpace(r.generation, n);
  }

  /** Every response on which no cut can mislead the parser yields its bodies, however it is
      cut. */
  lemma StreamingYieldsBodies(r: Response, chunks: seq<string>, scan: string -> Option<real>)
    requires Streamable(r) && Concat(chunks) == Text(r)
    ensures YieldsBodies(Streamed(chunks, scan), r, scan)
  {
    StreamedState(r, chunks, scan);
    hide Text, ConfidenceEmitted, GenerationComplete, FindFrom, ParseChunks, Streamed, Exposed, YieldsBodies;
    var p := Streamed(chunks, scan);
    var n: nat :| GenerationComplete(p, r, n);
    StateYieldsBodies(p, r, n, scan);
  }

  /** The scores of the confidence body are those of what the batch parser takes of it. */
  predicate SameScores(confidence: string, scan: string -> Option<real>)
    requires EndsLine(confidence)
  {
    ConfidenceOf(BatchConfidence(confidence), scan) == ConfidenceOf(confidence, scan)
  }

  lemma ScoresWithoutHeaderLine(confidence: string, scan: string -> Option<real>)
    requires EndsLine(confidence) && NoHeaderLine(confidence)
    ensures SameScores(confidence, scan)
  {
    WholeConfidence(confidence);
    if confidence != "" {
      hide ConfidenceOf, NoHeaderLine, BatchConfidence, WithoutLastNewline;
      HeadersAreHeaders();
      hide GenerationHeader;
      assert confidence < confidence + GenerationHeader();
      HeaderRemnantScoresNothing(confidence, confidence, scan);
    }
  }

  /** In the end the caller of the streaming parser has seen what the batch parser reports. */
  ghost predicate Agrees(p: Parser, batch: Structured) {
    && batch.followup == Some(p.followUpBuffer)
    && batch.scores.Some? && ConfidenceEvents(p.events) == [batch.scores.value]
    && Squeeze(GenerationText(p.events)) == Squeeze(batch.generation)
  }

  /** Where the generation and the follow-up have no header line, what is streamed, however the
      response is cut, is what the batch parser makes of it, except for a model end token and
      for scores behind a header line of the confidence section. */
  lemma StreamingAgreesWithBatch(r: Response, chunks: seq<string>, scan: string -> Option<real>)
    requires Streamable(r) && NoHeaderLine(r.generation) && NoHeaderLine(r.followup) && Concat(chunks) == Text(r)
    ensures var p := Streamed(chunks, scan);
            var batch := StructuredOf(Text(r), scan);
            && batch.followup == Some(p.followUpBuffer)
            && (r.confidence != "" ==> batch.scores.Some? && (ConfidenceEvents(p.events) == [batch.scores.value] <==> SameScores(r.confidence, scan)))
            && (Squeeze(GenerationText(p.events)) == Squeeze(batch.generation)
                <==> !EndsInToken(WithoutLastNewline(r.generation), MODEL_END_TOKENS))
            && (Valid(r.generation) ==> GenerationEventsValid(p.events))
  {
    StreamingYieldsBodies(r, chunks, scan);
    BatchSections(r);
    hide Text, SectionsOf, Squeeze, ConfidenceHeader, GenerationHeader, FollowupHeader, IsHeader, Valid,
         GenerationText, ConfidenceEvents, FindFrom, TrimSpace, ConfidenceOf, ParseChunks, Streamed,
         StripModelEndTokens, EndsInToken, BatchConfidence, Exposed;
    LastNewlineIsSpace(r.generation);
    StripChangesOnlyTokens(WithoutLastNewline(r.generation));
  }

  /** In the generation section of a valid response no more than the minimum buffer size is
      held back after a chunk. */
  lemma HeldBackIsBounded(r: Response, chunks: seq<string>, rest: string, scan: string -> Option<real>)
    requires Streamable(r) && Valid(r.generation) && Concat(chunks) + rest == Text(r)
    ensures var p := ParseChunks(NewParser(true, true), chunks, scan);
            p.section == GenerationSection ==> |p.buffer| <= STREAM_MIN_BUFFER_SIZE
  {
    HeadersAreHeaders();
    hide Text, Valid, GenerationText, ConfidenceEvents, TrimSpace, ConfidenceOf, ParseChunks, FindFrom;
    var p0 := NewParser(true, true);
    assert "" + Concat(chunks) == Concat(chunks);
    assert Tracks(p0, r, "", scan) && Settled(p0, r, "");
    ChunksKeep(p0, r, "", chunks, scan);
    var p := ParseChunks(p0, chunks, scan);
    if p.section == GenerationSection && p.pendingHeaderSkip {
      PendingIsShort(p, r, Concat(chunks), rest, scan);
    }
  }

  lemma PendingIsShort(p: Parser, r: Response, seen: string, rest: string, scan: string -> Option<real>)
    requires Streamable(r) && seen + rest == Text(r) && p.section == GenerationSection && p.pendingHeaderSkip
    requires Tracks(p, r, seen, scan) && SkipHeaderLine(p.buffer) == None
    ensures p.buffer == GenerationHeader()
  {
    HeadersAreHeaders();
    hide ConfidenceHeader, GenerationHeader, FollowupHeader, IsHeader, Valid, GenerationText,
         ConfidenceEvents, FindFrom, TrimSpace, ConfidenceOf;
    var before := BeforeConfidence() + r.confidence;
    var tail := r.generation + TailFromFollowup(r);
    assert Text(r) == before + GenerationHeader() + ("\n" + tail);
    assert seen <= Text(r);
    hide Text, TailFromFollowup, BeforeConfidence;
    var behind := PendingHeader(seen, before, GenerationHeader(), p.buffer, tail);
    if behind != "" {
      assert p.buffer[|GenerationHeader()|] == '\n';
      SkipSucceeds(p.buffer, |GenerationHeader()|);
    }
  }

  // ----- The empty confidence body

  /** From the generation on a turn stays there or goes on to the follow-up section, and leaves
      the confidence text as it is. */
  lemma StepStaysPast(p: Parser, scan: string -> Option<real>)
    requires p.section == GenerationSection || p.section == FollowupSection
    ensures var q := Step(p, scan).parser;
            && (q.section == GenerationSection || q.section == FollowupSection)
            && q.confidenceBuffer == p.confidenceBuffer
  {
    assert LocateGeneration(p) == (p, -1) by {
      hide FindFrom, FindHeaderInCombined, GenerationHeader;
    }
    hide FindFrom, ConfidenceHeader, GenerationHeader, FollowupHeader, TrimSpace, StreamWithLookahead, LocateGeneration,
         SkipHeaderLine;
  }

  lemma {:induction false} ConfidenceTextStays(p: Parser, scan: string -> Option<real>)
    requires p.section == GenerationSection || p.section == FollowupSection
    ensures Loop(p, scan).confidenceBuffer == p.confidenceBuffer
    ensures Loop(p, scan).section == GenerationSection || Loop(p, scan).section == FollowupSection
    decreases SectionRank(p.section), |p.buffer|
  {
    hide Step;
    StepProgress(p, scan);
    StepStaysPast(p, scan);
    if Step(p, scan).Again? {
      ConfidenceTextStays(Step(p, scan).parser, scan);
    }
  }

  /** An empty confidence section that arrives in one chunk emits nothing. */
  lemma EmptyConfidenceInOneChunk(r: Response, scan: string -> Option<real>)
    requires Streamable(r) && r.confidence == ""
    ensures Concat([Text(r)]) == Text(r) && ConfidenceEvents(Streamed([Text(r)], scan).events) == []
  {
    var chunks: seq<string> := [Text(r)];
    ConcatOne(Text(r));
    StreamedState(r, chunks, scan);
    EmptyConfidenceStays(r, scan);
  }

  lemma FirstTurn(p: Parser, behind: string, scan: string -> Option<real>)
    requires p == NewParser(true, true).(buffer := ConfidenceHeader() + ("\n" + behind))
    ensures Step(p, scan) == Again(p.(section := ConfidenceSection, buffer := behind))
  {
    HeadersAreHeaders();
    var rest := "\n" + behind;
    HeaderAtFront(ConfidenceHeader(), rest);
    StepEntersConfidence(p, scan);
    hide Step, FindHeader, ConfidenceHeader, GenerationHeader, FollowupHeader, IsHeader, FindFrom;
    HeaderLine(ConfidenceHeader(), rest);
    assert rest[1..] == behind;
  }

  lemma LocatedAtFront(q: Parser, rest: string)
    requires q.section == ConfidenceSection && !q.confidenceDone && q.confidenceBuffer == ""
    requires q.buffer == GenerationHeader() + rest
    ensures LocateGeneration(q) == (q, 0)
  {
    HeaderAtFront(GenerationHeader(), rest);
    hide FindHeader, GenerationHeader;
    assert "" + q.buffer == q.buffer && q.buffer[..0] == "" && q.buffer[0..] == q.buffer && "" + "" == "";
  }

  lemma NothingToEmit(q: Parser, scan: string -> Option<real>)
    requires q.section == ConfidenceSection && !q.confidenceDone && q.confidenceBuffer == ""
    ensures ToGeneration(q, 0, scan) == q.(section := GenerationSection, confidenceDone := true)
  {
    assert q.buffer[..0] == "" && q.buffer[0..] == q.buffer;
    assert TrimSpace("") == "" && "" + "" == "";
  }

  lemma SecondTurn(q: Parser, behind: string, scan: string -> Option<real>)
    requires !q.pendingHeaderSkip && q.section == ConfidenceSection && !q.confidenceDone && q.confidenceBuffer == ""
    requires q.buffer == GenerationHeader() + ("\n" + behind)
    ensures Step(q, scan) == Again(q.(section := GenerationSection, confidenceDone := true, buffer := behind))
  {
    HeadersAreHeaders();
    hide ConfidenceHeader, GenerationHeader, FollowupHeader, IsHeader, FindFrom, ConfidenceOf, ToGeneration, Step;
    var rest := "\n" + behind;
    LocatedAtFront(q, rest);
    StepEntersGeneration(q, q, scan);
    hide LocateGeneration;
    NothingToEmit(q, scan);
    HeaderLine(GenerationHeader(), rest);
    assert rest[1..] == behind;
  }

  lemma TextWithoutConfidence(r: Response)
    requires r.confidence == ""
    ensures Text(r) == ConfidenceHeader() + ("\n" + TailFromGeneration(r))
    ensures TailFromGeneration(r) == GenerationHeader() + ("\n" + (r.generation + TailFromFollowup(r)))
  {
    hide ConfidenceHeader, GenerationHeader, FollowupHeader;
  }

  lemma EmptyConfidenceStays(r: Response, scan: string -> Option<real>)
    requires Streamable(r) && r.confidence == ""
    ensures Streamed([Text(r)], scan).confidenceBuffer == ""
  {
    OneChunk(NewParser(true, true), Text(r), scan);
    var p := NewParser(true, true).(buffer := Text(r));
    assert "" + Text(r) == Text(r);
    TextWithoutConfidence(r);
    hide Text, TailFromGeneration, TailFromFollowup, ConfidenceHeader, GenerationHeader, Step, FindFrom,
         ParseChunks, Concat, Streamable, Flush, Loop;
    FirstTurn(p, TailFromGeneration(r), scan);
    var q := Step(p, scan).parser;
    SecondTurn(q, r.generation + TailFromFollowup(r), scan);
    var t := Step(q, scan).parser;
    ConfidenceTextStays(t, scan);
    FlushKeepsDone(Loop(t, scan), scan);
    LoopsOn(p, q, scan);
    LoopsOn(q, t, scan);
  }

  lemma LoopsOn(p: Parser, q: Parser, scan: string -> Option<real>)
    requires Step(p, scan) == Again(q)
    ensures Loop(p, scan) == Loop(q, scan)
  {
    hide Step;
  }

  lemma FlushKeepsDone(p: Parser, scan: string -> Option<real>)
    ensures p.section != ConfidenceSection ==> Flush(p, scan).confidenceBuffer == p.confidenceBuffer
  {
    hide FindFrom, StripModelEndTokens, SkipHeaderLine, ConfidenceOf;
  }

  /** "Exactly one confidence event, however the response is cut" holds of a response exactly
      when its confidence body is not empty. */
  lemma OneConfidenceEventExactly(r: Response, scan: string -> Option<real>)
    requires Streamable(r)
    ensures (forall chunks: seq<string> :: Concat(chunks) == Text(r) ==> |ConfidenceEvents(Streamed(chunks, scan).events)| == 1)
            <==> r.confidence != ""
  {
    hide Text, ConfidenceEvents, Streamed, Concat, Streamable, StructuredOf, GenerationText, Squeeze, EndsInToken;
    if r.confidence != "" {
      forall chunks: seq<string> | Concat(chunks) == Text(r)
        ensures |ConfidenceEvents(Streamed(chunks, scan).events)| == 1
      {
        StreamingYieldsBodies(r, chunks, scan);
      }
    } else {
      EmptyConfidenceInOneChunk(r, scan);
    }
  }
}
