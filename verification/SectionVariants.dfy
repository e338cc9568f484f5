/** What comes of responses without a Follow-up or without a Confidence section, and of responses
    with text in front of their first header, for every way of cutting them; and what holds of
    every stream whatsoever. */
module SectionVariants {
  import opened Wrappers
  import opened Strings
  import opened Utf8
  import opened Whitespace
  import opened TextSearch
  import opened Sections
  import opened SectionParser
  import opened SectionStreaming
  import opened SectionBatch
  import opened SectionAgreement
  import opened SectionShapes

  // ----- The generation without a Follow-up section

  /** The parser has streamed the first `n` bytes of the text and holds the others back. */
  ghost predicate Flowed(p: Parser, q: Parser, text: string, n: nat) {
    && n <= |text| && Valid(text[..n])
    && (n > 0 ==> |text| > STREAM_MIN_BUFFER_SIZE && |text| - n >= STREAM_LOOKAHEAD_SIZE)
    && q == p.(buffer := text[n..], generationBuffer := p.generationBuffer + text[..n], events := q.events)
    && GenerationText(q.events) == GenerationText(p.events) + text[..n]
    && ConfidenceEvents(q.events) == ConfidenceEvents(p.events)
  }

  predicate StaysInGeneration(p: Parser, text: string) {
    && p.section == GenerationSection && !p.pendingHeaderSkip
    && (p.withFollowup ==> Index(text, FollowupHeader()) == -1)
  }

  lemma GenerationAccumulates(p: Parser, scan: string -> Option<real>)
    requires StaysInGeneration(p, p.buffer)
    ensures Loop(p, scan) == Accumulate(p)
  {
    hide FindFrom, Accumulate, ConfidenceHeader, GenerationHeader, FollowupHeader;
    if p.withFollowup {
      assert p.buffer[0..|p.buffer|] == p.buffer;
      NoTextInPart(p.buffer, 0, |p.buffer|, FollowupHeader());
    }
    assert Step(p, scan) == Wait(Accumulate(p));
  }

  lemma NothingFlows(p: Parser)
    ensures Flowed(p, p, p.buffer, 0)
  {
    NothingTrimmed();
    hide GenerationText, ConfidenceEvents, Valid;
    assert p.buffer[..0] == "" && p.buffer[0..] == p.buffer;
    assert p.generationBuffer + "" == p.generationBuffer && GenerationText(p.events) + "" == GenerationText(p.events);
  }

  lemma EmitFlows(p: Parser, s: string, r: string)
    requires s + r == p.buffer && Valid(s) && s != ""
    requires |p.buffer| > STREAM_MIN_BUFFER_SIZE && |r| >= STREAM_LOOKAHEAD_SIZE
    ensures Flowed(p, EmitGeneration(p, s).(buffer := r), p.buffer, |s|)
  {
    hide GenerationText, ConfidenceEvents, Valid;
    assert p.buffer[..|s|] == s && p.buffer[|s|..] == r;
    OneMoreEvent(p.events, GenerationEvent(s));
  }

  lemma AccumulateFlows(p: Parser) returns (n: nat)
    requires p.section == GenerationSection
    ensures Flowed(p, Accumulate(p), p.buffer, n)
  {
    hide Valid, ValidPrefixLength, GenerationText, ConfidenceEvents, Flowed;
    var (s, r, b) := StreamWithLookahead(p.buffer, STREAM_LOOKAHEAD_SIZE, STREAM_MIN_BUFFER_SIZE);
    if b {
      EmitFlows(p, s, r);
      n := |s|;
    } else {
      NothingFlows(p);
      n := 0;
    }
  }

  lemma CutTwice(text: string, more: string, n: nat, m: nat)
    requires n <= |text| && m <= |text| - n + |more|
    ensures text[..n] + (text[n..] + more)[..m] == (text + more)[..n + m]
    ensures (text[n..] + more)[m..] == (text + more)[n + m..]
  {
  }

  lemma FlowsOn(p: Parser, q: Parser, t: Parser, text: string, more: string, n: nat, m: nat)
    requires Flowed(p, q, text, n) && Flowed(q, t, q.buffer + more, m)
    ensures Flowed(p, t, text + more, n + m)
  {
    hide GenerationText, ConfidenceEvents, Valid;
    CutTwice(text, more, n, m);
    var a, b := text[..n], (text[n..] + more)[..m];
    ValidAppend(a, b);
    Associates(p.generationBuffer, a, b);
    Associates(GenerationText(p.events), a, b);
  }

  lemma Associates(x: string, a: string, b: string)
    ensures x + a + b == x + (a + b)
  {
  }

  lemma {:induction false} GenerationFlows(p: Parser, chunks: seq<string>, scan: string -> Option<real>) returns (n: nat)
    requires StaysInGeneration(p, p.buffer + Concat(chunks))
    ensures Flowed(p, ParseChunks(p, chunks, scan), p.buffer + Concat(chunks), n)
    decreases |chunks|
  {
    hide Loop, Accumulate, FindFrom, FollowupHeader, Flowed, Valid;
    if chunks == [] {
      NothingFlows(p);
      assert p.buffer + "" == p.buffer;
      n := 0;
    } else {
      var u := p.buffer + chunks[0];
      ConcatFront(chunks);
      assert p.buffer + Concat(chunks) == u + Concat(chunks[1..]);
      var q, k := OneChunkFlows(p, chunks[0], Concat(chunks[1..]), scan);
      var m := GenerationFlows(q, chunks[1..], scan);
      FlowsOn(p, q, ParseChunks(q, chunks[1..], scan), u, Concat(chunks[1..]), k, m);
      n := k + m;
    }
  }

  lemma OneChunkFlows(p: Parser, chunk: string, more: string, scan: string -> Option<real>) returns (q: Parser, n: nat)
    requires StaysInGeneration(p, p.buffer + chunk + more)
    ensures q == ParseChunk(p, chunk, scan) && Flowed(p, q, p.buffer + chunk, n)
    ensures StaysInGeneration(q, q.buffer + more)
  {
    hide Loop, Accumulate, FindFrom, FollowupHeader, GenerationText, ConfidenceEvents, Valid;
    var u := p.buffer + chunk;
    var pu := p.(buffer := u);
    if p.withFollowup {
      NoTextInPrefix(u + more, |u|, FollowupHeader());
      assert (u + more)[..|u|] == u;
    }
    GenerationAccumulates(pu, scan);
    n := AccumulateFlows(pu);
    q := Accumulate(pu);
    assert q.buffer + more == (u + more)[n..];
    if p.withFollowup {
      NoTextInSuffix(u + more, n, FollowupHeader());
    }
  }

  lemma NoTextInPrefix(text: string, n: nat, pattern: string)
    requires n <= |text| && Index(text, pattern) == -1
    ensures Index(text[..n], pattern) == -1
  {
    var k := Index(text[..n], pattern);
    if k >= 0 {
      OccursInPrefix(text, n, pattern, k, false);
    }
  }

  lemma NoTextInSuffix(text: string, n: nat, pattern: string)
    requires n <= |text| && Index(text, pattern) == -1
    ensures Index(text[n..], pattern) == -1
  {
    var k := Index(text[n..], pattern);
    assert text[n..|text|] == text[n..];
    if k >= 0 {
      OccursInWindow(text, n, |text|, pattern, k);
    }
  }

  /** What is streamed of a generation that nothing follows: a valid part of it as it is, unless
      it is short, and behind that the trimmed rest without an end token. */
  ghost predicate StreamedAs(streamed: string, text: string) {
    exists n: nat :: StreamedUpTo(streamed, text, n)
  }

  ghost predicate StreamedUpTo(streamed: string, text: string, n: nat) {
    && n <= |text| && Valid(text[..n])
    && (n > 0 ==> |text| > STREAM_MIN_BUFFER_SIZE && |text| - n >= STREAM_LOOKAHEAD_SIZE)
    && streamed == text[..n] + StripModelEndTokens(text[n..])
  }

  lemma FlushesGeneration(p: Parser, scan: string -> Option<real>)
    requires p.section == GenerationSection && !p.pendingHeaderSkip
    ensures var q := Flush(p, scan);
            && GenerationText(q.events) == GenerationText(p.events) + StripModelEndTokens(p.buffer)
            && ConfidenceEvents(q.events) == ConfidenceEvents(p.events)
            && q.followUpBuffer == p.followUpBuffer
  {
    EmptyStripsToNothing();
    hide GenerationText, ConfidenceEvents, StripModelEndTokens;
    var t := StripModelEndTokens(p.buffer);
    OneMoreEvent(p.events, GenerationEvent(t));
    assert GenerationText(p.events) + "" == GenerationText(p.events);
    assert ConfidenceEvents(p.events) + [] == ConfidenceEvents(p.events);
  }

  lemma GenerationEnds(p: Parser, text: string, chunks: seq<string>, scan: string -> Option<real>)
    requires StaysInGeneration(p, text) && p.buffer == "" && Concat(chunks) == text
    ensures var q := Flush(ParseChunks(p, chunks, scan), scan);
            && (GenerationText(p.events) == "" ==> StreamedAs(GenerationText(q.events), text))
            && ConfidenceEvents(q.events) == ConfidenceEvents(p.events)
            && q.followUpBuffer == p.followUpBuffer
  {
    hide GenerationText, ConfidenceEvents, StripModelEndTokens, FindFrom, FollowupHeader, ParseChunks, Flush, Valid;
    assert "" + text == text;
    var n := GenerationFlows(p, chunks, scan);
    var q := ParseChunks(p, chunks, scan);
    FlushesGeneration(q, scan);
    if GenerationText(p.events) == "" {
      assert "" + text[..n] == text[..n];
      assert StreamedUpTo(GenerationText(Flush(q, scan).events), text, n);
    }
  }

  /** A response whose first header is the Generation header, with the Follow-up section switched
      off or not in it: everything behind the header line is the generation, and nothing else
      is emitted.  With the section switched off that includes a Follow-up section. */
  lemma GenerationAlone(o: Opening, tail: string, generation: string, chunks: seq<string>, scan: string -> Option<real>)
    requires Concat(chunks) == o.preamble + o.header + (tail + "\n" + generation)
    requires o.Clear(tail + "\n" + generation) && '\n' !in tail && o.header == GenerationHeader()
    requires o.withFollowup ==> Index(generation, FollowupHeader()) == -1
    ensures var p := StreamedWith(o.withConfidence, o.withFollowup, chunks, scan);
            && StreamedAs(GenerationText(p.events), generation)
            && ConfidenceEvents(p.events) == [] && p.followUpBuffer == ""
  {
    HeadersDiffer();
    hide FindFrom, ConfidenceHeader, GenerationHeader, FollowupHeader, ParseChunks, Flush, o.Clear;
    var later := EntersSection(o, tail, generation, chunks, scan);
    GenerationEnds(o.Entered(), generation, later, scan);
  }

  /** A response with a Confidence section and a generation, and the Follow-up section switched
      off or not in it: the scores of the confidence body, and then the generation. */
  lemma ConfidenceAndGeneration(o: Opening, tail: string, body: string, tail': string, generation: string, chunks: seq<string>,
                                scan: string -> Option<real>)
    requires var behind := tail + "\n" + (body + GenerationHeader() + (tail' + "\n" + generation));
             Concat(chunks) == o.preamble + o.header + behind && o.Clear(behind) && o.header == ConfidenceHeader()
    requires '\n' !in tail && '\n' !in tail' && EndsLine(body) && FindHeader(body, GenerationHeader()) == -1
    requires o.withFollowup ==> Index(body, FollowupHeader()) == -1 && Index(generation, FollowupHeader()) == -1
    ensures var p := StreamedWith(o.withConfidence, o.withFollowup, chunks, scan);
            && (body != "" ==> ConfidenceEvents(p.events) == [ConfidenceOf(body, scan)])
            && |ConfidenceEvents(p.events)| <= 1
            && StreamedAs(GenerationText(p.events), generation)
            && p.followUpBuffer == ""
  {
    hide *;
    var rest := body + GenerationHeader() + (tail' + "\n" + generation);
    var later := EntersSection(o, tail, rest, chunks, scan);
    FromTheFront(later);
    EnteredConfidence(o);
    var text, line := ConfidencePasses(o.Entered(), body, tail' + "\n" + generation, later, scan);
    ScoredStays(o, generation, text, scan);
    var last := GenerationLine(Scored(o.Entered(), text, scan), tail', generation, line, scan);
    ScoredOnce(o, body, text, scan);
    GenerationEnds(Scored(o.Entered(), text, scan), generation, last, scan);
    StreamedFrom(o, chunks, Scored(o.Entered(), text, scan), last, scan);
  }

  lemma EnteredConfidence(o: Opening)
    requires o.header == ConfidenceHeader()
    ensures var p := o.Entered();
            p.section == ConfidenceSection && !p.pendingHeaderSkip && !p.confidenceDone && p.buffer == "" && p.confidenceBuffer == ""
            && p.withFollowup == o.withFollowup
    ensures |GenerationHeader()| > 0
  {
  }

  lemma GenerationLine(d: Parser, tail: string, generation: string, line: seq<string>, scan: string -> Option<real>)
    returns (last: seq<string>)
    requires Concat(line) == GenerationHeader() + (tail + "\n" + generation) && '\n' !in tail
    requires d.buffer == "" && !d.pendingHeaderSkip
    ensures Concat(last) == generation
    ensures ParseChunks(d.(pendingHeaderSkip := true), line, scan) == ParseChunks(d, last, scan)
  {
    HeadersAreHeaders();
    hide ConfidenceHeader, GenerationHeader, FollowupHeader, ParseChunks, IsHeader;
    LineBehind(GenerationHeader(), tail, generation);
    FromTheFront(line);
    last := LinePasses(d, GenerationHeader() + tail, "", generation, line, scan);
  }

  lemma ScoredOnce(o: Opening, body: string, text: string, scan: string -> Option<real>)
    requires EndsLine(body) && body <= text < body + GenerationHeader()
    ensures var p := Scored(o.Entered(), text, scan);
            && GenerationText(p.events) == "" && |ConfidenceEvents(p.events)| <= 1 && p.followUpBuffer == ""
            && (body != "" ==> ConfidenceEvents(p.events) == [ConfidenceOf(body, scan)])
  {
    hide ConfidenceHeader, GenerationHeader, FollowupHeader, ConfidenceOf, GenerationText, ConfidenceEvents;
    FirstEvent(ConfidenceEvent(ConfidenceOf(text, scan)));
    assert [] + [ConfidenceEvent(ConfidenceOf(text, scan))] == [ConfidenceEvent(ConfidenceOf(text, scan))];
    if body != "" {
      HeaderRemnantScoresNothing(body, text, scan);
      assert body < body + GenerationHeader();
      HeaderRemnantScoresNothing(body, body, scan);
    }
  }

  lemma ScoredStays(o: Opening, generation: string, text: string, scan: string -> Option<real>)
    requires o.withFollowup ==> Index(generation, FollowupHeader()) == -1
    ensures var p := Scored(o.Entered(), text, scan); StaysInGeneration(p, generation) && p.buffer == "" && !p.pendingHeaderSkip
  {
    hide FindFrom, FollowupHeader, ConfidenceOf;
  }

  lemma StreamedFrom(o: Opening, chunks: seq<string>, p: Parser, last: seq<string>, scan: string -> Option<real>)
    requires ParseChunks(o.Fresh(), chunks, scan) == ParseChunks(p, last, scan)
    ensures StreamedWith(o.withConfidence, o.withFollowup, chunks, scan) == Flush(ParseChunks(p, last, scan), scan)
  {
    hide ParseChunks, Flush;
  }

  // ----- What the batch parser makes of them

  lemma LinesBehind(front: string, rest: string)
    requires EndsLine(front)
    ensures Lines(front + rest) == BodyLinesOf(front) + Lines(rest)
  {
    if front == "" {
      assert front + rest == rest;
      assert [] + Lines(rest) == Lines(rest);
    } else {
      var b := WithoutLastNewline(front);
      assert front + rest == b + "\n" + rest;
      LinesAppend(b, rest);
    }
  }

  /** A last section without a header line is the batch parser's whole section, and it replaces
      an earlier one. */
  lemma LastSection(front: string, header: string, body: string)
    requires EndsLine(front) && '\n' !in header && NoHeaderLine(body)
    requires IsHeaderLine(header) && SectionNamed(TrimSpace(header[3..])) != NoSection
    ensures SectionsOf(front + (header + "\n" + body))
         == SplitLines(Start(), BodyLinesOf(front)).Saved()[SectionNamed(TrimSpace(header[3..])) := body]
  {
    LinesBehind(front, header + "\n" + body);
    OneLine(header);
    LinesAppend(header, body);
    JoinUndoesSplit(body);
    hide Lines, TrimSpace, SectionNamed, JoinLines, BodyLinesOf, IsHeaderLine;
    SplitLinesAppend(Start(), BodyLinesOf(front), [header] + Lines(body));
    OneSection(SplitLines(Start(), BodyLinesOf(front)), header, Lines(body));
  }

  /** The batch parser takes all of the last generation, where it has no header line. */
  lemma BatchGeneration(front: string, generation: string, scan: string -> Option<real>)
    requires EndsLine(front) && NoHeaderLine(generation)
    ensures StructuredOf(front + (GenerationHeader() + "\n" + generation), scan).generation == StripModelEndTokens(generation)
  {
    HeadersAreHeaders();
    GenerationHeaderName();
    hide GenerationHeader, ConfidenceHeader, FollowupHeader, SectionsOf, IsHeaderLine, NoHeaderLine, TrimSpace, SectionNamed,
         IsHeader, StripModelEndTokens, ConfidenceOf;
    LastSection(front, GenerationHeader(), generation);
  }

  /** Then both parsers give the same text, except that a long one has been streamed as it is and
      only the rest of it is trimmed: for a generation of at most 100 bytes exactly the same. */
  lemma ShortGenerationIsSame(streamed: string, front: string, generation: string, scan: string -> Option<real>)
    requires StreamedAs(streamed, generation) && |generation| <= STREAM_MIN_BUFFER_SIZE
    requires EndsLine(front) && NoHeaderLine(generation)
    ensures streamed == StructuredOf(front + (GenerationHeader() + "\n" + generation), scan).generation
  {
    hide StripModelEndTokens, StructuredOf, GenerationHeader, NoHeaderLine;
    BatchGeneration(front, generation, scan);
    var n: nat :| StreamedUpTo(streamed, generation, n);
    assert generation[0..] == generation;
    assert "" + StripModelEndTokens(generation) == StripModelEndTokens(generation);
  }

  /** Of a response that ends in its Confidence section the batch parser reports the scores, where
      the streaming parser emits nothing. */
  lemma BatchScores(front: string, body: string, scan: string -> Option<real>)
    requires EndsLine(front) && NoHeaderLine(body)
    ensures StructuredOf(front + (ConfidenceHeader() + "\n" + body), scan).scores == Some(ConfidenceOf(body, scan))
  {
    HeadersAreHeaders();
    ConfidenceHeaderName();
    hide GenerationHeader, ConfidenceHeader, FollowupHeader, SectionsOf, IsHeaderLine, NoHeaderLine, TrimSpace, SectionNamed,
         IsHeader, StripModelEndTokens, ConfidenceOf;
    LastSection(front, ConfidenceHeader(), body);
  }

  /** The short header that only the batch parser knows. */
  function FollowupAlias(): string { "## Follow-up" }

  lemma FollowupAliasName()
    ensures IsHeaderLine(FollowupAlias()) && '\n' !in FollowupAlias()
    ensures SectionNamed(TrimSpace(FollowupAlias()[3..])) == FollowupSection
  {
    hide TrimSpace;
    HeaderName(FollowupAlias(), "Follow-up");
  }

  lemma BatchAlias(generation: string, questions: string, scan: string -> Option<real>)
    requires EndsLine(generation) && NoHeaderLine(generation) && NoHeaderLine(questions)
    ensures var batch := StructuredOf(GenerationHeader() + "\n" + generation + (FollowupAlias() + "\n" + questions), scan);
            && batch.followup == Some(questions)
            && batch.generation == StripModelEndTokens(WithoutLastNewline(generation))
  {
    HeadersAreHeaders();
    GenerationHeaderName();
    FollowupAliasName();
    var rest := FollowupAlias() + "\n" + questions;
    hide GenerationHeader, ConfidenceHeader, FollowupHeader, FollowupAlias, Lines, BodyLinesOf, IsHeaderLine, TrimSpace,
         SectionNamed, IsHeader, StripModelEndTokens, ConfidenceOf, JoinLines;
    SectionLines(GenerationHeader(), generation, rest);
    OneLine(FollowupAlias());
    LinesAppend(FollowupAlias(), questions);
    JoinUndoesSplit(questions);
    BodyLinesJoin(generation);
    var first, second := [GenerationHeader()] + BodyLinesOf(generation), [FollowupAlias()] + Lines(questions);
    SplitLinesAppend(Start(), first, second);
    OneSection(Start(), GenerationHeader(), BodyLinesOf(generation));
    OneSection(SplitLines(Start(), first), FollowupAlias(), Lines(questions));
  }

  /** The batch parser takes "## Follow-up" for the header of the questions; the streaming parser
      takes that line and the questions for the end of the generation, however it is cut. */
  lemma FollowupAliasIsStreamed(withConfidence: bool, generation: string, questions: string, chunks: seq<string>,
                                scan: string -> Option<real>)
    requires EndsLine(generation) && NoHeaderLine(generation) && NoHeaderLine(questions)
    requires Concat(chunks) == GenerationHeader() + "\n" + generation + (FollowupAlias() + "\n" + questions)
    requires withConfidence ==> FindHeader(Concat(chunks), ConfidenceHeader()) == -1
    requires Index(generation + (FollowupAlias() + "\n" + questions), FollowupHeader()) == -1
    ensures var p := StreamedWith(withConfidence, true, chunks, scan);
            && StreamedAs(GenerationText(p.events), generation + (FollowupAlias() + "\n" + questions))
            && p.followUpBuffer == ""
    ensures var batch := StructuredOf(Concat(chunks), scan);
            && batch.followup == Some(questions)
            && batch.generation == StripModelEndTokens(WithoutLastNewline(generation))
  {
    BatchAlias(generation, questions, scan);
    var body := generation + (FollowupAlias() + "\n" + questions);
    FrontHeader(GenerationHeader(), generation, FollowupAlias() + "\n" + questions);
    hide *;
    var o := GenerationOpens(withConfidence, true, "" + "\n" + body);
    GenerationAlone(o, "", body, chunks, scan);
  }

  lemma FrontHeader(header: string, generation: string, rest: string)
    ensures header + "\n" + generation + rest == "" + header + ("" + "\n" + (generation + rest))
    ensures '\n' !in ""
  {
  }

  lemma GenerationOpens(withConfidence: bool, withFollowup: bool, behind: string) returns (o: Opening)
    requires withConfidence ==> FindHeader("" + GenerationHeader() + behind, ConfidenceHeader()) == -1
    ensures o == Opening(withConfidence, withFollowup, "", GenerationHeader()) && o.Clear(behind)
  {
    HeadersDiffer();
    HeadersAreHeaders();
    o := Opening(withConfidence, withFollowup, "", GenerationHeader());
    hide ConfidenceHeader, GenerationHeader, FollowupHeader, IsHeader;
  }

  // ----- Every stream

  /** What holds at every turn of every stream: the accumulated generation is what was streamed,
      the scores are the first event if there are any, and a section that is switched off never
      begins. */
  ghost predicate Orderly(p: Parser) {
    && p.generationBuffer == GenerationText(p.events)
    && ConfidenceFirst(p.events)
    && (!p.withConfidence ==> p.section != ConfidenceSection && ConfidenceEvents(p.events) == [])
    && (!p.withFollowup ==> p.section != FollowupSection)
    && (p.section == NoSection || p.section == ConfidenceSection ==> p.events == [] && !p.confidenceDone)
    && (p.section != FollowupSection ==> p.followUpBuffer == "")
  }

  predicate ConfidenceFirst(events: seq<Event>) {
    forall i :: 0 < i < |events| ==> !events[i].ConfidenceEvent?
  }

  lemma {:induction false} ConfidenceAtMostOnce(events: seq<Event>)
    requires ConfidenceFirst(events)
    ensures ConfidenceEvents(events) == if events != [] && events[0].ConfidenceEvent? then [events[0].scores] else []
  {
    if events != [] {
      var init := events[..|events| - 1];
      assert ConfidenceFirst(init);
      ConfidenceAtMostOnce(init);
      if |events| == 1 {
        assert init == [];
      }
    }
  }

  lemma LaterEvent(events: seq<Event>, text: string)
    requires ConfidenceFirst(events)
    ensures ConfidenceFirst(events + [GenerationEvent(text)])
    ensures GenerationText(events + [GenerationEvent(text)]) == GenerationText(events) + text
    ensures ConfidenceEvents(events + [GenerationEvent(text)]) == ConfidenceEvents(events)
  {
    OneMoreEvent(events, GenerationEvent(text));
  }

  lemma EmitKeepsOrder(p: Parser, text: string)
    requires Orderly(p) && p.section != NoSection && p.section != ConfidenceSection
    ensures Orderly(EmitGeneration(p, text))
  {
    hide GenerationText, ConfidenceEvents, ConfidenceFirst;
    LaterEvent(p.events, text);
  }

  lemma FlushKeepsOrder(p: Parser, text: string, scan: string -> Option<real>)
    requires Orderly(p)
    ensures Orderly(FlushConfidence(p, text, scan).(section := GenerationSection))
         || (p.section == FollowupSection && FlushConfidence(p, text, scan) == p)
  {
    hide ConfidenceOf;
    if p.section == ConfidenceSection {
      var e := ConfidenceEvent(ConfidenceOf(p.confidenceBuffer + text, scan));
      FirstEvent(e);
      assert [] + [e] == [e];
    }
  }

  /** The turns that leave the section as it is. */
  lemma AccumulateKeepsOrder(p: Parser)
    requires Orderly(p)
    ensures Orderly(Accumulate(p)) && Accumulate(p).pendingHeaderSkip == p.pendingHeaderSkip
  {
    hide GenerationText, ConfidenceEvents, ConfidenceFirst, Valid, ValidPrefixLength;
    if p.section == GenerationSection {
      var (s, r, b) := StreamWithLookahead(p.buffer, STREAM_LOOKAHEAD_SIZE, STREAM_MIN_BUFFER_SIZE);
      EmitKeepsOrder(p, s);
    }
  }

  lemma ToFollowupKeepsOrder(p: Parser, i: nat)
    requires Orderly(p) && p.withFollowup && i <= |p.buffer|
    ensures Orderly(ToFollowup(p, i))
  {
    hide GenerationText, ConfidenceEvents, ConfidenceFirst, TrimSpace;
    if p.section == GenerationSection {
      EmitKeepsOrder(p, TrimSpace(p.buffer[..i]));
    }
  }

  ghost predicate OrderlyTurn(t: Turn) {
    match t
    case Again(q) => Orderly(q)
    case Wait(q) => Orderly(q) && SkipPendingHeader(q) == q
  }

  lemma SkipKeepsOrder(p: Parser)
    requires Orderly(p)
    ensures OrderlyTurn(SkipHeader(p))
  {
    hide GenerationText, ConfidenceEvents, ConfidenceFirst, SkipHeaderLine;
  }

  lemma LocateKeepsOrder(p: Parser, scan: string -> Option<real>)
    requires Orderly(p) && LocateGeneration(p).1 >= 0
    ensures var (q, i) := LocateGeneration(p); Orderly(ToGeneration(q, i, scan))
  {
    GenerationOnce(p);
    var (q, i) := LocateGeneration(p);
    assert Orderly(q) by {
      hide GenerationText, ConfidenceEvents, ConfidenceFirst, FindFrom, GenerationHeader;
    }
    hide GenerationText, ConfidenceEvents, ConfidenceFirst, FindFrom, GenerationHeader, FlushConfidence, TrimSpace;
    FlushKeepsOrder(q, TrimSpace(q.buffer[..i]), scan);
  }

  lemma StepKeepsOrder(p: Parser, scan: string -> Option<real>)
    requires Orderly(p)
    ensures OrderlyTurn(Step(p, scan))
  {
    hide GenerationText, ConfidenceEvents, ConfidenceFirst, FindFrom, ConfidenceHeader, GenerationHeader, FollowupHeader,
         LocateGeneration, ToGeneration, ToFollowup, SkipHeader, Accumulate, SkipHeaderLine;
    if p.pendingHeaderSkip {
    } else {
      var c := FindHeader(p.buffer, ConfidenceHeader());
      var (q, g) := LocateGeneration(p);
      var f := FindHeader(p.buffer, FollowupHeader());
      if p.withConfidence && !p.confidenceDone && c >= 0 && p.section == NoSection {
        SkipKeepsOrder(p.(section := ConfidenceSection, buffer := p.buffer[c..]));
      } else if g >= 0 {
        LocateKeepsOrder(p, scan);
        SkipKeepsOrder(ToGeneration(q, g, scan));
      } else if p.withFollowup && f >= 0 {
        ToFollowupKeepsOrder(p, f);
        SkipKeepsOrder(ToFollowup(p, f));
      } else {
        AccumulateKeepsOrder(p);
      }
    }
  }

  predicate SameSettings(p: Parser, q: Parser) {
    p.withConfidence == q.withConfidence && p.withFollowup == q.withFollowup
  }

  lemma PiecesKeepSettings(p: Parser, i: nat, scan: string -> Option<real>)
    ensures SameSettings(LocateGeneration(p).0, p) && SameSettings(Accumulate(p), p) && SameSettings(SkipHeader(p).parser, p)
    ensures i <= |p.buffer| ==> SameSettings(ToGeneration(p, i, scan), p) && SameSettings(ToFollowup(p, i), p)
  {
    hide FindFrom, GenerationHeader, TrimSpace, ConfidenceOf, SkipHeaderLine, StreamWithLookahead, FindHeaderInCombined;
  }

  lemma StepKeepsSettings(p: Parser, scan: string -> Option<real>)
    ensures SameSettings(Step(p, scan).parser, p)
  {
    hide FindFrom, ConfidenceHeader, GenerationHeader, FollowupHeader, SkipHeaderLine, LocateGeneration, Accumulate,
         SkipHeader, ToGeneration, ToFollowup;
    var c := FindHeader(p.buffer, ConfidenceHeader());
    var (q, g) := LocateGeneration(p);
    var f := FindHeader(p.buffer, FollowupHeader());
    PiecesKeepSettings(p, if f >= 0 then f else 0, scan);
    if c >= 0 {
      PiecesKeepSettings(p.(section := ConfidenceSection, buffer := p.buffer[c..]), 0, scan);
    }
    if g >= 0 {
      PiecesKeepSettings(q, g, scan);
      PiecesKeepSettings(ToGeneration(q, g, scan), 0, scan);
    }
    if f >= 0 {
      PiecesKeepSettings(ToFollowup(p, f), 0, scan);
    }
  }

  lemma {:induction false} LoopKeepsOrder(p: Parser, scan: string -> Option<real>)
    requires Orderly(p)
    ensures Orderly(Loop(p, scan)) && SkipPendingHeader(Loop(p, scan)) == Loop(p, scan) && SameSettings(Loop(p, scan), p)
    decreases SectionRank(p.section), |p.buffer|
  {
    hide Step, Orderly, SkipPendingHeader;
    StepProgress(p, scan);
    StepKeepsOrder(p, scan);
    StepKeepsSettings(p, scan);
    match Step(p, scan)
    case Again(q) => LoopKeepsOrder(q, scan);
    case Wait(_) =>
  }

  lemma {:induction false} ChunksKeepOrder(p: Parser, chunks: seq<string>, scan: string -> Option<real>)
    requires Orderly(p) && SkipPendingHeader(p) == p
    ensures var q := ParseChunks(p, chunks, scan); Orderly(q) && SkipPendingHeader(q) == q && SameSettings(q, p)
    decreases |chunks|
  {
    hide Loop, SkipPendingHeader, GenerationText, ConfidenceEvents, ConfidenceFirst;
    if chunks != [] {
      LoopKeepsOrder(p.(buffer := p.buffer + chunks[0]), scan);
      ChunksKeepOrder(ParseChunk(p, chunks[0], scan), chunks[1..], scan);
    }
  }

  lemma FlushIsOrderly(p: Parser, scan: string -> Option<real>)
    requires Orderly(p) && SkipPendingHeader(p) == p
    ensures var q := Flush(p, scan);
            && q.generationBuffer == GenerationText(q.events) && ConfidenceFirst(q.events)
            && (!p.withConfidence ==> ConfidenceEvents(q.events) == [])
            && (!p.withFollowup ==> q.followUpBuffer == "")
  {
    hide ConfidenceOf, StripModelEndTokens, SkipHeaderLine, GenerationText, ConfidenceEvents, ConfidenceFirst;
    if p.section == ConfidenceSection {
      hide SkipPendingHeader;
      FlushesScores(p, scan);
    } else if p.section == NoSection {
      LaterEvent([], StripModelEndTokens(p.buffer)) by {
        assert ConfidenceFirst([]) by {
          NoEvents();
        }
      }
      NoEvents();
      assert "" + StripModelEndTokens(p.buffer) == StripModelEndTokens(p.buffer);
    } else {
      LaterEvent(p.events, StripModelEndTokens(p.buffer));
    }
  }

  lemma NoEvents()
    ensures ConfidenceFirst([]) && GenerationText([]) == "" && ConfidenceEvents([]) == []
  {
  }

  lemma FlushesScores(p: Parser, scan: string -> Option<real>)
    requires Orderly(p) && SkipPendingHeader(p) == p && p.section == ConfidenceSection
    ensures var q := Flush(p, scan);
            && q.generationBuffer == GenerationText(q.events) && ConfidenceFirst(q.events) && q.followUpBuffer == ""
  {
    hide ConfidenceOf, StripModelEndTokens, SkipHeaderLine, SkipPendingHeader, GenerationText, ConfidenceEvents;
    var e := ConfidenceEvent(ConfidenceOf(p.confidenceBuffer + p.buffer, scan));
    FirstEvent(e);
    assert [] + [e] == [e];
  }

  /** Of every stream, with every setting: the generation accumulated is the text streamed; there
      is at most one confidence event, in front of all others, and none with the section
      switched off; and nothing is taken for follow-up questions with those switched off.  No
      complete header line is ever left for the end of the stream to skip. */
  lemma EveryStreamIsOrderly(withConfidence: bool, withFollowup: bool, chunks: seq<string>, scan: string -> Option<real>)
    ensures var p := StreamedWith(withConfidence, withFollowup, chunks, scan);
            && p.generationBuffer == GenerationText(p.events)
            && ConfidenceFirst(p.events) && |ConfidenceEvents(p.events)| <= 1
            && (!withConfidence ==> ConfidenceEvents(p.events) == [])
            && (!withFollowup ==> p.followUpBuffer == "")
    ensures var p := ParseChunks(NewParser(withConfidence, withFollowup), chunks, scan); SkipPendingHeader(p) == p
  {
    var p0 := NewParser(withConfidence, withFollowup);
    assert Orderly(p0);
    ChunksKeepOrder(p0, chunks, scan);
    var p := ParseChunks(p0, chunks, scan);
    FlushIsOrderly(p, scan);
    hide *;
    ConfidenceAtMostOnce(StreamedWith(withConfidence, withFollowup, chunks, scan).events);
  }

  // ----- Text in front of the first header

  /** Text in front of the Confidence header, and behind the header on its line, changes nothing:
      a response that yields its bodies without it does so with it. */
  lemma PreambleIsDropped(o: Opening, tail: string, r: Response, chunks: seq<string>, scan: string -> Option<real>)
    requires Streamable(r) && o.withConfidence && o.withFollowup && o.header == ConfidenceHeader()
    requires var behind := tail + "\n" + (r.confidence + TailFromGeneration(r));
             Concat(chunks) == o.preamble + o.header + behind && o.Clear(behind) && '\n' !in tail
    ensures YieldsBodies(StreamedWith(true, true, chunks, scan), r, scan)
  {
    hide *;
    var rest := r.confidence + TailFromGeneration(r);
    var later := EntersSection(o, tail, rest, chunks, scan);
    EnteredTracks(o, r, scan);
    BehindConfidence(r);
    StateAtEnd(o.Entered(), r, BeforeConfidence(), later, scan);
    StreamedFrom(o, chunks, o.Entered(), later, scan);
    var p := StreamedWith(true, true, chunks, scan);
    var n: nat :| GenerationComplete(p, r, n);
    ThreeOf(r);
    StateYieldsBodies(p, r, n, scan);
  }

  lemma ThreeOf(r: Response)
    requires Streamable(r)
    ensures ThreeSections(r)
  {
    hide FindFrom;
  }

  lemma BehindConfidence(r: Response)
    ensures BeforeConfidence() + (r.confidence + TailFromGeneration(r)) == Text(r)
    ensures BeforeGeneration(r) + (r.generation + TailFromFollowup(r)) == Text(r)
  {
    hide ConfidenceHeader, GenerationHeader, FollowupHeader;
  }

  lemma EnteredTracks(o: Opening, r: Response, scan: string -> Option<real>)
    requires o.header == ConfidenceHeader() && o.withConfidence && o.withFollowup
    ensures Tracks(o.Entered(), r, BeforeConfidence(), scan) && Settled(o.Entered(), r, BeforeConfidence())
  {
    HeadersAreHeaders();
    hide ConfidenceHeader, GenerationHeader, FollowupHeader, IsHeader, FindFrom;
    assert BeforeConfidence() + "" + "" == BeforeConfidence();
  }

  // ----- No Confidence section

  /** From the generation on it does not matter whether scores were looked for. */
  function Regardless(p: Parser): Parser {
    p.(withConfidence := true, confidenceDone := true)
  }

  predicate PastConfidence(p: Parser) {
    p.section == GenerationSection || p.section == FollowupSection
  }

  function RegardlessTurn(t: Turn): Turn {
    match t
    case Again(q) => Again(Regardless(q))
    case Wait(q) => Wait(Regardless(q))
  }

  lemma StepRegardless(p: Parser, scan: string -> Option<real>)
    requires PastConfidence(p)
    ensures Step(Regardless(p), scan) == RegardlessTurn(Step(p, scan)) && PastConfidence(Step(p, scan).parser)
  {
    hide FindFrom, ConfidenceHeader, GenerationHeader, FollowupHeader, TrimSpace, SkipHeaderLine, StreamWithLookahead;
  }

  lemma {:induction false} LoopRegardless(p: Parser, scan: string -> Option<real>)
    requires PastConfidence(p)
    ensures Loop(Regardless(p), scan) == Regardless(Loop(p, scan)) && PastConfidence(Loop(p, scan))
    decreases SectionRank(p.section), |p.buffer|
  {
    hide Step;
    StepProgress(p, scan);
    StepRegardless(p, scan);
    match Step(p, scan)
    case Again(q) => LoopRegardless(q, scan);
    case Wait(_) =>
  }

  lemma {:induction false} ChunksRegardless(p: Parser, chunks: seq<string>, scan: string -> Option<real>)
    requires PastConfidence(p)
    ensures ParseChunks(Regardless(p), chunks, scan) == Regardless(ParseChunks(p, chunks, scan))
    ensures PastConfidence(ParseChunks(p, chunks, scan)) && ParseChunks(p, chunks, scan).confidenceBuffer == p.confidenceBuffer
    decreases |chunks|
  {
    hide Loop;
    if chunks != [] {
      LoopRegardless(p.(buffer := p.buffer + chunks[0]), scan);
      ConfidenceTextStays(p.(buffer := p.buffer + chunks[0]), scan);
      ChunksRegardless(ParseChunk(p, chunks[0], scan), chunks[1..], scan);
    }
  }

  lemma ContentRegardless(p: Parser, scan: string -> Option<real>)
    requires PastConfidence(p)
    ensures FlushContent(Regardless(p), scan) == Regardless(FlushContent(p, scan))
  {
    hide StripModelEndTokens, FlushConfidence;
  }

  lemma FlushRegardless(p: Parser, scan: string -> Option<real>)
    requires PastConfidence(p)
    ensures Flush(Regardless(p), scan) == Regardless(Flush(p, scan)) && Flush(p, scan).confidenceBuffer == p.confidenceBuffer
  {
    FlushKeepsDone(p, scan);
    hide SkipHeaderLine, FlushContent;
    ContentRegardless(SkipPendingHeader(p), scan);
  }

  /** A response that starts with the Generation section, looked for scores or not, yields its
      generation and its follow-up questions, and no scores. */
  lemma GenerationAndFollowup(o: Opening, tail: string, r: Response, chunks: seq<string>, scan: string -> Option<real>)
    requires Streamable(r) && r.confidence == "" && o.withFollowup && o.header == GenerationHeader()
    requires var behind := tail + "\n" + (r.generation + TailFromFollowup(r));
             Concat(chunks) == o.preamble + o.header + behind && o.Clear(behind) && '\n' !in tail
    ensures var p := StreamedWith(o.withConfidence, true, chunks, scan);
            YieldsBodies(p, r, scan) && ConfidenceEvents(p.events) == []
  {
    hide *;
    var rest := r.generation + TailFromFollowup(r);
    var later := EntersSection(o, tail, rest, chunks, scan);
    ThreeOf(r);
    EnteredGeneration(o, r, scan);
    BehindConfidence(r);
    var p := Regardless(o.Entered());
    StateAtEnd(p, r, BeforeGeneration(r), later, scan);
    ChunksRegardless(o.Entered(), later, scan);
    FlushRegardless(ParseChunks(o.Entered(), later, scan), scan);
    StreamedFrom(o, chunks, o.Entered(), later, scan);
    EndsRegardless(StreamedWith(o.withConfidence, true, chunks, scan), r, scan);
  }

  lemma EnteredGeneration(o: Opening, r: Response, scan: string -> Option<real>)
    requires o.header == GenerationHeader() && o.withFollowup && ThreeSections(r) && r.confidence == ""
    ensures PastConfidence(o.Entered()) && o.Entered().confidenceBuffer == ""
    ensures var p := Regardless(o.Entered());
            Tracks(p, r, BeforeGeneration(r), scan) && Settled(p, r, BeforeGeneration(r))
  {
    EntersEmpty(o);
    hide o.Entered, ThreeSections, Tracks, Settled;
    FirstGeneration(Regardless(o.Entered()), r, scan);
  }

  lemma EntersEmpty(o: Opening)
    requires o.header == GenerationHeader()
    ensures o.Entered() == o.Fresh().(section := GenerationSection)
  {
    HeadersDiffer();
  }

  lemma FirstGeneration(p: Parser, r: Response, scan: string -> Option<real>)
    requires p == NewParser(true, true).(section := GenerationSection, confidenceDone := true)
    requires ThreeSections(r) && r.confidence == ""
    ensures Tracks(p, r, BeforeGeneration(r), scan) && Settled(p, r, BeforeGeneration(r))
  {
    NothingEmitted(p, r, scan);
    NothingStreamed(p, r);
    NothingHeldBack(p, r);
    assert BeforeGeneration(r) + "" + "" == BeforeGeneration(r);
    hide BeforeGeneration, BeforeConfidence, BeforeFollowup, ConfidenceEmitted, GenerationStreamed, Settled, ThreeSections,
         ConfidenceHeader, GenerationHeader, FollowupHeader;
  }

  lemma NothingHeldBack(p: Parser, r: Response)
    requires p == NewParser(true, true).(section := GenerationSection, confidenceDone := true)
    ensures Settled(p, r, BeforeGeneration(r))
  {
    FollowupHeaderIsHeader();
    hide BeforeGeneration, ConfidenceHeader, GenerationHeader, FollowupHeader, Valid, SkipHeaderLine;
  }

  lemma NothingEmitted(p: Parser, r: Response, scan: string -> Option<real>)
    requires p.confidenceDone && p.confidenceBuffer == "" && p.events == [] && r.confidence == ""
    ensures ConfidenceEmitted(p, r, scan)
  {
    hide ConfidenceOf;
    assert "" + GenerationHeader() == GenerationHeader();
  }

  lemma NothingStreamed(p: Parser, r: Response)
    requires p.generationBuffer == "" && p.events == [] && ThreeSections(r)
    ensures GenerationStreamed(p, r)
  {
    NothingTrimmed();
    NotAtLineStart(r.generation, FollowupHeader(), 0);
    hide FindFrom, OccursAt, FollowupHeader, GenerationHeader, Valid;
  }

  lemma EndsRegardless(p: Parser, r: Response, scan: string -> Option<real>)
    requires ThreeSections(r) && Regardless(p).followUpBuffer == r.followup && ConfidenceEmitted(Regardless(p), r, scan)
    requires (exists n: nat :: GenerationComplete(Regardless(p), r, n)) && p.confidenceBuffer == ""
    ensures YieldsBodies(p, r, scan) && ConfidenceEvents(p.events) == []
  {
    assert ConfidenceEvents(p.events) == [] by {
      hide GenerationComplete, ThreeSections, ConfidenceEvents, ConfidenceOf, GenerationHeader;
    }
    hide GenerationComplete, ConfidenceEmitted, ThreeSections, ConfidenceEvents;
    var n: nat :| GenerationComplete(Regardless(p), r, n);
    StateYieldsBodies(Regardless(p), r, n, scan);
  }
}
