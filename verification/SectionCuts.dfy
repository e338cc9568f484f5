/** Particular ways of cutting a response: one that streams its bodies whatever they are, and for
    each way in which the text of the Follow-up header can mislead the streaming parser the cut
    that does it. */
module SectionCuts {
  import opened Wrappers
  import opened Strings
  import opened Utf8
  import opened Whitespace
  import opened TextSearch
  import opened Sections
  import opened SectionParser
  import opened SectionStreaming
  import opened SectionAgreement

  // ----- Chunk by chunk

  lemma {:induction false} ParseAppend(p: Parser, a: seq<string>, b: seq<string>, scan: string -> Option<real>)
    ensures ParseChunks(p, a + b, scan) == ParseChunks(ParseChunks(p, a, scan), b, scan)
    decreases |a|
  {
    hide ParseChunk;
    if a == [] {
      assert a + b == b;
    } else {
      assert (a + b)[1..] == a[1..] + b;
      ParseAppend(ParseChunk(p, a[0], scan), a[1..], b, scan);
    }
  }

  lemma {:induction false} ConcatAppend(a: seq<string>, b: seq<string>)
    ensures Concat(a + b) == Concat(a) + Concat(b)
    decreases |b|
  {
    if b == [] {
      assert a + b == a;
    } else {
      hide Concat;
      var k := |b| - 1;
      ConcatAppend(a, b[..k]);
      ConcatOneMore(a + b[..k], b[k]);
      ConcatOneMore(b[..k], b[k]);
      assert b == b[..k] + [b[k]] && a + b == a + b[..k] + [b[k]];
      assert Concat(a) + (Concat(b[..k]) + b[k]) == Concat(a) + Concat(b[..k]) + b[k];
    }
  }

  lemma LoopStops(p: Parser, q: Parser, scan: string -> Option<real>)
    requires Step(p, scan) == Wait(q)
    ensures Loop(p, scan) == q
  {
    hide Step;
  }

  /** A part of a response without traps leaves the parser where the part ends. */
  lemma Opening(r: Response, start: string, scan: string -> Option<real>)
    requires Streamable(r) && start <= Text(r)
    ensures var p := ParseChunks(NewParser(true, true), [start], scan);
            Tracks(p, r, start, scan) && Settled(p, r, start)
  {
    var p0 := NewParser(true, true);
    assert Tracks(p0, r, "", scan) && Settled(p0, r, "") by {
      HeadersAreHeaders();
    }
    hide Text, Tracks, Settled, Streamable, ParseChunks, NewParser, Concat;
    ConcatOne(start);
    assert "" + start == start;
    ChunksKeep(p0, r, "", [start], scan);
  }

  lemma NothingIsStreamable(confidence: string, generation: string)
    requires EndsLine(confidence) && FindHeader(confidence, GenerationHeader()) == -1 && Index(confidence, FollowupHeader()) == -1
    requires EndsLine(generation) && FindHeader(generation, FollowupHeader()) == -1 && !Exposed(generation)
    ensures Streamable(Response(confidence, generation, ""))
  {
    hide Exposed;
  }

  lemma NothingIsExposed()
    ensures !Exposed("") && FindHeader("", GenerationHeader()) == -1 && FindHeader("", FollowupHeader()) == -1 && Index("", FollowupHeader()) == -1
  {
  }

  lemma ConfidenceHasBegun(p: Parser, r: Response, scan: string -> Option<real>)
    requires Tracks(p, r, BeforeConfidence(), scan) && Settled(p, r, BeforeConfidence())
    ensures p.section == ConfidenceSection && !p.pendingHeaderSkip && !p.confidenceDone && p.withFollowup
    ensures p.confidenceBuffer == "" && p.buffer == "" && p.events == []
  {
    HeadersAreHeaders();
    TextLength(r);
    hide ConfidenceHeader, GenerationHeader, FollowupHeader, IsHeader, Valid, GenerationText,
         ConfidenceEvents, FindFrom, TrimSpace, ConfidenceOf, ConfidenceEmitted, GenerationStreamed,
         SkipHeaderLine;
    if p.section == ConfidenceSection && p.pendingHeaderSkip {
      SkipSucceeds(p.buffer, |ConfidenceHeader()|);
      assert false;
    }
  }

  /** Where the confidence body starts. */
  lemma AtConfidence(scan: string -> Option<real>)
    ensures var p := ParseChunks(NewParser(true, true), [BeforeConfidence()], scan);
            && p.section == ConfidenceSection && !p.pendingHeaderSkip && !p.confidenceDone && p.withFollowup
            && p.confidenceBuffer == "" && p.buffer == "" && p.events == []
  {
    var r := Response("", "", "");
    NothingIsExposed();
    NothingIsStreamable("", "");
    assert Text(r) == BeforeConfidence() + (r.confidence + TailFromGeneration(r));
    hide ConfidenceHeader, GenerationHeader, FollowupHeader, Valid, FindFrom, ParseChunks, Exposed, Text,
         Tracks, Settled, BeforeConfidence, Streamable;
    Opening(r, BeforeConfidence(), scan);
    ConfidenceHasBegun(ParseChunks(NewParser(true, true), [BeforeConfidence()], scan), r, scan);
  }

  lemma StartsBehindLines(r: Response)
    ensures var start := BeforeGeneration(r);
            && |ConfidenceHeader()| < |start| && start[|ConfidenceHeader()|] == '\n' && start[|start| - 1] == '\n'
  {
    hide GenerationHeader;
    assert BeforeGeneration(r) == ConfidenceHeader() + ("\n" + r.confidence + GenerationHeader() + "\n");
    hide ConfidenceHeader;
  }

  lemma ConfidenceNotPending(p: Parser, r: Response, scan: string -> Option<real>)
    requires Tracks(p, r, BeforeGeneration(r), scan) && Settled(p, r, BeforeGeneration(r))
    requires p.section == ConfidenceSection
    ensures !p.pendingHeaderSkip
  {
    StartsBehindLines(r);
    hide ConfidenceHeader, GenerationHeader, FollowupHeader, GenerationText, ConfidenceEvents, FindFrom,
         BeforeGeneration, SkipHeaderLine;
    if p.pendingHeaderSkip {
      SkipSucceeds(p.buffer, |ConfidenceHeader()|);
      assert false;
    }
  }

  lemma GenerationNotPending(p: Parser, r: Response, scan: string -> Option<real>)
    requires Tracks(p, r, BeforeGeneration(r), scan) && Settled(p, r, BeforeGeneration(r))
    requires p.section == GenerationSection
    ensures !p.pendingHeaderSkip
  {
    StartsBehindLines(r);
    GenerationHeaderIsHeader();
    hide ConfidenceHeader, GenerationHeader, FollowupHeader, GenerationText, ConfidenceEvents, FindFrom,
         BeforeGeneration, SkipHeaderLine, ConfidenceEmitted, GenerationStreamed, IsHeader, BeforeConfidence;
    if p.pendingHeaderSkip {
      LastOf(BeforeConfidence() + r.confidence, p.buffer);
      SkipSucceeds(p.buffer, |p.buffer| - 1);
      assert false;
    }
  }

  lemma LastOf(a: string, b: string)
    requires b != ""
    ensures (a + b)[|a + b| - 1] == b[|b| - 1]
  {
  }

  lemma GenerationHasBegun(p: Parser, r: Response, scan: string -> Option<real>)
    requires Tracks(p, r, BeforeGeneration(r), scan) && Settled(p, r, BeforeGeneration(r))
    ensures p.section == GenerationSection && !p.pendingHeaderSkip && p.withFollowup
    ensures p.generationBuffer == "" && p.buffer == "" && p.followUpBuffer == ""
    ensures ConfidenceEmitted(p, r, scan) && GenerationStreamed(p, r)
  {
    HeadersAreHeaders();
    TextLength(r);
    hide ConfidenceHeader, GenerationHeader, FollowupHeader, IsHeader, Valid, GenerationText,
         ConfidenceEvents, FindFrom, TrimSpace, ConfidenceOf, OccursAt, SkipHeaderLine, ConfidenceEmitted,
         GenerationStreamed;
    if p.section == ConfidenceSection {
      ConfidenceNotPending(p, r, scan);
    } else if p.section == GenerationSection {
      GenerationNotPending(p, r, scan);
    }
  }

  /** Where the generation body starts. */
  lemma AtGeneration(r: Response, scan: string -> Option<real>)
    requires ThreeSections(r) && Index(r.confidence, FollowupHeader()) == -1
    ensures var p := ParseChunks(NewParser(true, true), [BeforeGeneration(r)], scan);
            && p.section == GenerationSection && !p.pendingHeaderSkip && p.withFollowup
            && p.generationBuffer == "" && p.buffer == "" && p.followUpBuffer == ""
            && ConfidenceEmitted(p, r, scan) && GenerationStreamed(p, r)
  {
    var r0 := Response(r.confidence, "", "");
    NothingIsExposed();
    NothingIsStreamable(r.confidence, "");
    UnseenFromStart(r.generation, FollowupHeader());
    assert BeforeGeneration(r) == BeforeGeneration(r0);
    assert Text(r0) == BeforeGeneration(r0) + TailFromFollowup(r0);
    hide ConfidenceHeader, GenerationHeader, FollowupHeader, Valid, GenerationText, ConfidenceEvents,
         FindFrom, ConfidenceOf, ParseChunks, Exposed, Text, Tracks, Settled, BeforeGeneration;
    Opening(r0, BeforeGeneration(r0), scan);
    GenerationHasBegun(ParseChunks(NewParser(true, true), [BeforeGeneration(r0)], scan), r0, scan);
  }

  lemma TracksFlags(p: Parser, r: Response, seen: string, scan: string -> Option<real>)
    requires Tracks(p, r, seen, scan)
    ensures p.withFollowup
    ensures p.section == FollowupSection && p.pendingHeaderSkip ==> p.buffer != ""
  {
    FollowupHeaderIsHeader();
    hide ConfidenceHeader, GenerationHeader, FollowupHeader, ConfidenceEmitted, GenerationStreamed,
         GenerationComplete, BeforeFollowup, BeforeGeneration, NewParser, IsHeader, Valid;
  }

  lemma FollowupHasBegun(p: Parser, r: Response, scan: string -> Option<real>)
    requires Streamable(r) && r.followup == "" && Tracks(p, r, Text(r), scan) && Settled(p, r, Text(r))
    ensures p.section == FollowupSection && !p.pendingHeaderSkip && p.withFollowup && p.buffer == "" && p.followUpBuffer == ""
  {
    hide *;
    AtEndOfText(p, r, scan);
    TracksFlags(p, r, Text(r), scan);
    assert |p.followUpBuffer| + |p.buffer| == 0;
  }

  /** Where the follow-up body starts. */
  lemma AtFollowup(r: Response, scan: string -> Option<real>)
    requires ThreeSections(r) && Index(r.confidence, FollowupHeader()) == -1 && !Exposed(r.generation)
    ensures var p := ParseChunks(NewParser(true, true), [BeforeFollowup(r)], scan);
            && p.section == FollowupSection && !p.pendingHeaderSkip && p.withFollowup
            && p.buffer == "" && p.followUpBuffer == ""
  {
    var r0 := Response(r.confidence, r.generation, "");
    NothingIsStreamable(r.confidence, r.generation);
    TextLength(r0);
    assert BeforeFollowup(r) == BeforeFollowup(r0) == BeforeFollowup(r0) + "";
    hide *;
    Opening(r0, Text(r0), scan);
    FollowupHasBegun(ParseChunks(NewParser(true, true), [Text(r0)], scan), r0, scan);
  }

  // ----- Once the follow-up section has begun

  /** No event comes any more. */
  lemma {:induction false} NoMoreEvents(p: Parser, scan: string -> Option<real>)
    requires p.section == FollowupSection
    ensures Loop(p, scan).section == FollowupSection && Loop(p, scan).events == p.events
    decreases |p.buffer|
  {
    hide FindFrom, ConfidenceHeader, GenerationHeader, FollowupHeader, TrimSpace, StreamWithLookahead;
    StepProgress(p, scan);
    if Step(p, scan).Again? {
      NoMoreEvents(Step(p, scan).parser, scan);
    }
  }

  lemma NoMoreEventsInChunk(p: Parser, text: string, scan: string -> Option<real>)
    requires p.section == FollowupSection
    ensures ParseChunk(p, text, scan).section == FollowupSection && ParseChunk(p, text, scan).events == p.events
  {
    hide Loop;
    NoMoreEvents(p.(buffer := p.buffer + text), scan);
  }

  lemma NoEventAtEnd(p: Parser, scan: string -> Option<real>)
    requires p.section == FollowupSection
    ensures Flush(p, scan).events == p.events
  {
    hide SkipHeaderLine, StripModelEndTokens, ConfidenceOf;
  }

  lemma EmptyHasNoHeader(header: string)
    requires header != ""
    ensures FindHeader("", header) == -1
  {
  }

  lemma FollowupAccumulates(p: Parser, scan: string -> Option<real>)
    requires p.section == FollowupSection && !p.pendingHeaderSkip && FindHeader(p.buffer, FollowupHeader()) == -1
    ensures Loop(p, scan) == p.(followUpBuffer := p.followUpBuffer + p.buffer, buffer := "")
  {
    hide StreamWithLookahead, FindFrom, GenerationHeader, FollowupHeader, Step, Loop;
    StepAccumulates(p, scan);
    LoopStops(p, Accumulate(p), scan);
  }

  function Singles(s: string): seq<string> {
    if s == "" then [] else [[s[0]]] + Singles(s[1..])
  }

  lemma {:induction false} ConcatSingles(s: string)
    ensures Concat(Singles(s)) == s
    decreases |s|
  {
    if s != "" {
      ConcatSingles(s[1..]);
      ConcatFront(Singles(s));
      assert Singles(s)[1..] == Singles(s[1..]);
      assert [s[0]] + s[1..] == s;
    }
  }

  lemma ShortHasNoHeader(text: string)
    requires |text| <= 1
    ensures FindHeader(text, FollowupHeader()) == -1
  {
    FollowupHeaderIsHeader();
    hide FollowupHeader;
  }

  lemma SingleAccumulates(p: Parser, x: string, scan: string -> Option<real>)
    requires p.section == FollowupSection && !p.pendingHeaderSkip && p.buffer == "" && |x| <= 1
    ensures ParseChunk(p, x, scan) == p.(followUpBuffer := p.followUpBuffer + x)
  {
    hide Loop, FindFrom, FollowupHeader;
    ShortHasNoHeader(x);
    assert p.buffer + x == x;
    FollowupAccumulates(p.(buffer := x), scan);
  }

  lemma SinglesFront(s: string)
    ensures if s == "" then Singles(s) == [] else Singles(s) != [] && Singles(s)[0] == s[..1] && Singles(s)[1..] == Singles(s[1..])
  {
    if s != "" {
      assert s[..1] == [s[0]];
    }
  }

  lemma ParseFront(p: Parser, chunks: seq<string>, scan: string -> Option<real>)
    ensures ParseChunks(p, chunks, scan) == if chunks == [] then p else ParseChunks(ParseChunk(p, chunks[0], scan), chunks[1..], scan)
  {
    hide ParseChunk;
  }

  /** Byte by byte, the follow-up body is taken for what it is, whatever is in it. */
  lemma {:induction false} SinglesAccumulate(p: Parser, s: string, scan: string -> Option<real>)
    requires p.section == FollowupSection && !p.pendingHeaderSkip && p.buffer == ""
    ensures ParseChunks(p, Singles(s), scan) == p.(followUpBuffer := p.followUpBuffer + s)
    decreases |s|
  {
    hide *;
    SinglesFront(s);
    ParseFront(p, Singles(s), scan);
    if s == "" {
      assert p.followUpBuffer + "" == p.followUpBuffer;
    } else {
      var x := s[..1];
      SingleAccumulates(p, x, scan);
      SinglesAccumulate(p.(followUpBuffer := p.followUpBuffer + x), s[1..], scan);
      assert x + s[1..] == s;
      assert p.followUpBuffer + x + s[1..] == p.followUpBuffer + (x + s[1..]);
    }
  }

  // ----- A cut that misleads nobody

  /** The text up to the generation body, the generation with the header behind it, and the
      follow-up byte by byte. */
  function FaithfulCut(r: Response): seq<string> {
    [BeforeGeneration(r)] + [r.generation + (FollowupHeader() + "\n")] + Singles(r.followup)
  }

  lemma FaithfulCutIsCut(r: Response)
    ensures Concat(FaithfulCut(r)) == Text(r)
  {
    hide Concat, ConfidenceHeader, GenerationHeader, FollowupHeader, Singles;
    var second := r.generation + (FollowupHeader() + "\n");
    ConcatOne(BeforeGeneration(r));
    ConcatOneMore([BeforeGeneration(r)], second);
    ConcatAppend([BeforeGeneration(r)] + [second], Singles(r.followup));
    ConcatSingles(r.followup);
  }

  lemma GenerationInOnePiece(p: Parser, r: Response, scan: string -> Option<real>)
    requires ThreeSections(r)
    requires p.section == GenerationSection && !p.pendingHeaderSkip && p.withFollowup
    requires p.generationBuffer == "" && p.buffer == "" && p.followUpBuffer == "" && GenerationStreamed(p, r)
    ensures var q := ParseChunk(p, r.generation + (FollowupHeader() + "\n"), scan);
            && q.section == FollowupSection && !q.pendingHeaderSkip && q.buffer == "" && q.followUpBuffer == ""
            && GenerationComplete(q, r, 0) && ConfidenceEvents(q.events) == ConfidenceEvents(p.events)
            && q.confidenceDone == p.confidenceDone && q.confidenceBuffer == p.confidenceBuffer
  {
    HeadersAreHeaders();
    hide ConfidenceHeader, GenerationHeader, FollowupHeader, IsHeader, Valid, GenerationText,
         ConfidenceEvents, FindFrom, TrimSpace, ConfidenceOf, OccursAt, Step, Loop, SkipHeaderLine,
         ToFollowup, EndsLine;
    var n := |r.generation|;
    var text := r.generation + (FollowupHeader() + "\n");
    var p1 := p.(buffer := text);
    assert p.buffer + text == text;
    UnseenFromStart(r.generation, FollowupHeader());
    assert "" + text == r.generation + FollowupHeader() + "\n";
    FollowupFound("", text, r.generation, "\n");
    StepEntersFollowup(p1, n, scan);
    FollowupTransition(p1, n);
    GenerationEnds(p1, r, n);
    HeaderLine(FollowupHeader(), "\n");
    assert "\n"[1..] == "";
    var t := ToFollowup(p1, n);
    var q := t.(buffer := "", pendingHeaderSkip := false);
    LoopsOn(p1, q, scan);
    EmptyHasNoHeader(FollowupHeader());
    FollowupAccumulates(q, scan);
    assert q.followUpBuffer + "" == q.followUpBuffer;
    assert GenerationComplete(q, r, 0);
  }

  lemma FaithfulCutStreamsBodies(r: Response, scan: string -> Option<real>)
    requires ThreeSections(r) && Index(r.confidence, FollowupHeader()) == -1
    ensures var p := Streamed(FaithfulCut(r), scan);
            && p.followUpBuffer == r.followup
            && Squeeze(GenerationText(p.events)) == Squeeze(r.generation)
            && ConfidenceEmitted(p, r, scan)
  {
    var text := r.generation + (FollowupHeader() + "\n");
    var start := NewParser(true, true);
    assert FaithfulCut(r) == [BeforeGeneration(r)] + [text] + Singles(r.followup);
    hide *;
    AtGeneration(r, scan);
    var p := ParseChunks(start, [BeforeGeneration(r)], scan);
    GenerationInOnePiece(p, r, scan);
    var q := ParseChunk(p, text, scan);
    ParseOneMore(start, [BeforeGeneration(r)], text, scan);
    ParseAppend(start, [BeforeGeneration(r)] + [text], Singles(r.followup), scan);
    SinglesAccumulate(q, r.followup, scan);
    assert q.followUpBuffer + r.followup == r.followup;
    var t := q.(followUpBuffer := r.followup);
    FlushesLastLine(t, scan);
    StreamedIs(FaithfulCut(r), scan);
    CompleteText(t, r);
    StillEmitted(p, t, r, scan);
  }

  lemma CompleteText(p: Parser, r: Response)
    requires GenerationComplete(p.(followUpBuffer := ""), r, 0)
    ensures Squeeze(GenerationText(p.events)) == Squeeze(r.generation)
  {
    hide Squeeze, TrimSpace, GenerationText;
    StreamedModuloSpace(r.generation, 0);
  }

  lemma StillEmitted(p: Parser, q: Parser, r: Response, scan: string -> Option<real>)
    requires ConfidenceEmitted(p, r, scan)
    requires q.confidenceDone == p.confidenceDone && q.confidenceBuffer == p.confidenceBuffer
    requires ConfidenceEvents(q.events) == ConfidenceEvents(p.events)
    ensures forall t: Parser :: t == q.(followUpBuffer := t.followUpBuffer, buffer := t.buffer) ==> ConfidenceEmitted(t, r, scan)
  {
    hide ConfidenceEvents, ConfidenceOf, GenerationHeader;
  }

  lemma ConcatThree(a: string, b: string, c: string)
    ensures Concat([a] + [b] + [c]) == a + b + c
  {
    hide Concat;
    ConcatOne(a);
    ConcatOneMore([a], b);
    ConcatOneMore([a] + [b], c);
  }

  // ----- Parts of a text without a header

  lemma PrefixHasNoHeader(text: string, n: nat, header: string)
    requires n <= |text| && FindHeader(text, header) == -1
    ensures FindHeader(text[..n], header) == -1
  {
    hide FindFrom, OccursAt;
    var i := FindHeader(text[..n], header);
    if i >= 0 {
      OccursInPrefix(text, n, header, i, true);
      assert false;
    }
  }

  lemma SuffixHasNoHeader(text: string, m: nat, header: string)
    requires m <= |text| && (m == 0 || text[m - 1] == '\n') && FindHeader(text, header) == -1
    ensures FindHeader(text[m..], header) == -1
  {
    hide FindFrom;
    var i := FindHeader(text[m..], header);
    if i >= 0 {
      assert i > 0 ==> text[m..][i - 1] == text[m + i - 1];
      assert text[m..][i..i + |header|] == text[m + i..m + i + |header|];
      NotAtLineStart(text, header, m + i);
      assert false;
    }
  }

  lemma NotBeforeFirst(text: string, pattern: string, i: nat)
    requires i < Index(text, pattern)
    ensures !OccursAt(text, pattern, i, false)
  {
  }

  /** In front of the first occurrence of a text, that text starts no line. */
  lemma NoHeaderInFront(text: string, pattern: string)
    requires Index(text, pattern) >= 0 && pattern != ""
    ensures var k := Index(text, pattern);
            k + |pattern| <= |text| && text[k..k + |pattern|] == pattern && FindHeader(text[..k], pattern) == -1
  {
    hide FindFrom;
    var k := Index(text, pattern);
    assert OccursAt(text, pattern, k, false);
    var i := FindHeader(text[..k], pattern);
    if i >= 0 {
      OccursInPrefix(text, k, pattern, i, true);
      NotBeforeFirst(text, pattern, i);
      assert false;
    }
  }

  /** A header at the front of the buffer opens the follow-up section and emits nothing. */
  lemma OpensFollowup(p: Parser, scan: string -> Option<real>)
    requires Step(p, scan) == SkipHeader(ToFollowup(p, 0))
    ensures Loop(p, scan).section == FollowupSection && Loop(p, scan).events == p.events
  {
    NothingTrimmed();
    assert p.buffer[..0] == "";
    hide TrimSpace, Step, Loop, SkipHeaderLine;
    var t := Step(p, scan);
    if t.Again? {
      LoopsOn(p, t.parser, scan);
      NoMoreEvents(t.parser, scan);
    } else {
      LoopStops(p, t.parser, scan);
    }
  }

  lemma HeaderBegins(buffer: string, header: string)
    requires header <= buffer
    ensures FindHeader(buffer, header) == 0
  {
    assert buffer[0..|header|] == header;
    FirstOccurrence(buffer, header, true, 0);
  }

  // ----- The header's text in the confidence section

  function ConfidenceCut(r: Response, k: nat): seq<string>
    requires k + |FollowupHeader()| <= |r.confidence|
  {
    [BeforeConfidence()] + [r.confidence[..k]] + [FollowupHeader()] + [r.confidence[k + |FollowupHeader()|..] + TailFromGeneration(r)]
  }

  lemma ConfidenceCutIsCut(r: Response, k: nat)
    requires k + |FollowupHeader()| <= |r.confidence| && r.confidence[k..k + |FollowupHeader()|] == FollowupHeader()
    ensures Concat(ConfidenceCut(r, k)) == Text(r)
  {
    hide Concat, ConfidenceHeader, GenerationHeader, FollowupHeader, TailFromGeneration;
    var n := k + |FollowupHeader()|;
    var a, b, c, d := BeforeConfidence(), r.confidence[..k], FollowupHeader(), r.confidence[n..] + TailFromGeneration(r);
    ConcatOne(a);
    ConcatOneMore([a], b);
    ConcatOneMore([a] + [b], c);
    ConcatOneMore([a] + [b] + [c], d);
    assert r.confidence == b + c + r.confidence[n..];
  }

  lemma NoGenerationYet(p: Parser)
    requires p.section == ConfidenceSection && !p.confidenceDone && FindHeader(p.confidenceBuffer + p.buffer, GenerationHeader()) == -1
    ensures LocateGeneration(p) == (p, -1)
  {
    hide FindFrom, GenerationHeader;
  }

  lemma ConfidenceInFront(p: Parser, text: string, scan: string -> Option<real>)
    requires p.section == ConfidenceSection && !p.pendingHeaderSkip && !p.confidenceDone
    requires p.confidenceBuffer == "" && p.buffer == ""
    requires FindHeader(text, GenerationHeader()) == -1 && FindHeader(text, FollowupHeader()) == -1
    ensures ParseChunk(p, text, scan) == p.(confidenceBuffer := text)
  {
    hide FindFrom, GenerationHeader, FollowupHeader, Step, Loop, LocateGeneration, StreamWithLookahead;
    var q := p.(buffer := text);
    assert p.buffer + text == text && "" + text == text;
    NoGenerationYet(q);
    StepAccumulates(q, scan);
    LoopStops(q, Accumulate(q), scan);
  }

  lemma LeavesConfidence(p: Parser, scan: string -> Option<real>)
    requires p.section == ConfidenceSection && !p.pendingHeaderSkip && p.withFollowup
    requires LocateGeneration(p) == (p, -1) && FindHeader(p.buffer, FollowupHeader()) == 0
    ensures Step(p, scan) == SkipHeader(ToFollowup(p, 0))
  {
    hide FindFrom, LocateGeneration, ToFollowup, SkipHeader, ConfidenceHeader, GenerationHeader, FollowupHeader;
  }

  lemma MisledInConfidence(p: Parser, scan: string -> Option<real>)
    requires p.section == ConfidenceSection && !p.pendingHeaderSkip && !p.confidenceDone && p.withFollowup && p.buffer == ""
    requires FindHeader(p.confidenceBuffer + FollowupHeader(), GenerationHeader()) == -1
    ensures var q := ParseChunk(p, FollowupHeader(), scan); q.section == FollowupSection && q.events == p.events
  {
    hide FindFrom, GenerationHeader, FollowupHeader, Step, Loop, LocateGeneration;
    var q := p.(buffer := FollowupHeader());
    assert p.buffer + FollowupHeader() == FollowupHeader();
    NoGenerationYet(q);
    HeaderBegins(q.buffer, FollowupHeader());
    LeavesConfidence(q, scan);
    OpensFollowup(q, scan);
  }

  lemma ThreeMore(p: Parser, a: string, b: string, c: string, d: string, scan: string -> Option<real>)
    ensures ParseChunks(p, [a] + [b] + [c], scan) == ParseChunk(ParseChunk(ParseChunks(p, [a], scan), b, scan), c, scan)
    ensures ParseChunks(p, [a] + [b] + [c] + [d], scan)
         == ParseChunk(ParseChunk(ParseChunk(ParseChunks(p, [a], scan), b, scan), c, scan), d, scan)
  {
    hide *;
    ParseOneMore(p, [a], b, scan);
    ParseOneMore(p, [a] + [b], c, scan);
    ParseOneMore(p, [a] + [b] + [c], d, scan);
  }

  lemma ConfidenceParts(c: string)
    requires FindHeader(c, GenerationHeader()) == -1 && Index(c, FollowupHeader()) >= 0
    ensures var k := Index(c, FollowupHeader());
            && k <= |c|
            && FindHeader(c[..k], GenerationHeader()) == -1 && FindHeader(c[..k], FollowupHeader()) == -1
            && FindHeader(c[..k] + FollowupHeader(), GenerationHeader()) == -1
  {
    FollowupHeaderIsHeader();
    hide FindFrom, GenerationHeader, FollowupHeader, IsHeader, Valid;
    var k := Index(c, FollowupHeader());
    NoHeaderInFront(c, FollowupHeader());
    var n := k + |FollowupHeader()|;
    hide Index, FindHeader;
    PrefixHasNoHeader(c, k, GenerationHeader());
    PrefixHasNoHeader(c, n, GenerationHeader());
    assert c[..k] + FollowupHeader() == c[..n];
  }

  /** The three chunks behind the header line: what is in front of the header's text, that text,
      and the rest. */
  lemma ConfidenceRun(p: Parser, c: string, last: string, scan: string -> Option<real>)
    requires p.section == ConfidenceSection && !p.pendingHeaderSkip && !p.confidenceDone && p.withFollowup
    requires p.confidenceBuffer == "" && p.buffer == "" && p.events == []
    requires FindHeader(c, GenerationHeader()) == -1 && Index(c, FollowupHeader()) >= 0
    ensures var k := Index(c, FollowupHeader());
            k <= |c| && Flush(ParseChunk(ParseChunk(ParseChunk(p, c[..k], scan), FollowupHeader(), scan), last, scan), scan).events == []
  {
    hide *;
    ConfidenceParts(c);
    var k := Index(c, FollowupHeader());
    ConfidenceInFront(p, c[..k], scan);
    var q := p.(confidenceBuffer := c[..k]);
    MisledInConfidence(q, scan);
    var t := ParseChunk(q, FollowupHeader(), scan);
    NoMoreEventsInChunk(t, last, scan);
    NoEventAtEnd(ParseChunk(t, last, scan), scan);
  }

  /** The text of the Follow-up header anywhere in the confidence section: cut around it, no
      event ever comes. */
  lemma ConfidenceIsLost(r: Response, scan: string -> Option<real>)
    requires FindHeader(r.confidence, GenerationHeader()) == -1 && Index(r.confidence, FollowupHeader()) >= 0
    ensures var k := Index(r.confidence, FollowupHeader());
            && k + |FollowupHeader()| <= |r.confidence|
            && Concat(ConfidenceCut(r, k)) == Text(r)
            && Streamed(ConfidenceCut(r, k), scan).events == []
  {
    FollowupHeaderIsHeader();
    var c := r.confidence;
    var k := Index(c, FollowupHeader());
    NoHeaderInFront(c, FollowupHeader());
    ConfidenceCutIsCut(r, k);
    AtConfidence(scan);
    hide Text, BeforeConfidence, TailFromGeneration, FindFrom, FindHeader, Index, GenerationHeader,
         FollowupHeader, ParseChunk, ParseChunks, Concat, Flush, NewParser;
    var last := c[k + |FollowupHeader()|..] + TailFromGeneration(r);
    ConfidenceRun(ParseChunks(NewParser(true, true), [BeforeConfidence()], scan), c, last, scan);
    ThreeMore(NewParser(true, true), BeforeConfidence(), c[..k], FollowupHeader(), last, scan);
  }

  lemma ParseOneMore(p: Parser, chunks: seq<string>, x: string, scan: string -> Option<real>)
    ensures ParseChunks(p, chunks + [x], scan) == ParseChunk(ParseChunks(p, chunks, scan), x, scan)
  {
    hide Loop;
    ParseAppend(p, chunks, [x], scan);
    OneChunk(ParseChunks(p, chunks, scan), x, scan);
  }

  // ----- The header's text exposed in the generation section

  function GenerationCut(r: Response, k: nat): seq<string>
    requires ExposedAt(r.generation, k)
  {
    var tail := r.generation + TailFromFollowup(r);
    ExposedInTail(r, k);
    [BeforeGeneration(r)] + [tail[..k + STREAM_LOOKAHEAD_SIZE]] + [tail[k + STREAM_LOOKAHEAD_SIZE..]]
  }

  lemma ExposedInTail(r: Response, k: nat)
    requires ExposedAt(r.generation, k)
    ensures k + STREAM_LOOKAHEAD_SIZE < |r.generation| + |FollowupHeader()| < |r.generation + TailFromFollowup(r)|
    ensures FollowupHeader() <= (r.generation + TailFromFollowup(r))[k..]
  {
    hide FollowupHeader, Valid;
    var tail := r.generation + TailFromFollowup(r);
    assert tail[k..][..|FollowupHeader()|] == r.generation[k..k + |FollowupHeader()|];
  }

  lemma CutShape(r: Response, k: nat)
    requires ExposedAt(r.generation, k)
    ensures var tail := r.generation + TailFromFollowup(r);
            var n := k + STREAM_LOOKAHEAD_SIZE;
            0 <= n <= |tail| && GenerationCut(r, k) == [BeforeGeneration(r)] + [tail[..n]] + [tail[n..]]
  {
    ExposedInTail(r, k);
    hide TailFromFollowup, BeforeGeneration, ExposedAt;
  }

  lemma Rejoin(a: string, tail: string, n: nat)
    requires n <= |tail|
    ensures a + tail[..n] + tail[n..] == a + tail
  {
  }

  lemma GenerationCutIsCut(r: Response, k: nat)
    requires ExposedAt(r.generation, k)
    ensures Concat(GenerationCut(r, k)) == Text(r)
  {
    hide *;
    CutShape(r, k);
    TextFromGeneration(r);
    var tail := r.generation + TailFromFollowup(r);
    var n := k + STREAM_LOOKAHEAD_SIZE;
    ConcatThree(BeforeGeneration(r), tail[..n], tail[n..]);
    Rejoin(BeforeGeneration(r), tail, n);
  }

  lemma TextFromGeneration(r: Response)
    ensures Text(r) == BeforeGeneration(r) + (r.generation + TailFromFollowup(r))
  {
    hide ConfidenceHeader, GenerationHeader, TailFromFollowup;
  }

  lemma StreamsInFront(buffer: string, k: nat)
    requires |buffer| == k + STREAM_LOOKAHEAD_SIZE > STREAM_MIN_BUFFER_SIZE && Valid(buffer[..k])
    ensures StreamWithLookahead(buffer, STREAM_LOOKAHEAD_SIZE, STREAM_MIN_BUFFER_SIZE) == (buffer[..k], buffer[k..], true)
  {
    hide Valid, ValidPrefixLength;
    WholeStringValid(buffer[..k]);
  }

  lemma HeaderNotComplete(r: Response, n: nat)
    requires ThreeSections(r) && n < |r.generation| + |FollowupHeader()| <= |r.generation + TailFromFollowup(r)|
    ensures FindHeader((r.generation + TailFromFollowup(r))[..n], FollowupHeader()) == -1
  {
    HeadersAreHeaders();
    hide ConfidenceHeader, GenerationHeader, FollowupHeader, IsHeader, FindFrom, FindHeader, EndsLine;
    UnseenFromStart(r.generation, FollowupHeader());
    NoHeaderBeforeComplete(r.generation, FollowupHeader(), FollowupHeader(), 0, n);
    assert (r.generation + TailFromFollowup(r))[..n] == (r.generation + FollowupHeader())[0..n];
  }

  lemma GenerationInFront(p: Parser, text: string, k: nat, scan: string -> Option<real>)
    requires p.section == GenerationSection && !p.pendingHeaderSkip && p.buffer == "" && p.generationBuffer == ""
    requires |text| == k + STREAM_LOOKAHEAD_SIZE > STREAM_MIN_BUFFER_SIZE && Valid(text[..k])
    requires FindHeader(text, FollowupHeader()) == -1 && GenerationText(p.events) == ""
    ensures var q := ParseChunk(p, text, scan);
            && q.section == GenerationSection && !q.pendingHeaderSkip && q.buffer == text[k..] && q.withFollowup == p.withFollowup
            && GenerationText(q.events) == text[..k]
  {
    hide FindFrom, GenerationHeader, FollowupHeader, Step, Loop, StreamWithLookahead, Valid, GenerationText;
    var q := p.(buffer := text);
    assert p.buffer + text == text;
    StepAccumulates(q, scan);
    StreamsInFront(text, k);
    OneMoreEvent(p.events, GenerationEvent(text[..k]));
    LoopStops(q, Accumulate(q), scan);
    assert "" + text[..k] == text[..k];
  }

  lemma MisledInGeneration(p: Parser, text: string, scan: string -> Option<real>)
    requires p.section == GenerationSection && !p.pendingHeaderSkip && p.withFollowup
    requires FollowupHeader() <= p.buffer + text
    ensures var q := ParseChunk(p, text, scan); q.section == FollowupSection && q.events == p.events
  {
    hide FindFrom, GenerationHeader, FollowupHeader, Step, Loop;
    var q := p.(buffer := p.buffer + text);
    HeaderBegins(q.buffer, FollowupHeader());
    StepEntersFollowup(q, 0, scan);
    OpensFollowup(q, scan);
  }

  lemma GenerationRun(p: Parser, r: Response, k: nat, scan: string -> Option<real>)
    requires ThreeSections(r) && ExposedAt(r.generation, k)
    requires p.section == GenerationSection && !p.pendingHeaderSkip && p.buffer == "" && p.generationBuffer == "" && p.withFollowup
    requires GenerationText(p.events) == ""
    ensures var tail := r.generation + TailFromFollowup(r);
            var n := k + STREAM_LOOKAHEAD_SIZE;
            && n <= |tail|
            && GenerationText(Flush(ParseChunk(ParseChunk(p, tail[..n], scan), tail[n..], scan), scan).events) == r.generation[..k]
  {
    ExposedInTail(r, k);
    var n := k + STREAM_LOOKAHEAD_SIZE;
    HeaderNotComplete(r, n);
    hide ThreeSections, TailFromFollowup, FindFrom, FindHeader, Index, GenerationHeader, FollowupHeader, Loop,
         Flush, GenerationText, Valid;
    var tail := r.generation + TailFromFollowup(r);
    assert tail[..n][..k] == r.generation[..k] && tail[..n][k..] + tail[n..] == tail[k..];
    GenerationInFront(p, tail[..n], k, scan);
    var q := ParseChunk(p, tail[..n], scan);
    MisledInGeneration(q, tail[n..], scan);
    NoEventAtEnd(ParseChunk(q, tail[n..], scan), scan);
  }

  /** The text of the Follow-up header exposed inside a line of the generation: cut so that it
      comes to the front of the buffer, nothing from there on is streamed. */
  lemma GenerationIsLost(r: Response, k: nat, scan: string -> Option<real>)
    requires ThreeSections(r) && Index(r.confidence, FollowupHeader()) == -1 && ExposedAt(r.generation, k)
    ensures Concat(GenerationCut(r, k)) == Text(r)
    ensures k <= |r.generation| && GenerationText(Streamed(GenerationCut(r, k), scan).events) == r.generation[..k]
  {
    hide *;
    GenerationCutIsCut(r, k);
    CutShape(r, k);
    AtGeneration(r, scan);
    var start := NewParser(true, true);
    var p := ParseChunks(start, [BeforeGeneration(r)], scan);
    NothingStreamed(p, r);
    GenerationRun(p, r, k, scan);
    var tail := r.generation + TailFromFollowup(r);
    var n := k + STREAM_LOOKAHEAD_SIZE;
    ThreeMore(start, BeforeGeneration(r), tail[..n], tail[n..], "", scan);
    StreamedIs(GenerationCut(r, k), scan);
    assert k <= |r.generation| by {
      ExposedIsInside(r.generation, k);
    }
  }

  lemma NothingStreamed(p: Parser, r: Response)
    requires GenerationStreamed(p, r) && p.generationBuffer == ""
    ensures GenerationText(p.events) == ""
  {
  }

  lemma ExposedIsInside(generation: string, k: nat)
    requires ExposedAt(generation, k)
    ensures k <= |generation|
  {
  }

  lemma StreamedIs(chunks: seq<string>, scan: string -> Option<real>)
    ensures Streamed(chunks, scan) == Flush(ParseChunks(NewParser(true, true), chunks, scan), scan)
  {
    hide Flush, ParseChunks, NewParser;
  }

  // ----- The header's text in a line of the follow-up section

  function FollowupCut(r: Response, k: nat): seq<string>
    requires k <= |r.followup|
  {
    [BeforeFollowup(r)] + [r.followup[..k]] + [r.followup[k..]]
  }

  lemma FollowupCutIsCut(r: Response, k: nat)
    requires k <= |r.followup|
    ensures Concat(FollowupCut(r, k)) == Text(r)
  {
    TextLength(r);
    hide Text, BeforeFollowup, Concat;
    ConcatThree(BeforeFollowup(r), r.followup[..k], r.followup[k..]);
    assert r.followup == r.followup[..k] + r.followup[k..];
  }

  lemma FollowupInFront(p: Parser, text: string, scan: string -> Option<real>)
    requires p.section == FollowupSection && !p.pendingHeaderSkip && p.buffer == "" && p.followUpBuffer == ""
    requires FindHeader(text, FollowupHeader()) == -1
    ensures ParseChunk(p, text, scan) == p.(followUpBuffer := text)
  {
    hide FindFrom, FollowupHeader, Loop;
    assert p.buffer + text == text && "" + text == text;
    FollowupAccumulates(p.(buffer := text), scan);
  }

  lemma MisledInFollowup(p: Parser, text: string, scan: string -> Option<real>)
    requires p.section == FollowupSection && !p.pendingHeaderSkip && p.buffer == "" && p.withFollowup
    requires FollowupHeader() <= text && SkipHeaderLine(text).Some? && FindHeader(SkipHeaderLine(text).value, FollowupHeader()) == -1
    ensures ParseChunk(p, text, scan) == p.(followUpBuffer := p.followUpBuffer + SkipHeaderLine(text).value)
  {
    hide FindFrom, FollowupHeader, Step, Loop, SkipHeaderLine;
    var q := p.(buffer := text);
    assert p.buffer + text == text;
    HeaderBegins(text, FollowupHeader());
    StepReentersFollowup(q, scan);
    var t := q.(buffer := SkipHeaderLine(text).value);
    LoopsOn(q, t, scan);
    FollowupAccumulates(t, scan);
  }

  lemma LineFeedIsSkipped(buffer: string)
    requires '\n' in buffer
    ensures SkipHeaderLine(buffer).Some?
  {
    hide SkipHeaderLine;
    var i: nat :| i < |buffer| && buffer[i] == '\n';
    SkipSucceeds(buffer, i);
  }

  lemma PartOfPart(text: string, k: nat, j: nat)
    requires k <= |text| && j < |text[k..]|
    ensures text[k..][j] == text[k + j] && text[k..][j + 1..] == text[k + j + 1..]
  {
  }

  lemma BehindTheLine(text: string, k: nat)
    requires k <= |text| && '\n' in text[k..] && FindHeader(text, FollowupHeader()) == -1
    ensures SkipHeaderLine(text[k..]).Some?
    ensures FindHeader(SkipHeaderLine(text[k..]).value, FollowupHeader()) == -1
  {
    hide *;
    LineFeedIsSkipped(text[k..]);
    var j := SkippedAt(text[k..]);
    PartOfPart(text, k, j);
    SuffixHasNoHeader(text, k + j + 1, FollowupHeader());
  }

  /** The line feed behind which skipping goes on. */
  lemma SkippedAt(buffer: string) returns (j: nat)
    requires SkipHeaderLine(buffer).Some?
    ensures j < |buffer| && buffer[j] == '\n' && SkipHeaderLine(buffer).value == buffer[j + 1..]
  {
    j := Index(buffer, "\n");
    NewlineOccurs(buffer, j);
  }

  lemma FollowupParts(f: string)
    requires FindHeader(f, FollowupHeader()) == -1 && LosesLine(f)
    ensures var k := Index(f, FollowupHeader());
            && 0 <= k <= |f| && FindHeader(f[..k], FollowupHeader()) == -1
            && FollowupHeader() <= f[k..] && SkipHeaderLine(f[k..]).Some?
            && FindHeader(SkipHeaderLine(f[k..]).value, FollowupHeader()) == -1
  {
    FollowupHeaderIsHeader();
    hide FindFrom, FollowupHeader, IsHeader, Valid, SkipHeaderLine;
    var k := Index(f, FollowupHeader());
    NoHeaderInFront(f, FollowupHeader());
    assert f[k..][..|FollowupHeader()|] == f[k..k + |FollowupHeader()|];
    BehindTheLine(f, k);
  }

  lemma FollowupRun(p: Parser, f: string, scan: string -> Option<real>)
    requires p.section == FollowupSection && !p.pendingHeaderSkip && p.buffer == "" && p.followUpBuffer == "" && p.withFollowup
    requires FindHeader(f, FollowupHeader()) == -1 && LosesLine(f)
    ensures var k := Index(f, FollowupHeader());
            && 0 <= k <= |f| && SkipHeaderLine(f[k..]).Some?
            && Flush(ParseChunk(ParseChunk(p, f[..k], scan), f[k..], scan), scan).followUpBuffer == f[..k] + SkipHeaderLine(f[k..]).value
  {
    hide *;
    FollowupParts(f);
    var k := Index(f, FollowupHeader());
    FollowupInFront(p, f[..k], scan);
    var q := p.(followUpBuffer := f[..k]);
    MisledInFollowup(q, f[k..], scan);
    FlushesLastLine(ParseChunk(q, f[k..], scan), scan);
    var rest := SkipHeaderLine(f[k..]).value;
    assert f[..k] + rest + "" == f[..k] + rest;
  }

  /** The text of the Follow-up header inside a complete line of the follow-up: cut in front of
      it, the rest of the line is lost. */
  lemma FollowupIsLost(r: Response, scan: string -> Option<real>)
    requires ThreeSections(r) && Index(r.confidence, FollowupHeader()) == -1 && !Exposed(r.generation)
    requires FindHeader(r.followup, FollowupHeader()) == -1 && LosesLine(r.followup)
    ensures var k := Index(r.followup, FollowupHeader());
            && k <= |r.followup|
            && Concat(FollowupCut(r, k)) == Text(r)
            && SkipHeaderLine(r.followup[k..]).Some?
            && Streamed(FollowupCut(r, k), scan).followUpBuffer == r.followup[..k] + SkipHeaderLine(r.followup[k..]).value
  {
    var k := Index(r.followup, FollowupHeader());
    AtFollowup(r, scan);
    FollowupRun(ParseChunks(NewParser(true, true), [BeforeFollowup(r)], scan), r.followup, scan);
    FollowupCutIsCut(r, k);
    hide ThreeSections, Text, BeforeFollowup, FindFrom, FindHeader, Index, FollowupHeader, ParseChunk,
         ParseChunks, Flush, Concat, NewParser, Exposed, LosesLine;
    ThreeMore(NewParser(true, true), BeforeFollowup(r), r.followup[..k], r.followup[k..], "", scan);
  }
}
