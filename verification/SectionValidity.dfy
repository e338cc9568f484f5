/** What the section parser guarantees for every stream of valid UTF-8, whatever it contains
    and however it is cut, even inside a character: the events are valid UTF-8, and little of
    the generation is held back. */
module SectionValidity {
  import opened Wrappers
  import opened Strings
  import opened Utf8
  import opened Whitespace
  import opened TextSearch
  import opened Sections
  import opened SectionParser
  import opened SectionStreaming
  import opened SectionShapes
  import opened SectionVariants

  // ----- Character boundaries

  /** `part` is the end of `seen`, and starts between two characters. */
  ghost predicate AtBoundary(part: string, seen: string) {
    && |part| <= |seen|
    && seen[|seen| - |part|..] == part
    && Valid(seen[..|seen| - |part|])
  }

  lemma FrontOf(part: string, seen: string) returns (a: string)
    requires AtBoundary(part, seen)
    ensures Valid(a) && seen == a + part
  {
    a := seen[..|seen| - |part|];
  }

  lemma BehindFront(a: string, part: string)
    requires Valid(a)
    ensures AtBoundary(part, a + part)
  {
    assert (a + part)[..|a|] == a;
  }

  /** The cut between `u` and `t` is in front of a character's first byte, or behind an ASCII
      byte. */
  predicate VisibleCut(u: string, t: string) {
    || (t != "" && !IsContinuation(t[0]))
    || (u != "" && u[|u| - 1] as int < 0x80)
  }

  lemma CutBehindAscii(v: string, c: string, t: string)
    requires |c| == 1 && c[0] as int < 0x80 && Valid(v + (c + t))
    ensures Valid(v + c) && Valid(t)
  {
    AsciiIsValid(c);
    hide Valid;
    ValidSplitsBeforeStart(v, c + t);
    ValidAppend(v, c);
    ValidAppend(c, t);
  }

  lemma CutIsBetweenCharacters(u: string, t: string)
    requires VisibleCut(u, t) && Valid(u + t)
    ensures Valid(u) && Valid(t)
  {
    hide Valid;
    if t != "" && !IsContinuation(t[0]) {
      ValidSplitsBeforeStart(u, t);
    } else {
      var v, c := u[..|u| - 1], u[|u| - 1..];
      assert u == v + c;
      assert u + t == v + (c + t);
      CutBehindAscii(v, c, t);
    }
  }

  lemma Regroup(a: string, u: string, t: string, rest: string)
    ensures a + (u + t) == (a + u) + t
    ensures a + (u + t) + rest == a + (u + (t + rest))
  {
  }

  lemma CutBehind(a: string, u: string, t: string)
    requires Valid(a) && Valid(a + (u + t)) && VisibleCut(u, t)
    ensures Valid(u) && Valid(a + u)
  {
    hide Valid, VisibleCut;
    ValidAppend(a, u + t);
    CutIsBetweenCharacters(u, t);
    ValidAppend(a, u);
  }

  /** Cutting off the front of a part that starts between two characters: both pieces do. */
  lemma CutAtBoundary(u: string, t: string, seen: string, rest: string)
    requires AtBoundary(u + t, seen) && Valid(seen + rest) && VisibleCut(u, t + rest)
    ensures AtBoundary(t, seen) && Valid(u)
  {
    var a := FrontOf(u + t, seen);
    hide *;
    Regroup(a, u, t, rest);
    CutBehind(a, u, t + rest);
    BehindFront(a + u, t);
  }

  /** A valid piece may be cut off too. */
  lemma PieceAtBoundary(u: string, t: string, seen: string)
    requires AtBoundary(u + t, seen) && Valid(u)
    ensures AtBoundary(t, seen)
  {
    var a := FrontOf(u + t, seen);
    hide *;
    Regroup(a, u, t, "");
    ValidAppend(a, u);
    BehindFront(a + u, t);
  }

  lemma MoreAtBoundary(part: string, seen: string, text: string)
    requires AtBoundary(part, seen)
    ensures AtBoundary(part + text, seen + text)
  {
    var a := FrontOf(part, seen);
    hide Valid, AtBoundary;
    BehindFront(a, part + text);
    assert a + (part + text) == seen + text;
  }

  lemma WholeIsValid(part: string, seen: string)
    requires AtBoundary(part, seen) && Valid(seen)
    ensures Valid(part)
  {
    var a := FrontOf(part, seen);
    hide Valid, AtBoundary;
    ValidAppend(a, part);
  }

  // ----- The invariant

  /** The text the parser still has to decide about. */
  function Undecided(p: Parser): string {
    if p.section == ConfidenceSection then p.confidenceBuffer + p.buffer else p.buffer
  }

  /** The undecided text is the end of what was seen and starts between two characters; an
      unfinished Generation header line is all of it. */
  ghost predicate Sound(p: Parser, seen: string) {
    && GenerationEventsValid(p.events)
    && (p.section != FollowupSection ==> AtBoundary(Undecided(p), seen))
    && (p.section == NoSection ==> p.confidenceBuffer == "" && !p.pendingHeaderSkip)
    && (p.section == ConfidenceSection ==> !p.confidenceDone && (p.pendingHeaderSkip ==> p.confidenceBuffer == ""))
    && (p.section == GenerationSection && p.pendingHeaderSkip ==> GenerationHeader() <= p.buffer)
    && p.section in {NoSection, ConfidenceSection, GenerationSection, FollowupSection}
  }

  /** When the loop waits in the generation section, the header line is unfinished or little
      is held back. */
  ghost predicate HoldsLittle(p: Parser) {
    p.section == GenerationSection ==>
      if p.pendingHeaderSkip then SkipHeaderLine(p.buffer) == None else |p.buffer| <= STREAM_MIN_BUFFER_SIZE
  }

  ghost predicate SoundTurn(t: Turn, seen: string) {
    match t
    case Again(q) => Sound(q, seen)
    case Wait(q) => Sound(q, seen) && HoldsLittle(q)
  }

  /** The header line is left behind a line feed. */
  lemma SkippedLine(buffer: string)
    requires SkipHeaderLine(buffer).Some?
    ensures var n := |buffer| - |SkipHeaderLine(buffer).value|;
            n > 0 && buffer[n - 1] == '\n' && buffer[n..] == SkipHeaderLine(buffer).value
  {
    var i := Index(buffer, "\n");
    assert buffer[i..i + 1] == "\n";
  }

  lemma SkippedAtBoundary(buffer: string, seen: string, rest: string)
    requires AtBoundary(buffer, seen) && Valid(seen + rest) && SkipHeaderLine(buffer).Some?
    ensures AtBoundary(SkipHeaderLine(buffer).value, seen)
  {
    SkippedLine(buffer);
    var t := SkipHeaderLine(buffer).value;
    var u := buffer[..|buffer| - |t|];
    assert buffer == u + t;
    hide Valid, SkipHeaderLine, AtBoundary;
    CutAtBoundary(u, t, seen, rest);
  }

  lemma HeaderCut(part: string, i: nat, header: string)
    requires IsHeader(header) && OccursAt(part, header, i, true)
    ensures part == part[..i] + part[i..] && header <= part[i..]
    ensures part[i..] != "" && part[i..][0] == '#'
  {
    assert part[i..][..|header|] == header;
  }

  lemma HeaderAtBoundary(part: string, i: nat, header: string, seen: string, rest: string)
    requires AtBoundary(part, seen) && Valid(seen + rest) && IsHeader(header) && OccursAt(part, header, i, true)
    ensures AtBoundary(part[i..], seen) && Valid(part[..i]) && header <= part[i..]
  {
    HeaderCut(part, i, header);
    var t := part[i..];
    assert (t + rest)[0] == '#';
    assert VisibleCut(part[..i], t + rest);
    hide *;
    CutAtBoundary(part[..i], t, seen, rest);
  }

  /** Entering a section whose header is at the front of the buffer. */
  lemma SkipHeaderSound(p: Parser, seen: string, rest: string)
    requires Sound(p.(pendingHeaderSkip := false), seen) && Valid(seen + rest)
    requires p.section != NoSection && (p.section == ConfidenceSection ==> p.confidenceBuffer == "")
    requires p.section == GenerationSection ==> GenerationHeader() <= p.buffer
    ensures SoundTurn(SkipHeader(p), seen)
  {
    hide Valid, SkipHeaderLine, AtBoundary, GenerationHeader, GenerationEventsValid;
    assert "" + p.buffer == p.buffer;
    if p.section != FollowupSection && SkipHeaderLine(p.buffer).Some? {
      SkippedAtBoundary(p.buffer, seen, rest);
      assert "" + SkipHeaderLine(p.buffer).value == SkipHeaderLine(p.buffer).value;
    }
  }

  lemma StepPending(p: Parser, seen: string, rest: string, scan: string -> Option<real>)
    requires Sound(p, seen) && Valid(seen + rest) && p.pendingHeaderSkip
    ensures SoundTurn(Step(p, scan), seen)
  {
    hide Valid, SkipHeaderLine, AtBoundary, GenerationHeader, GenerationEventsValid;
    assert "" + p.buffer == p.buffer;
    if p.section != FollowupSection && SkipHeaderLine(p.buffer).Some? {
      SkippedAtBoundary(p.buffer, seen, rest);
      assert "" + SkipHeaderLine(p.buffer).value == SkipHeaderLine(p.buffer).value;
    }
  }

  lemma EntersConfidence(p: Parser, i: nat, seen: string, rest: string)
    requires Sound(p, seen) && Valid(seen + rest) && p.section == NoSection && !p.confidenceDone
    requires FindHeader(p.buffer, ConfidenceHeader()) == i
    ensures i <= |p.buffer| && SoundTurn(SkipHeader(p.(section := ConfidenceSection, buffer := p.buffer[i..])), seen)
  {
    HeadersAreHeaders();
    hide Valid, AtBoundary, IsHeader, ConfidenceHeader, GenerationHeader, FollowupHeader,
         GenerationEventsValid, SkipHeader;
    HeaderAtBoundary(p.buffer, i, ConfidenceHeader(), seen, rest);
    var q := p.(section := ConfidenceSection, buffer := p.buffer[i..]);
    assert "" + q.buffer == q.buffer;
    SkipHeaderSound(q, seen, rest);
  }

  /** Where the Generation header is located, the undecided text from it on is left. */
  lemma LocatedAtBoundary(p: Parser, seen: string, rest: string)
    requires Sound(p, seen) && Valid(seen + rest) && LocateGeneration(p).1 >= 0
    ensures var (q, i) := LocateGeneration(p);
            AtBoundary(q.buffer[i..], seen) && GenerationHeader() <= q.buffer[i..] && q.events == p.events
  {
    HeadersAreHeaders();
    hide Valid, AtBoundary, IsHeader, ConfidenceHeader, GenerationHeader, FollowupHeader, GenerationEventsValid;
    if p.section == ConfidenceSection {
      var combined := p.confidenceBuffer + p.buffer;
      var i := FindHeader(combined, GenerationHeader());
      HeaderAtBoundary(combined, i, GenerationHeader(), seen, rest);
      if i >= |p.confidenceBuffer| {
        assert combined[i..] == p.buffer[i - |p.confidenceBuffer|..];
      }
    } else {
      HeaderAtBoundary(p.buffer, FindHeader(p.buffer, GenerationHeader()), GenerationHeader(), seen, rest);
    }
  }

  lemma ToGenerationEvents(p: Parser, i: nat, scan: string -> Option<real>)
    requires i <= |p.buffer|
    ensures GenerationEventsValid(p.events) ==> GenerationEventsValid(ToGeneration(p, i, scan).events)
    ensures ToGeneration(p, i, scan).section == GenerationSection && ToGeneration(p, i, scan).buffer == p.buffer[i..]
  {
    hide TrimSpace, ConfidenceOf, Valid;
  }

  lemma GenerationSound(t: Parser, seen: string)
    requires t.section == GenerationSection && AtBoundary(t.buffer, seen) && GenerationEventsValid(t.events)
    requires t.pendingHeaderSkip ==> GenerationHeader() <= t.buffer
    ensures Sound(t, seen)
  {
    hide AtBoundary, GenerationEventsValid, GenerationHeader;
  }

  lemma EntersGeneration(p: Parser, seen: string, rest: string, scan: string -> Option<real>)
    requires Sound(p, seen) && Valid(seen + rest) && !p.pendingHeaderSkip && LocateGeneration(p).1 >= 0
    ensures var (q, i) := LocateGeneration(p); SoundTurn(SkipHeader(ToGeneration(q, i, scan)), seen)
  {
    LocatedAtBoundary(p, seen, rest);
    var (q, i) := LocateGeneration(p);
    ToGenerationEvents(q, i, scan);
    var t := ToGeneration(q, i, scan);
    assert GenerationEventsValid(p.events);
    hide Valid, AtBoundary, LocateGeneration, ToGeneration, GenerationHeader, GenerationEventsValid,
         SkipHeader, Sound, SoundTurn;
    GenerationSound(t.(pendingHeaderSkip := false), seen);
    SkipHeaderSound(t, seen, rest);
  }

  lemma ToFollowupEvents(p: Parser, i: nat)
    requires i <= |p.buffer| && GenerationEventsValid(p.events)
    requires p.section == GenerationSection ==> Valid(p.buffer[..i])
    ensures GenerationEventsValid(ToFollowup(p, i).events)
    ensures ToFollowup(p, i).section == FollowupSection
  {
    hide TrimSpace, Valid;
    if p.section == GenerationSection {
      TrimKeepsValid(p.buffer[..i]);
    }
  }

  lemma EntersFollowup(p: Parser, i: nat, seen: string, rest: string)
    requires Sound(p, seen) && Valid(seen + rest) && FindHeader(p.buffer, FollowupHeader()) == i
    ensures i <= |p.buffer| && SoundTurn(SkipHeader(ToFollowup(p, i)), seen)
  {
    HeadersAreHeaders();
    hide Valid, AtBoundary, IsHeader, ConfidenceHeader, GenerationHeader, FollowupHeader,
         GenerationEventsValid, ToFollowup, SkipHeader;
    if p.section == GenerationSection {
      HeaderAtBoundary(p.buffer, i, FollowupHeader(), seen, rest);
    }
    ToFollowupEvents(p, i);
    SkipHeaderSound(ToFollowup(p, i), seen, rest);
  }

  lemma KeepsLittle(buffer: string, seen: string, rest: string)
    requires AtBoundary(buffer, seen) && Valid(seen + rest)
    ensures |StreamWithLookahead(buffer, STREAM_LOOKAHEAD_SIZE, STREAM_MIN_BUFFER_SIZE).1| <= STREAM_MIN_BUFFER_SIZE
  {
    var a := FrontOf(buffer, seen);
    hide *;
    Regroup(a, buffer, rest, "");
    LittleIsHeldBack(a, buffer, rest);
  }

  lemma StreamsGeneration(p: Parser, seen: string, rest: string)
    requires Sound(p, seen) && Valid(seen + rest) && p.section == GenerationSection && !p.pendingHeaderSkip
    ensures SoundTurn(Wait(Accumulate(p)), seen)
  {
    hide Valid, AtBoundary, StreamWithLookahead;
    var (piece, kept, should) := StreamWithLookahead(p.buffer, STREAM_LOOKAHEAD_SIZE, STREAM_MIN_BUFFER_SIZE);
    KeepsLittle(p.buffer, seen, rest);
    if should {
      PieceAtBoundary(piece, kept, seen);
    } else {
      assert piece + kept == kept;
    }
  }

  lemma Accumulates(p: Parser, seen: string, rest: string)
    requires Sound(p, seen) && Valid(seen + rest) && !p.pendingHeaderSkip
    ensures SoundTurn(Wait(Accumulate(p)), seen)
  {
    if p.section == GenerationSection {
      hide Accumulate, AtBoundary, Valid, GenerationEventsValid;
      StreamsGeneration(p, seen, rest);
    } else {
      hide AtBoundary, Valid, GenerationEventsValid, StreamWithLookahead;
      assert p.confidenceBuffer + p.buffer + "" == p.confidenceBuffer + p.buffer;
    }
  }

  /** Every turn of the loop keeps the parser sound. */
  lemma StepIsSound(p: Parser, seen: string, rest: string, scan: string -> Option<real>)
    requires Sound(p, seen) && Valid(seen + rest)
    ensures SoundTurn(Step(p, scan), seen)
  {
    hide Sound, SoundTurn, Valid, FindFrom, ConfidenceHeader, GenerationHeader, FollowupHeader, SkipHeader,
         LocateGeneration, ToGeneration, ToFollowup, Accumulate;
    if p.pendingHeaderSkip {
      hide Step;
      StepPending(p, seen, rest, scan);
    } else {
      var c := FindHeader(p.buffer, ConfidenceHeader());
      var f := FindHeader(p.buffer, FollowupHeader());
      if p.withConfidence && !p.confidenceDone && c >= 0 && p.section == NoSection {
        EntersConfidence(p, c, seen, rest);
      } else if LocateGeneration(p).1 >= 0 {
        EntersGeneration(p, seen, rest, scan);
      } else if p.withFollowup && f >= 0 {
        EntersFollowup(p, f, seen, rest);
      } else {
        Accumulates(p, seen, rest);
      }
    }
  }

  lemma {:induction false} LoopIsSound(p: Parser, seen: string, rest: string, scan: string -> Option<real>)
    requires Sound(p, seen) && Valid(seen + rest)
    ensures Sound(Loop(p, scan), seen) && HoldsLittle(Loop(p, scan))
    decreases SectionRank(p.section), |p.buffer|
  {
    hide Sound, HoldsLittle, Valid, Step;
    StepIsSound(p, seen, rest, scan);
    StepProgress(p, scan);
    if Step(p, scan).Again? {
      LoopIsSound(Step(p, scan).parser, seen, rest, scan);
    }
  }

  lemma TextArrives(p: Parser, seen: string, text: string)
    requires Sound(p, seen)
    ensures Sound(p.(buffer := p.buffer + text), seen + text)
  {
    hide AtBoundary, GenerationHeader, GenerationEventsValid;
    if p.section != FollowupSection {
      MoreAtBoundary(Undecided(p), seen, text);
      assert p.confidenceBuffer + (p.buffer + text) == p.confidenceBuffer + p.buffer + text;
    }
  }

  lemma {:induction false} ChunksAreSound(p: Parser, seen: string, chunks: seq<string>, rest: string, scan: string -> Option<real>)
    requires Sound(p, seen) && HoldsLittle(p) && Valid(seen + Concat(chunks) + rest)
    ensures var q := ParseChunks(p, chunks, scan); Sound(q, seen + Concat(chunks)) && HoldsLittle(q)
    decreases |chunks|
  {
    hide Sound, HoldsLittle, Valid, Loop;
    if chunks == [] {
      assert seen + Concat(chunks) == seen;
    } else {
      var now := seen + chunks[0];
      ConcatFront(chunks);
      assert seen + Concat(chunks) == now + Concat(chunks[1..]);
      assert seen + Concat(chunks) + rest == now + (Concat(chunks[1..]) + rest);
      TextArrives(p, seen, chunks[0]);
      LoopIsSound(p.(buffer := p.buffer + chunks[0]), now, Concat(chunks[1..]) + rest, scan);
      ChunksAreSound(ParseChunk(p, chunks[0], scan), now, chunks[1..], rest, scan);
    }
  }

  lemma NewIsSound(withConfidence: bool, withFollowup: bool)
    ensures Sound(NewParser(withConfidence, withFollowup), "") && HoldsLittle(NewParser(withConfidence, withFollowup))
  {
  }

  // ----- Main results

  /** Of every valid stream, seen in part or to the end, cut anywhere: all generation events so
      far are valid UTF-8, and in the generation section at most the minimum buffer size is
      held back, unless the header line of the section is unfinished: then the whole buffer is
      that line, and no line feed has come. */
  lemma EventsAreValid(withConfidence: bool, withFollowup: bool, chunks: seq<string>, rest: string, scan: string -> Option<real>)
    requires Valid(Concat(chunks) + rest)
    ensures var p := ParseChunks(NewParser(withConfidence, withFollowup), chunks, scan);
            && GenerationEventsValid(p.events)
            && (p.section == GenerationSection && !p.pendingHeaderSkip ==> |p.buffer| <= STREAM_MIN_BUFFER_SIZE)
            && (p.section == GenerationSection && p.pendingHeaderSkip ==> GenerationHeader() <= p.buffer && '\n' !in p.buffer)
  {
    StreamIsSound(withConfidence, withFollowup, chunks, rest, scan);
    var p := ParseChunks(NewParser(withConfidence, withFollowup), chunks, scan);
    hide Valid, AtBoundary, GenerationEventsValid, GenerationHeader, ParseChunks, SkipHeaderLine;
    NoLineFeed(p.buffer);
  }

  lemma StreamIsSound(withConfidence: bool, withFollowup: bool, chunks: seq<string>, rest: string, scan: string -> Option<real>)
    requires Valid(Concat(chunks) + rest)
    ensures var p := ParseChunks(NewParser(withConfidence, withFollowup), chunks, scan);
            Sound(p, Concat(chunks)) && HoldsLittle(p)
  {
    hide Valid, Sound, HoldsLittle, ParseChunks, Concat;
    assert "" + Concat(chunks) == Concat(chunks);
    NewIsSound(withConfidence, withFollowup);
    ChunksAreSound(NewParser(withConfidence, withFollowup), "", chunks, rest, scan);
  }

  lemma NoLineFeed(buffer: string)
    ensures SkipHeaderLine(buffer) == None <==> '\n' !in buffer
  {
    forall i: int
      ensures OccursAt(buffer, "\n", i, false) <==> 0 <= i < |buffer| && buffer[i] == '\n'
    {
      NewlineOccurs(buffer, i);
    }
  }

  lemma {:induction false} StripTokensKeepsValid(text: string, tokens: seq<string>)
    requires Valid(text) && forall i :: 0 <= i < |tokens| ==> tokens[i] != "" && !IsContinuation(tokens[i][0])
    ensures Valid(StripTokens(text, tokens))
    decreases |tokens|
  {
    hide Valid, TrimSpace;
    if tokens != [] {
      if EndsWith(text, tokens[0]) {
        var cut := text[..|text| - |tokens[0]|];
        assert text == cut + tokens[0];
        ValidSplitsBeforeStart(cut, tokens[0]);
        TrimKeepsValid(cut);
      } else {
        StripTokensKeepsValid(text, tokens[1..]);
      }
    }
  }

  lemma StripKeepsValid(text: string)
    requires Valid(text)
    ensures Valid(StripModelEndTokens(text))
  {
    hide Valid, TrimSpace, StripTokens;
    TrimKeepsValid(text);
    EndTokensAreSolid();
    StripTokensKeepsValid(TrimSpace(text), MODEL_END_TOKENS);
  }

  lemma FlushIsSound(p: Parser, seen: string, scan: string -> Option<real>)
    requires Sound(p, seen) && Valid(seen)
    ensures GenerationEventsValid(Flush(p, scan).events)
  {
    hide Valid, AtBoundary, SkipHeaderLine, GenerationHeader, StripModelEndTokens, ConfidenceOf;
    assert seen + "" == seen;
    var q := SkipPendingHeader(p);
    if p.section != FollowupSection && p.pendingHeaderSkip && SkipHeaderLine(p.buffer).Some? {
      assert "" + p.buffer == p.buffer;
      SkippedAtBoundary(p.buffer, seen, "");
    }
    if p.section == GenerationSection || p.section == NoSection {
      WholeIsValid(q.buffer, seen);
      StripKeepsValid(q.buffer);
    }
  }

  /** At the end of every valid stream all generation events are valid UTF-8. */
  lemma AllEventsAreValid(withConfidence: bool, withFollowup: bool, chunks: seq<string>, scan: string -> Option<real>)
    requires Valid(Concat(chunks))
    ensures GenerationEventsValid(Flush(ParseChunks(NewParser(withConfidence, withFollowup), chunks, scan), scan).events)
  {
    assert Concat(chunks) + "" == Concat(chunks);
    hide Valid, Sound, HoldsLittle, GenerationEventsValid, ParseChunks, Flush, Concat;
    StreamIsSound(withConfidence, withFollowup, chunks, "", scan);
    FlushIsSound(ParseChunks(NewParser(withConfidence, withFollowup), chunks, scan), Concat(chunks), scan);
  }

  // ----- The unfinished header line

  lemma OnlyLineStart(text: string, pattern: string, i: int)
    requires '\n' !in text && OccursAt(text, pattern, i, true)
    ensures i == 0 && pattern <= text
  {
    assert text[..|pattern|] == text[0..|pattern|];
  }

  lemma SomeTextsDiffer(line: string)
    ensures !(ConfidenceHeader() <= GenerationHeader() + line)
  {
    assert ConfidenceHeader()[3] == 'C' && (GenerationHeader() + line)[3] == 'G';
  }

  lemma OnlyGenerationStarts(line: string)
    requires '\n' !in line
    ensures FindHeader(GenerationHeader() + line, ConfidenceHeader()) == -1 && '\n' !in GenerationHeader() + line
  {
    var text := GenerationHeader() + line;
    GenerationHeaderIsHeader();
    SomeTextsDiffer(line);
    hide ConfidenceHeader, GenerationHeader, IsHeader;
    if FindHeader(text, ConfidenceHeader()) >= 0 {
      OnlyLineStart(text, ConfidenceHeader(), FindHeader(text, ConfidenceHeader()));
    }
  }

  lemma HeldBack(p: Parser, o: Opening, chunks: seq<string>, line: string, later: seq<string>, scan: string -> Option<real>)
    requires p == ParseChunks(o.Fresh().(buffer := ""), chunks, scan) == ParseChunks(o.Entered().(pendingHeaderSkip := true), later, scan)
    requires o.header == GenerationHeader() && Concat(later) == o.header + line && '\n' !in o.header + line
    ensures p == ParseChunks(NewParser(o.withConfidence, o.withFollowup), chunks, scan) && p.section == GenerationSection && p.pendingHeaderSkip
    ensures p.buffer == GenerationHeader() + line
  {
    HeadersDiffer();
    hide ParseChunks, ConfidenceHeader, GenerationHeader, FollowupHeader, Concat;
    assert "" + Concat(later) == o.header + line;
    LineStays(o.Entered(), o.header + line, "", later, scan);
  }

  lemma UnfinishedLineFacts(line: string, chunks: seq<string>)
    requires '\n' !in line && Concat(chunks) == GenerationHeader() + line
    ensures |GenerationHeader()| == 13 && '\n' !in GenerationHeader() + line
    ensures |GenerationHeader() + line| <= STREAM_MIN_BUFFER_SIZE <==> |line| <= 87
    ensures FindHeader("" + GenerationHeader() + line, ConfidenceHeader()) == -1
    ensures "" + Concat(chunks) == "" + GenerationHeader() + line
  {
    GenerationHeaderIsHeader();
    OnlyGenerationStarts(line);
    hide FindFrom, ConfidenceHeader, GenerationHeader, IsHeader, Concat;
    assert "" + GenerationHeader() == GenerationHeader();
    assert "" + Concat(chunks) == Concat(chunks);
  }

  /** A Generation header line of any length without a line feed, however it is cut, is held back
      whole: the bound fails exactly when it is longer than the minimum buffer size. */
  lemma UnfinishedLineIsHeldBack(withConfidence: bool, withFollowup: bool, line: string, chunks: seq<string>,
                                 scan: string -> Option<real>)
    requires '\n' !in line && Concat(chunks) == GenerationHeader() + line
    ensures var p := ParseChunks(NewParser(withConfidence, withFollowup), chunks, scan);
            && p.section == GenerationSection && p.pendingHeaderSkip && p.buffer == GenerationHeader() + line
            && (|p.buffer| <= STREAM_MIN_BUFFER_SIZE <==> |line| <= 87)
  {
    hide *;
    UnfinishedLineFacts(line, chunks);
    var o := GenerationOpens(withConfidence, withFollowup, line);
    var later := HeaderArrives(o, line, "", chunks, scan);
    HeldBack(ParseChunks(o.Fresh().(buffer := ""), chunks, scan), o, chunks, line, later, scan);
  }

  function LongLine(): string {
    seq(200, (i: nat) => 'x')
  }

  /** Two hundred bytes behind the header, and the bound fails. */
  lemma HeldBackExample(scan: string -> Option<real>)
    ensures var p := ParseChunks(NewParser(true, true), [GenerationHeader() + LongLine()], scan);
            p.section == GenerationSection && |p.buffer| == 213 > STREAM_MIN_BUFFER_SIZE
  {
    HeadersAreHeaders();
    assert |LongLine()| == 200 && '\n' !in LongLine();
    hide ParseChunks, GenerationHeader, LongLine;
    ConcatOne(GenerationHeader() + LongLine());
    UnfinishedLineIsHeldBack(true, true, LongLine(), [GenerationHeader() + LongLine()], scan);
  }
}
