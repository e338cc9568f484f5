/** The streaming parser that routes the chunks of a model response to callbacks, section by
    section, while the response is still arriving.

    The callback is a log of events that never fails.  Reasoning is switched off, as it is at
    every place where the parser is made. */
module SectionParser {
  import opened Wrappers
  import opened Utf8
  import opened Whitespace
  import opened TextSearch
  import opened Sections

  const STREAM_MIN_BUFFER_SIZE := 100

  function ConfidenceHeader(): string { "## Confidence" }
  function GenerationHeader(): string { "## Generation" }
  function FollowupHeader(): string { "## Follow-up Questions" }

  datatype Event = ConfidenceEvent(scores: Scores) | GenerationEvent(text: string)

  datatype Parser = Parser(
    withConfidence: bool,
    withFollowup: bool,
    buffer: string,
    section: Section,
    confidenceDone: bool,
    confidenceBuffer: string,
    generationBuffer: string,
    followUpBuffer: string,
    pendingHeaderSkip: bool,
    events: seq<Event>)

  function NewParser(withConfidence: bool, withFollowup: bool): Parser {
    Parser(withConfidence, withFollowup, "", NoSection, false, "", "", "", false, [])
  }

  /** What one turn of the parsing loop decides: go round again, or wait for more text. */
  datatype Turn = Again(parser: Parser) | Wait(parser: Parser)

  /** The buffer after its first line, if that line is complete. */
  function SkipHeaderLine(buffer: string): (r: Option<string>)
    ensures r.Some? ==> |r.value| < |buffer|
  {
    var i := Index(buffer, "\n");
    if i < 0 then None else Some(buffer[i + 1..])
  }

  /** Leaves the header line at the front of the buffer behind, or notes that it is incomplete. */
  function SkipHeader(p: Parser): Turn {
    match SkipHeaderLine(p.buffer)
    case Some(rest) => Again(p.(buffer := rest, pendingHeaderSkip := false))
    case None => Wait(p.(pendingHeaderSkip := true))
  }

  /** Looks for the header in the accumulated text and the buffer together: what to append to
      the accumulated text, and the buffer from the header on. */
  function FindHeaderInCombined(accumulated: string, buffer: string, header: string): Option<(string, string)> {
    var combined := accumulated + buffer;
    var i := FindHeader(combined, header);
    if i < 0 then None
    else if i >= |accumulated| then Some((buffer[..i - |accumulated|], buffer[i - |accumulated|..]))
    else Some(("", combined[i..]))
  }

  /** What may be streamed and what is kept for header detection. */
  function StreamWithLookahead(buffer: string, lookahead: nat, minimum: nat): (r: (string, string, bool))
    requires lookahead <= minimum
    ensures r.0 + r.1 == buffer && Valid(r.0)
    ensures r.2 <==> r.0 != ""
    ensures r.0 != "" ==> |r.1| >= lookahead
  {
    if |buffer| <= minimum then ("", buffer, false)
    else
      var n := ValidPrefixLength(buffer[..|buffer| - lookahead]);
      ValidPrefixIsValid(buffer[..|buffer| - lookahead]);
      assert buffer[..|buffer| - lookahead][..n] == buffer[..n];
      (buffer[..n], buffer[n..], n > 0)
  }

  function FlushConfidence(p: Parser, additional: string, scan: string -> Option<real>): Parser {
    if !p.confidenceDone && p.section == ConfidenceSection then
      var text := p.confidenceBuffer + additional;
      p.(confidenceBuffer := text,
         confidenceDone := true,
         events := if text != "" then p.events + [ConfidenceEvent(ConfidenceOf(text, scan))] else p.events)
    else p
  }

  function ToGeneration(p: Parser, i: nat, scan: string -> Option<real>): Parser
    requires i <= |p.buffer|
  {
    FlushConfidence(p, TrimSpace(p.buffer[..i]), scan).(section := GenerationSection, buffer := p.buffer[i..])
  }

  function EmitGeneration(p: Parser, text: string): Parser {
    if text == "" then p
    else p.(generationBuffer := p.generationBuffer + text, events := p.events + [GenerationEvent(text)])
  }

  function ToFollowup(p: Parser, i: nat): Parser
    requires i <= |p.buffer|
  {
    var q := if p.section == GenerationSection then EmitGeneration(p, TrimSpace(p.buffer[..i])) else p;
    q.(section := FollowupSection, buffer := p.buffer[i..])
  }

  /** Streams or accumulates the buffer for the section it belongs to. */
  function Accumulate(p: Parser): Parser {
    if p.section == ConfidenceSection && !p.confidenceDone then
      p.(confidenceBuffer := p.confidenceBuffer + p.buffer, buffer := "")
    else if p.section == GenerationSection then
      var (streamable, remaining, should) := StreamWithLookahead(p.buffer, STREAM_LOOKAHEAD_SIZE, STREAM_MIN_BUFFER_SIZE);
      if should then EmitGeneration(p, streamable).(buffer := remaining) else p
    else if p.section == FollowupSection then
      p.(followUpBuffer := p.followUpBuffer + p.buffer, buffer := "")
    else p
  }

  /** The parser with the Generation header, if found, at a known place in its buffer. */
  function LocateGeneration(p: Parser): (r: (Parser, int))
    ensures r.1 <= |r.0.buffer|
    ensures r.1 < 0 ==> r.0 == p
    ensures r.0.section == p.section
  {
    if p.section == ConfidenceSection && !p.confidenceDone then
      match FindHeaderInCombined(p.confidenceBuffer, p.buffer, GenerationHeader())
      case Some((before, remaining)) => (p.(confidenceBuffer := p.confidenceBuffer + before, buffer := remaining), 0)
      case None => (p, -1)
    else if p.section != GenerationSection && p.section != FollowupSection then
      (p, FindHeader(p.buffer, GenerationHeader()))
    else (p, -1)
  }

  /** How many sections may still begin; with the buffer's length it bounds the loop. */
  function SectionRank(s: Section): nat {
    match s
    case NoSection => 3
    case ConfidenceSection => 2
    case FollowupSection => 0
    case GenerationSection => 1
    case _ => 2
  }

  /** One turn of the loop in `parseChunk`. */
  function Step(p: Parser, scan: string -> Option<real>): Turn {
    if p.pendingHeaderSkip then
      match SkipHeaderLine(p.buffer)
      case Some(rest) => Again(p.(buffer := rest, pendingHeaderSkip := false))
      case None => Wait(p)
    else
      var confidence := FindHeader(p.buffer, ConfidenceHeader());
      if p.withConfidence && !p.confidenceDone && confidence >= 0 && p.section == NoSection then
        SkipHeader(p.(section := ConfidenceSection, buffer := p.buffer[confidence..]))
      else
        var (q, generation) := LocateGeneration(p);
        if generation >= 0 then SkipHeader(ToGeneration(q, generation, scan))
        else
          var followup := FindHeader(p.buffer, FollowupHeader());
          if p.withFollowup && followup >= 0 then SkipHeader(ToFollowup(p, followup))
          else Wait(Accumulate(p))
  }

  /** Every turn that goes round again enters a later section or shortens the buffer. */
  ghost predicate Progress(p: Parser, q: Parser) {
    || SectionRank(q.section) < SectionRank(p.section)
    || (q.section == p.section && |q.buffer| < |p.buffer|)
  }

  lemma TransitionSections(p: Parser, i: nat, scan: string -> Option<real>)
    requires i <= |p.buffer|
    ensures ToGeneration(p, i, scan).section == GenerationSection
    ensures ToFollowup(p, i).section == FollowupSection && ToFollowup(p, i).buffer == p.buffer[i..]
    ensures SkipHeader(p).Again? ==> SkipHeader(p).parser.section == p.section && |SkipHeader(p).parser.buffer| < |p.buffer|
  {
    hide TrimSpace, ConfidenceOf, FindFrom;
  }

  lemma StepProgress(p: Parser, scan: string -> Option<real>)
    ensures Step(p, scan).Again? ==> Progress(p, Step(p, scan).parser)
  {
    hide FindFrom, ToGeneration, ToFollowup, SkipHeader, Accumulate, LocateGeneration, ConfidenceHeader,
         GenerationHeader, FollowupHeader;
    var c := FindHeader(p.buffer, ConfidenceHeader());
    var (q, g) := LocateGeneration(p);
    var f := FindHeader(p.buffer, FollowupHeader());
    if c >= 0 {
      TransitionSections(p.(section := ConfidenceSection, buffer := p.buffer[c..]), 0, scan);
    }
    if g >= 0 {
      TransitionSections(q, g, scan);
      TransitionSections(ToGeneration(q, g, scan), 0, scan);
      GenerationOnce(p);
    }
    if f >= 0 {
      TransitionSections(p, f, scan);
      TransitionSections(ToFollowup(p, f), 0, scan);
    }
  }

  lemma GenerationOnce(p: Parser)
    ensures LocateGeneration(p).1 >= 0 ==> p.section != GenerationSection && p.section != FollowupSection
  {
    hide FindFrom, GenerationHeader;
  }

  function Loop(p: Parser, scan: string -> Option<real>): Parser
    decreases SectionRank(p.section), |p.buffer|
  {
    StepProgress(p, scan);
    match Step(p, scan)
    case Again(q) => Loop(q, scan)
    case Wait(q) => q
  }

  function ParseChunk(p: Parser, text: string, scan: string -> Option<real>): Parser {
    Loop(p.(buffer := p.buffer + text), scan)
  }

  function ParseChunks(p: Parser, chunks: seq<string>, scan: string -> Option<real>): Parser
    decreases |chunks|
  {
    if chunks == [] then p else ParseChunks(ParseChunk(p, chunks[0], scan), chunks[1..], scan)
  }

  /** A header line that was still incomplete may have been completed by the last chunk. */
  function SkipPendingHeader(p: Parser): Parser {
    if p.pendingHeaderSkip && SkipHeaderLine(p.buffer).Some?
    then p.(buffer := SkipHeaderLine(p.buffer).value, pendingHeaderSkip := false)
    else p
  }

  /** A response without any section header is taken for the generation. */
  function EmitWhole(p: Parser, text: string): Parser {
    if text == "" then p else p.(generationBuffer := text, events := p.events + [GenerationEvent(text)])
  }

  function FlushContent(p: Parser, scan: string -> Option<real>): Parser {
    if p.buffer == "" then p
    else if p.section == ConfidenceSection && !p.confidenceDone then FlushConfidence(p, p.buffer, scan)
    else if p.section == GenerationSection then EmitGeneration(p, StripModelEndTokens(p.buffer))
    else if p.section == FollowupSection then p.(followUpBuffer := p.followUpBuffer + p.buffer)
    else if p.section == NoSection then EmitWhole(p, StripModelEndTokens(p.buffer))
    else p
  }

  /** Emits what is left when the stream ends. */
  function Flush(p: Parser, scan: string -> Option<real>): Parser {
    FlushContent(SkipPendingHeader(p), scan).(buffer := "")
  }

  /** The parser object, whose fields the methods update chunk by chunk. */
  class MarkdownSectionParser {
    const withConfidence: bool
    const withFollowup: bool
    const scan: string -> Option<real>
    var buffer: string
    var currentSection: Section
    var confidenceDone: bool
    var confidenceBuffer: string
    var generationBuffer: string
    var followUpBuffer: string
    var pendingHeaderSkip: bool
    var events: seq<Event>

    constructor (withConfidence: bool, withFollowup: bool, scan: string -> Option<real>)
      ensures State() == NewParser(withConfidence, withFollowup)
      ensures this.scan == scan
    {
      this.withConfidence, this.withFollowup, this.scan := withConfidence, withFollowup, scan;
      buffer, currentSection, confidenceDone, confidenceBuffer := "", NoSection, false, "";
      generationBuffer, followUpBuffer, pendingHeaderSkip, events := "", "", false, [];
    }

    ghost function State(): Parser
      reads this
    {
      Parser(withConfidence, withFollowup, buffer, currentSection, confidenceDone, confidenceBuffer,
             generationBuffer, followUpBuffer, pendingHeaderSkip, events)
    }

    method FlushConfidenceBuffer(additionalContent: string)
      modifies this
      ensures State() == FlushConfidence(old(State()), additionalContent, scan)
    {
      hide ConfidenceOf;
      assert confidenceBuffer + "" == confidenceBuffer;
      if !confidenceDone && currentSection == ConfidenceSection {
        if additionalContent != "" {
          confidenceBuffer := confidenceBuffer + additionalContent;
        }
        if confidenceBuffer != "" {
          var confidence := ParseConfidenceMarkdown(confidenceBuffer, scan);
          events := events + [ConfidenceEvent(confidence)];
        }
        confidenceDone := true;
      }
    }

    /** Skips the header line at the front of the buffer; false if it is incomplete. */
    method LeaveHeader() returns (again: bool)
      modifies this
      ensures SkipHeader(old(State())) == if again then Again(State()) else Wait(State())
    {
      var newline := FindNextNewline(buffer);
      if newline >= 0 {
        buffer := buffer[newline + 1..];
        pendingHeaderSkip := false;
        return true;
      }
      pendingHeaderSkip := true;
      return false;
    }

    /** Detects the Generation header, across the accumulated confidence text if need be. */
    method DetectGeneration() returns (answerIdx: int)
      modifies this
      ensures LocateGeneration(old(State())) == (State(), answerIdx)
    {
      hide FindFrom;
      assert "## " + "Generation" == GenerationHeader();
      answerIdx := -1;
      if currentSection == ConfidenceSection && !confidenceDone {
        var combined := confidenceBuffer + buffer;
        var i := FindMarkdownHeader(combined, "Generation");
        if i >= |confidenceBuffer| {
          var at := i - |confidenceBuffer|;
          confidenceBuffer, buffer := confidenceBuffer + buffer[..at], buffer[at..];
          answerIdx := 0;
        } else if i >= 0 {
          assert confidenceBuffer + "" == confidenceBuffer;
          buffer := combined[i..];
          answerIdx := 0;
        }
      } else if currentSection != GenerationSection && currentSection != FollowupSection {
        answerIdx := FindMarkdownHeader(buffer, "Generation");
      }
    }

    method TransitionToAnswer(headerIdx: nat)
      requires headerIdx <= |buffer|
      modifies this
      ensures State() == ToGeneration(old(State()), headerIdx, scan)
    {
      FlushConfidenceBuffer(TrimSpace(buffer[..headerIdx]));
      currentSection := GenerationSection;
      buffer := buffer[headerIdx..];
    }

    method TransitionToFollowup(headerIdx: nat)
      requires headerIdx <= |buffer|
      modifies this
      ensures State() == ToFollowup(old(State()), headerIdx)
    {
      if currentSection == GenerationSection {
        var trimmed := TrimSpace(buffer[..headerIdx]);
        if trimmed != "" {
          generationBuffer := generationBuffer + trimmed;
          events := events + [GenerationEvent(trimmed)];
        }
      }
      currentSection := FollowupSection;
      buffer := buffer[headerIdx..];
    }

    /** Streams the generation with lookahead, accumulates the other sections. */
    method AccumulateContent()
      modifies this
      ensures State() == Accumulate(old(State()))
    {
      hide Valid, ValidPrefixLength;
      if currentSection == ConfidenceSection && !confidenceDone {
        confidenceBuffer, buffer := confidenceBuffer + buffer, "";
      } else if currentSection == GenerationSection {
        if |buffer| > STREAM_MIN_BUFFER_SIZE {
          var splitPoint := |buffer| - STREAM_LOOKAHEAD_SIZE;
          var validPrefix, _ := SplitValidUTF8(buffer[..splitPoint]);
          assert validPrefix == buffer[..|validPrefix|];
          if validPrefix != "" {
            generationBuffer := generationBuffer + validPrefix;
            events := events + [GenerationEvent(validPrefix)];
            buffer := buffer[|validPrefix|..];
          }
        }
      } else if currentSection == FollowupSection {
        followUpBuffer, buffer := followUpBuffer + buffer, "";
      }
    }

    /** One turn of the loop: true to go round again. */
    method TakeTurn() returns (again: bool)
      modifies this
      ensures Step(old(State()), scan) == if again then Again(State()) else Wait(State())
    {
      hide FindFrom, LocateGeneration, ToGeneration, ToFollowup, Accumulate;
      assert "## " + "Confidence" == ConfidenceHeader();
      assert "## " + "Follow-up Questions" == FollowupHeader();
      if pendingHeaderSkip {
        again := LeaveHeader();
        return;
      }
      if withConfidence && !confidenceDone {
        var confidenceIdx := FindMarkdownHeader(buffer, "Confidence");
        if confidenceIdx >= 0 && currentSection == NoSection {
          currentSection := ConfidenceSection;
          buffer := buffer[confidenceIdx..];
          again := LeaveHeader();
          return;
        }
      }
      var answerIdx := DetectGeneration();
      if answerIdx >= 0 {
        TransitionToAnswer(answerIdx);
        again := LeaveHeader();
        return;
      }
      if withFollowup {
        var followupIdx := FindMarkdownHeader(buffer, "Follow-up Questions");
        if followupIdx >= 0 {
          TransitionToFollowup(followupIdx);
          again := LeaveHeader();
          return;
        }
      }
      AccumulateContent();
      again := false;
    }

    /** Processes one chunk of text. */
    method Parse(text: string)
      modifies this
      ensures State() == ParseChunk(old(State()), text, scan)
    {
      hide Step;
      buffer := buffer + text;
      var again := true;
      while again
        invariant (if again then Loop(State(), scan) else State()) == ParseChunk(old(State()), text, scan)
        decreases again, SectionRank(currentSection), |buffer|
      {
        StepProgress(State(), scan);
        again := TakeTurn();
      }
    }

    method EmitText(text: string, replace: bool)
      modifies this`generationBuffer, this`events
      ensures State() == if replace then EmitWhole(old(State()), text) else EmitGeneration(old(State()), text)
    {
      if text != "" {
        generationBuffer := if replace then text else generationBuffer + text;
        events := events + [GenerationEvent(text)];
      }
    }

    method SkipPending()
      modifies this
      ensures State() == SkipPendingHeader(old(State()))
    {
      if pendingHeaderSkip {
        var newline := FindNextNewline(buffer);
        if newline >= 0 {
          buffer := buffer[newline + 1..];
          pendingHeaderSkip := false;
        }
      }
    }

    method FlushBuffered()
      modifies this
      ensures State() == FlushContent(old(State()), scan)
    {
      hide StripModelEndTokens, FlushConfidence, EmitGeneration, EmitWhole;
      if buffer == "" {
        return;
      }
      if currentSection == ConfidenceSection && !confidenceDone {
        FlushConfidenceBuffer(buffer);
      } else if currentSection == GenerationSection {
        EmitText(StripModelEndTokens(buffer), false);
      } else if currentSection == FollowupSection {
        followUpBuffer := followUpBuffer + buffer;
      } else if currentSection == NoSection {
        EmitText(StripModelEndTokens(buffer), true);
      }
    }

    /** Emits what is left at the end of the stream. */
    method Finish()
      modifies this
      ensures State() == Flush(old(State()), scan)
    {
      hide SkipPendingHeader, FlushContent;
      SkipPending();
      FlushBuffered();
      buffer := "";
    }
  }
}
