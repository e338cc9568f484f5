/** The streaming parser of a classification response: it streams the reasoning between the
    headers "## Reasoning" and "## Classification Result" while it arrives. */
module ClassificationParser {
  import opened Utf8
  import opened Whitespace
  import opened TextSearch

  function ReasoningHeader(): string { "## Reasoning" }

  function ResultHeader(): string { "## Classification Result" }

  datatype Phase = Nothing | Reasoning | Classification

  datatype Parser = Parser(buffer: string, reasoningDone: bool, phase: Phase, streamed: nat, events: seq<string>)

  const NEW_PARSER := Parser("", false, Nothing, 0, [])

  function Contains(text: string, pattern: string): bool {
    Index(text, pattern) >= 0
  }

  function DetectSections(p: Parser): Parser {
    if Contains(p.buffer, ReasoningHeader()) && !p.reasoningDone then p.(phase := Reasoning)
    else if Contains(p.buffer, ResultHeader()) then p.(phase := Classification, reasoningDone := true)
    else p
  }

  /** The text behind the Reasoning header. */
  function AfterHeader(buffer: string): string
    requires Contains(buffer, ReasoningHeader())
  {
    buffer[Index(buffer, ReasoningHeader()) + |ReasoningHeader()|..]
  }

  function Emit(p: Parser, text: string): Parser {
    if text == "" then p else p.(events := p.events + [text])
  }

  /** Emits what has not been streamed of the complete reasoning, trimmed. */
  function EmitRest(p: Parser, reasoning: string): Parser {
    if |reasoning| > p.streamed then
      Emit(p, TrimSpace(reasoning[p.streamed..])).(streamed := |reasoning|)
    else p
  }

  /** Streams what lies before the lookahead, up to the end of a character. */
  function StreamNew(p: Parser, after: string): Parser {
    if |after| > STREAM_LOOKAHEAD_SIZE && |after| - STREAM_LOOKAHEAD_SIZE > p.streamed then
      var toStream := after[p.streamed..|after| - STREAM_LOOKAHEAD_SIZE];
      var n := ValidPrefixLength(toStream);
      Emit(p, toStream[..n]).(streamed := p.streamed + n)
    else p
  }

  function StreamReasoning(p: Parser): Parser {
    if p.phase == Reasoning && !p.reasoningDone && Contains(p.buffer, ReasoningHeader()) then
      var after := AfterHeader(p.buffer);
      var cut := Index(after, ResultHeader());
      if cut >= 0 then EmitRest(p, after[..cut]).(reasoningDone := true, phase := Classification)
      else StreamNew(p, after)
    else p
  }

  function ParsePart(p: Parser, text: string): Parser {
    if text == "" then p else StreamReasoning(DetectSections(p.(buffer := p.buffer + text)))
  }

  function ParseParts(p: Parser, parts: seq<string>): Parser
    decreases |parts|
  {
    if parts == [] then p else ParseParts(ParsePart(p, parts[0]), parts[1..])
  }

  function Flush(p: Parser): Parser {
    if !p.reasoningDone && p.phase == Reasoning then
      (if Contains(p.buffer, ReasoningHeader()) then
         var after := AfterHeader(p.buffer);
         var cut := Index(after, ResultHeader());
         EmitRest(p, if cut >= 0 then after[..cut] else after).(streamed := p.streamed)
       else p).(reasoningDone := true)
    else p
  }

  class ClassificationStreamingParser {
    var buffer: string
    var reasoningDone: bool
    var phase: Phase
    var streamedReasoningLen: nat
    var events: seq<string>

    constructor ()
      ensures State() == NEW_PARSER
    {
      buffer, reasoningDone, phase, streamedReasoningLen, events := "", false, Nothing, 0, [];
    }

    ghost function State(): Parser
      reads this
    {
      Parser(buffer, reasoningDone, phase, streamedReasoningLen, events)
    }

    method Detect()
      modifies this
      ensures State() == DetectSections(old(State()))
    {
      hide FindFrom;
      if Contains(buffer, ReasoningHeader()) && !reasoningDone {
        phase := Reasoning;
      } else if Contains(buffer, ResultHeader()) {
        phase := Classification;
        if !reasoningDone {
          reasoningDone := true;
        }
      }
    }

    method EmitRemaining(fullReasoning: string)
      modifies this
      ensures State() == EmitRest(old(State()), fullReasoning)
    {
      hide TrimSpace;
      if |fullReasoning| > streamedReasoningLen {
        var trimmedNew := TrimSpace(fullReasoning[streamedReasoningLen..]);
        if |trimmedNew| > 0 {
          events := events + [trimmedNew];
        }
        streamedReasoningLen := |fullReasoning|;
      }
    }

    method StreamIncrement(afterHeader: string)
      modifies this
      ensures State() == StreamNew(old(State()), afterHeader)
    {
      hide Valid, ValidPrefixLength;
      if |afterHeader| > STREAM_LOOKAHEAD_SIZE {
        var availableToStream := |afterHeader| - STREAM_LOOKAHEAD_SIZE;
        if availableToStream > streamedReasoningLen {
          var toStream := afterHeader[streamedReasoningLen..availableToStream];
          var validPrefix, _ := SplitValidUTF8(toStream);
          if |validPrefix| > 0 {
            events := events + [validPrefix];
            streamedReasoningLen := streamedReasoningLen + |validPrefix|;
          }
        }
      }
    }

    method Stream()
      modifies this
      ensures State() == StreamReasoning(old(State()))
    {
      hide FindFrom, EmitRest, StreamNew, ReasoningHeader, ResultHeader;
      if phase == Reasoning && !reasoningDone {
        var headerIdx := Index(buffer, ReasoningHeader());
        if headerIdx != -1 {
          var afterHeader := buffer[headerIdx + |ReasoningHeader()|..];
          var cut := Index(afterHeader, ResultHeader());
          if cut >= 0 {
            EmitRemaining(afterHeader[..cut]);
            reasoningDone := true;
            phase := Classification;
          } else {
            StreamIncrement(afterHeader);
          }
        }
      }
    }

    /** The loop over the parts of one chunk. */
    method ParseChunk(parts: seq<string>)
      modifies this
      ensures State() == ParseParts(old(State()), parts)
    {
      hide DetectSections, StreamReasoning;
      for i := 0 to |parts|
        invariant ParseParts(State(), parts[i..]) == ParseParts(old(State()), parts)
      {
        assert parts[i..][1..] == parts[i + 1..];
        if parts[i] == "" {
          continue;
        }
        buffer := buffer + parts[i];
        Detect();
        Stream();
      }
    }

    method Finish()
      modifies this
      ensures State() == Flush(old(State()))
    {
      hide FindFrom, TrimSpace, ReasoningHeader, ResultHeader;
      if !reasoningDone && phase == Reasoning {
        var headerIdx := Index(buffer, ReasoningHeader());
        if headerIdx != -1 {
          var afterHeader := buffer[headerIdx + |ReasoningHeader()|..];
          var cut := Index(afterHeader, ResultHeader());
          var fullReasoning := if cut >= 0 then afterHeader[..cut] else afterHeader;
          if |fullReasoning| > streamedReasoningLen {
            var trimmedNew := TrimSpace(fullReasoning[streamedReasoningLen..]);
            if |trimmedNew| > 0 {
              events := events + [trimmedNew];
            }
          }
        }
        reasoningDone := true;
      }
    }
  }
}
