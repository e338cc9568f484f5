/** What the classification parser streams of a response, however it is cut into parts. */
module ClassificationStreaming {
  import opened Strings
  import opened Utf8
  import opened Whitespace
  import opened TextSearch
  import opened ClassificationParser

  /** The response contains the Reasoning header, and no Result header before that. */
  predicate HasReasoning(text: string) {
    && Contains(text, ReasoningHeader())
    && !Contains(text[..Index(text, ReasoningHeader()) + |ReasoningHeader()|], ResultHeader())
  }

  /** What has arrived shows the Result header, but not the Reasoning header. */
  predicate Shadowed(seen: string) {
    !Contains(seen, ReasoningHeader()) && Contains(seen, ResultHeader())
  }

  /** Some part ends where the Result header has arrived and the Reasoning header has not. */
  predicate HidesReasoning(seen: string, parts: seq<string>)
    decreases |parts|
  {
    Shadowed(seen) || (parts != [] && HidesReasoning(seen + parts[0], parts[1..]))
  }

  /** The reasoning of a response: from behind its header to the Result header, or to the end. */
  function ReasoningOf(text: string): string
    requires Contains(text, ReasoningHeader())
  {
    var after := AfterHeader(text);
    var cut := Index(after, ResultHeader());
    if cut >= 0 then after[..cut] else after
  }

  /** The events so far are exactly a prefix of the reasoning: no byte twice, none beyond. */
  ghost predicate StreamedPrefix(p: Parser, reasoning: string) {
    && p.streamed <= |reasoning| && Concat(p.events) == reasoning[..p.streamed]
    && Valid(Concat(p.events)) && (forall i :: 0 <= i < |p.events| ==> Valid(p.events[i]))
  }

  /** All the reasoning has been emitted; what had not been streamed before was trimmed. */
  ghost predicate EmittedAll(events: seq<string>, reasoning: string, n: nat) {
    && n <= |reasoning| && Valid(reasoning[..n])
    && Concat(events) == reasoning[..n] + TrimSpace(reasoning[n..])
    && (Valid(reasoning) ==> forall i :: 0 <= i < |events| ==> Valid(events[i]))
  }

  /** The parser after `seen`, a prefix of the response `text`. */
  ghost predicate Tracks(p: Parser, text: string, seen: string)
    requires Contains(text, ReasoningHeader())
  {
    && p.buffer == seen
    && if p.reasoningDone then
         && p.phase == Classification
         && exists n: nat :: EmittedAll(p.events, ReasoningOf(text), n)
       else
         && StreamedPrefix(p, ReasoningOf(text))
         && (if Contains(seen, ReasoningHeader()) then
               p.phase == Reasoning && !Contains(AfterHeader(seen), ResultHeader())
             else p.phase == Nothing && p.streamed == 0)
  }

  lemma HeaderLengths()
    ensures |ReasoningHeader()| == 12 && |ResultHeader()| == 24 < STREAM_LOOKAHEAD_SIZE
  {
  }

  /** How the Reasoning header shows in a prefix of the response. */
  lemma PrefixShows(text: string, k: nat)
    requires Contains(text, ReasoningHeader()) && k <= |text|
    ensures var seen := text[..k];
            var h := Index(text, ReasoningHeader()) + |ReasoningHeader()|;
            if k < h then !Contains(seen, ReasoningHeader())
            else Contains(seen, ReasoningHeader()) && AfterHeader(seen) == AfterHeader(text)[..k - h]
  {
    HeaderLengths();
    hide FindFrom, ReasoningHeader, ResultHeader;
    var h := Index(text, ReasoningHeader()) + |ReasoningHeader()|;
    IndexInPrefix(text, k, ReasoningHeader());
    if k >= h {
      assert text[..k][h..] == text[h..][..k - h];
    }
  }

  /** With the Reasoning header first, nothing can hide it. */
  lemma NeverShadowed(text: string, k: nat)
    requires HasReasoning(text) && k <= |text|
    ensures !Shadowed(text[..k])
  {
    HeaderLengths();
    PrefixShows(text, k);
    hide FindFrom, ReasoningHeader, ResultHeader;
    var h := Index(text, ReasoningHeader()) + |ReasoningHeader()|;
    if k < h {
      assert text[..h][..k] == text[..k];
      IndexInPrefix(text[..h], k, ResultHeader());
    }
  }

  lemma {:induction false} NothingHidden(text: string, seen: string, parts: seq<string>)
    requires HasReasoning(text) && seen + Concat(parts) <= text
    ensures !HidesReasoning(seen, parts)
    decreases |parts|
  {
    hide HasReasoning, Shadowed;
    assert text[..|seen|] == seen;
    NeverShadowed(text, |seen|);
    if parts != [] {
      ConcatFront(parts);
      assert seen + Concat(parts) == seen + parts[0] + Concat(parts[1..]);
      NothingHidden(text, seen + parts[0], parts[1..]);
    }
  }

  /** Of the text behind the header, what has been seen tells the reasoning apart from what
      follows it. */
  lemma SeenReasoning(after: string, m: nat)
    requires m <= |after|
    ensures var seen := after[..m];
            var cut := Index(after, ResultHeader());
            var reasoning := if cut >= 0 then after[..cut] else after;
            if Contains(seen, ResultHeader()) then seen[..Index(seen, ResultHeader())] == reasoning
            else m < |reasoning| + |ResultHeader()| && forall n :: 0 <= n <= m && n <= |reasoning| ==> seen[..n] == reasoning[..n]
  {
    HeaderLengths();
    hide FindFrom, ReasoningHeader, ResultHeader;
    IndexInPrefix(after, m, ResultHeader());
    var cut := Index(after, ResultHeader());
    if cut >= 0 {
      assert OccursAt(after, ResultHeader(), cut, false);
      if cut + |ResultHeader()| <= m {
        assert after[..m][..cut] == after[..cut];
      }
    }
  }

  lemma TrimmedRestIsValid(reasoning: string, n: nat)
    requires n <= |reasoning| && Valid(reasoning[..n]) && Valid(reasoning)
    ensures Valid(TrimSpace(reasoning[n..]))
  {
    hide TrimSpace, Valid;
    assert reasoning == reasoning[..n] + reasoning[n..];
    ValidAppend(reasoning[..n], reasoning[n..]);
    TrimKeepsValid(reasoning[n..]);
  }

  lemma EmitsRest(p: Parser, reasoning: string)
    requires StreamedPrefix(p, reasoning)
    ensures EmittedAll(EmitRest(p, reasoning).events, reasoning, p.streamed)
  {
    var n := p.streamed;
    if n == |reasoning| {
      assert reasoning[n..] == "" && TrimSpace("") == "";
      assert reasoning[..n] + "" == reasoning[..n];
    }
    hide TrimSpace, Valid, Concat;
    var rest := TrimSpace(reasoning[n..]);
    ConcatOneMore(p.events, rest);
    if Valid(reasoning) {
      TrimmedRestIsValid(reasoning, n);
    }
    if rest == "" {
      assert reasoning[..n] + "" == reasoning[..n];
    }
  }

  lemma StreamsMore(p: Parser, reasoning: string, after: string)
    requires StreamedPrefix(p, reasoning)
    requires |after| < |reasoning| + |ResultHeader()|
    requires forall n :: 0 <= n <= |after| && n <= |reasoning| ==> after[..n] == reasoning[..n]
    ensures StreamedPrefix(StreamNew(p, after), reasoning)
  {
    HeaderLengths();
    hide Valid, ValidPrefixLength, ResultHeader;
    var q := StreamNew(p, after);
    if |after| > STREAM_LOOKAHEAD_SIZE && |after| - STREAM_LOOKAHEAD_SIZE > p.streamed {
      var end := |after| - STREAM_LOOKAHEAD_SIZE;
      var toStream := after[p.streamed..end];
      assert after[..end] == reasoning[..end];
      assert toStream == after[..end][p.streamed..] == reasoning[p.streamed..end];
      var n := ValidPrefixLength(toStream);
      ValidPrefixIsValid(toStream);
      var piece := toStream[..n];
      assert reasoning[..p.streamed] + piece == reasoning[..p.streamed + n];
      ValidAppend(Concat(p.events), piece);
      ConcatOneMore(p.events, piece);
      assert piece == "" ==> q.events == p.events;
    }
  }

  /** A part that arrives while the reasoning goes on, its header complete. */
  lemma ReasoningPart(d: Parser, text: string, k: nat)
    requires Contains(text, ReasoningHeader()) && k <= |text| && d.buffer == text[..k]
    requires d.phase == Reasoning && !d.reasoningDone && StreamedPrefix(d, ReasoningOf(text))
    requires k >= Index(text, ReasoningHeader()) + |ReasoningHeader()|
    ensures Tracks(StreamReasoning(d), text, text[..k])
  {
    hide FindFrom, ReasoningHeader, ResultHeader, Valid, TrimSpace, StreamNew, EmitRest;
    PrefixShows(text, k);
    var h := Index(text, ReasoningHeader()) + |ReasoningHeader()|;
    var after := AfterHeader(d.buffer);
    SeenReasoning(AfterHeader(text), k - h);
    if Contains(after, ResultHeader()) {
      EmitsRest(d, ReasoningOf(text));
      EmitRestKeeps(d, ReasoningOf(text));
      assert EmittedAll(StreamReasoning(d).events, ReasoningOf(text), d.streamed);
    } else {
      StreamsMore(d, ReasoningOf(text), after);
      StreamNewKeeps(d, after);
    }
  }

  /** A part that arrives after the reasoning has been emitted changes nothing. */
  lemma LatePart(b: Parser, text: string)
    requires Contains(text, ReasoningHeader()) && b.buffer <= text
    requires b.reasoningDone && b.phase == Classification
    requires exists n: nat :: EmittedAll(b.events, ReasoningOf(text), n)
    ensures Tracks(StreamReasoning(DetectSections(b)), text, b.buffer)
  {
    hide Index, HasReasoning, AfterHeader, ReasoningOf, Valid, TrimSpace, ReasoningHeader, ResultHeader;
    var n: nat :| EmittedAll(b.events, ReasoningOf(text), n);
    var d := DetectSections(b);
    assert StreamReasoning(d) == d;
    assert EmittedAll(d.events, ReasoningOf(text), n);
  }

  /** A part that arrives before the Reasoning header is complete. */
  lemma EarlyPart(b: Parser, text: string, k: nat)
    requires Contains(text, ReasoningHeader()) && k <= |text| && b.buffer == text[..k] && !Shadowed(text[..k])
    requires !b.reasoningDone && b.phase == Nothing && b.streamed == 0 && StreamedPrefix(b, ReasoningOf(text))
    requires k < Index(text, ReasoningHeader()) + |ReasoningHeader()|
    ensures Tracks(StreamReasoning(DetectSections(b)), text, text[..k])
  {
    PrefixShows(text, k);
    hide Index, HasReasoning, AfterHeader, ReasoningOf, Valid, TrimSpace, ReasoningHeader, ResultHeader;
  }

  lemma PartKeeps(p: Parser, text: string, seen: string, part: string)
    requires Contains(text, ReasoningHeader()) && seen + part <= text && Tracks(p, text, seen) && !Shadowed(seen + part)
    ensures Tracks(ParsePart(p, part), text, seen + part)
  {
    hide Index, HasReasoning, AfterHeader, ReasoningOf, Valid, TrimSpace, ReasoningHeader, ResultHeader,
         StreamReasoning;
    if part == "" {
      assert seen + part == seen;
    } else {
      var now := seen + part;
      var b := p.(buffer := now);
      assert now == text[..|now|] && seen == text[..|seen|];
      if p.reasoningDone {
        LatePart(b, text);
      } else if |now| >= Index(text, ReasoningHeader()) + |ReasoningHeader()| {
        PrefixShows(text, |now|);
        ReasoningPart(b.(phase := Reasoning), text, |now|);
      } else {
        PrefixShows(text, |seen|);
        EarlyPart(b, text, |now|);
      }
    }
  }

  lemma EmitRestKeeps(p: Parser, reasoning: string)
    ensures var q := EmitRest(p, reasoning); q == p.(streamed := q.streamed, events := q.events)
  {
    hide TrimSpace;
  }

  lemma StreamNewKeeps(p: Parser, after: string)
    ensures var q := StreamNew(p, after); q == p.(streamed := q.streamed, events := q.events)
  {
  }

  lemma {:induction false} PartsKeep(p: Parser, text: string, seen: string, parts: seq<string>)
    requires Contains(text, ReasoningHeader()) && seen + Concat(parts) <= text && Tracks(p, text, seen)
    requires !HidesReasoning(seen, parts)
    ensures Tracks(ParseParts(p, parts), text, seen + Concat(parts))
    decreases |parts|
  {
    hide Tracks, Contains, Shadowed, ParsePart;
    if parts == [] {
      assert seen + Concat(parts) == seen;
    } else {
      ConcatFront(parts);
      var now := seen + parts[0];
      assert seen + Concat(parts) == now + Concat(parts[1..]);
      assert now <= text;
      PartKeeps(p, text, seen, parts[0]);
      PartsKeep(ParsePart(p, parts[0]), text, now, parts[1..]);
    }
  }

  /** For every way of cutting a response that has a Reasoning header into parts, whatever of
      it has arrived: as long as the reasoning goes on, the events concatenate to exactly the
      first `streamed` bytes of it, and each is valid UTF-8. */
  lemma StreamsEachByteOnce(text: string, parts: seq<string>)
    requires HasReasoning(text) && Concat(parts) <= text
    ensures var p := ParseParts(NEW_PARSER, parts);
            !p.reasoningDone ==> StreamedPrefix(p, ReasoningOf(text))
  {
    assert "" + Concat(parts) == Concat(parts);
    StartTracks(text);
    NothingHidden(text, "", parts);
    hide Contains, ReasoningOf, StreamedPrefix, EmittedAll, HidesReasoning;
    PartsKeep(NEW_PARSER, text, "", parts);
  }

  lemma StartTracks(text: string)
    requires Contains(text, ReasoningHeader())
    ensures Tracks(NEW_PARSER, text, "")
  {
    HeaderLengths();
    hide ReasoningHeader, ResultHeader;
    assert NEW_PARSER.events == [] && Concat([]) == "";
    assert ReasoningOf(text)[..0] == "";
  }

  lemma FlushEmitsAll(p: Parser, text: string)
    requires Contains(text, ReasoningHeader()) && Tracks(p, text, text)
    ensures exists n: nat :: EmittedAll(Flush(p).events, ReasoningOf(text), n)
  {
    hide FindFrom, ReasoningHeader, ResultHeader, Valid, TrimSpace, EmitRest;
    if !p.reasoningDone {
      assert text[..|text|] == text;
      PrefixShows(text, |text|);
      EmitsRest(p, ReasoningOf(text));
      assert EmittedAll(Flush(p).events, ReasoningOf(text), p.streamed);
    } else {
      var n: nat :| EmittedAll(p.events, ReasoningOf(text), n);
      assert EmittedAll(Flush(p).events, ReasoningOf(text), n);
    }
  }

  /** At the end of the stream the events make up the reasoning modulo white space, and they
      are all valid UTF-8 if it is: when nothing hides the Reasoning header. */
  lemma StreamsUnhidden(text: string, parts: seq<string>)
    requires Contains(text, ReasoningHeader()) && Concat(parts) == text && !HidesReasoning("", parts)
    ensures var events := Flush(ParseParts(NEW_PARSER, parts)).events;
            && Squeeze(Concat(events)) == Squeeze(ReasoningOf(text))
            && (Valid(ReasoningOf(text)) ==> forall i :: 0 <= i < |events| ==> Valid(events[i]))
  {
    assert "" + Concat(parts) == Concat(parts);
    StartTracks(text);
    PartsKeep(NEW_PARSER, text, "", parts);
    var p := ParseParts(NEW_PARSER, parts);
    FlushEmitsAll(p, text);
    hide Tracks, Contains, ReasoningOf, Flush, Squeeze, Valid, TrimSpace, HidesReasoning;
    var n: nat :| EmittedAll(Flush(p).events, ReasoningOf(text), n);
    StreamedModuloSpace(ReasoningOf(text), n);
  }

  /** So it is for every response with the Reasoning header first, however it is cut. */
  lemma StreamsAllReasoning(text: string, parts: seq<string>)
    requires HasReasoning(text) && Concat(parts) == text
    ensures var events := Flush(ParseParts(NEW_PARSER, parts)).events;
            && Squeeze(Concat(events)) == Squeeze(ReasoningOf(text))
            && (Valid(ReasoningOf(text)) ==> forall i :: 0 <= i < |events| ==> Valid(events[i]))
  {
    assert "" + Concat(parts) == Concat(parts);
    NothingHidden(text, "", parts);
    StreamsUnhidden(text, parts);
  }

  // ----- Responses whose Reasoning header is missing or comes late

  /** The parser as long as it has not seen the Reasoning header. */
  function Unreasoned(seen: string): Parser {
    if Contains(seen, ResultHeader()) then Parser(seen, true, Classification, 0, [])
    else Parser(seen, false, Nothing, 0, [])
  }

  lemma ContainsMore(seen: string, part: string, pattern: string)
    requires pattern != "" && Contains(seen, pattern)
    ensures Contains(seen + part, pattern)
  {
    assert (seen + part)[..|seen|] == seen;
    IndexInPrefix(seen + part, |seen|, pattern);
  }

  lemma UnreasonedPart(seen: string, part: string)
    requires !Contains(seen + part, ReasoningHeader())
    ensures ParsePart(Unreasoned(seen), part) == Unreasoned(seen + part)
  {
    HeaderLengths();
    if part == "" {
      assert seen + part == seen;
    }
    if Contains(seen, ResultHeader()) {
      ContainsMore(seen, part, ResultHeader());
    }
    hide Contains, ReasoningHeader, ResultHeader;
  }

  lemma {:induction false} NoReasoningYet(seen: string, parts: seq<string>)
    requires !Contains(seen + Concat(parts), ReasoningHeader())
    ensures ParseParts(Unreasoned(seen), parts) == Unreasoned(seen + Concat(parts))
    decreases |parts|
  {
    HeaderLengths();
    hide Contains, ReasoningHeader, ResultHeader, ParsePart, Unreasoned;
    if parts == [] {
      assert seen + Concat(parts) == seen;
    } else {
      var now := seen + parts[0];
      ConcatFront(parts);
      assert seen + Concat(parts) == now + Concat(parts[1..]);
      if Contains(now, ReasoningHeader()) {
        ContainsMore(now, Concat(parts[1..]), ReasoningHeader());
        assert false;
      }
      UnreasonedPart(seen, parts[0]);
      NoReasoningYet(now, parts[1..]);
    }
  }

  /** Once the reasoning is over, nothing more is emitted. */
  lemma {:induction false} DoneIsSilent(p: Parser, parts: seq<string>)
    requires p.reasoningDone && p.phase == Classification
    ensures Flush(ParseParts(p, parts)).events == p.events
    decreases |parts|
  {
    if parts != [] {
      assert ParsePart(p, parts[0]).events == p.events && ParsePart(p, parts[0]).reasoningDone
          && ParsePart(p, parts[0]).phase == Classification by {
        hide Contains, ReasoningHeader, ResultHeader;
      }
      hide ParsePart, Flush;
      DoneIsSilent(ParsePart(p, parts[0]), parts[1..]);
    }
  }

  lemma {:induction false} HiddenIsSilent(seen: string, parts: seq<string>)
    requires HidesReasoning(seen, parts) && !Contains(seen, ReasoningHeader())
    ensures Flush(ParseParts(Unreasoned(seen), parts)).events == []
    decreases |parts|
  {
    if Shadowed(seen) {
      DoneIsSilent(Unreasoned(seen), parts);
    } else {
      var now := seen + parts[0];
      if Contains(now, ReasoningHeader()) {
        StaysVisible(now, parts[1..]);
        assert false;
      }
      UnreasonedPart(seen, parts[0]);
      hide Contains, ParsePart, Flush, Unreasoned;
      HiddenIsSilent(now, parts[1..]);
    }
  }

  lemma {:induction false} StaysVisible(seen: string, parts: seq<string>)
    requires Contains(seen, ReasoningHeader())
    ensures !HidesReasoning(seen, parts)
    decreases |parts|
  {
    if parts != [] {
      HeaderLengths();
      ContainsMore(seen, parts[0], ReasoningHeader());
      hide Contains;
      StaysVisible(seen + parts[0], parts[1..]);
    }
  }

  /** Of any response at all, however it is cut: all of the reasoning is streamed, or nothing.
      Nothing if there is none, or if some part ends where the Result header has arrived and the
      Reasoning header has not; so a late Reasoning header depends on the cut. */
  lemma StreamsAllOrNothing(text: string, parts: seq<string>)
    requires Concat(parts) == text
    ensures var events := Flush(ParseParts(NEW_PARSER, parts)).events;
            if Contains(text, ReasoningHeader()) && !HidesReasoning("", parts) then
              && Squeeze(Concat(events)) == Squeeze(ReasoningOf(text))
              && (Valid(ReasoningOf(text)) ==> forall i :: 0 <= i < |events| ==> Valid(events[i]))
            else events == []
  {
    assert "" + Concat(parts) == text;
    NothingSeen();
    if !Contains(text, ReasoningHeader()) {
      NoReasoningYet("", parts);
    } else if HidesReasoning("", parts) {
      HiddenIsSilent("", parts);
    } else {
      StreamsUnhidden(text, parts);
    }
  }

  lemma NothingSeen()
    ensures !Contains("", ReasoningHeader()) && Unreasoned("") == NEW_PARSER
  {
    HeaderLengths();
    hide ReasoningHeader, ResultHeader;
  }

  /** Of a response with its Reasoning header behind the Result header, one part streams the
      reasoning; the same response in two parts, cut between the headers, streams nothing. */
  lemma LateReasoningDependsOnCut(first: string, second: string)
    requires Shadowed(first) && Contains(first + second, ReasoningHeader())
    ensures Squeeze(Concat(Flush(ParseParts(NEW_PARSER, [first + second])).events)) == Squeeze(ReasoningOf(first + second))
    ensures Flush(ParseParts(NEW_PARSER, [first, second])).events == []
  {
    InOnePart(first + second);
    InTwoParts(first, second);
    hide *;
    StreamsAllOrNothing(first + second, [first + second]);
    StreamsAllOrNothing(first + second, [first, second]);
  }

  lemma InOnePart(text: string)
    requires Contains(text, ReasoningHeader())
    ensures Concat([text]) == text && !HidesReasoning("", [text])
  {
    NothingSeen();
    hide Contains, ReasoningHeader, ResultHeader;
    ConcatOne(text);
    assert "" + text == text && [text][1..] == [];
    hide Unreasoned;
    NothingIsNotShadowed();
    assert !HidesReasoning(text, []);
  }

  lemma NothingIsNotShadowed()
    ensures !Shadowed("")
  {
    HeaderLengths();
    hide ReasoningHeader, ResultHeader;
  }

  lemma InTwoParts(first: string, second: string)
    requires Shadowed(first)
    ensures Concat([first, second]) == first + second && HidesReasoning("", [first, second])
  {
    hide Shadowed;
    assert [first, second] == [first] + [second];
    ConcatOne(first);
    ConcatOneMore([first], second);
    assert "" + first == first;
    assert HidesReasoning(first, [first, second][1..]);
  }
}
