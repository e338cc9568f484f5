/** The streaming parser agrees with the batch parser on every response made of a Confidence,
    a Generation and a Follow-up section, however the response is cut into chunks. */
module SectionStreaming {
  import opened Wrappers
  import opened Strings
  import opened Utf8
  import opened Whitespace
  import opened TextSearch
  import opened Sections
  import opened SectionParser

  /** The bodies of the three sections. */
  datatype Response = Response(confidence: string, generation: string, followup: string)

  predicate EndsLine(s: string) {
    s == "" || s[|s| - 1] == '\n'
  }

  /** Each body ends in front of the first line that the next header starts. */
  predicate ThreeSections(r: Response) {
    && EndsLine(r.confidence) && FindHeader(r.confidence, GenerationHeader()) == -1
    && EndsLine(r.generation) && FindHeader(r.generation, FollowupHeader()) == -1
  }

  /** Inside a line of the generation, the text of the Follow-up header stands where a cut can
      bring it to the front of the parser's buffer: far enough from the front for what precedes
      it to be streamed, far enough from the end for that to happen before the header itself is
      complete, and behind valid text, since the parser streams nothing else. */
  predicate ExposedAt(generation: string, k: nat) {
    && STREAM_MIN_BUFFER_SIZE - STREAM_LOOKAHEAD_SIZE < k < |generation| - (STREAM_LOOKAHEAD_SIZE - |FollowupHeader()|)
    && OccursAt(generation, FollowupHeader(), k, false)
    && Valid(generation[..k])
  }

  ghost predicate Exposed(generation: string) {
    exists k: nat :: ExposedAt(generation, k)
  }

  /** A line feed follows the first occurrence of the header's text, so that a cut in front of
      it makes a header line out of the rest of its line. */
  predicate LosesLine(followup: string) {
    var k := Index(followup, FollowupHeader());
    k >= 0 && '\n' in followup[k..]
  }

  /** No way of cutting makes the streaming parser see a header that is none. */
  ghost predicate Streamable(r: Response) {
    && ThreeSections(r)
    && Index(r.confidence, FollowupHeader()) == -1
    && !Exposed(r.generation)
    && FindHeader(r.followup, FollowupHeader()) == -1 && !LosesLine(r.followup)
  }

  function TailFromFollowup(r: Response): string {
    FollowupHeader() + "\n" + r.followup
  }

  function TailFromGeneration(r: Response): string {
    GenerationHeader() + "\n" + r.generation + TailFromFollowup(r)
  }

  function Text(r: Response): string {
    ConfidenceHeader() + "\n" + r.confidence + TailFromGeneration(r)
  }

  /** Everything before the confidence body, the generation body and the follow-up body. */
  function BeforeConfidence(): string {
    ConfidenceHeader() + "\n"
  }

  function BeforeGeneration(r: Response): string {
    BeforeConfidence() + r.confidence + GenerationHeader() + "\n"
  }

  function BeforeFollowup(r: Response): string {
    BeforeGeneration(r) + r.generation + FollowupHeader() + "\n"
  }

  // ----- Events

  function GenerationText(events: seq<Event>): string {
    if events == [] then ""
    else
      var last := events[|events| - 1];
      GenerationText(events[..|events| - 1]) + if last.GenerationEvent? then last.text else ""
  }

  function ConfidenceEvents(events: seq<Event>): seq<Scores> {
    if events == [] then []
    else
      var last := events[|events| - 1];
      ConfidenceEvents(events[..|events| - 1]) + if last.ConfidenceEvent? then [last.scores] else []
  }

  ghost predicate GenerationEventsValid(events: seq<Event>) {
    forall i :: 0 <= i < |events| && events[i].GenerationEvent? ==> Valid(events[i].text)
  }

  lemma OneMoreEvent(events: seq<Event>, e: Event)
    ensures GenerationText(events + [e]) == GenerationText(events) + if e.GenerationEvent? then e.text else ""
    ensures ConfidenceEvents(events + [e]) == ConfidenceEvents(events) + if e.ConfidenceEvent? then [e.scores] else []
    ensures GenerationEventsValid(events + [e]) <==> GenerationEventsValid(events) && (e.GenerationEvent? ==> Valid(e.text))
  {
    var all := events + [e];
    assert all[..|all| - 1] == events;
    assert all[|all| - 1] == e;
    forall i | 0 <= i < |events|
      ensures all[i] == events[i]
    {
    }
  }

  // ----- Where headers occur

  predicate IsHeader(h: string) {
    && |h| >= 4 && h[0] == '#' && h[1] == '#' && h[2] == ' '
    && (forall i :: 2 <= i < |h| ==> h[i] != '#')
    && '\n' !in h
  }

  /** Seen from position `a` on, the pattern is no header in the body: it starts no line of it,
      nor the line that a cut at `a` makes. */
  predicate Unseen(body: string, pattern: string, a: int) {
    FindHeader(body, pattern) == -1 && !OccursAt(body, pattern, a, false)
  }

  lemma NotAtLineStart(body: string, pattern: string, p: nat)
    requires FindHeader(body, pattern) == -1 && p <= |body| && (p == 0 || body[p - 1] == '\n')
    ensures !OccursAt(body, pattern, p, false)
  {
    hide FindFrom;
    assert !OccursAt(body, pattern, p, true);
  }

  lemma UnseenFromStart(body: string, pattern: string)
    requires FindHeader(body, pattern) == -1
    ensures Unseen(body, pattern, 0)
  {
    NotAtLineStart(body, pattern, 0);
  }

  lemma UnseenAnywhere(body: string, pattern: string, a: int)
    requires Index(body, pattern) == -1
    ensures Unseen(body, pattern, a)
  {
    hide FindFrom;
    assert FindHeader(body, pattern) >= 0 ==> OccursAt(body, pattern, FindHeader(body, pattern), false);
    assert 0 <= a < |body| + 1 || !OccursAt(body, pattern, a, false);
  }

  lemma NoLineFeedInside(u: string, pattern: string, p: int, j: nat)
    requires OccursAt(u, pattern, p, false) && '\n' !in pattern && j < |pattern|
    ensures u[p + j] != '\n'
  {
    assert u[p + j] == u[p..p + |pattern|][j];
  }

  /** An occurrence of a text without line feeds does not reach over the last line feed of a
      body. */
  lemma OccursOnOneSide(body: string, behind: string, pattern: string, p: int)
    requires body != "" && body[|body| - 1] == '\n' && '\n' !in pattern
    requires OccursAt(body + behind, pattern, p, false) && p < |body|
    ensures OccursAt(body, pattern, p, false)
  {
    var u := body + behind;
    assert u[|body| - 1] == '\n';
    if |body| - 1 - p < |pattern| {
      NoLineFeedInside(u, pattern, p, |body| - 1 - p);
      assert false;
    }
    assert u[p..p + |pattern|] == body[p..p + |pattern|];
  }

  /** In a body followed by a header, seen from `a` on, a header can only occur where that
      header starts. */
  lemma HeaderOnlyAfterBody(body: string, header: string, pattern: string, a: int, p: int)
    requires EndsLine(body) && IsHeader(header) && IsHeader(pattern) && Unseen(body, pattern, a)
    requires OccursAt(body + header, pattern, p, false)
    requires p == a || p == 0 || (body + header)[p - 1] == '\n'
    ensures p == |body| && pattern <= header
  {
    hide FindFrom;
    var u := body + header;
    if p < |body| {
      OccursOnOneSide(body, header, pattern, p);
      assert p > 0 ==> u[p - 1] == body[p - 1];
      if p != a {
        NotAtLineStart(body, pattern, p);
      }
      assert false;
    }
    var o := u[p..p + |pattern|];
    assert o == pattern && o[0] == u[p] && o[1] == u[p + 1];
    assert u[p] == header[p - |body|] && u[p + 1] == header[p + 1 - |body|];
    assert o == header[p - |body|..p - |body| + |pattern|];
  }

  lemma OccursInWindow(u: string, a: nat, b: nat, pattern: string, k: int)
    requires a <= b <= |u| && OccursAt(u[a..b], pattern, k, false)
    ensures OccursAt(u, pattern, a + k, false)
  {
    var w := u[a..b];
    var o := w[k..k + |pattern|];
    forall j | 0 <= j < |pattern|
      ensures u[a + k..a + k + |pattern|][j] == o[j]
    {
      assert w[k + j] == u[a + k + j];
    }
    assert o == u[a + k..a + k + |pattern|];
  }

  /** The same, seen through a window of the text that ends before the header is complete. */
  lemma NoHeaderBeforeComplete(body: string, header: string, pattern: string, a: nat, b: nat)
    requires EndsLine(body) && IsHeader(header) && IsHeader(pattern) && Unseen(body, pattern, a)
    requires a <= b <= |body| + |header|
    requires pattern == header ==> b < |body| + |header|
    requires pattern != header ==> !(pattern <= header)
    ensures FindHeader((body + header)[a..b], pattern) == -1
  {
    hide Unseen;
    var u := body + header;
    var w := u[a..b];
    var k := FindHeader(w, pattern);
    if k >= 0 {
      hide FindFrom;
      OccursInWindow(u, a, b, pattern, k);
      assert k > 0 ==> w[k - 1] == u[a + k - 1];
      HeaderOnlyAfterBody(body, header, pattern, a, a + k);
      assert false;
    }
  }

  lemma OccursAfterBody(acc: string, buffer: string, body: string, header: string, rest: string)
    requires EndsLine(body) && |acc| <= |body| && acc + buffer == body + header + rest
    ensures OccursAt(buffer, header, |body| - |acc|, true)
  {
    var k := |body| - |acc|;
    CutInBody(acc, buffer, body, header + rest);
    assert buffer[k..k + |header|] == header;
    assert k > 0 ==> buffer[k - 1] == buffer[..k][k - 1] == body[|acc|..][k - 1];
  }

  lemma OccursNotBefore(acc: string, buffer: string, body: string, header: string, rest: string, i: nat)
    requires EndsLine(body) && IsHeader(header) && |acc| + i < |body| && Unseen(body, header, |acc|)
    requires acc + buffer == body + header + rest
    ensures !OccursAt(buffer, header, i, true)
  {
    if OccursAt(buffer, header, i, true) {
      EarlyOccurrence(acc, buffer, body, header, rest, i);
      hide *;
      HeaderOnlyAfterBody(body, header, header, |acc|, |acc| + i);
      assert false;
    }
  }

  /** A complete header after its body is the first one found in a window that starts in the
      body. */
  lemma HeaderFound(acc: string, buffer: string, body: string, header: string, rest: string)
    requires EndsLine(body) && IsHeader(header) && |acc| <= |body| && Unseen(body, header, |acc|)
    requires acc + buffer == body + header + rest
    ensures FindHeader(buffer, header) == |body| - |acc|
  {
    hide Unseen, IsHeader, OccursAt, FindFrom, EndsLine;
    OccursAfterBody(acc, buffer, body, header, rest);
    forall i | 0 <= i < |body| - |acc|
      ensures !OccursAt(buffer, header, i, true)
    {
      OccursNotBefore(acc, buffer, body, header, rest, i);
    }
    FirstOccurrence(buffer, header, true, |body| - |acc|);
  }

  lemma EarlyOccurrence(acc: string, buffer: string, body: string, header: string, rest: string, i: nat)
    requires acc + buffer == body + header + rest && |acc| + i < |body|
    requires OccursAt(buffer, header, i, true)
    ensures OccursAt(body + header, header, |acc| + i, false)
    ensures i > 0 ==> (body + header)[|acc| + i - 1] == '\n'
  {
    var u := acc + buffer;
    var p := |acc| + i;
    assert buffer[i..i + |header|] == u[p..p + |header|];
    assert u[p..p + |header|] == (body + header)[p..p + |header|];
    assert i > 0 ==> buffer[i - 1] == u[p - 1] == (body + header)[p - 1];
  }

  lemma ConfidenceHeaderIsHeader()
    ensures IsHeader(ConfidenceHeader()) && |ConfidenceHeader()| == 13 && '\n' !in ConfidenceHeader()
  {
  }

  lemma GenerationHeaderIsHeader()
    ensures IsHeader(GenerationHeader()) && |GenerationHeader()| == 13 && '\n' !in GenerationHeader()
  {
  }

  lemma FollowupHeaderIsHeader()
    ensures IsHeader(FollowupHeader()) && |FollowupHeader()| == 22 && '\n' !in FollowupHeader()
    ensures Valid(FollowupHeader())
  {
    hide Valid;
    AsciiIsValid(FollowupHeader());
  }

  lemma HeadersAreHeaders()
    ensures IsHeader(ConfidenceHeader()) && IsHeader(GenerationHeader()) && IsHeader(FollowupHeader())
    ensures |ConfidenceHeader()| == 13 && |GenerationHeader()| == 13 && |FollowupHeader()| == 22
    ensures '\n' !in ConfidenceHeader() && '\n' !in GenerationHeader() && '\n' !in FollowupHeader()
    ensures !(FollowupHeader() <= GenerationHeader())
    ensures Valid(FollowupHeader())
  {
    hide Valid;
    ConfidenceHeaderIsHeader();
    GenerationHeaderIsHeader();
    FollowupHeaderIsHeader();
  }

  lemma {:induction false} AsciiIsValid(s: string)
    requires forall i :: 0 <= i < |s| ==> s[i] as int < 0x80
    ensures Valid(s)
    decreases |s|
  {
    if s != "" {
      AsciiIsValid(s[1..]);
    }
  }

  /** A complete header line at the front of a buffer is skipped; an incomplete one is not. */
  lemma SkipsHeaderLine(header: string, rest: string)
    requires '\n' !in header
    ensures SkipHeaderLine(header + "\n" + rest) == Some(rest)
    ensures SkipHeaderLine(header) == None
  {
    var w := header + "\n" + rest;
    forall i: int
      ensures OccursAt(w, "\n", i, false) <==> 0 <= i < |w| && w[i] == '\n'
      ensures OccursAt(header, "\n", i, false) <==> 0 <= i < |header| && header[i] == '\n'
    {
      NewlineOccurs(w, i);
      NewlineOccurs(header, i);
    }
    forall i | 0 <= i < |header|
      ensures w[i] != '\n'
    {
      assert w[i] == header[i] && header[i] in header;
    }
    FirstOccurrence(w, "\n", false, |header|);
    assert w[|header| + 1..] == rest;
  }

  // ----- The invariant

  /** The confidence body has been parsed, possibly with the beginning of the next header
      behind it, and emitted if there was anything to parse. */
  ghost predicate ConfidenceEmitted(p: Parser, r: Response, scan: string -> Option<real>) {
    && p.confidenceDone
    && r.confidence <= p.confidenceBuffer < r.confidence + GenerationHeader()
    && ConfidenceEvents(p.events) == if p.confidenceBuffer == "" then [] else [ConfidenceOf(p.confidenceBuffer, scan)]
  }

  /** What has been streamed of the generation is a well-formed part of it, and the text of the
      Follow-up header does not follow. */
  ghost predicate GenerationStreamed(p: Parser, r: Response) {
    && GenerationText(p.events) == p.generationBuffer
    && Valid(p.generationBuffer) && GenerationEventsValid(p.events)
    && p.generationBuffer <= r.generation
    && !OccursAt(r.generation, FollowupHeader(), |p.generationBuffer|, false)
  }

  /** All of the generation has been streamed; the last piece was trimmed. */
  ghost predicate GenerationComplete(p: Parser, r: Response, n: nat) {
    && n <= |r.generation| && Valid(r.generation[..n])
    && p.generationBuffer == r.generation[..n] + TrimSpace(r.generation[n..])
    && GenerationText(p.events) == p.generationBuffer
    && (Valid(r.generation) ==> GenerationEventsValid(p.events))
  }

  /** A cut in the last line of the follow-up body has made the rest of it a header line, which
      cannot be completed. */
  ghost predicate EndsInLastLine(p: Parser, r: Response, seen: string) {
    && FollowupHeader() <= p.buffer
    && |p.followUpBuffer| <= |r.followup| && '\n' !in r.followup[|p.followUpBuffer|..]
    && seen == BeforeFollowup(r) + p.followUpBuffer + p.buffer
  }

  /** The parser after `seen` has been put into its buffer, at any turn of its loop. */
  ghost predicate Tracks(p: Parser, r: Response, seen: string, scan: string -> Option<real>) {
    && p.withConfidence && p.withFollowup
    && match p.section
       case NoSection =>
         && p == NewParser(true, true).(buffer := seen)
       case ConfidenceSection =>
         && p.events == [] && p.generationBuffer == "" && p.followUpBuffer == "" && !p.confidenceDone
         && if p.pendingHeaderSkip then
              p.confidenceBuffer == "" && p.buffer == seen && ConfidenceHeader() <= seen
            else
              seen == BeforeConfidence() + p.confidenceBuffer + p.buffer
              && |p.confidenceBuffer| < |r.confidence| + |GenerationHeader()|
       case GenerationSection =>
         && p.followUpBuffer == "" && ConfidenceEmitted(p, r, scan) && GenerationStreamed(p, r)
         && if p.pendingHeaderSkip then
              p.generationBuffer == "" && GenerationHeader() <= p.buffer
              && seen == BeforeConfidence() + r.confidence + p.buffer
            else
              seen == BeforeGeneration(r) + p.generationBuffer + p.buffer
       case FollowupSection =>
         && ConfidenceEmitted(p, r, scan) && (exists n: nat :: GenerationComplete(p, r, n))
         && if p.pendingHeaderSkip then
              || (p.followUpBuffer == "" && FollowupHeader() <= p.buffer && seen == BeforeGeneration(r) + r.generation + p.buffer)
              || EndsInLastLine(p, r, seen)
            else
              seen == BeforeFollowup(r) + p.followUpBuffer + p.buffer
       case _ => false
  }

  /** What holds in addition when the loop has stopped to wait for more text. */
  ghost predicate Settled(p: Parser, r: Response, seen: string) {
    if p.pendingHeaderSkip then SkipHeaderLine(p.buffer) == None
    else
      match p.section
      case NoSection => |seen| < |ConfidenceHeader()|
      case ConfidenceSection => p.buffer == ""
      case GenerationSection =>
        && |p.generationBuffer| + |p.buffer| < |r.generation| + |FollowupHeader()|
        && (Valid(r.generation) ==> |p.buffer| <= STREAM_MIN_BUFFER_SIZE)
      case FollowupSection => p.buffer == ""
      case _ => true
  }

  ghost predicate TurnKeeps(t: Turn, r: Response, seen: string, scan: string -> Option<real>) {
    match t
    case Again(q) => Tracks(q, r, seen, scan)
    case Wait(q) => Tracks(q, r, seen, scan) && Settled(q, r, seen)
  }

  lemma StepNoSectionWaits(p: Parser, r: Response, seen: string, scan: string -> Option<real>)
    requires p == NewParser(true, true).(buffer := seen) && |seen| < |ConfidenceHeader()|
    ensures TurnKeeps(Step(p, scan), r, seen, scan)
  {
    HeadersAreHeaders();
    hide ConfidenceHeader, GenerationHeader, FollowupHeader, IsHeader, OccursAt, Valid, GenerationText,
         ConfidenceEvents, TrimSpace, StreamWithLookahead;
    assert FindHeader(seen, ConfidenceHeader()) == -1;
    assert FindHeader(seen, GenerationHeader()) == -1;
    assert FindHeader(seen, FollowupHeader()) == -1;
  }

  lemma ConfidenceEntered(t: Parser, r: Response, rest: string, scan: string -> Option<real>)
    requires t == NewParser(true, true).(section := ConfidenceSection, buffer := ConfidenceHeader() + rest)
    requires rest == "" || rest[0] == '\n'
    ensures TurnKeeps(SkipHeader(t), r, ConfidenceHeader() + rest, scan)
  {
    HeadersAreHeaders();
    hide ConfidenceHeader, GenerationHeader, FollowupHeader, IsHeader, OccursAt, FindFrom, Valid,
         GenerationText, ConfidenceEvents;
    HeaderLine(ConfidenceHeader(), rest);
    if rest != "" {
      assert ConfidenceHeader() + rest == BeforeConfidence() + "" + rest[1..];
    }
  }

  lemma HeaderAtFront(header: string, rest: string)
    ensures FindHeader(header + rest, header) == 0
  {
    assert (header + rest)[0..|header|] == header;
    FirstOccurrence(header + rest, header, true, 0);
  }

  lemma StepNoSection(p: Parser, r: Response, seen: string, scan: string -> Option<real>)
    requires Streamable(r) && seen <= Text(r)
    requires p.section == NoSection && Tracks(p, r, seen, scan)
    ensures TurnKeeps(Step(p, scan), r, seen, scan)
  {
    if |seen| < |ConfidenceHeader()| {
      hide Step, Text;
      StepNoSectionWaits(p, r, seen, scan);
    } else {
      var tail := r.confidence + TailFromGeneration(r);
      TextFromConfidence(r);
      hide Step, Text, ConfidenceHeader, TailFromGeneration, SkipHeader, FindFrom, FindHeader, OccursAt;
      assert "" + ConfidenceHeader() == ConfidenceHeader();
      var rest := HeaderReached(seen, "", ConfidenceHeader(), tail);
      HeaderAtFront(ConfidenceHeader(), rest);
      StepEntersConfidence(p, scan);
      ConfidenceEntered(p.(section := ConfidenceSection), r, rest, scan);
    }
  }

  lemma TextFromConfidence(r: Response)
    ensures Text(r) == "" + ConfidenceHeader() + ("\n" + (r.confidence + TailFromGeneration(r)))
  {
    hide ConfidenceHeader, TailFromGeneration;
  }

  /** A header line, complete or not, at the front of a buffer that is a part of the text. */
  lemma HeaderLine(header: string, rest: string)
    requires '\n' !in header && (rest == "" || rest[0] == '\n')
    ensures SkipHeaderLine(header + rest) == if rest == "" then None else Some(rest[1..])
  {
    hide ConfidenceHeader, GenerationHeader, FollowupHeader, IsHeader, OccursAt, FindFrom;
    if rest == "" {
      assert header + rest == header;
      SkipsHeaderLine(header, "");
    } else {
      assert header + rest == header + "\n" + rest[1..];
      SkipsHeaderLine(header, rest[1..]);
    }
  }

  /** The part of a text after a known beginning, seen through a prefix of the text. */
  lemma RestOfPrefix(seen: string, start: string, tail: string)
    requires seen <= start + tail && |start| <= |seen|
    ensures seen == start + seen[|start|..] && seen[|start|..] <= tail
  {
    var n := |start|;
    assert (start + tail)[..n] == start;
    assert seen[..n] == (start + tail)[..|seen|][..n] == start;
    assert seen[n..] == (start + tail)[n..][..|seen| - n];
  }

  lemma StepAccumulates(p: Parser, scan: string -> Option<real>)
    requires !p.pendingHeaderSkip && p.section != NoSection
    requires LocateGeneration(p) == (p, -1) && FindHeader(p.buffer, FollowupHeader()) == -1
    ensures Step(p, scan) == Wait(Accumulate(p))
  {
    hide LocateGeneration, FindFrom, Accumulate, ConfidenceHeader, GenerationHeader, FollowupHeader;
  }

  lemma StepEntersConfidence(p: Parser, scan: string -> Option<real>)
    requires !p.pendingHeaderSkip && p.section == NoSection && p.withConfidence && !p.confidenceDone
    requires FindHeader(p.buffer, ConfidenceHeader()) == 0
    ensures Step(p, scan) == SkipHeader(p.(section := ConfidenceSection))
  {
    hide FindFrom, LocateGeneration, Accumulate, SkipHeader, ConfidenceHeader, GenerationHeader, FollowupHeader;
    assert p.buffer[0..] == p.buffer;
  }

  lemma StepEntersGeneration(p: Parser, q: Parser, scan: string -> Option<real>)
    requires !p.pendingHeaderSkip && p.section == ConfidenceSection && LocateGeneration(p) == (q, 0)
    ensures Step(p, scan) == SkipHeader(ToGeneration(q, 0, scan))
  {
    hide LocateGeneration, FindFrom, Accumulate, ToGeneration, SkipHeader, ConfidenceHeader, GenerationHeader,
         FollowupHeader;
  }

  lemma StepEntersFollowup(p: Parser, i: nat, scan: string -> Option<real>)
    requires !p.pendingHeaderSkip && p.section == GenerationSection && p.withFollowup
    requires FindHeader(p.buffer, FollowupHeader()) == i
    ensures i <= |p.buffer| && Step(p, scan) == SkipHeader(ToFollowup(p, i))
  {
    hide FindFrom, Accumulate, ToFollowup, SkipHeader, ConfidenceHeader, GenerationHeader, FollowupHeader;
  }

  // ----- The confidence section

  lemma StepConfidencePending(p: Parser, r: Response, seen: string, scan: string -> Option<real>)
    requires Streamable(r) && seen <= Text(r)
    requires p.section == ConfidenceSection && p.pendingHeaderSkip && Tracks(p, r, seen, scan)
    ensures TurnKeeps(Step(p, scan), r, seen, scan)
  {
    HeadersAreHeaders();
    hide ConfidenceHeader, GenerationHeader, FollowupHeader, IsHeader, OccursAt, FindFrom, Valid,
         GenerationText, ConfidenceEvents;
    assert Text(r) == ConfidenceHeader() + ("\n" + r.confidence + TailFromGeneration(r));
    RestOfPrefix(seen, ConfidenceHeader(), "\n" + r.confidence + TailFromGeneration(r));
    var rest := seen[|ConfidenceHeader()|..];
    HeaderLine(ConfidenceHeader(), rest);
    if rest != "" {
      assert seen == BeforeConfidence() + "" + rest[1..];
    }
  }

  /** The confidence text seen so far, read against the body and the header behind it. */
  lemma ConfidenceWindow(p: Parser, r: Response, seen: string, scan: string -> Option<real>)
    requires Streamable(r) && seen <= Text(r)
    requires p.section == ConfidenceSection && !p.pendingHeaderSkip && Tracks(p, r, seen, scan)
    ensures var w := p.confidenceBuffer + p.buffer;
            seen == BeforeConfidence() + w && w <= r.confidence + TailFromGeneration(r)
  {
    hide ConfidenceHeader, GenerationHeader, FollowupHeader, IsHeader, OccursAt, FindFrom, Valid,
         GenerationText, ConfidenceEvents;
    var w := p.confidenceBuffer + p.buffer;
    assert seen == BeforeConfidence() + w;
    assert Text(r) == BeforeConfidence() + (r.confidence + TailFromGeneration(r));
    RestOfPrefix(seen, BeforeConfidence(), r.confidence + TailFromGeneration(r));
    assert seen[|BeforeConfidence()|..] == w;
  }

  /** A text cut in two where the cut lies in its body. */
  lemma CutInBody(acc: string, buffer: string, body: string, tail: string)
    requires acc + buffer == body + tail && |acc| <= |body|
    ensures acc <= body
    ensures acc + buffer[..|body| - |acc|] == body && buffer[|body| - |acc|..] == tail
    ensures buffer[..|body| - |acc|] == body[|acc|..]
  {
    var w := acc + buffer;
    assert acc == w[..|acc|] == body[..|acc|];
    assert buffer == w[|acc|..];
    assert w[..|body|] == body && w[|body|..] == tail;
  }

  /** A text cut in two where the cut lies in the header behind its body. */
  lemma CutInHeader(acc: string, buffer: string, body: string, header: string, rest: string)
    requires acc + buffer == body + header + rest && |body| <= |acc| < |body| + |header|
    ensures body <= acc < body + header
  {
    var w := acc + buffer;
    assert acc == w[..|acc|] == (body + header)[..|acc|];
    assert acc[..|body|] == w[..|body|] == body;
  }

  lemma Reassociate(w: string, body: string, header: string, rest: string)
    requires w == body + header + rest
    ensures w == body + (header + rest) && w[|body|..] == header + rest
  {
  }

  /** A part of the text that reaches to the end of the next header. */
  lemma HeaderReached(w: string, body: string, header: string, tail: string) returns (rest: string)
    requires w <= body + header + ("\n" + tail) && |w| >= |body| + |header|
    ensures w == body + header + rest && (rest == "" || rest[0] == '\n')
  {
    RestOfPrefix(w, body + header, "\n" + tail);
    rest := w[|body + header|..];
  }

  lemma PrefixOfBody(acc: string, more: string, body: string, tail: string)
    requires acc + more <= body + tail && |acc| <= |body|
    ensures acc <= body
  {
    assert acc == (acc + more)[..|acc|] == (body + tail)[..|acc|] == body[..|acc|];
  }

  /** Neither header is seen before the Generation header is complete. */
  lemma NoHeaderInConfidence(acc: string, buffer: string, body: string, tail: string)
    requires EndsLine(body) && FindHeader(body, GenerationHeader()) == -1 && Index(body, FollowupHeader()) == -1
    requires acc + buffer <= body + GenerationHeader() + tail
    requires |acc| + |buffer| < |body| + |GenerationHeader()|
    ensures FindHeader(acc + buffer, GenerationHeader()) == -1
    ensures FindHeader(buffer, FollowupHeader()) == -1
  {
    HeadersAreHeaders();
    hide ConfidenceHeader, GenerationHeader, FollowupHeader, IsHeader, OccursAt, FindFrom;
    var w := acc + buffer;
    var u := body + GenerationHeader();
    assert w == (u + tail)[..|w|] == u[..|w|] == u[0..|w|];
    UnseenFromStart(body, GenerationHeader());
    NoHeaderBeforeComplete(body, GenerationHeader(), GenerationHeader(), 0, |w|);
    UnseenAnywhere(body, FollowupHeader(), |acc|);
    assert buffer == w[|acc|..] == u[|acc|..|w|];
    NoHeaderBeforeComplete(body, GenerationHeader(), FollowupHeader(), |acc|, |w|);
  }

  lemma ConfidenceAccumulates(p: Parser, r: Response, seen: string, scan: string -> Option<real>)
    requires p.section == ConfidenceSection && !p.pendingHeaderSkip && Tracks(p, r, seen, scan)
    requires |p.confidenceBuffer| + |p.buffer| < |r.confidence| + |GenerationHeader()|
    ensures Tracks(Accumulate(p), r, seen, scan) && Settled(Accumulate(p), r, seen)
  {
    hide ConfidenceHeader, GenerationHeader, FollowupHeader, IsHeader, OccursAt, FindFrom, Valid,
         ValidPrefixLength, GenerationText, ConfidenceEvents, TrimSpace, ConfidenceOf, StreamWithLookahead;
    var w := p.confidenceBuffer + p.buffer;
    assert BeforeConfidence() + p.confidenceBuffer + p.buffer == BeforeConfidence() + w + "";
  }

  lemma StepConfidenceWaits(p: Parser, r: Response, seen: string, scan: string -> Option<real>)
    requires Streamable(r) && seen <= Text(r)
    requires p.section == ConfidenceSection && !p.pendingHeaderSkip && Tracks(p, r, seen, scan)
    requires |p.confidenceBuffer| + |p.buffer| < |r.confidence| + |GenerationHeader()|
    ensures TurnKeeps(Step(p, scan), r, seen, scan)
  {
    ConfidenceWindow(p, r, seen, scan);
    hide ConfidenceHeader, GenerationHeader, FollowupHeader, IsHeader, OccursAt, FindFrom, Valid,
         ValidPrefixLength, GenerationText, ConfidenceEvents, TrimSpace, ConfidenceOf, Step, Accumulate,
         Settled;
    var tail := "\n" + (r.generation + TailFromFollowup(r));
    ConfidenceTail(r);
    hide TailFromGeneration, TailFromFollowup, Text;
    NoHeaderInConfidence(p.confidenceBuffer, p.buffer, r.confidence, tail);
    StepAccumulates(p, scan);
    ConfidenceAccumulates(p, r, seen, scan);
  }

  lemma CombinedAt(acc: string, buffer: string, header: string, i: nat)
    requires FindHeader(acc + buffer, header) == i <= |acc + buffer|
    ensures FindHeaderInCombined(acc, buffer, header)
         == Some(if i >= |acc| then (buffer[..i - |acc|], buffer[i - |acc|..]) else ("", (acc + buffer)[i..]))
  {
    hide FindFrom;
  }

  /** Where the Generation header is located: the buffer starts with it, and the confidence
      text is the body, perhaps with the beginning of the header left behind it. */
  lemma GenerationLocated(acc: string, buffer: string, body: string, rest: string)
    requires EndsLine(body) && FindHeader(body, GenerationHeader()) == -1
    requires |acc| < |body| + |GenerationHeader()|
    requires acc + buffer == body + GenerationHeader() + rest
    ensures var found := FindHeaderInCombined(acc, buffer, GenerationHeader());
            && found.Some? && found.value.1 == GenerationHeader() + rest
            && body <= acc + found.value.0 < body + GenerationHeader()
  {
    HeadersAreHeaders();
    hide ConfidenceHeader, GenerationHeader, FollowupHeader, IsHeader, OccursAt, FindFrom, FindHeader,
         FindHeaderInCombined;
    var w := acc + buffer;
    var g := GenerationHeader();
    assert "" + w == w;
    HeaderLocated(w, body, g, rest);
    CombinedAt(acc, buffer, g, |body|);
    Reassociate(w, body, g, rest);
    if |acc| <= |body| {
      CutInBody(acc, buffer, body, g + rest);
      assert acc + buffer[..|body| - |acc|] == body;
      ProperPrefix(body, g);
    } else {
      CutInHeader(acc, buffer, body, g, rest);
      assert acc + "" == acc;
    }
  }

  lemma HeaderLocated(w: string, body: string, g: string, rest: string)
    requires EndsLine(body) && FindHeader(body, g) == -1 && IsHeader(g) && w == body + g + rest
    ensures FindHeader(w, g) == |body|
  {
    assert "" + w == w;
    UnseenFromStart(body, g);
    HeaderFound("", w, body, g, rest);
  }

  lemma ProperPrefix(body: string, header: string)
    requires header != ""
    ensures body < body + header
  {
  }

  lemma NothingTrimmed()
    ensures TrimSpace("") == "" && Valid("")
  {
  }

  lemma FirstEvent(e: Event)
    ensures GenerationText([]) == "" && ConfidenceEvents([]) == []
    ensures e.ConfidenceEvent? ==> GenerationText([e]) == "" && ConfidenceEvents([e]) == [e.scores] && GenerationEventsValid([e])
  {
    OneMoreEvent([], e);
    assert [] + [e] == [e];
  }

  /** The transition emits the confidence scores and opens the generation section. */
  lemma GenerationEntered(p: Parser, r: Response, scan: string -> Option<real>, rest: string)
    requires p.section == ConfidenceSection && !p.confidenceDone
    requires p.events == [] && p.generationBuffer == ""
    requires r.confidence <= p.confidenceBuffer < r.confidence + GenerationHeader()
    requires p.buffer == GenerationHeader() + rest && FindHeader(r.generation, FollowupHeader()) == -1
    ensures var t := ToGeneration(p, 0, scan);
            && ConfidenceEmitted(t, r, scan) && GenerationStreamed(t, r)
            && t == p.(section := GenerationSection, confidenceDone := true, events := t.events)
  {
    NothingTrimmed();
    hide ConfidenceHeader, GenerationHeader, FollowupHeader, ConfidenceOf, TrimSpace, GenerationText,
         ConfidenceEvents;
    assert p.buffer[..0] == "";
    assert p.confidenceBuffer + "" == p.confidenceBuffer;
    assert p.buffer[0..] == p.buffer;
    var e := ConfidenceEvent(ConfidenceOf(p.confidenceBuffer, scan));
    FirstEvent(e);
    assert [] + [e] == [e];
    assert "" <= r.generation;
    UnseenFromStart(r.generation, FollowupHeader());
  }

  lemma AfterGenerationEntered(t: Parser, r: Response, seen: string, rest: string, scan: string -> Option<real>)
    requires t.withConfidence && t.withFollowup && t.section == GenerationSection
    requires t.followUpBuffer == "" && t.generationBuffer == ""
    requires ConfidenceEmitted(t, r, scan) && GenerationStreamed(t, r)
    requires t.buffer == GenerationHeader() + rest && (rest == "" || rest[0] == '\n')
    requires seen == BeforeConfidence() + (r.confidence + t.buffer)
    ensures TurnKeeps(SkipHeader(t), r, seen, scan)
  {
    HeadersAreHeaders();
    hide ConfidenceHeader, GenerationHeader, FollowupHeader, IsHeader, OccursAt, FindFrom, Valid,
         ValidPrefixLength, GenerationText, ConfidenceEvents, TrimSpace, ConfidenceOf;
    HeaderLine(GenerationHeader(), rest);
    assert seen == BeforeConfidence() + r.confidence + t.buffer;
    if rest != "" {
      assert seen == BeforeGeneration(r) + "" + rest[1..];
    }
  }

  lemma ConfidenceTail(r: Response)
    ensures r.confidence + TailFromGeneration(r) == r.confidence + GenerationHeader() + ("\n" + (r.generation + TailFromFollowup(r)))
  {
    hide GenerationHeader, TailFromFollowup;
  }

  lemma GenerationTail(r: Response)
    ensures r.generation + TailFromFollowup(r) == r.generation + FollowupHeader() + ("\n" + r.followup)
  {
    hide FollowupHeader;
  }

  lemma ConfidenceWindowEnds(p: Parser, r: Response, seen: string, scan: string -> Option<real>) returns (rest: string)
    requires Streamable(r) && seen <= Text(r)
    requires p.section == ConfidenceSection && !p.pendingHeaderSkip && Tracks(p, r, seen, scan)
    requires |p.confidenceBuffer| + |p.buffer| >= |r.confidence| + |GenerationHeader()|
    ensures p.confidenceBuffer + p.buffer == r.confidence + GenerationHeader() + rest
    ensures rest == "" || rest[0] == '\n'
    ensures seen == BeforeConfidence() + (r.confidence + (GenerationHeader() + rest))
  {
    ConfidenceWindow(p, r, seen, scan);
    hide Tracks, Text;
    var w := p.confidenceBuffer + p.buffer;
    var tail := r.generation + TailFromFollowup(r);
    ConfidenceTail(r);
    hide EndsLine, TailFromGeneration, TailFromFollowup, GenerationHeader, FollowupHeader, BeforeConfidence;
    rest := HeaderReached(w, r.confidence, GenerationHeader(), tail);
    Reassociate(w, r.confidence, GenerationHeader(), rest);
  }

  lemma StepConfidenceEnds(p: Parser, r: Response, seen: string, scan: string -> Option<real>)
    requires Streamable(r) && seen <= Text(r)
    requires p.section == ConfidenceSection && !p.pendingHeaderSkip && Tracks(p, r, seen, scan)
    requires |p.confidenceBuffer| + |p.buffer| >= |r.confidence| + |GenerationHeader()|
    ensures TurnKeeps(Step(p, scan), r, seen, scan)
  {
    hide ConfidenceHeader, GenerationHeader, FollowupHeader, IsHeader, OccursAt, FindFrom, Valid,
         ValidPrefixLength, GenerationText, ConfidenceEvents, TrimSpace, ConfidenceOf, FindHeaderInCombined,
         ToGeneration, Step, SkipHeader, BeforeConfidence, Text, EndsLine;
    var rest := ConfidenceWindowEnds(p, r, seen, scan);
    GenerationLocated(p.confidenceBuffer, p.buffer, r.confidence, rest);
    var q := LocateGeneration(p).0;
    StepEntersGeneration(p, q, scan);
    GenerationEntered(q, r, scan, rest);
    AfterGenerationEntered(ToGeneration(q, 0, scan), r, seen, rest, scan);
  }

  // ----- The generation section

  /** A pending header at the front of the buffer: what comes behind it. */
  lemma PendingHeader(seen: string, before: string, header: string, buffer: string, tail: string) returns (rest: string)
    requires header <= buffer && seen == before + buffer && seen <= before + header + ("\n" + tail)
    ensures buffer == header + rest && (rest == "" || rest[0] == '\n')
    ensures rest != "" ==> seen == before + header + "\n" + "" + rest[1..]
  {
    rest := buffer[|header|..];
    RestOfPrefix(seen, before + header, "\n" + tail);
    assert seen[|before + header|..] == rest;
  }

  lemma StepGenerationPending(p: Parser, r: Response, seen: string, scan: string -> Option<real>)
    requires Streamable(r) && seen <= Text(r)
    requires p.section == GenerationSection && p.pendingHeaderSkip && Tracks(p, r, seen, scan)
    ensures TurnKeeps(Step(p, scan), r, seen, scan)
  {
    HeadersAreHeaders();
    hide ConfidenceHeader, GenerationHeader, FollowupHeader, IsHeader, OccursAt, FindFrom, Valid,
         ValidPrefixLength, GenerationText, ConfidenceEvents, TrimSpace, ConfidenceOf;
    var before := BeforeConfidence() + r.confidence;
    var tail := r.generation + TailFromFollowup(r);
    assert Text(r) == before + GenerationHeader() + ("\n" + tail);
    hide Text, TailFromFollowup, BeforeConfidence;
    var rest := PendingHeader(seen, before, GenerationHeader(), p.buffer, tail);
    HeaderLine(GenerationHeader(), rest);
  }

  lemma GenerationWindow(p: Parser, r: Response, seen: string, scan: string -> Option<real>)
    requires Streamable(r) && seen <= Text(r)
    requires p.section == GenerationSection && !p.pendingHeaderSkip && Tracks(p, r, seen, scan)
    ensures var w := p.generationBuffer + p.buffer;
            seen == BeforeGeneration(r) + w && w <= r.generation + TailFromFollowup(r)
  {
    hide ConfidenceHeader, GenerationHeader, FollowupHeader, IsHeader, OccursAt, FindFrom, Valid,
         GenerationText, ConfidenceEvents;
    var w := p.generationBuffer + p.buffer;
    assert seen == BeforeGeneration(r) + w;
    assert Text(r) == BeforeGeneration(r) + (r.generation + TailFromFollowup(r));
    RestOfPrefix(seen, BeforeGeneration(r), r.generation + TailFromFollowup(r));
    assert seen[|BeforeGeneration(r)|..] == w;
  }

  /** Of a buffer inside a valid stream that starts between two characters, streaming leaves
      no more than the minimum behind. */
  lemma LittleIsHeldBack(streamed: string, buffer: string, rest: string)
    requires Valid(streamed) && Valid(streamed + (buffer + rest))
    ensures |StreamWithLookahead(buffer, STREAM_LOOKAHEAD_SIZE, STREAM_MIN_BUFFER_SIZE).1| <= STREAM_MIN_BUFFER_SIZE
  {
    hide Valid, ValidPrefixLength;
    ValidAppend(streamed, buffer + rest);
    if |buffer| > STREAM_MIN_BUFFER_SIZE {
      CutKeepsTail(buffer, |buffer| - STREAM_LOOKAHEAD_SIZE, rest);
    }
  }

  lemma CutKeepsTail(buffer: string, k: nat, rest: string)
    requires k <= |buffer| && Valid(buffer + rest)
    ensures k - ValidPrefixLength(buffer[..k]) <= 3
  {
    hide Valid, ValidPrefixLength;
    assert buffer + rest == buffer[..k] + (buffer[k..] + rest);
    CutLeavesAtMostThree(buffer[..k], buffer[k..] + rest);
  }

  /** The Follow-up header is not seen before it is complete. */
  lemma NoHeaderInGeneration(acc: string, buffer: string, body: string, tail: string)
    requires EndsLine(body) && Unseen(body, FollowupHeader(), |acc|)
    requires acc + buffer <= body + FollowupHeader() + tail
    requires |acc| + |buffer| < |body| + |FollowupHeader()|
    ensures FindHeader(buffer, FollowupHeader()) == -1
    ensures acc + buffer <= body + FollowupHeader()
  {
    HeadersAreHeaders();
    hide ConfidenceHeader, GenerationHeader, FollowupHeader, IsHeader, OccursAt, FindFrom;
    var w := acc + buffer;
    var u := body + FollowupHeader();
    assert w == (u + tail)[..|w|] == u[..|w|];
    assert buffer == w[|acc|..] == u[|acc|..|w|];
    NoHeaderBeforeComplete(body, FollowupHeader(), FollowupHeader(), |acc|, |w|);
  }

  lemma GenerationHeldBack(p: Parser, r: Response)
    requires p.generationBuffer + p.buffer <= r.generation + FollowupHeader()
    requires Valid(p.generationBuffer) && Valid(r.generation)
    ensures |StreamWithLookahead(p.buffer, STREAM_LOOKAHEAD_SIZE, STREAM_MIN_BUFFER_SIZE).1| <= STREAM_MIN_BUFFER_SIZE
  {
    HeadersAreHeaders();
    hide ConfidenceHeader, GenerationHeader, FollowupHeader, IsHeader, OccursAt, FindFrom, Valid,
         ValidPrefixLength, GenerationText, ConfidenceEvents, TrimSpace, ConfidenceOf, StreamWithLookahead;
    var w := p.generationBuffer + p.buffer;
    var u := r.generation + FollowupHeader();
    ValidAppend(r.generation, FollowupHeader());
    assert u == w + u[|w|..] == p.generationBuffer + (p.buffer + u[|w|..]);
    LittleIsHeldBack(p.generationBuffer, p.buffer, u[|w|..]);
  }

  lemma GenerationStreamsSettled(p: Parser, r: Response, seen: string, scan: string -> Option<real>)
    requires !Exposed(r.generation)
    requires p.section == GenerationSection && !p.pendingHeaderSkip && Tracks(p, r, seen, scan)
    requires p.generationBuffer + p.buffer <= r.generation + FollowupHeader()
    requires |p.generationBuffer| + |p.buffer| < |r.generation| + |FollowupHeader()|
    ensures Tracks(Accumulate(p), r, seen, scan) && Settled(Accumulate(p), r, seen)
  {
    GenerationStreams(p, r, seen, scan);
    if Valid(r.generation) {
      GenerationHeldBack(p, r);
    }
    hide Tracks, Accumulate, StreamWithLookahead, Valid, FollowupHeader;
  }

  lemma StepGenerationWaits(p: Parser, r: Response, seen: string, scan: string -> Option<real>)
    requires Streamable(r) && seen <= Text(r)
    requires p.section == GenerationSection && !p.pendingHeaderSkip && Tracks(p, r, seen, scan)
    requires |p.generationBuffer| + |p.buffer| < |r.generation| + |FollowupHeader()|
    ensures TurnKeeps(Step(p, scan), r, seen, scan)
  {
    GenerationWindow(p, r, seen, scan);
    assert p.withConfidence && p.withFollowup;
    hide Tracks, Settled, Text, EndsLine, BeforeGeneration, Step, Accumulate, OccursAt, FindFrom;
    var tail := "\n" + r.followup;
    GenerationTail(r);
    hide TailFromFollowup, FollowupHeader, GenerationHeader;
    NoHeaderInGeneration(p.generationBuffer, p.buffer, r.generation, tail);
    StepAccumulates(p, scan);
    GenerationStreamsSettled(p, r, seen, scan);
  }

  lemma PieceIsWhole(buffer: string, i: nat, n: nat)
    requires i < |buffer| - STREAM_LOOKAHEAD_SIZE && n == ValidPrefixLength(buffer[..|buffer| - STREAM_LOOKAHEAD_SIZE])
    requires buffer[i] as int < 0x80
    ensures n != i
  {
    var front := buffer[..|buffer| - STREAM_LOOKAHEAD_SIZE];
    ValidPrefixStops(front);
    assert front[i..][0] == buffer[i];
  }

  lemma OccurrenceInBuffer(acc: string, buffer: string, body: string, n: nat)
    requires acc + buffer <= body + FollowupHeader() && n < |buffer|
    requires OccursAt(body, FollowupHeader(), |acc| + n, false)
    ensures buffer[n] == '#' && body[..|acc| + n] == acc + buffer[..n]
  {
    var k := |acc| + n;
    var w := acc + buffer;
    assert FollowupHeader()[0] == '#';
    assert body[k] == body[k..k + |FollowupHeader()|][0];
    assert w[k] == (body + FollowupHeader())[k];
    assert body[..k] == (body + FollowupHeader())[..|w|][..k] == w[..k];
  }

  /** Streaming stops in front of the text of the Follow-up header only where that is exposed. */
  lemma StreamingStopsThere(acc: string, buffer: string, body: string, n: nat)
    requires Valid(acc) && acc + buffer <= body + FollowupHeader() && |acc| + |buffer| < |body| + |FollowupHeader()|
    requires STREAM_MIN_BUFFER_SIZE < |buffer| && n == ValidPrefixLength(buffer[..|buffer| - STREAM_LOOKAHEAD_SIZE])
    requires OccursAt(body, FollowupHeader(), |acc| + n, false)
    ensures ExposedAt(body, |acc| + n)
  {
    FollowupHeaderIsHeader();
    hide FollowupHeader, Valid, ValidPrefixLength, IsHeader, OccursAt;
    var front := buffer[..|buffer| - STREAM_LOOKAHEAD_SIZE];
    OccurrenceInBuffer(acc, buffer, body, n);
    if n < |front| {
      PieceIsWhole(buffer, n, n);
      assert false;
    }
    ValidPrefixIsValid(front);
    assert front[..n] == buffer[..n];
    ValidAppend(acc, buffer[..n]);
  }

  lemma StreamingStopsElsewhere(acc: string, buffer: string, body: string)
    requires Valid(acc) && acc + buffer <= body + FollowupHeader() && |acc| + |buffer| < |body| + |FollowupHeader()|
    requires !Exposed(body)
    ensures var piece := StreamWithLookahead(buffer, STREAM_LOOKAHEAD_SIZE, STREAM_MIN_BUFFER_SIZE).0;
            piece != "" ==> !OccursAt(body, FollowupHeader(), |acc + piece|, false)
  {
    hide FollowupHeader, Valid, ValidPrefixLength, OccursAt, ExposedAt;
    var piece := StreamWithLookahead(buffer, STREAM_LOOKAHEAD_SIZE, STREAM_MIN_BUFFER_SIZE).0;
    if piece != "" && OccursAt(body, FollowupHeader(), |acc + piece|, false) {
      StreamingStopsThere(acc, buffer, body, |piece|);
      assert false;
    }
  }

  lemma GenerationStreams(p: Parser, r: Response, seen: string, scan: string -> Option<real>)
    requires !Exposed(r.generation)
    requires p.section == GenerationSection && !p.pendingHeaderSkip && Tracks(p, r, seen, scan)
    requires p.generationBuffer + p.buffer <= r.generation + FollowupHeader()
    requires |p.generationBuffer| + |p.buffer| < |r.generation| + |FollowupHeader()|
    ensures Tracks(Accumulate(p), r, seen, scan)
    ensures var q := Accumulate(p);
            && q.section == GenerationSection && !q.pendingHeaderSkip
            && |q.generationBuffer| + |q.buffer| == |p.generationBuffer| + |p.buffer|
            && q.buffer == StreamWithLookahead(p.buffer, STREAM_LOOKAHEAD_SIZE, STREAM_MIN_BUFFER_SIZE).1
  {
    HeadersAreHeaders();
    hide ConfidenceHeader, GenerationHeader, FollowupHeader, IsHeader, OccursAt, FindFrom, Valid,
         ValidPrefixLength, GenerationText, ConfidenceEvents, TrimSpace, ConfidenceOf, StreamWithLookahead,
         BeforeGeneration, BeforeFollowup, BeforeConfidence;
    var (piece, kept, should) := StreamWithLookahead(p.buffer, STREAM_LOOKAHEAD_SIZE, STREAM_MIN_BUFFER_SIZE);
    if should {
      ValidAppend(p.generationBuffer, piece);
      OneMoreEvent(p.events, GenerationEvent(piece));
      var gb := p.generationBuffer + piece;
      StreamingStopsElsewhere(p.generationBuffer, p.buffer, r.generation);
      assert p.generationBuffer + p.buffer == gb + kept;
      PrefixOfBody(gb, kept, r.generation, FollowupHeader());
      assert BeforeGeneration(r) + p.generationBuffer + p.buffer == BeforeGeneration(r) + gb + kept;
    } else {
      assert kept == "" + kept == p.buffer;
    }
  }

  lemma GenerationEnds(p: Parser, r: Response, i: nat)
    requires p.section == GenerationSection && GenerationStreamed(p, r)
    requires i <= |p.buffer| && p.generationBuffer + p.buffer[..i] == r.generation
    ensures GenerationComplete(ToFollowup(p, i), r, |p.generationBuffer|)
    ensures ConfidenceEvents(ToFollowup(p, i).events) == ConfidenceEvents(p.events)
  {
    var n := |p.generationBuffer|;
    assert r.generation[n..] == p.buffer[..i] && r.generation[..n] == p.generationBuffer;
    var trimmed := TrimSpace(p.buffer[..i]);
    OneMoreEvent(p.events, GenerationEvent(trimmed));
    if Valid(r.generation) {
      ValidAppend(p.generationBuffer, p.buffer[..i]);
      TrimKeepsValid(p.buffer[..i]);
    }
    assert p.generationBuffer + "" == p.generationBuffer;
  }

  /** The Follow-up header is found where the body ends. */
  lemma FollowupFound(acc: string, buffer: string, body: string, rest: string)
    requires EndsLine(body) && Unseen(body, FollowupHeader(), |acc|) && |acc| <= |body|
    requires acc + buffer == body + FollowupHeader() + rest
    ensures FindHeader(buffer, FollowupHeader()) == |body| - |acc|
    ensures acc + buffer[..|body| - |acc|] == body && buffer[|body| - |acc|..] == FollowupHeader() + rest
  {
    HeadersAreHeaders();
    hide ConfidenceHeader, GenerationHeader, FollowupHeader, IsHeader, OccursAt, FindFrom;
    HeaderFound(acc, buffer, body, FollowupHeader(), rest);
    hide FindHeader;
    Reassociate(acc + buffer, body, FollowupHeader(), rest);
    CutInBody(acc, buffer, body, FollowupHeader() + rest);
  }

  /** After the transition: the header line is skipped, or waited for. */
  lemma FollowupEntered(t: Parser, r: Response, seen: string, rest: string, n: nat, scan: string -> Option<real>)
    requires t.withConfidence && t.withFollowup && t.section == FollowupSection && t.followUpBuffer == ""
    requires GenerationComplete(t, r, n) && ConfidenceEmitted(t, r, scan)
    requires t.buffer == FollowupHeader() + rest && (rest == "" || rest[0] == '\n')
    requires seen == BeforeGeneration(r) + (r.generation + t.buffer)
    ensures TurnKeeps(SkipHeader(t), r, seen, scan)
  {
    HeadersAreHeaders();
    hide ConfidenceHeader, GenerationHeader, FollowupHeader, IsHeader, OccursAt, FindFrom, Valid,
         ValidPrefixLength, GenerationText, ConfidenceEvents, TrimSpace, ConfidenceOf, BeforeGeneration;
    assert seen == BeforeGeneration(r) + r.generation + t.buffer;
    HeaderLine(FollowupHeader(), rest);
    if rest != "" {
      var again := t.(buffer := rest[1..], pendingHeaderSkip := false);
      assert GenerationComplete(again, r, n);
      assert seen == BeforeFollowup(r) + "" + rest[1..];
    } else {
      assert GenerationComplete(t.(pendingHeaderSkip := true), r, n);
    }
  }

  lemma GenerationWindowEnds(p: Parser, r: Response, seen: string, scan: string -> Option<real>) returns (rest: string)
    requires Streamable(r) && seen <= Text(r)
    requires p.section == GenerationSection && !p.pendingHeaderSkip && Tracks(p, r, seen, scan)
    requires |p.generationBuffer| + |p.buffer| >= |r.generation| + |FollowupHeader()|
    ensures p.generationBuffer + p.buffer == r.generation + FollowupHeader() + rest
    ensures rest == "" || rest[0] == '\n'
    ensures seen == BeforeGeneration(r) + (r.generation + (FollowupHeader() + rest))
  {
    GenerationWindow(p, r, seen, scan);
    hide Tracks, Text, BeforeGeneration, EndsLine;
    var w := p.generationBuffer + p.buffer;
    GenerationTail(r);
    hide TailFromFollowup, FollowupHeader;
    rest := HeaderReached(w, r.generation, FollowupHeader(), r.followup);
    Reassociate(w, r.generation, FollowupHeader(), rest);
  }

  lemma StepGenerationEnds(p: Parser, r: Response, seen: string, scan: string -> Option<real>)
    requires Streamable(r) && seen <= Text(r)
    requires p.section == GenerationSection && !p.pendingHeaderSkip && Tracks(p, r, seen, scan)
    requires |p.generationBuffer| + |p.buffer| >= |r.generation| + |FollowupHeader()|
    ensures TurnKeeps(Step(p, scan), r, seen, scan)
  {
    hide ConfidenceHeader, GenerationHeader, FollowupHeader, IsHeader, OccursAt, FindFrom, Valid,
         ValidPrefixLength, GenerationText, ConfidenceEvents, TrimSpace, ConfidenceOf, Step, BeforeGeneration,
         SkipHeader, Text, EndsLine;
    var rest := GenerationWindowEnds(p, r, seen, scan);
    FollowupFound(p.generationBuffer, p.buffer, r.generation, rest);
    var i := |r.generation| - |p.generationBuffer|;
    GenerationEnds(p, r, i);
    StepEntersFollowup(p, i, scan);
    FollowupTransition(p, i);
    hide ToFollowup;
    FollowupEntered(ToFollowup(p, i), r, seen, rest, |p.generationBuffer|, scan);
  }

  lemma FollowupTransition(p: Parser, i: nat)
    requires i <= |p.buffer|
    ensures var t := ToFollowup(p, i);
            t == p.(section := FollowupSection, buffer := p.buffer[i..], generationBuffer := t.generationBuffer, events := t.events)
  {
    hide TrimSpace;
  }

  // ----- The follow-up section

  lemma WindowOfBody(acc: string, buffer: string, body: string)
    requires acc + buffer <= body
    ensures buffer == body[|acc|..|acc| + |buffer|]
  {
    var w := acc + buffer;
    assert buffer == w[|acc|..];
  }

  lemma FoundOccurs(text: string, header: string)
    ensures var k := FindHeader(text, header); k == -1 || (k >= 0 && OccursAt(text, header, k, true) && OccursAt(text, header, k, false))
  {
    hide FindFrom;
  }

  /** In the follow-up body the header is only ever seen at the front of the buffer, where a
      cut in front of its text has brought it. */
  lemma HeaderInFollowup(acc: string, buffer: string, body: string)
    requires FindHeader(body, FollowupHeader()) == -1 && acc + buffer <= body
    ensures var i := FindHeader(buffer, FollowupHeader());
            i == -1 || (i == 0 && FollowupHeader() <= buffer && OccursAt(body, FollowupHeader(), |acc|, false))
  {
    WindowOfBody(acc, buffer, body);
    FoundOccurs(buffer, FollowupHeader());
    var i := FindHeader(buffer, FollowupHeader());
    var p := |acc| + i;
    hide FindFrom, FollowupHeader;
    if i >= 0 {
      assert OccursAt(buffer, FollowupHeader(), i, true);
      OccursInWindow(body, |acc|, |acc| + |buffer|, FollowupHeader(), i);
      if i > 0 {
        assert buffer[i - 1] == body[p - 1];
        NotAtLineStart(body, FollowupHeader(), p);
        assert false;
      }
      assert buffer[0..|FollowupHeader()|] == buffer[..|FollowupHeader()|];
    }
  }

  lemma NoLineFeedBehind(acc: string, buffer: string, body: string)
    requires !LosesLine(body) && acc + buffer <= body && OccursAt(body, FollowupHeader(), |acc|, false)
    ensures '\n' !in body[|acc|..] && '\n' !in buffer && |acc| <= |body|
  {
    hide FindFrom, FollowupHeader;
    WindowOfBody(acc, buffer, body);
    var k := Index(body, FollowupHeader());
    assert 0 <= k <= |acc|;
    assert body[|acc|..] == body[k..][|acc| - k..];
    assert buffer == body[|acc|..][..|buffer|];
  }

  lemma NoLineFeedNoSkip(buffer: string)
    requires '\n' !in buffer
    ensures SkipHeaderLine(buffer) == None
  {
    assert buffer + "\n" + "" == buffer + "\n";
    SkipsHeaderLine(buffer, "");
  }

  lemma WaitsInLastLine(p: Parser, r: Response, seen: string, scan: string -> Option<real>)
    requires seen <= Text(r)
    requires p.section == FollowupSection && p.pendingHeaderSkip && Tracks(p, r, seen, scan) && EndsInLastLine(p, r, seen)
    ensures TurnKeeps(Step(p, scan), r, seen, scan)
  {
    hide ConfidenceHeader, GenerationHeader, FollowupHeader, IsHeader, OccursAt, FindFrom, Valid,
         ValidPrefixLength, GenerationText, ConfidenceEvents, TrimSpace, ConfidenceOf, Index, SkipHeaderLine;
    FollowupWindow(p, r, seen);
    WindowOfBody(p.followUpBuffer, p.buffer, r.followup);
    assert p.buffer == r.followup[|p.followUpBuffer|..][..|p.buffer|];
    NoLineFeedNoSkip(p.buffer);
  }

  lemma FollowupWindow(p: Parser, r: Response, seen: string)
    requires seen <= Text(r) && seen == BeforeFollowup(r) + p.followUpBuffer + p.buffer
    ensures p.followUpBuffer + p.buffer <= r.followup
  {
    hide ConfidenceHeader, GenerationHeader, FollowupHeader;
    var w := p.followUpBuffer + p.buffer;
    assert seen == BeforeFollowup(r) + w;
    assert Text(r) == BeforeFollowup(r) + r.followup;
    hide BeforeFollowup;
    RestOfPrefix(seen, BeforeFollowup(r), r.followup);
    assert seen[|BeforeFollowup(r)|..] == w;
  }

  lemma StepFollowupPending(p: Parser, r: Response, seen: string, scan: string -> Option<real>)
    requires Streamable(r) && seen <= Text(r)
    requires p.section == FollowupSection && p.pendingHeaderSkip && Tracks(p, r, seen, scan)
    ensures TurnKeeps(Step(p, scan), r, seen, scan)
  {
    HeadersAreHeaders();
    hide ConfidenceHeader, GenerationHeader, FollowupHeader, IsHeader, OccursAt, FindFrom, Valid,
         ValidPrefixLength, GenerationText, ConfidenceEvents, TrimSpace, ConfidenceOf;
    if EndsInLastLine(p, r, seen) {
      WaitsInLastLine(p, r, seen, scan);
      return;
    }
    var n: nat :| GenerationComplete(p, r, n);
    var before := BeforeGeneration(r) + r.generation;
    assert Text(r) == before + FollowupHeader() + ("\n" + r.followup);
    hide Text, BeforeGeneration;
    var rest := PendingHeader(seen, before, FollowupHeader(), p.buffer, r.followup);
    HeaderLine(FollowupHeader(), rest);
    if rest != "" {
      assert GenerationComplete(p.(buffer := rest[1..], pendingHeaderSkip := false), r, n);
    }
  }

  lemma StepReentersFollowup(p: Parser, scan: string -> Option<real>)
    requires p.section == FollowupSection && !p.pendingHeaderSkip && p.withFollowup && FindHeader(p.buffer, FollowupHeader()) == 0
    ensures Step(p, scan) == SkipHeader(p)
  {
    hide FindFrom, SkipHeader, ConfidenceHeader, GenerationHeader, FollowupHeader;
    assert p.buffer[0..] == p.buffer;
  }

  lemma StepFollowup(p: Parser, r: Response, seen: string, scan: string -> Option<real>)
    requires Streamable(r) && seen <= Text(r)
    requires p.section == FollowupSection && !p.pendingHeaderSkip && Tracks(p, r, seen, scan)
    ensures TurnKeeps(Step(p, scan), r, seen, scan)
  {
    hide ConfidenceHeader, GenerationHeader, FollowupHeader, IsHeader, OccursAt, FindFrom, Valid,
         ValidPrefixLength, GenerationText, ConfidenceEvents, TrimSpace, ConfidenceOf, Step,
         StreamWithLookahead, SkipHeaderLine;
    var n: nat :| GenerationComplete(p, r, n);
    var w := p.followUpBuffer + p.buffer;
    assert seen == BeforeFollowup(r) + w;
    FollowupWindow(p, r, seen);
    hide Text, BeforeFollowup;
    HeaderInFollowup(p.followUpBuffer, p.buffer, r.followup);
    if FindHeader(p.buffer, FollowupHeader()) == -1 {
      StepAccumulates(p, scan);
      assert GenerationComplete(Accumulate(p), r, n);
      assert seen == BeforeFollowup(r) + w + "";
    } else {
      NoLineFeedBehind(p.followUpBuffer, p.buffer, r.followup);
      NoLineFeedNoSkip(p.buffer);
      StepReentersFollowup(p, scan);
      assert GenerationComplete(p.(pendingHeaderSkip := true), r, n);
    }
  }

  // ----- Whole runs

  lemma StepKeeps(p: Parser, r: Response, seen: string, scan: string -> Option<real>)
    requires Streamable(r) && seen <= Text(r) && Tracks(p, r, seen, scan)
    ensures TurnKeeps(Step(p, scan), r, seen, scan)
  {
    hide ConfidenceHeader, GenerationHeader, FollowupHeader, IsHeader, OccursAt, FindFrom, Valid,
         GenerationText, ConfidenceEvents, TrimSpace, ConfidenceOf, Step;
    match p.section
    case NoSection => StepNoSection(p, r, seen, scan);
    case ConfidenceSection =>
      if p.pendingHeaderSkip {
        StepConfidencePending(p, r, seen, scan);
      } else if |p.confidenceBuffer| + |p.buffer| < |r.confidence| + |GenerationHeader()| {
        StepConfidenceWaits(p, r, seen, scan);
      } else {
        StepConfidenceEnds(p, r, seen, scan);
      }
    case GenerationSection =>
      if p.pendingHeaderSkip {
        StepGenerationPending(p, r, seen, scan);
      } else if |p.generationBuffer| + |p.buffer| < |r.generation| + |FollowupHeader()| {
        StepGenerationWaits(p, r, seen, scan);
      } else {
        StepGenerationEnds(p, r, seen, scan);
      }
    case FollowupSection =>
      if p.pendingHeaderSkip {
        StepFollowupPending(p, r, seen, scan);
      } else {
        StepFollowup(p, r, seen, scan);
      }
    case _ =>
  }

  lemma {:induction false} LoopKeeps(p: Parser, r: Response, seen: string, scan: string -> Option<real>)
    requires Streamable(r) && seen <= Text(r) && Tracks(p, r, seen, scan)
    ensures Tracks(Loop(p, scan), r, seen, scan) && Settled(Loop(p, scan), r, seen)
    decreases SectionRank(p.section), |p.buffer|
  {
    hide ConfidenceHeader, GenerationHeader, FollowupHeader, IsHeader, OccursAt, Tracks, Settled, Step;
    StepKeeps(p, r, seen, scan);
    StepProgress(p, scan);
    if Step(p, scan).Again? {
      LoopKeeps(Step(p, scan).parser, r, seen, scan);
    }
  }

  /** Text that arrives only lengthens the buffer. */
  lemma MoreText(p: Parser, r: Response, seen: string, text: string, scan: string -> Option<real>)
    requires Tracks(p, r, seen, scan)
    ensures Tracks(p.(buffer := p.buffer + text), r, seen + text, scan)
  {
    hide ConfidenceHeader, GenerationHeader, FollowupHeader, IsHeader, OccursAt, FindFrom, Valid,
         GenerationText, ConfidenceEvents, TrimSpace, ConfidenceOf;
    var q := p.(buffer := p.buffer + text);
    if p.section == FollowupSection {
      var n: nat :| GenerationComplete(p, r, n);
      assert GenerationComplete(q, r, n);
      assert EndsInLastLine(p, r, seen) ==> EndsInLastLine(q, r, seen + text);
    }
  }

  lemma OneChunk(p: Parser, text: string, scan: string -> Option<real>)
    ensures ParseChunks(p, [text], scan) == Loop(p.(buffer := p.buffer + text), scan)
  {
    hide Loop;
    var one: seq<string> := [text];
    assert one[1..] == [];
  }

  lemma {:induction false} ChunksKeep(p: Parser, r: Response, seen: string, chunks: seq<string>, scan: string -> Option<real>)
    requires Streamable(r) && seen + Concat(chunks) <= Text(r)
    requires Tracks(p, r, seen, scan) && Settled(p, r, seen)
    ensures var q := ParseChunks(p, chunks, scan);
            Tracks(q, r, seen + Concat(chunks), scan) && Settled(q, r, seen + Concat(chunks))
    decreases |chunks|
  {
    hide ConfidenceHeader, GenerationHeader, FollowupHeader, IsHeader, OccursAt, Tracks, Settled, Text;
    if chunks == [] {
      assert seen + Concat(chunks) == seen;
    } else {
      var now := seen + chunks[0];
      ConcatFront(chunks);
      assert seen + Concat(chunks) == now + Concat(chunks[1..]);
      assert now <= Text(r);
      MoreText(p, r, seen, chunks[0], scan);
      LoopKeeps(p.(buffer := p.buffer + chunks[0]), r, now, scan);
      ChunksKeep(ParseChunk(p, chunks[0], scan), r, now, chunks[1..], scan);
    }
  }
}
