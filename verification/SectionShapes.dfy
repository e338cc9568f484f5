/** Responses of other shapes, for every setting of the parser and every way of cutting them:
    without any header, with text in front of the first header, without a Confidence or a
    Follow-up section, and ending in an unfinished header line or in the Confidence section. */
module SectionShapes {
  import opened Wrappers
  import opened Strings
  import opened Whitespace
  import opened TextSearch
  import opened Sections
  import opened SectionParser
  import opened SectionStreaming
  import opened SectionBatch
  import opened SectionAgreement

  function StreamedWith(withConfidence: bool, withFollowup: bool, chunks: seq<string>, scan: string -> Option<real>): Parser {
    Flush(ParseChunks(NewParser(withConfidence, withFollowup), chunks, scan), scan)
  }

  // ----- In front of the first header

  /** No line of the text starts with a header that the parser looks for. */
  predicate Headerless(text: string, withConfidence: bool, withFollowup: bool) {
    && (withConfidence ==> FindHeader(text, ConfidenceHeader()) == -1)
    && FindHeader(text, GenerationHeader()) == -1
    && (withFollowup ==> FindHeader(text, FollowupHeader()) == -1)
  }

  lemma NoHeaderInPrefix(text: string, n: nat, header: string)
    requires n <= |text| && FindHeader(text, header) == -1
    ensures FindHeader(text[..n], header) == -1
  {
    var k := FindHeader(text[..n], header);
    if k >= 0 {
      OccursInPrefix(text, n, header, k, true);
    }
  }

  lemma HeaderlessPrefix(text: string, n: nat, withConfidence: bool, withFollowup: bool)
    requires n <= |text| && Headerless(text, withConfidence, withFollowup)
    ensures Headerless(text[..n], withConfidence, withFollowup)
  {
    NoHeaderInPrefix(text, n, GenerationHeader());
    hide FindFrom;
    if withConfidence {
      NoHeaderInPrefix(text, n, ConfidenceHeader());
    }
    if withFollowup {
      NoHeaderInPrefix(text, n, FollowupHeader());
    }
  }

  /** Without a header the parser only collects the text. */
  lemma HeaderlessWaits(p: Parser, scan: string -> Option<real>)
    requires p.section == NoSection && !p.pendingHeaderSkip && Headerless(p.buffer, p.withConfidence, p.withFollowup)
    ensures Loop(p, scan) == p
  {
    HeaderlessLocates(p);
    hide FindFrom, ConfidenceHeader, GenerationHeader, FollowupHeader, LocateGeneration, SkipHeaderLine;
    assert Accumulate(p) == p by {
      hide StreamWithLookahead;
    }
    hide Accumulate;
    assert Step(p, scan) == Wait(p);
  }

  lemma HeaderlessLocates(p: Parser)
    requires p.section == NoSection && FindHeader(p.buffer, GenerationHeader()) == -1
    ensures LocateGeneration(p) == (p, -1)
  {
    hide FindFrom, GenerationHeader, FindHeaderInCombined;
  }

  lemma {:induction false} HeaderlessCollects(p: Parser, chunks: seq<string>, scan: string -> Option<real>)
    requires p.section == NoSection && !p.pendingHeaderSkip
    requires Headerless(p.buffer + Concat(chunks), p.withConfidence, p.withFollowup)
    ensures ParseChunks(p, chunks, scan) == p.(buffer := p.buffer + Concat(chunks))
    decreases |chunks|
  {
    hide Headerless, Loop;
    var all := p.buffer + Concat(chunks);
    if chunks == [] {
      assert all == p.buffer;
    } else {
      var q := p.(buffer := p.buffer + chunks[0]);
      ConcatFront(chunks);
      assert all == q.buffer + Concat(chunks[1..]);
      assert all[..|q.buffer|] == q.buffer;
      HeaderlessPrefix(all, |q.buffer|, p.withConfidence, p.withFollowup);
      HeaderlessWaits(q, scan);
      HeaderlessCollects(q, chunks[1..], scan);
    }
  }

  /** A response without a header the parser looks for is the generation: one event with all of
      it, trimmed and without an end token, however it is cut. */
  lemma HeaderlessIsGeneration(withConfidence: bool, withFollowup: bool, chunks: seq<string>, scan: string -> Option<real>)
    requires Headerless(Concat(chunks), withConfidence, withFollowup)
    ensures var p := StreamedWith(withConfidence, withFollowup, chunks, scan);
            var text := StripModelEndTokens(Concat(chunks));
            && p.events == (if text == "" then [] else [GenerationEvent(text)])
            && p.generationBuffer == text && p.followUpBuffer == ""
            && (GenerationSection !in SectionsOf(Concat(chunks)) ==> text == StructuredOf(Concat(chunks), scan).generation)
  {
    hide Headerless, Lines, SplitLines, TrimSpace, StripTokens;
    var p := NewParser(withConfidence, withFollowup);
    assert p.buffer + Concat(chunks) == Concat(chunks);
    HeaderlessCollects(p, chunks, scan);
    EmptyStripsToNothing();
  }

  lemma EmptyStripsToNothing()
    ensures StripModelEndTokens("") == ""
  {
    NothingTrimmed();
  }

  // ----- Cuttings

  lemma NextChunk(seen: string, chunks: seq<string>, text: string)
    requires seen + Concat(chunks) == text && |seen| < |text|
    ensures chunks != [] && seen + chunks[0] <= text && seen + chunks[0] + Concat(chunks[1..]) == text
  {
    ConcatFront(chunks);
    var now := seen + chunks[0];
    assert now + Concat(chunks[1..]) == text;
    assert text[..|now|] == now;
  }

  /** Cutting off a front that has arrived. */
  lemma WithoutFront(n: nat, now: string, chunks: seq<string>, text: string)
    requires now + Concat(chunks) == text && n <= |now|
    ensures Concat([now[n..]] + chunks) == text[n..]
  {
    ConcatFront([now[n..]] + chunks);
    assert ([now[n..]] + chunks)[1..] == chunks;
    assert now[n..] + Concat(chunks) == text[n..];
  }

  // ----- Header lines

  lemma UnfinishedLine(line: string, part: string)
    requires '\n' !in line && part <= line
    ensures SkipHeaderLine(part) == None
  {
    forall i | 0 <= i < |part|
      ensures part[i] != '\n'
    {
      assert part[i] == line[i];
    }
    SkipsHeaderLine(part, "");
  }

  lemma LineArrives(d: Parser, line: string, now: string, rest: string)
    requires '\n' !in line && now <= line + "\n" + rest && d.buffer == ""
    ensures SkipHeader(d.(buffer := now))
         == if |now| <= |line| then Wait(d.(buffer := now, pendingHeaderSkip := true))
            else Again(d.(buffer := now[|line| + 1..], pendingHeaderSkip := false))
  {
    hide SkipHeaderLine;
    if |now| <= |line| {
      assert now == (line + "\n" + rest)[..|now|] == line[..|now|];
      UnfinishedLine(line, now);
    } else {
      assert (line + "\n")[..] == (line + "\n" + rest)[..|line| + 1] == now[..|line| + 1];
      assert now == line + "\n" + now[|line| + 1..];
      SkipsHeaderLine(line, now[|line| + 1..]);
    }
  }

  /** A parser that waits for the rest of a header line turns as one that has just found it. */
  lemma SameTurn(d: Parser, p: Parser, now: string, scan: string -> Option<real>)
    requires Step(p, scan) == SkipHeader(d.(buffer := now))
    ensures Loop(p, scan) == Loop(d.(buffer := now, pendingHeaderSkip := true), scan)
  {
    hide SkipHeaderLine;
    var q := d.(buffer := now, pendingHeaderSkip := true);
    assert Step(q, scan) == SkipHeader(d.(buffer := now));
    hide Step, SkipHeader;
  }

  lemma LineTurn(d: Parser, line: string, part: string, chunk: string, rest: string, scan: string -> Option<real>)
    requires d.buffer == "" && !d.pendingHeaderSkip && '\n' !in line && part + chunk <= line + "\n" + rest
    ensures ParseChunk(d.(buffer := part, pendingHeaderSkip := true), chunk, scan)
         == if |part + chunk| <= |line| then d.(buffer := part + chunk, pendingHeaderSkip := true)
            else ParseChunk(d, (part + chunk)[|line| + 1..], scan)
  {
    var now := part + chunk;
    var q := d.(buffer := now, pendingHeaderSkip := true);
    assert Step(q, scan) == SkipHeader(d.(buffer := now)) by {
      hide SkipHeaderLine;
    }
    hide Step, SkipHeader;
    LineArrives(d, line, now, rest);
    if |now| > |line| {
      var behind := now[|line| + 1..];
      assert "" + behind == behind;
      LoopsOn(q, d.(buffer := behind), scan);
    }
  }

  /** A pending header line is left behind once it is complete. */
  lemma {:induction false} LinePasses(d: Parser, line: string, part: string, rest: string, chunks: seq<string>, scan: string -> Option<real>)
    returns (later: seq<string>)
    requires d.buffer == "" && !d.pendingHeaderSkip && '\n' !in line && |part| <= |line|
    requires part + Concat(chunks) == line + "\n" + rest
    ensures Concat(later) == rest
    ensures ParseChunks(d.(buffer := part, pendingHeaderSkip := true), chunks, scan) == ParseChunks(d, later, scan)
    decreases |chunks|
  {
    hide ParseChunk;
    var text := line + "\n" + rest;
    ConcatFront(chunks);
    var now := part + chunks[0];
    assert now + Concat(chunks[1..]) == text;
    assert text[..|now|] == now;
    LineTurn(d, line, part, chunks[0], rest, scan);
    if |now| <= |line| {
      later := LinePasses(d, line, now, rest, chunks[1..], scan);
    } else {
      later := [now[|line| + 1..]] + chunks[1..];
      ConcatFront(later);
      assert now[|line| + 1..] + Concat(chunks[1..]) == rest;
    }
  }

  lemma {:induction false} LineStays(d: Parser, line: string, part: string, chunks: seq<string>, scan: string -> Option<real>)
    requires d.buffer == "" && !d.pendingHeaderSkip && '\n' !in line && part + Concat(chunks) == line
    ensures ParseChunks(d.(buffer := part, pendingHeaderSkip := true), chunks, scan) == d.(buffer := line, pendingHeaderSkip := true)
    decreases |chunks|
  {
    hide ParseChunk;
    if chunks == [] {
      assert part == line;
    } else {
      var now := part + chunks[0];
      ConcatFront(chunks);
      assert now + Concat(chunks[1..]) == line;
      LineTurn(d, line, part, chunks[0], "", scan);
      LineStays(d, line, now, chunks[1..], scan);
    }
  }

  // ----- The first header

  function SectionOf(header: string): Section {
    if header == ConfidenceHeader() then ConfidenceSection
    else if header == GenerationHeader() then GenerationSection
    else FollowupSection
  }

  /** The settings of the parser, what stands in front of the first header, and the header. */
  datatype Opening = Opening(withConfidence: bool, withFollowup: bool, preamble: string, header: string) {
    function Fresh(): Parser {
      NewParser(withConfidence, withFollowup)
    }

    /** The parser as it enters the section. */
    function Entered(): Parser {
      Fresh().(section := SectionOf(header))
    }

    /** The header is the first one in the text, and what comes behind it has no header that the
        parser looks for before this one. */
    predicate Clear(behind: string) {
      && (header == ConfidenceHeader() || header == GenerationHeader() || header == FollowupHeader())
      && EndsLine(preamble) && Headerless(preamble, withConfidence, withFollowup)
      && (header == ConfidenceHeader() ==> withConfidence)
      && (header == FollowupHeader() ==> withFollowup && FindHeader(preamble + header + behind, GenerationHeader()) == -1)
      && (header != ConfidenceHeader() && withConfidence ==> FindHeader(preamble + header + behind, ConfidenceHeader()) == -1)
    }
  }

  lemma HeadersDiffer()
    ensures !(ConfidenceHeader() <= GenerationHeader()) && !(ConfidenceHeader() <= FollowupHeader())
    ensures !(GenerationHeader() <= ConfidenceHeader()) && !(GenerationHeader() <= FollowupHeader())
    ensures !(FollowupHeader() <= ConfidenceHeader()) && !(FollowupHeader() <= GenerationHeader())
  {
    assert ConfidenceHeader()[3] == 'C' && GenerationHeader()[3] == 'G' && FollowupHeader()[3] == 'F';
  }

  /** One header before another, both at the start of a line, is not seen early. */
  lemma NotSeenYet(preamble: string, header: string, pattern: string, n: nat)
    requires EndsLine(preamble) && IsHeader(header) && IsHeader(pattern) && FindHeader(preamble, pattern) == -1
    requires n < |preamble| + |header| && (pattern != header ==> !(pattern <= header))
    ensures FindHeader((preamble + header)[..n], pattern) == -1
  {
    hide FindFrom, IsHeader;
    UnseenFromStart(preamble, pattern);
    NoHeaderBeforeComplete(preamble, header, pattern, 0, n);
    assert (preamble + header)[0..n] == (preamble + header)[..n];
  }

  lemma HeaderlessBeforeHeader(o: Opening, behind: string, n: nat)
    requires o.Clear(behind) && n < |o.preamble| + |o.header|
    ensures Headerless((o.preamble + o.header)[..n], o.withConfidence, o.withFollowup)
  {
    HeadersAreHeaders();
    HeadersDiffer();
    hide ConfidenceHeader, GenerationHeader, FollowupHeader, IsHeader, FindFrom, EndsLine;
    NotSeenYet(o.preamble, o.header, GenerationHeader(), n);
    if o.withConfidence {
      NotSeenYet(o.preamble, o.header, ConfidenceHeader(), n);
    }
    if o.withFollowup {
      NotSeenYet(o.preamble, o.header, FollowupHeader(), n);
    }
  }

  lemma HeaderAlone(o: Opening, behind: string)
    requires o.Clear(behind)
    ensures EndsLine(o.preamble) && IsHeader(o.header) && Unseen(o.preamble, o.header, 0)
    ensures o.header != ConfidenceHeader() && o.withConfidence ==> FindHeader(o.preamble + o.header + behind, ConfidenceHeader()) == -1
    ensures o.header == FollowupHeader() ==> FindHeader(o.preamble + o.header + behind, GenerationHeader()) == -1
  {
    HeadersAreHeaders();
    hide ConfidenceHeader, GenerationHeader, FollowupHeader, IsHeader, FindFrom, EndsLine;
    UnseenFromStart(o.preamble, o.header);
  }

  /** What the parser finds once the whole header has arrived. */
  lemma HeaderSeen(o: Opening, behind: string, seen: string, rest: string)
    requires o.Clear(behind) && seen <= o.preamble + o.header + behind && seen == o.preamble + o.header + rest
    ensures FindHeader(seen, o.header) == |o.preamble| && seen[|o.preamble|..] == o.header + rest
    ensures o.header != ConfidenceHeader() && o.withConfidence ==> FindHeader(seen, ConfidenceHeader()) == -1
    ensures o.header == FollowupHeader() ==> FindHeader(seen, GenerationHeader()) == -1
  {
    hide *;
    HeaderAlone(o, behind);
    HeaderPlaced(seen, o.preamble, o.header, rest);
    if o.header != ConfidenceHeader() && o.withConfidence {
      NotInFront(o.preamble + o.header + behind, seen, ConfidenceHeader());
    }
    if o.header == FollowupHeader() {
      NotInFront(o.preamble + o.header + behind, seen, GenerationHeader());
    }
  }

  lemma HeaderPlaced(seen: string, preamble: string, header: string, rest: string)
    requires EndsLine(preamble) && IsHeader(header) && Unseen(preamble, header, 0) && seen == preamble + header + rest
    ensures FindHeader(seen, header) == |preamble| && seen[|preamble|..] == header + rest
  {
    hide IsHeader, FindFrom, EndsLine, Unseen;
    assert "" + seen == seen;
    HeaderFound("", seen, preamble, header, rest);
  }

  lemma NotInFront(text: string, seen: string, header: string)
    requires seen <= text && FindHeader(text, header) == -1
    ensures FindHeader(seen, header) == -1
  {
    hide FindFrom;
    assert text[..|seen|] == seen;
    NoHeaderInPrefix(text, |seen|, header);
  }

  /** The turn in which a parser that has found nothing yet finds a header. */
  lemma StepEntersSection(p: Parser, header: string, i: nat, scan: string -> Option<real>)
    requires p.section == NoSection && !p.pendingHeaderSkip && !p.confidenceDone && FindHeader(p.buffer, header) == i
    requires header == ConfidenceHeader() || header == GenerationHeader() || header == FollowupHeader()
    requires header == ConfidenceHeader() ==> p.withConfidence
    requires header != ConfidenceHeader() && p.withConfidence ==> FindHeader(p.buffer, ConfidenceHeader()) == -1
    requires header == FollowupHeader() ==> p.withFollowup && FindHeader(p.buffer, GenerationHeader()) == -1
    ensures i <= |p.buffer|
    ensures Step(p, scan) == SkipHeader(p.(section := SectionOf(header), buffer := p.buffer[i..]))
  {
    HeadersDiffer();
    hide ConfidenceHeader, GenerationHeader, FollowupHeader, FindFrom, SkipHeader, TrimSpace;
  }

  lemma StillBefore(o: Opening, behind: string, seen: string, scan: string -> Option<real>)
    requires o.Clear(behind) && seen <= o.preamble + o.header + behind && |seen| < |o.preamble| + |o.header|
    ensures Loop(o.Fresh().(buffer := seen), scan) == o.Fresh().(buffer := seen)
  {
    hide ConfidenceHeader, GenerationHeader, FollowupHeader, FindFrom, EndsLine, Headerless, Loop;
    assert (o.preamble + o.header)[..|seen|] == (o.preamble + o.header + behind)[..|seen|] == seen;
    HeaderlessBeforeHeader(o, behind, |seen|);
    HeaderlessWaits(o.Fresh().(buffer := seen), scan);
  }

  lemma HeaderReachedIn(o: Opening, behind: string, seen: string, scan: string -> Option<real>)
    requires o.Clear(behind) && seen <= o.preamble + o.header + behind && |seen| >= |o.preamble| + |o.header|
    ensures Loop(o.Fresh().(buffer := seen), scan)
         == Loop(o.Entered().(buffer := seen[|o.preamble|..], pendingHeaderSkip := true), scan)
  {
    hide ConfidenceHeader, GenerationHeader, FollowupHeader, FindFrom, EndsLine, SkipHeader, Step, Headerless, Loop;
    RestOfPrefix(seen, o.preamble + o.header, behind);
    var rest := seen[|o.preamble + o.header|..];
    HeaderSeen(o, behind, seen, rest);
    StepEntersSection(o.Fresh().(buffer := seen), o.header, |o.preamble|, scan);
    SameTurn(o.Entered(), o.Fresh().(buffer := seen), o.header + rest, scan);
  }

  /** What stands in front of the first header is dropped: however the response is cut, the
      parser goes on as one that waits for the header line, with some cutting of the rest. */
  lemma {:induction false} HeaderArrives(o: Opening, behind: string, seen: string, chunks: seq<string>, scan: string -> Option<real>)
    returns (later: seq<string>)
    requires o.Clear(behind) && |seen| < |o.preamble| + |o.header|
    requires seen + Concat(chunks) == o.preamble + o.header + behind
    ensures Concat(later) == o.header + behind
    ensures ParseChunks(o.Fresh().(buffer := seen), chunks, scan)
         == ParseChunks(o.Entered().(pendingHeaderSkip := true), later, scan)
    decreases |chunks|
  {
    hide Loop, o.Clear, Concat, ConfidenceHeader, GenerationHeader, FollowupHeader;
    var text := o.preamble + o.header + behind;
    NextChunk(seen, chunks, text);
    var now := seen + chunks[0];
    if |now| < |o.preamble| + |o.header| {
      StillBefore(o, behind, now, scan);
      later := HeaderArrives(o, behind, now, chunks[1..], scan);
    } else {
      HeaderReachedIn(o, behind, now, scan);
      var part := now[|o.preamble|..];
      assert "" + part == part;
      later := [part] + chunks[1..];
      WithoutFront(|o.preamble|, now, chunks[1..], text);
      assert text[|o.preamble|..] == o.header + behind;
    }
  }

  lemma HeaderIsThere(o: Opening, behind: string)
    requires o.Clear(behind)
    ensures o.header != "" && '\n' !in o.header
  {
    HeadersAreHeaders();
    hide FindFrom, EndsLine, Headerless;
  }

  lemma LineWithoutFeed(header: string, tail: string)
    requires '\n' !in header && '\n' !in tail
    ensures '\n' !in header + tail
  {
  }

  lemma LineBehind(header: string, tail: string, rest: string)
    requires '\n' !in header && '\n' !in tail
    ensures header + (tail + "\n" + rest) == header + tail + "\n" + rest && '\n' !in header + tail
  {
  }

  lemma FromTheFront(chunks: seq<string>)
    ensures "" + Concat(chunks) == Concat(chunks)
  {
  }

  /** What stands in front of the first header and the rest of its line are dropped: however the
      response is cut, the parser does with what is behind the header line what it does with
      some cutting of it. */
  lemma EntersSection(o: Opening, tail: string, rest: string, chunks: seq<string>, scan: string -> Option<real>)
    returns (later: seq<string>)
    requires Concat(chunks) == o.preamble + o.header + (tail + "\n" + rest)
    requires o.Clear(tail + "\n" + rest) && '\n' !in tail
    ensures Concat(later) == rest
    ensures ParseChunks(o.Fresh(), chunks, scan) == ParseChunks(o.Entered(), later, scan)
  {
    HeaderIsThere(o, tail + "\n" + rest);
    FromTheFront(chunks);
    LineBehind(o.header, tail, rest);
    hide *;
    var line := HeaderArrives(o, tail + "\n" + rest, "", chunks, scan);
    later := EntersBehindLine(o, o.header + tail, rest, chunks, line, scan);
  }

  lemma EntersBehindLine(o: Opening, line: string, rest: string, chunks: seq<string>, part: seq<string>, scan: string -> Option<real>)
    returns (later: seq<string>)
    requires Concat(part) == line + "\n" + rest && '\n' !in line
    requires ParseChunks(o.Fresh().(buffer := ""), chunks, scan) == ParseChunks(o.Entered().(pendingHeaderSkip := true), part, scan)
    ensures Concat(later) == rest
    ensures ParseChunks(o.Fresh(), chunks, scan) == ParseChunks(o.Entered(), later, scan)
  {
    hide Concat, ParseChunks, SectionOf;
    assert "" + Concat(part) == Concat(part);
    later := LinePasses(o.Entered(), line, "", rest, part, scan);
  }

  /** A header line that was not finished has become the content of its section. */
  predicate LineIsContent(p: Parser, s: Section, line: string, scan: string -> Option<real>) {
    match s
    case ConfidenceSection => p.events == [ConfidenceEvent(ConfidenceOf(line, scan))] && p.followUpBuffer == ""
    case GenerationSection =>
      && p.events == (if StripModelEndTokens(line) == "" then [] else [GenerationEvent(StripModelEndTokens(line))])
      && p.followUpBuffer == ""
    case _ => p.events == [] && p.followUpBuffer == line
  }

  lemma FlushesLine(p: Parser, line: string, scan: string -> Option<real>)
    requires p.pendingHeaderSkip && p.buffer == line != "" && SkipHeaderLine(line) == None
    requires p.events == [] && p.confidenceBuffer == "" && p.generationBuffer == "" && p.followUpBuffer == "" && !p.confidenceDone
    requires p.section == ConfidenceSection || p.section == GenerationSection || p.section == FollowupSection
    ensures LineIsContent(Flush(p, scan), p.section, line, scan)
  {
    hide StripModelEndTokens, ConfidenceOf, SkipHeaderLine;
    assert "" + line == line;
  }

  /** A response that ends in its first header line: the line is taken for the content of the
      section, so the scores are those read off the header line itself. */
  lemma UnfinishedHeaderLine(o: Opening, tail: string, chunks: seq<string>, scan: string -> Option<real>)
    requires Concat(chunks) == o.preamble + o.header + tail && o.Clear(tail) && '\n' !in tail
    ensures var p := StreamedWith(o.withConfidence, o.withFollowup, chunks, scan);
            LineIsContent(p, SectionOf(o.header), o.header + tail, scan)
  {
    HeaderIsThere(o, tail);
    FromTheFront(chunks);
    LineWithoutFeed(o.header, tail);
    hide *;
    var later := HeaderArrives(o, tail, "", chunks, scan);
    FromTheFront(later);
    EndsWithLine(o, o.header + tail, chunks, later, scan);
  }

  lemma EndsWithLine(o: Opening, line: string, chunks: seq<string>, later: seq<string>, scan: string -> Option<real>)
    requires "" + Concat(later) == line != "" && '\n' !in line
    requires ParseChunks(o.Fresh().(buffer := ""), chunks, scan) == ParseChunks(o.Entered().(pendingHeaderSkip := true), later, scan)
    ensures LineIsContent(StreamedWith(o.withConfidence, o.withFollowup, chunks, scan), SectionOf(o.header), line, scan)
  {
    hide Loop, ParseChunks, Concat, ConfidenceHeader, GenerationHeader, FollowupHeader, SkipHeaderLine, Flush, LineIsContent;
    LineStays(o.Entered(), line, "", later, scan);
    UnfinishedLine(line, line);
    FlushesLine(o.Entered().(buffer := line, pendingHeaderSkip := true), line, scan);
  }

  // ----- The confidence section

  lemma NoTextInPart(text: string, a: nat, b: nat, pattern: string)
    requires a <= b <= |text| && Index(text, pattern) == -1
    ensures FindHeader(text[a..b], pattern) == -1
  {
    var k := FindHeader(text[a..b], pattern);
    if k >= 0 {
      OccursInWindow(text, a, b, pattern, k);
    }
  }

  lemma CombinedNowhere(acc: string, buffer: string, header: string)
    requires FindHeader(acc + buffer, header) == -1
    ensures FindHeaderInCombined(acc, buffer, header) == None
  {
  }

  lemma ConfidenceWaits(p: Parser, scan: string -> Option<real>)
    requires p.section == ConfidenceSection && !p.pendingHeaderSkip && !p.confidenceDone
    requires FindHeader(p.confidenceBuffer + p.buffer, GenerationHeader()) == -1
    requires p.withFollowup ==> FindHeader(p.buffer, FollowupHeader()) == -1
    ensures Loop(p, scan) == p.(confidenceBuffer := p.confidenceBuffer + p.buffer, buffer := "")
  {
    hide FindFrom, FindHeaderInCombined, ConfidenceHeader, GenerationHeader, FollowupHeader;
    CombinedNowhere(p.confidenceBuffer, p.buffer, GenerationHeader());
  }

  lemma {:induction false} ConfidenceCollects(p: Parser, chunks: seq<string>, scan: string -> Option<real>)
    requires p.section == ConfidenceSection && !p.pendingHeaderSkip && !p.confidenceDone && p.buffer == ""
    requires FindHeader(p.confidenceBuffer + Concat(chunks), GenerationHeader()) == -1
    requires p.withFollowup ==> Index(p.confidenceBuffer + Concat(chunks), FollowupHeader()) == -1
    ensures ParseChunks(p, chunks, scan) == p.(confidenceBuffer := p.confidenceBuffer + Concat(chunks))
    decreases |chunks|
  {
    hide FindFrom, ConfidenceHeader, GenerationHeader, FollowupHeader, Loop;
    var all := p.confidenceBuffer + Concat(chunks);
    if chunks == [] {
      assert all == p.confidenceBuffer;
    } else {
      ConcatFront(chunks);
      var acc := p.confidenceBuffer;
      var w := acc + chunks[0];
      assert all == w + Concat(chunks[1..]);
      assert all[..|w|] == w && all[|acc|..|w|] == chunks[0];
      NoHeaderInPrefix(all, |w|, GenerationHeader());
      if p.withFollowup {
        NoTextInPart(all, |acc|, |w|, FollowupHeader());
      }
      assert "" + chunks[0] == chunks[0];
      ConfidenceWaits(p.(buffer := chunks[0]), scan);
      ConfidenceCollects(p.(confidenceBuffer := w), chunks[1..], scan);
    }
  }

  /** A response that ends in its Confidence section, however it is cut: no event at all.  All of
      the section has been accumulated, and the end of the stream only looks at the buffer. */
  lemma EndsInConfidence(o: Opening, tail: string, rest: string, chunks: seq<string>, scan: string -> Option<real>)
    requires Concat(chunks) == o.preamble + o.header + (tail + "\n" + rest)
    requires o.Clear(tail + "\n" + rest) && '\n' !in tail && o.header == ConfidenceHeader()
    requires FindHeader(rest, GenerationHeader()) == -1
    requires o.withFollowup ==> Index(rest, FollowupHeader()) == -1
    ensures var p := StreamedWith(o.withConfidence, o.withFollowup, chunks, scan);
            p.events == [] && p.confidenceBuffer == rest
  {
    hide FindFrom, ConfidenceHeader, GenerationHeader, FollowupHeader, Loop, ParseChunks, o.Clear;
    var later := EntersSection(o, tail, rest, chunks, scan);
    assert "" + rest == rest;
    ConfidenceCollects(o.Entered(), later, scan);
  }

  /** The parser that has emitted the scores of a text and entered the generation. */
  function Scored(p: Parser, text: string, scan: string -> Option<real>): Parser {
    p.(section := GenerationSection, confidenceDone := true, confidenceBuffer := text,
       events := if text == "" then p.events else p.events + [ConfidenceEvent(ConfidenceOf(text, scan))])
  }

  /** The turn that finds the Generation header behind the confidence text. */
  lemma ConfidenceEnds(p: Parser, body: string, rest: string, scan: string -> Option<real>) returns (text: string)
    requires p.section == ConfidenceSection && !p.pendingHeaderSkip && !p.confidenceDone
    requires EndsLine(body) && FindHeader(body, GenerationHeader()) == -1
    requires |p.confidenceBuffer| < |body| + |GenerationHeader()|
    requires p.confidenceBuffer + p.buffer == body + GenerationHeader() + rest
    ensures body <= text < body + GenerationHeader()
    ensures Step(p, scan) == SkipHeader(Scored(p, text, scan).(buffer := GenerationHeader() + rest))
  {
    hide FindFrom, FindHeaderInCombined, ConfidenceHeader, GenerationHeader, FollowupHeader, EndsLine, ConfidenceOf, Step,
         SkipHeader;
    GenerationLocated(p.confidenceBuffer, p.buffer, body, rest);
    var found := FindHeaderInCombined(p.confidenceBuffer, p.buffer, GenerationHeader());
    text := p.confidenceBuffer + found.value.0;
    var q := p.(confidenceBuffer := text, buffer := GenerationHeader() + rest);
    StepEntersGeneration(p, q, scan);
    assert q.buffer[..0] == "" && q.buffer[0..] == q.buffer && text + "" == text;
    NothingTrimmed();
  }

  lemma ConfidenceContinues(p: Parser, chunk: string, body: string, behind: string, scan: string -> Option<real>)
    requires p.section == ConfidenceSection && !p.pendingHeaderSkip && !p.confidenceDone && p.buffer == ""
    requires EndsLine(body) && FindHeader(body, GenerationHeader()) == -1
    requires p.withFollowup ==> Index(body, FollowupHeader()) == -1
    requires p.confidenceBuffer + chunk <= body + GenerationHeader() + behind
    requires |p.confidenceBuffer| + |chunk| < |body| + |GenerationHeader()|
    ensures ParseChunk(p, chunk, scan) == p.(confidenceBuffer := p.confidenceBuffer + chunk)
  {
    GenerationHeaderIsHeader();
    PrefixOfFront(p.confidenceBuffer + chunk, body + GenerationHeader(), behind);
    assert "" + chunk == chunk;
    hide FindFrom, ConfidenceHeader, GenerationHeader, FollowupHeader, EndsLine, Loop, IsHeader;
    NotSeenYet(body, GenerationHeader(), GenerationHeader(), |p.confidenceBuffer + chunk|);
    if p.withFollowup {
      NoHeaderInConfidence(p.confidenceBuffer, chunk, body, behind);
    }
    ConfidenceWaits(p.(buffer := chunk), scan);
  }

  lemma PrefixOfFront(w: string, front: string, behind: string)
    requires w <= front + behind && |w| <= |front|
    ensures w == front[..|w|]
  {
  }

  /** The turns of the chunk that completes the header. */
  lemma ConfidenceCompletes(p: Parser, body: string, behind: string, scan: string -> Option<real>) returns (text: string)
    requires p.section == ConfidenceSection && !p.pendingHeaderSkip && !p.confidenceDone
    requires EndsLine(body) && FindHeader(body, GenerationHeader()) == -1
    requires |p.confidenceBuffer| < |body| + |GenerationHeader()| <= |p.confidenceBuffer| + |p.buffer|
    requires p.confidenceBuffer + p.buffer <= body + GenerationHeader() + behind
    ensures body <= text < body + GenerationHeader()
    ensures Loop(p, scan)
         == Loop(Scored(p, text, scan).(buffer := (p.confidenceBuffer + p.buffer)[|body|..], pendingHeaderSkip := true), scan)
  {
    hide FindFrom, ConfidenceHeader, GenerationHeader, FollowupHeader, EndsLine, Step, SkipHeader, ConfidenceOf, Loop;
    var w := p.confidenceBuffer + p.buffer;
    RestOfPrefix(w, body + GenerationHeader(), behind);
    var rest := w[|body + GenerationHeader()|..];
    assert w[|body|..] == GenerationHeader() + rest;
    text := ConfidenceEnds(p, body, rest, scan);
    SameTurn(Scored(p, text, scan), p, GenerationHeader() + rest, scan);
  }

  /** The Confidence section, however it is cut: its text, perhaps with the beginning of the next
      header, is scored once, and the parser goes on to the Generation header line. */
  lemma {:induction false} ConfidencePasses(p: Parser, body: string, behind: string, chunks: seq<string>, scan: string -> Option<real>)
    returns (text: string, later: seq<string>)
    requires p.section == ConfidenceSection && !p.pendingHeaderSkip && !p.confidenceDone && p.buffer == ""
    requires EndsLine(body) && FindHeader(body, GenerationHeader()) == -1
    requires p.withFollowup ==> Index(body, FollowupHeader()) == -1
    requires |p.confidenceBuffer| < |body| + |GenerationHeader()|
    requires p.confidenceBuffer + Concat(chunks) == body + GenerationHeader() + behind
    ensures body <= text < body + GenerationHeader() && Concat(later) == GenerationHeader() + behind
    ensures ParseChunks(p, chunks, scan) == ParseChunks(Scored(p, text, scan).(pendingHeaderSkip := true), later, scan)
    decreases |chunks|
  {
    hide FindFrom, ConfidenceHeader, GenerationHeader, FollowupHeader, EndsLine, Loop, ConfidenceOf, Concat;
    var all := body + GenerationHeader() + behind;
    NextChunk(p.confidenceBuffer, chunks, all);
    var w := p.confidenceBuffer + chunks[0];
    if |w| < |body| + |GenerationHeader()| {
      ConfidenceContinues(p, chunks[0], body, behind, scan);
      text, later := ConfidencePasses(p.(confidenceBuffer := w), body, behind, chunks[1..], scan);
    } else {
      assert "" + chunks[0] == chunks[0];
      text := ConfidenceCompletes(p.(buffer := chunks[0]), body, behind, scan);
      var part := w[|body|..];
      assert "" + part == part;
      later := [part] + chunks[1..];
      WithoutFront(|body|, w, chunks[1..], all);
      assert all[|body|..] == GenerationHeader() + behind;
    }
  }
}
