/** What the batch parser reads off any text: of the sections with one name the last one, and of
    the lines with one score the last one that gives a number in range. */
module BatchReading {
  import opened Wrappers
  import opened Whitespace
  import opened Sections
  import opened SectionBatch

  // ----- Sections

  predicate Opens(line: string, x: Section) {
    IsHeaderLine(line) && SectionNamed(TrimSpace(line[3..])) == x
  }

  predicate NoneOpens(lines: seq<string>, x: Section) {
    forall i :: 0 <= i < |lines| ==> !Opens(lines[i], x)
  }

  /** Lines that do not open a section again leave it as it was saved. */
  lemma {:induction false} Unopened(s: Split, lines: seq<string>, x: Section)
    requires s.current != x && NoneOpens(lines, x)
    ensures var m := SplitLines(s, lines).Saved();
            (x in m <==> x in s.sections) && (x in m ==> m[x] == s.sections[x])
    decreases |lines|
  {
    hide IsHeaderLine, SectionNamed, TrimSpace, JoinLines;
    if lines != [] {
      assert !Opens(lines[0], x);
      assert NoneOpens(lines[1..], x);
      Unopened(s.Line(lines[0]), lines[1..], x);
    }
  }

  /** A section that no header line names is not found. */
  lemma SectionIsNamed(text: string, x: Section)
    requires x != NoSection && NoneOpens(Lines(text), x)
    ensures x !in SectionsOf(text)
  {
    hide NoneOpens, SplitLines, Lines;
    Unopened(Start(), Lines(text), x);
  }

  /** A section is what stands between the last header line that names it and the next header
      line of any name, or the end. */
  lemma SectionIsLastNamed(text: string, x: Section, i: nat, j: nat)
    requires x != NoSection && i < j <= |Lines(text)| && Opens(Lines(text)[i], x)
    requires NoneOpens(Lines(text)[i + 1..], x)
    requires forall k :: i < k < j ==> !IsHeaderLine(Lines(text)[k])
    requires j < |Lines(text)| ==> IsHeaderLine(Lines(text)[j])
    ensures x in SectionsOf(text) && SectionsOf(text)[x] == JoinLines(Lines(text)[i + 1..j])
  {
    var lines := Lines(text);
    hide Lines;
    var before, body, behind := lines[..i], lines[i + 1..j], lines[j..];
    Pieces(lines, i, j);
    assert forall k :: 0 <= k < |body| ==> body[k] == lines[i + 1 + k];
    LastNamed(Start(), before, lines[i], body, behind, x);
  }

  lemma Pieces(lines: seq<string>, i: nat, j: nat)
    requires i < j <= |lines|
    ensures lines == lines[..i] + (([lines[i]] + lines[i + 1..j]) + lines[j..])
    ensures lines[i + 1..] == lines[i + 1..j] + lines[j..]
  {
  }

  lemma LastNamed(s: Split, before: seq<string>, header: string, body: seq<string>, behind: seq<string>, x: Section)
    requires x != NoSection && Opens(header, x) && NoneOpens(body + behind, x)
    requires forall k :: 0 <= k < |body| ==> !IsHeaderLine(body[k])
    requires behind != [] ==> IsHeaderLine(behind[0])
    ensures var m := SplitLines(s, before + (([header] + body) + behind)).Saved(); x in m && m[x] == JoinLines(body)
  {
    var t := SplitLines(s, before);
    SplitLinesAppend(s, before, ([header] + body) + behind);
    SplitLinesAppend(t, [header] + body, behind);
    OneSection(t, header, body);
    var u := Split(t.Saved(), x, body);
    assert forall k :: 0 <= k < |behind| ==> behind[k] == (body + behind)[|body| + k];
    hide SplitLines, SectionNamed, TrimSpace, JoinLines, IsHeaderLine;
    Closes(u, behind, x);
  }

  lemma Closes(u: Split, behind: seq<string>, x: Section)
    requires u.current == x != NoSection && NoneOpens(behind, x) && (behind != [] ==> IsHeaderLine(behind[0]))
    ensures var m := SplitLines(u, behind).Saved(); x in m && m[x] == JoinLines(u.content)
  {
    hide SectionNamed, TrimSpace, JoinLines, IsHeaderLine;
    if behind != [] {
      assert !Opens(behind[0], x);
      assert NoneOpens(behind[1..], x);
      Unopened(u.Line(behind[0]), behind[1..], x);
    }
  }

  lemma TitleOpens(line: string, title: string, x: Section)
    requires line == "## " + title && title != "" && SectionNamed(title) == x
    requires 33 <= title[0] as int < 127 && 33 <= title[|title| - 1] as int < 127
    ensures Opens(line, x)
  {
    hide TrimSpace, SectionNamed;
    HeaderName(line, title);
  }

  /** The titles that both parsers know. */
  lemma TitlesOpen()
    ensures Opens("## Confidence", ConfidenceSection) && Opens("## Generation", GenerationSection)
    ensures Opens("## Follow-up Questions", FollowupSection)
  {
    hide Opens;
    TitleOpens("## Confidence", "Confidence", ConfidenceSection);
    TitleOpens("## Generation", "Generation", GenerationSection);
    TitleOpens("## Follow-up Questions", "Follow-up Questions", FollowupSection);
  }

  /** The titles that only the batch parser knows, and one that it does not know. */
  lemma OtherTitlesOpen()
    ensures Opens("## Reasoning", ReasoningSection) && Opens("## Classification Result", ClassificationSection)
    ensures Opens("## Follow-up", FollowupSection) && Opens("## Answer", NoSection)
  {
    hide Opens;
    TitleOpens("## Reasoning", "Reasoning", ReasoningSection);
    TitleOpens("## Classification Result", "Classification Result", ClassificationSection);
    TitleOpens("## Follow-up", "Follow-up", FollowupSection);
    TitleOpens("## Answer", "Answer", NoSection);
  }

  /** White space around a title does not count. */
  lemma SpacedTitle(line: string, title: string, x: Section, w: string, w': string)
    requires line == "## " + (w + (title + w')) && IsHeaderLine(line) && IsSpace(w) && IsSpace(w')
    requires LeadingSpace(title) == 0 && TrailingSpace(title) == 0
    ensures Opens(line, x) <==> SectionNamed(title) == x
  {
    assert line[3..] == w + (title + w');
    hide TrimSpace, IsHeaderLine, SectionNamed, IsSpace, LeadingSpace, TrailingSpace;
    TrimSpaceBefore(w, title + w');
    TrimSpaceAfter(title, w');
    TrimSpaceFixed(title);
  }

  // ----- Scores

  /** The line gives a score: behind the prefix, the rest scans as a number from 0 to 1. */
  predicate Gives(line: string, prefix: string, scan: string -> Option<real>) {
    var t := TrimSpace(line);
    prefix <= t && scan(TrimSpace(t[|prefix|..])).Some? && 0.0 <= scan(TrimSpace(t[|prefix|..])).value <= 1.0
  }

  function Given(line: string, prefix: string, scan: string -> Option<real>): real
    requires Gives(line, prefix, scan)
  {
    scan(TrimSpace(TrimSpace(line)[|prefix|..])).value
  }

  predicate NoneGives(lines: seq<string>, prefix: string, scan: string -> Option<real>) {
    forall i :: 0 <= i < |lines| ==> !Gives(lines[i], prefix, scan)
  }

  function GenerationPrefix(): string { "Generation Confidence:" }

  function RelevancePrefix(): string { "Context Relevance:" }

  lemma OneScoreLine(r: Scores, line: string, scan: string -> Option<real>)
    ensures var q := ScoreLine(r, line, scan);
            && q.generationConfidence == (if Gives(line, GenerationPrefix(), scan) then Given(line, GenerationPrefix(), scan)
                                          else r.generationConfidence)
            && q.contextRelevance == (if Gives(line, RelevancePrefix(), scan) then Given(line, RelevancePrefix(), scan)
                                      else r.contextRelevance)
  {
    hide TrimSpace;
  }

  lemma {:induction false} ScoresStay(r: Scores, lines: seq<string>, scan: string -> Option<real>)
    ensures var q := ScoreLines(r, lines, scan);
            && (NoneGives(lines, GenerationPrefix(), scan) ==> q.generationConfidence == r.generationConfidence)
            && (NoneGives(lines, RelevancePrefix(), scan) ==> q.contextRelevance == r.contextRelevance)
    decreases |lines|
  {
    hide ScoreLine, Gives, GenerationPrefix, RelevancePrefix;
    if lines != [] {
      OneScoreLine(r, lines[0], scan);
      ScoresStay(ScoreLine(r, lines[0], scan), lines[1..], scan);
      assert NoneGives(lines, GenerationPrefix(), scan) ==> NoneGives(lines[1..], GenerationPrefix(), scan);
      assert NoneGives(lines, RelevancePrefix(), scan) ==> NoneGives(lines[1..], RelevancePrefix(), scan);
    }
  }

  /** Without a line that gives one, a score is one half. */
  lemma DefaultScores(text: string, scan: string -> Option<real>)
    ensures NoneGives(Lines(text), GenerationPrefix(), scan) ==> ConfidenceOf(text, scan).generationConfidence == 0.5
    ensures NoneGives(Lines(text), RelevancePrefix(), scan) ==> ConfidenceOf(text, scan).contextRelevance == 0.5
  {
    hide Lines, NoneGives, GenerationPrefix, RelevancePrefix, ConfidenceOf;
    ConfidenceIgnoresTrim(text, scan);
    ScoresStay(DEFAULT_SCORES, Lines(text), scan);
  }

  /** The last line that gives a score decides it. */
  lemma ScoreIsLastGiven(text: string, i: nat, scan: string -> Option<real>)
    requires i < |Lines(text)|
    ensures Gives(Lines(text)[i], GenerationPrefix(), scan) && NoneGives(Lines(text)[i + 1..], GenerationPrefix(), scan)
        ==> ConfidenceOf(text, scan).generationConfidence == Given(Lines(text)[i], GenerationPrefix(), scan)
    ensures Gives(Lines(text)[i], RelevancePrefix(), scan) && NoneGives(Lines(text)[i + 1..], RelevancePrefix(), scan)
        ==> ConfidenceOf(text, scan).contextRelevance == Given(Lines(text)[i], RelevancePrefix(), scan)
  {
    var lines := Lines(text);
    hide Lines, NoneGives, GenerationPrefix, RelevancePrefix, ConfidenceOf, Gives, ScoreLine;
    ConfidenceIgnoresTrim(text, scan);
    var r := ScoreLines(DEFAULT_SCORES, lines[..i], scan);
    assert lines == lines[..i] + lines[i..] && lines[i..][1..] == lines[i + 1..] && lines[i..][0] == lines[i];
    ScoreLinesAppend(DEFAULT_SCORES, lines[..i], lines[i..], scan);
    OneScoreLine(r, lines[i], scan);
    ScoresStay(ScoreLine(r, lines[i], scan), lines[i + 1..], scan);
  }
}
