/** The batch parser of a complete model response: splitting into markdown sections, reading
    the confidence scores and stripping end-of-turn tokens. */
module Sections {
  import opened Wrappers
  import opened Whitespace

  datatype Section = NoSection | ConfidenceSection | ReasoningSection | ClassificationSection | GenerationSection | FollowupSection

  datatype Scores = Scores(generationConfidence: real, contextRelevance: real)

  const DEFAULT_CONFIDENCE_SCORE := 0.5

  const MODEL_END_TOKENS := ["</end_of_turn>", "<end_of_turn>", "<|endoftext|>", "<|im_end|>", "<|eot_id|>"]

  // ----- Lines

  /** `strings.Split(text, "\n")`. */
  function Lines(text: string): (r: seq<string>)
    ensures r != []
  {
    if text == "" then [""]
    else
      var rest := Lines(text[1..]);
      if text[0] == '\n' then [""] + rest else [[text[0]] + rest[0]] + rest[1..]
  }

  /** `strings.Join(lines, "\n")`. */
  function JoinLines(lines: seq<string>): string {
    if lines == [] then "" else if |lines| == 1 then lines[0] else lines[0] + "\n" + JoinLines(lines[1..])
  }

  lemma {:induction false} LinesAppend(a: string, b: string)
    ensures Lines(a + "\n" + b) == Lines(a) + Lines(b)
  {
    var t := a + "\n" + b;
    if a == "" {
      assert t[1..] == b;
    } else {
      assert t[0] == a[0] && t[1..] == a[1..] + "\n" + b;
      LinesAppend(a[1..], b);
    }
  }

  lemma {:induction false} OneLine(a: string)
    requires '\n' !in a
    ensures Lines(a) == [a]
  {
    if a != "" {
      OneLine(a[1..]);
      assert a == [a[0]] + a[1..];
    }
  }

  /** Lines without a given byte come from a text without it. */
  lemma {:induction false} LinesAvoid(text: string, c: char)
    requires c !in text
    ensures forall i :: 0 <= i < |Lines(text)| ==> c !in Lines(text)[i]
  {
    if text != "" {
      LinesAvoid(text[1..], c);
    }
  }

  /** Splitting a text and joining its lines gives it back. */
  lemma {:induction false} JoinUndoesSplit(text: string)
    ensures JoinLines(Lines(text)) == text
  {
    if text != "" {
      var rest := Lines(text[1..]);
      JoinUndoesSplit(text[1..]);
      if text[0] == '\n' {
        assert ([""] + rest)[1..] == rest;
      } else {
        var first := [text[0]] + rest[0];
        assert ([first] + rest[1..])[1..] == rest[1..];
        assert |rest| > 1 ==> JoinLines(rest) == rest[0] + "\n" + JoinLines(rest[1..]);
        assert [text[0]] + (rest[0] + "\n" + JoinLines(rest[1..])) == first + "\n" + JoinLines(rest[1..]);
      }
      assert text == [text[0]] + text[1..];
    }
  }

  // ----- Sections

  predicate IsHeaderLine(line: string) {
    |line| >= 3 && line[0] == '#' && line[1] == '#' && line[2] == ' '
  }

  predicate NoHeaderLine(body: string) {
    forall i :: 0 <= i < |Lines(body)| ==> !IsHeaderLine(Lines(body)[i])
  }

  lemma {:induction false} FirstLine(text: string, n: nat)
    requires n <= |text| && '\n' !in text[..n]
    ensures text[..n] <= Lines(text)[0]
    decreases n
  {
    if n > 0 {
      assert text[0] == text[..n][0];
      assert text[1..][..n - 1] == text[..n][1..];
      FirstLine(text[1..], n - 1);
      assert text[..n] == [text[0]] + text[1..][..n - 1];
    }
  }

  /** A heading at the start of a line makes that line a header line. */
  lemma {:induction false} HeadingLine(text: string, i: nat) returns (l: nat)
    requires i + 3 <= |text| && (i == 0 || text[i - 1] == '\n') && IsHeaderLine(text[i..])
    ensures l < |Lines(text)| && IsHeaderLine(Lines(text)[l])
    ensures i > 0 ==> l > 0
    decreases i
  {
    if i == 0 {
      assert text[0..] == text;
      FirstLine(text, 3);
      assert Lines(text)[0][..3] == text[..3];
      hide Lines;
      l := 0;
    } else {
      assert text[1..][i - 1..] == text[i..];
      assert i > 1 ==> text[1..][i - 2] == text[i - 1];
      l := HeadingLine(text[1..], i - 1);
      if text[0] == '\n' {
        l := l + 1;
      }
    }
  }

  function SectionNamed(headerText: string): Section {
    if headerText == "Confidence" then ConfidenceSection
    else if headerText == "Reasoning" then ReasoningSection
    else if headerText == "Classification Result" then ClassificationSection
    else if headerText == "Generation" then GenerationSection
    else if headerText == "Follow-up Questions" || headerText == "Follow-up" then FollowupSection
    else NoSection
  }

  datatype Split = Split(sections: map<Section, string>, current: Section, content: seq<string>) {
    function Saved(): map<Section, string> {
      if current == NoSection then sections else sections[current := JoinLines(content)]
    }

    function Line(line: string): Split {
      if IsHeaderLine(line) then Split(Saved(), SectionNamed(TrimSpace(line[3..])), [])
      else if current != NoSection then this.(content := content + [line])
      else this
    }
  }

  function SplitLines(s: Split, lines: seq<string>): Split
    decreases |lines|
  {
    if lines == [] then s else SplitLines(s.Line(lines[0]), lines[1..])
  }

  function SectionsOf(text: string): map<Section, string> {
    SplitLines(Split(map[], NoSection, []), Lines(text)).Saved()
  }

  lemma {:induction false} SplitLinesAppend(s: Split, a: seq<string>, b: seq<string>)
    ensures SplitLines(s, a + b) == SplitLines(SplitLines(s, a), b)
    decreases |a|
  {
    if a == [] {
      assert a + b == b;
    } else {
      assert (a + b)[1..] == a[1..] + b;
      SplitLinesAppend(s.Line(a[0]), a[1..], b);
    }
  }

  /** Lines that are no headers become the content of the open section, in order. */
  lemma {:induction false} BodyLines(s: Split, lines: seq<string>)
    requires s.current != NoSection
    requires forall i :: 0 <= i < |lines| ==> !IsHeaderLine(lines[i])
    ensures SplitLines(s, lines) == s.(content := s.content + lines)
    decreases |lines|
  {
    if lines != [] {
      BodyLines(s.Line(lines[0]), lines[1..]);
      assert s.content + [lines[0]] + lines[1..] == s.content + lines;
    } else {
      assert s.content + lines == s.content;
    }
  }

  /** The loop over the lines that fills the map of sections. */
  method SplitIntoSections(text: string) returns (sections: map<Section, string>)
    ensures sections == SectionsOf(text)
  {
    sections := map[];
    var lines := Lines(text);
    var currentSection := NoSection;
    var currentContent: seq<string> := [];
    ghost var start := Split(map[], NoSection, []);
    for i := 0 to |lines|
      invariant SplitLines(Split(sections, currentSection, currentContent), lines[i..]) == SplitLines(start, lines)
    {
      var line := lines[i];
      assert lines[i..][1..] == lines[i + 1..];
      if |line| >= 3 && line[0] == '#' && line[1] == '#' && line[2] == ' ' {
        if currentSection != NoSection {
          sections := sections[currentSection := JoinLines(currentContent)];
        }
        currentSection := SectionNamed(TrimSpace(line[3..]));
        currentContent := [];
      } else if currentSection != NoSection {
        currentContent := currentContent + [line];
      }
    }
    if currentSection != NoSection {
      sections := sections[currentSection := JoinLines(currentContent)];
    }
  }

  // ----- Confidence scores

  /** The score after `prefix` on a line, when it is there, scans as a number and lies in
      [0, 1].  Number scanning is the standard library's: it is the parameter `scan`. */
  function ScoreAfter(line: string, prefix: string, old_: real, scan: string -> Option<real>): real {
    if prefix <= line then
      match scan(TrimSpace(line[|prefix|..]))
      case Some(v) => if 0.0 <= v <= 1.0 then v else old_
      case None => old_
    else old_
  }

  function ScoreLine(r: Scores, rawLine: string, scan: string -> Option<real>): Scores {
    var line := TrimSpace(rawLine);
    if line == "" then r
    else Scores(ScoreAfter(line, "Generation Confidence:", r.generationConfidence, scan),
                ScoreAfter(line, "Context Relevance:", r.contextRelevance, scan))
  }

  function ScoreLines(r: Scores, lines: seq<string>, scan: string -> Option<real>): Scores
    decreases |lines|
  {
    if lines == [] then r else ScoreLines(ScoreLine(r, lines[0], scan), lines[1..], scan)
  }

  const DEFAULT_SCORES := Scores(DEFAULT_CONFIDENCE_SCORE, DEFAULT_CONFIDENCE_SCORE)

  function ConfidenceOf(text: string, scan: string -> Option<real>): Scores {
    ScoreLines(DEFAULT_SCORES, Lines(TrimSpace(text)), scan)
  }

  /** Reads one score off a line, leaving the old one where the line does not give a new one. */
  method ReadScore(line: string, prefix: string, current: real, scan: string -> Option<real>) returns (value: real)
    ensures value == ScoreAfter(line, prefix, current, scan)
  {
    value := current;
    if prefix <= line {
      var scanned := scan(TrimSpace(line[|prefix|..]));
      if scanned.Some? && 0.0 <= scanned.value <= 1.0 {
        value := scanned.value;
      }
    }
  }

  method ParseConfidenceMarkdown(text: string, scan: string -> Option<real>) returns (result: Scores)
    ensures result == ConfidenceOf(text, scan)
  {
    hide TrimSpace, Lines, ScoreAfter;
    result := DEFAULT_SCORES;
    var lines := Lines(TrimSpace(text));
    for i := 0 to |lines|
      invariant ScoreLines(result, lines[i..], scan) == ConfidenceOf(text, scan)
    {
      assert lines[i..][1..] == lines[i + 1..];
      var line := TrimSpace(lines[i]);
      if line == "" {
        continue;
      }
      var generation := ReadScore(line, "Generation Confidence:", result.generationConfidence, scan);
      var relevance := ReadScore(line, "Context Relevance:", result.contextRelevance, scan);
      result := Scores(generation, relevance);
    }
  }

  lemma {:induction false} ScoreLinesAppend(r: Scores, a: seq<string>, b: seq<string>, scan: string -> Option<real>)
    ensures ScoreLines(r, a + b, scan) == ScoreLines(ScoreLines(r, a, scan), b, scan)
    decreases |a|
  {
    if a == [] {
      assert a + b == b;
    } else {
      assert (a + b)[1..] == a[1..] + b;
      ScoreLinesAppend(ScoreLine(r, a[0], scan), a[1..], b, scan);
    }
  }

  lemma BlankLineScoresNothing(r: Scores, scan: string -> Option<real>)
    ensures ScoreLine(r, "", scan) == r
  {
  }

  /** White space in front of the text scores nothing. */
  lemma ScoreSpaceBefore(r: Scores, w: string, t: string, scan: string -> Option<real>)
    requires IsSpace(w)
    ensures ScoreLines(r, Lines(w + t), scan) == ScoreLines(r, Lines(t), scan)
  {
    if w == "\n" {
      assert "" + "\n" + t == w + t;
      LinesAppend("", t);
      assert (Lines("") + Lines(t))[1..] == Lines(t);
    } else {
      assert '\n' !in w;
      FirstLinePrefix(w, t);
      var ls := Lines(t);
      TrimSpaceBefore(w, ls[0]);
      assert ([w + ls[0]] + ls[1..])[1..] == ls[1..];
    }
  }

  lemma {:induction false} FirstLinePrefix(w: string, t: string)
    requires '\n' !in w
    ensures Lines(w + t) == [w + Lines(t)[0]] + Lines(t)[1..]
  {
    if w == "" {
      assert w + t == t;
      assert w + Lines(t)[0] == Lines(t)[0];
      assert [Lines(t)[0]] + Lines(t)[1..] == Lines(t);
    } else {
      assert (w + t)[1..] == w[1..] + t;
      FirstLinePrefix(w[1..], t);
      assert [w[0]] + (w[1..] + Lines(t)[0]) == w + Lines(t)[0];
    }
  }

  /** White space after the text scores nothing. */
  lemma {:induction false} ScoreSpaceAfter(r: Scores, t: string, w: string, scan: string -> Option<real>)
    requires IsSpace(w)
    ensures ScoreLines(r, Lines(t + w), scan) == ScoreLines(r, Lines(t), scan)
  {
    if w == "\n" {
      assert t + "\n" + "" == t + w;
      LinesAppend(t, "");
      ScoreLinesAppend(r, Lines(t), [""], scan);
      BlankLineScoresNothing(ScoreLines(r, Lines(t), scan), scan);
    } else {
      assert '\n' !in w;
      LastLineSuffix(t, w);
      var ls := Lines(t);
      var init, last := ls[..|ls| - 1], ls[|ls| - 1];
      TrimSpaceAfter(last, w);
      ScoreLinesAppend(r, init, [last + w], scan);
      ScoreLinesAppend(r, init, [last], scan);
      assert ls == init + [last];
    }
  }

  /** A first line put in front of other lines. */
  function PrependToFirst(c: char, rest: seq<string>): seq<string>
    requires rest != []
  {
    if c == '\n' then [""] + rest else [[c] + rest[0]] + rest[1..]
  }

  function AppendToLast(ls: seq<string>, w: string): seq<string>
    requires ls != []
  {
    ls[..|ls| - 1] + [ls[|ls| - 1] + w]
  }

  lemma PrependAppend(c: char, rest: seq<string>, w: string)
    requires rest != []
    ensures PrependToFirst(c, AppendToLast(rest, w)) == AppendToLast(PrependToFirst(c, rest), w)
  {
    if c != '\n' && |rest| == 1 {
      assert [c] + (rest[0] + w) == [c] + rest[0] + w;
    }
  }

  lemma {:induction false} LastLineSuffix(t: string, w: string)
    requires '\n' !in w
    ensures Lines(t + w) == AppendToLast(Lines(t), w)
  {
    if t == "" {
      assert t + w == w;
      OneLine(w);
    } else {
      assert (t + w)[1..] == t[1..] + w;
      LastLineSuffix(t[1..], w);
      PrependAppend(t[0], Lines(t[1..]), w);
    }
  }

  lemma {:induction false} ScoreTrimLeft(r: Scores, t: string, scan: string -> Option<real>)
    ensures ScoreLines(r, Lines(TrimLeft(t)), scan) == ScoreLines(r, Lines(t), scan)
    decreases |t|
  {
    var n := LeadingSpace(t);
    if n > 0 {
      assert t == t[..n] + t[n..];
      ScoreSpaceBefore(r, t[..n], t[n..], scan);
      ScoreTrimLeft(r, t[n..], scan);
    }
  }

  lemma {:induction false} ScoreTrimRight(r: Scores, t: string, scan: string -> Option<real>)
    ensures ScoreLines(r, Lines(TrimRight(t)), scan) == ScoreLines(r, Lines(t), scan)
    decreases |t|
  {
    var n := TrailingSpace(t);
    if n > 0 {
      TrailingSpaceIsSpace(t);
      assert t == t[..|t| - n] + t[|t| - n..];
      ScoreSpaceAfter(r, t[..|t| - n], t[|t| - n..], scan);
      ScoreTrimRight(r, t[..|t| - n], scan);
    }
  }

  /** Trimming the text first does not change the scores: every line is trimmed anyway. */
  lemma ConfidenceIgnoresTrim(t: string, scan: string -> Option<real>)
    ensures ConfidenceOf(t, scan) == ScoreLines(DEFAULT_SCORES, Lines(t), scan)
  {
    ScoreTrimLeft(DEFAULT_SCORES, t, scan);
    ScoreTrimRight(DEFAULT_SCORES, TrimLeft(t), scan);
  }

  // ----- End tokens

  predicate EndsWith(s: string, suffix: string) {
    |suffix| <= |s| && s[|s| - |suffix|..] == suffix
  }

  function StripTokens(text: string, tokens: seq<string>): string {
    if tokens == [] then text
    else if EndsWith(text, tokens[0]) then TrimSpace(text[..|text| - |tokens[0]|])
    else StripTokens(text, tokens[1..])
  }

  function StripModelEndTokens(text: string): string {
    StripTokens(TrimSpace(text), MODEL_END_TOKENS)
  }

  predicate EndsInToken(text: string, tokens: seq<string>) {
    exists i :: 0 <= i < |tokens| && EndsWith(TrimSpace(text), tokens[i])
  }

  lemma {:induction false} StripTokensAlternatives(text: string, tokens: seq<string>)
    ensures (exists i :: 0 <= i < |tokens| && EndsWith(text, tokens[i]) && StripTokens(text, tokens) == TrimSpace(text[..|text| - |tokens[i]|]))
         || (StripTokens(text, tokens) == text && forall i :: 0 <= i < |tokens| ==> !EndsWith(text, tokens[i]))
  {
    if tokens != [] && !EndsWith(text, tokens[0]) {
      StripTokensAlternatives(text, tokens[1..]);
      if i :| 0 <= i < |tokens[1..]| && EndsWith(text, tokens[1..][i]) && StripTokens(text, tokens[1..]) == TrimSpace(text[..|text| - |tokens[1..][i]|]) {
        assert tokens[i + 1] == tokens[1..][i];
      } else {
        forall i | 0 <= i < |tokens|
          ensures !EndsWith(text, tokens[i])
        {
          if i > 0 {
            assert tokens[i] == tokens[1..][i - 1];
          }
        }
      }
    }
  }

  /** A token is made of bytes that are no white space and no continuation bytes. */
  predicate SolidText(t: string) {
    forall i :: 0 <= i < |t| ==> 33 <= t[i] as int < 127
  }

  predicate SolidToken(t: string) {
    t != "" && SolidText(t)
  }

  lemma {:induction false} SqueezeSolid(t: string)
    requires SolidText(t)
    ensures Squeeze(t) == t
    decreases |t|
  {
    if t != "" {
      assert LeadingSpace(t) == 0;
      var rest := t[1..];
      assert forall i :: 0 <= i < |rest| ==> rest[i] == t[i + 1];
      SqueezeSolid(rest);
      assert t == [t[0]] + rest;
    }
  }

  lemma StripTokensChangesOnlyTokens(t: string, tokens: seq<string>)
    requires forall i :: 0 <= i < |tokens| ==> SolidToken(tokens[i])
    ensures Squeeze(StripTokens(t, tokens)) == Squeeze(t) <==> forall i :: 0 <= i < |tokens| ==> !EndsWith(t, tokens[i])
  {
    StripTokensAlternatives(t, tokens);
    if i :| 0 <= i < |tokens| && EndsWith(t, tokens[i]) && StripTokens(t, tokens) == TrimSpace(t[..|t| - |tokens[i]|]) {
      var token := tokens[i];
      var head := t[..|t| - |token|];
      assert t == head + token;
      NoStraddleBeforeStart(head, token);
      SqueezeAppend(head, token);
      SqueezeSolid(token);
      SqueezeTrim(head);
    }
  }

  lemma EndTokensAreSolid()
    ensures forall i :: 0 <= i < |MODEL_END_TOKENS| ==> SolidToken(MODEL_END_TOKENS[i])
  {
    assert SolidToken("</end_of_turn>");
    assert SolidToken("<end_of_turn>");
    assert SolidToken("<|endoftext|>");
    assert SolidToken("<|im_end|>");
    assert SolidToken("<|eot_id|>");
  }

  lemma CutShrinks(t: string, token: string)
    requires EndsWith(t, token) && SolidToken(token)
    ensures |Squeeze(TrimSpace(t[..|t| - |token|]))| <= |Squeeze(t)|
  {
    var head := t[..|t| - |token|];
    assert t == head + token;
    NoStraddleBeforeStart(head, token);
    hide Squeeze, TrimSpace;
    SqueezeAppend(head, token);
    SqueezeTrim(head);
  }

  /** Stripping adds nothing. */
  lemma StripShrinks(text: string)
    ensures |Squeeze(StripModelEndTokens(text))| <= |Squeeze(text)|
  {
    EndTokensAreSolid();
    hide Squeeze, TrimSpace, StripTokens, SolidToken;
    SqueezeTrim(text);
    var t := TrimSpace(text);
    StripTokensAlternatives(t, MODEL_END_TOKENS);
    if i :| 0 <= i < |MODEL_END_TOKENS| && EndsWith(t, MODEL_END_TOKENS[i]) && StripTokens(t, MODEL_END_TOKENS) == TrimSpace(t[..|t| - |MODEL_END_TOKENS[i]|]) {
      CutShrinks(t, MODEL_END_TOKENS[i]);
    }
  }

  /** Stripping changes a text modulo white space exactly when it takes off a token. */
  lemma StripChangesOnlyTokens(text: string)
    ensures Squeeze(StripModelEndTokens(text)) == Squeeze(text) <==> !EndsInToken(text, MODEL_END_TOKENS)
  {
    SqueezeTrim(text);
    EndTokensAreSolid();
    StripTokensChangesOnlyTokens(TrimSpace(text), MODEL_END_TOKENS);
  }
}
