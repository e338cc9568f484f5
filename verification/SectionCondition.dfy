/** The exact condition under which the streaming parser agrees with the batch parser, however a
    response is cut. */
module SectionCondition {
  import opened Wrappers
  import opened Strings
  import opened Whitespace
  import opened TextSearch
  import opened Sections
  import opened SectionParser
  import opened SectionStreaming
  import opened SectionBatch
  import opened SectionAgreement
  import opened SectionCuts

  /** However the response is cut, what is streamed is what the batch parser reports. */
  ghost predicate AlwaysAgrees(r: Response, scan: string -> Option<real>) {
    forall chunks: seq<string> :: Concat(chunks) == Text(r) ==> Agrees(Streamed(chunks, scan), StructuredOf(Text(r), scan))
  }

  lemma AgreesOn(r: Response, chunks: seq<string>, scan: string -> Option<real>)
    requires AlwaysAgrees(r, scan)
    ensures Concat(chunks) == Text(r) ==> Agrees(Streamed(chunks, scan), StructuredOf(Text(r), scan))
  {
    hide Concat, Text, Agrees, Streamed, StructuredOf;
  }

  lemma NoTextInConfidence(r: Response, scan: string -> Option<real>)
    requires ThreeSections(r) && AlwaysAgrees(r, scan)
    ensures Index(r.confidence, FollowupHeader()) == -1
  {
    hide Text, Streamed, StructuredOf, Concat, ConfidenceCut, FindFrom, GenerationText, Squeeze, AlwaysAgrees;
    var k := Index(r.confidence, FollowupHeader());
    if k != -1 {
      ConfidenceIsLost(r, scan);
      AgreesOn(r, ConfidenceCut(r, k), scan);
      assert false;
    }
  }

  /** The batch parser has to recover the bodies, since one cut streams them. */
  lemma BodiesAreRecovered(r: Response, scan: string -> Option<real>)
    requires ThreeSections(r) && AlwaysAgrees(r, scan) && Index(r.confidence, FollowupHeader()) == -1
    ensures var batch := StructuredOf(Text(r), scan);
            && batch.followup == Some(r.followup)
            && Squeeze(batch.generation) == Squeeze(r.generation)
            && (r.confidence != "" ==> batch.scores == Some(ConfidenceOf(r.confidence, scan)))
  {
    FaithfulCutIsCut(r);
    FaithfulCutStreamsBodies(r, scan);
    hide Text, Streamed, StructuredOf, Concat, FaithfulCut, FindFrom, GenerationText, ConfidenceEvents,
         Squeeze, AlwaysAgrees, ConfidenceOf, GenerationHeader, FollowupHeader;
    AgreesOn(r, FaithfulCut(r), scan);
    if r.confidence != "" {
      EmittedScores(Streamed(FaithfulCut(r), scan), r, scan);
    }
  }

  lemma EmittedScores(p: Parser, r: Response, scan: string -> Option<real>)
    requires EndsLine(r.confidence) && r.confidence != "" && ConfidenceEmitted(p, r, scan)
    ensures ConfidenceEvents(p.events) == [ConfidenceOf(r.confidence, scan)]
  {
    GenerationHeaderIsHeader();
    hide GenerationHeader, ConfidenceEvents, ConfidenceOf;
    HeaderRemnantScoresNothing(r.confidence, p.confidenceBuffer, scan);
    HeaderRemnantScoresNothing(r.confidence, r.confidence, scan);
  }

  lemma NoHeaderLines(r: Response, scan: string -> Option<real>)
    requires ThreeSections(r) && AlwaysAgrees(r, scan) && Index(r.confidence, FollowupHeader()) == -1
    ensures NoHeaderLine(r.followup) && NoHeaderLine(r.generation)
  {
    BodiesAreRecovered(r, scan);
    hide Text, SectionsOf, ConfidenceOf, StripModelEndTokens, Squeeze, NoHeaderLine, FindFrom, FindHeader,
         Index, AlwaysAgrees;
    SectionsHaveNoHeaderLine(Text(r), FollowupSection);
    if !NoHeaderLine(r.generation) {
      HeaderLineLosesText(r, scan);
      assert false;
    }
  }

  lemma HashCounts(s: string)
    requires s != "" && s[0] == '#'
    ensures |Squeeze(s)| > 0
  {
    assert LeadingSpace(s) == 0;
  }

  lemma HeaderTextStarts(text: string, k: nat)
    requires OccursAt(text, FollowupHeader(), k, false)
    ensures k < |text| && text[k] == '#'
  {
    assert text[k] == text[k..k + |FollowupHeader()|][0] == FollowupHeader()[0];
  }

  lemma ExposedTextCounts(generation: string, k: nat)
    requires ExposedAt(generation, k)
    ensures k <= |generation| && Squeeze(generation[..k]) != Squeeze(generation)
  {
    HeaderTextStarts(generation, k);
    var front, behind := generation[..k], generation[k..];
    assert generation == front + behind && behind[0] == generation[k];
    hide *;
    HashCounts(behind);
    NoStraddleFromHash(front, behind);
  }

  lemma NoStraddleFromHash(front: string, behind: string)
    requires behind != "" && behind[0] == '#'
    ensures Squeeze(front + behind) == Squeeze(front) + Squeeze(behind)
  {
    hide Squeeze;
    NoStraddleBeforeStart(front, behind);
    SqueezeAppend(front, behind);
  }

  lemma NothingExposedInside(r: Response, scan: string -> Option<real>)
    requires ThreeSections(r) && AlwaysAgrees(r, scan) && Index(r.confidence, FollowupHeader()) == -1
    ensures !Exposed(r.generation)
  {
    hide Text, Streamed, StructuredOf, Concat, GenerationCut, FindFrom, GenerationText, ConfidenceEvents,
         Squeeze, AlwaysAgrees, ExposedAt, GenerationHeader, FollowupHeader, ThreeSections, Index;
    if Exposed(r.generation) {
      var k: nat :| ExposedAt(r.generation, k);
      BodiesAreRecovered(r, scan);
      GenerationIsLost(r, k, scan);
      AgreesOn(r, GenerationCut(r, k), scan);
      ExposedTextCounts(r.generation, k);
      assert false;
    }
  }

  lemma NoLineIsLost(r: Response, scan: string -> Option<real>)
    requires ThreeSections(r) && AlwaysAgrees(r, scan) && Index(r.confidence, FollowupHeader()) == -1
    requires !Exposed(r.generation) && FindHeader(r.followup, FollowupHeader()) == -1
    ensures !LosesLine(r.followup)
  {
    hide Text, Streamed, StructuredOf, Concat, FollowupCut, FindFrom, GenerationText, ConfidenceEvents,
         Squeeze, AlwaysAgrees, Exposed, GenerationHeader, FollowupHeader, ThreeSections, Index, FindHeader;
    if LosesLine(r.followup) {
      BodiesAreRecovered(r, scan);
      FollowupIsLost(r, scan);
      AgreesOn(r, FollowupCut(r, Index(r.followup, FollowupHeader())), scan);
      assert false;
    }
  }

  /** A body without header lines has no header at the start of a line. */
  lemma NoHeaderLineNoHeader(body: string, header: string)
    requires NoHeaderLine(body) && IsHeader(header)
    ensures FindHeader(body, header) == -1
  {
    hide FindFrom;
    var p := FindHeader(body, header);
    if p >= 0 {
      var o := body[p..p + |header|];
      assert body[p] == o[0] && body[p + 1] == o[1] && body[p + 2] == o[2];
      var l := HeadingLine(body, p);
      assert false;
    }
  }

  /** The three headers are in order, and
      - the confidence body is not empty, the text of the Follow-up header is nowhere in it, and
        what the batch parser takes of it has its scores;
      - the generation body has no header line, does not end in a model end token, and the text
        of the Follow-up header is nowhere exposed in it;
      - the follow-up body has no header line, and no line feed behind that text. */
  ghost predicate Untroubled(r: Response, scan: string -> Option<real>)
    requires ThreeSections(r)
  {
    && r.confidence != "" && Index(r.confidence, FollowupHeader()) == -1 && SameScores(r.confidence, scan)
    && NoHeaderLine(r.generation) && !EndsInToken(WithoutLastNewline(r.generation), MODEL_END_TOKENS) && !Exposed(r.generation)
    && NoHeaderLine(r.followup) && !LosesLine(r.followup)
  }

  lemma UntroubledAgrees(r: Response, chunks: seq<string>, scan: string -> Option<real>)
    requires ThreeSections(r) && Untroubled(r, scan) && Concat(chunks) == Text(r)
    ensures Agrees(Streamed(chunks, scan), StructuredOf(Text(r), scan))
  {
    FollowupHeaderIsHeader();
    hide Text, Streamed, StructuredOf, Concat, FindFrom, GenerationText, ConfidenceEvents, Squeeze, Exposed,
         GenerationHeader, FollowupHeader, IsHeader, Index, FindHeader, NoHeaderLine, LosesLine, SameScores,
         EndsInToken;
    NoHeaderLineNoHeader(r.followup, FollowupHeader());
    StreamingAgreesWithBatch(r, chunks, scan);
  }

  lemma AgreeingIsUntroubled(r: Response, scan: string -> Option<real>)
    requires ThreeSections(r) && AlwaysAgrees(r, scan)
    ensures Untroubled(r, scan)
  {
    FollowupHeaderIsHeader();
    hide Text, Streamed, SectionsOf, Concat, FindFrom, GenerationText, ConfidenceEvents, ConfidenceOf,
         Squeeze, Exposed, GenerationHeader, FollowupHeader, IsHeader, Index, FindHeader, NoHeaderLine,
         LosesLine, EndsInToken, AlwaysAgrees, StripModelEndTokens, BatchConfidence;
    NoTextInConfidence(r, scan);
    NoHeaderLines(r, scan);
    NothingExposedInside(r, scan);
    NoHeaderLineNoHeader(r.followup, FollowupHeader());
    NoLineIsLost(r, scan);
    BodiesAreRecovered(r, scan);
    BatchSections(r);
    LastNewlineIsSpace(r.generation);
    StripChangesOnlyTokens(WithoutLastNewline(r.generation));
    ConfidenceIsThere(r, scan);
  }

  lemma ConfidenceIsThere(r: Response, scan: string -> Option<real>)
    requires Streamable(r) && AlwaysAgrees(r, scan)
    ensures r.confidence != ""
  {
    hide Text, Streamed, StructuredOf, Concat, FindFrom, GenerationText, ConfidenceEvents, Squeeze,
         Streamable, AlwaysAgrees;
    if r.confidence == "" {
      EmptyConfidenceInOneChunk(r, scan);
      AgreesOn(r, [Text(r)], scan);
      assert false;
    }
  }

  /** Of a response with the three headers in order, whatever its bodies: the streaming parser
      agrees with the batch parser for every way of cutting it exactly if its bodies are as
      `Untroubled` says. */
  lemma AlwaysAgreesExactly(r: Response, scan: string -> Option<real>)
    requires ThreeSections(r)
    ensures AlwaysAgrees(r, scan) <==> Untroubled(r, scan)
  {
    hide Text, Streamed, StructuredOf, Concat, Agrees, Untroubled, ThreeSections;
    if AlwaysAgrees(r, scan) {
      AgreeingIsUntroubled(r, scan);
    }
    if Untroubled(r, scan) {
      forall chunks: seq<string> | Concat(chunks) == Text(r)
        ensures Agrees(Streamed(chunks, scan), StructuredOf(Text(r), scan))
      {
        UntroubledAgrees(r, chunks, scan);
      }
    }
  }
}
