/** First occurrences in a byte string: `strings.Index`, `findMarkdownHeader` (an occurrence
    must start a line) and `findNextNewline`. */
module TextSearch {
  /** How much text the streaming parsers keep back to see headers whole. */
  const STREAM_LOOKAHEAD_SIZE := 50

  /** `pattern` occurs in `text` at `i`; with `lineStart`, only at the start of a line. */
  predicate OccursAt(text: string, pattern: string, i: int, lineStart: bool) {
    && 0 <= i && i + |pattern| <= |text|
    && (lineStart ==> i == 0 || text[i - 1] == '\n')
    && text[i..i + |pattern|] == pattern
  }

  /** The first occurrence at or after `from`, or -1. */
  function FindFrom(text: string, pattern: string, from: nat, lineStart: bool): (r: int)
    ensures r == -1 || (from <= r && OccursAt(text, pattern, r, lineStart))
    ensures forall i :: from <= i < (if r == -1 then |text| + 1 else r) ==> !OccursAt(text, pattern, i, lineStart)
    decreases |text| - from
  {
    if from + |pattern| > |text| then -1
    else if OccursAt(text, pattern, from, lineStart) then from
    else if from == |text| then -1
    else FindFrom(text, pattern, from + 1, lineStart)
  }

  function Index(text: string, pattern: string): int {
    FindFrom(text, pattern, 0, false)
  }

  function FindHeader(text: string, header: string): int {
    FindFrom(text, header, 0, true)
  }

  /** What identifies a first occurrence. */
  lemma FirstOccurrence(text: string, pattern: string, lineStart: bool, k: int)
    requires OccursAt(text, pattern, k, lineStart)
    requires forall i :: 0 <= i < k ==> !OccursAt(text, pattern, i, lineStart)
    ensures FindFrom(text, pattern, 0, lineStart) == k
  {
  }

  /** An occurrence in a prefix is the same occurrence in the whole. */
  lemma OccursInPrefix(text: string, n: nat, pattern: string, i: int, lineStart: bool)
    requires n <= |text|
    ensures OccursAt(text[..n], pattern, i, lineStart) <==> OccursAt(text, pattern, i, lineStart) && i + |pattern| <= n
  {
    if 0 <= i && i + |pattern| <= n {
      assert text[..n][i..i + |pattern|] == text[i..i + |pattern|];
    }
  }

  /** As a text grows, its first occurrence appears once complete and then stays where it is. */
  lemma IndexInPrefix(text: string, n: nat, pattern: string)
    requires n <= |text| && pattern != ""
    ensures var k := Index(text, pattern);
            Index(text[..n], pattern) == if k >= 0 && k + |pattern| <= n then k else -1
  {
    forall i: int
      ensures OccursAt(text[..n], pattern, i, false) <==> OccursAt(text, pattern, i, false) && i + |pattern| <= n
    {
      OccursInPrefix(text, n, pattern, i, false);
    }
    var k := Index(text, pattern);
    if k >= 0 && k + |pattern| <= n {
      FirstOccurrence(text[..n], pattern, false, k);
    }
  }

  lemma NewlineOccurs(text: string, i: int)
    ensures OccursAt(text, "\n", i, false) <==> 0 <= i < |text| && text[i] == '\n'
  {
    if 0 <= i < |text| {
      assert text[i..i + 1] == [text[i]];
    }
  }

  /** Finds "## Name" at the start of a line, comparing byte by byte. */
  method FindMarkdownHeader(text: string, headerName: string) returns (r: int)
    ensures r == FindHeader(text, "## " + headerName)
  {
    var pattern := "## " + headerName;
    var i := 0;
    while i <= |text| - |pattern|
      invariant 0 <= i
      invariant forall k :: 0 <= k < i ==> !OccursAt(text, pattern, k, true)
    {
      if i == 0 || text[i - 1] == '\n' {
        var isMatch := true;
        var j := 0;
        while j < |pattern|
          invariant 0 <= j <= |pattern|
          invariant text[i..i + j] == pattern[..j]
          invariant isMatch
        {
          if text[i + j] != pattern[j] {
            isMatch := false;
            assert text[i..i + |pattern|][j] == text[i + j];
            break;
          }
          assert text[i..i + j + 1] == text[i..i + j] + [text[i + j]];
          j := j + 1;
        }
        if isMatch {
          FirstOccurrence(text, pattern, true, i);
          return i;
        }
      }
      i := i + 1;
    }
    return -1;
  }

  /** Finds the first line feed. */
  method FindNextNewline(text: string) returns (r: int)
    ensures r == Index(text, "\n")
    ensures r == -1 <==> '\n' !in text
    ensures r >= 0 ==> text[r] == '\n' && '\n' !in text[..r]
  {
    var i := 0;
    while i < |text|
      invariant 0 <= i <= |text|
      invariant '\n' !in text[..i]
    {
      if text[i] == '\n' {
        NewlineOccurs(text, i);
        forall k | 0 <= k < i
          ensures !OccursAt(text, "\n", k, false)
        {
          NewlineOccurs(text, k);
          assert text[k] == text[..i][k];
        }
        FirstOccurrence(text, "\n", false, i);
        return i;
      }
      assert text[..i + 1] == text[..i] + [text[i]];
      i := i + 1;
    }
    assert text[..i] == text;
    NewlineOccurs(text, Index(text, "\n"));
    return -1;
  }
}
