/** Wildcard patterns: what they mean, and the two-row table that decides them. */
module Wildcard {
  import opened Strings

  /** `*` stands for any string, `?` for any one character, any other character for itself. */
  predicate StandsFor(c: char, part: string) {
    c == '*' || (|part| == 1 && (c == '?' || c == part[0]))
  }

  /** `s` is cut into one part for each character of the pattern. */
  ghost predicate Cuts(pattern: string, s: string, parts: seq<string>) {
    && |parts| == |pattern|
    && Concat(parts) == s
    && forall i :: 0 <= i < |pattern| ==> StandsFor(pattern[i], parts[i])
  }

  ghost predicate Matches(pattern: string, s: string) {
    exists parts :: Cuts(pattern, s, parts)
  }

  lemma EmptyPattern(s: string)
    ensures Matches("", s) <==> s == ""
  {
    if s == "" {
      assert Cuts("", s, []);
    }
  }

  lemma MatchesExtend(pattern: string, c: char, s: string, k: nat)
    requires k <= |s| && Matches(pattern, s[..k]) && StandsFor(c, s[k..])
    ensures Matches(pattern + [c], s)
  {
    var parts :| Cuts(pattern, s[..k], parts);
    var more := parts + [s[k..]];
    assert more[..|parts|] == parts;
    assert s[..k] + s[k..] == s;
    assert Cuts(pattern + [c], s, more);
  }

  lemma MatchesShrink(pattern: string, c: char, s: string) returns (k: nat)
    requires Matches(pattern + [c], s)
    ensures k <= |s| && Matches(pattern, s[..k]) && StandsFor(c, s[k..])
  {
    var parts :| Cuts(pattern + [c], s, parts);
    var init, last := parts[..|pattern|], parts[|pattern|];
    assert parts[..|parts| - 1] == init;
    assert s == Concat(init) + last;
    k := |Concat(init)|;
    assert s[..k] == Concat(init) && s[k..] == last;
    assert (pattern + [c])[|pattern|] == c;
    forall i | 0 <= i < |pattern|
      ensures StandsFor(pattern[i], init[i])
    {
      assert (pattern + [c])[i] == pattern[i];
    }
    assert Cuts(pattern, s[..k], init);
  }

  /** A final `*` takes nothing, or the last character and whatever it took before. */
  lemma StarStep(pattern: string, s: string)
    ensures Matches(pattern + ['*'], s) <==> Matches(pattern, s) || (s != "" && Matches(pattern + ['*'], s[..|s| - 1]))
  {
    hide Matches;
    assert s[..|s|] == s;
    if Matches(pattern + ['*'], s) {
      var k := MatchesShrink(pattern, '*', s);
      if k < |s| {
        var t := s[..|s| - 1];
        assert t[..k] == s[..k];
        MatchesExtend(pattern, '*', t, k);
      }
    }
    if Matches(pattern, s) {
      MatchesExtend(pattern, '*', s, |s|);
    }
    if s != "" && Matches(pattern + ['*'], s[..|s| - 1]) {
      var t := s[..|s| - 1];
      var k := MatchesShrink(pattern, '*', t);
      assert t[..k] == s[..k];
      MatchesExtend(pattern, '*', s, k);
    }
  }

  /** Any other final character takes exactly the last one. */
  lemma CharStep(pattern: string, c: char, s: string)
    requires c != '*'
    ensures Matches(pattern + [c], s) <==> s != "" && (c == '?' || c == s[|s| - 1]) && Matches(pattern, s[..|s| - 1])
  {
    hide Matches;
    if Matches(pattern + [c], s) {
      var k := MatchesShrink(pattern, c, s);
      assert k == |s| - 1;
    }
    if s != "" && (c == '?' || c == s[|s| - 1]) && Matches(pattern, s[..|s| - 1]) {
      assert s[|s| - 1..] == [s[|s| - 1]];
      MatchesExtend(pattern, c, s, |s| - 1);
    }
  }

  /** A row of the table: entry `j` tells whether the pattern so far matches `s[..j]`. */
  ghost predicate RowIs(row: seq<bool>, pattern: string, s: string) {
    |row| == |s| + 1 && forall j :: 0 <= j <= |s| ==> (row[j] <==> Matches(pattern, s[..j]))
  }

  lemma FirstRow(row: seq<bool>, s: string)
    requires |row| == |s| + 1 && row[0] && forall j :: 1 <= j <= |s| ==> !row[j]
    ensures RowIs(row, "", s)
  {
    forall j | 0 <= j <= |s|
      ensures row[j] <==> Matches("", s[..j])
    {
      EmptyPattern(s[..j]);
    }
  }

  lemma StarEntry(row: seq<bool>, pattern: string, s: string, j: nat)
    requires RowIs(row, pattern, s) && j < |row|
    ensures |row| == |s| + 1
    ensures Matches(pattern + ['*'], s[..j]) <==> row[j] || (j > 0 && Matches(pattern + ['*'], s[..j - 1]))
  {
    hide Matches;
    StarStep(pattern, s[..j]);
    assert j > 0 ==> s[..j][..j - 1] == s[..j - 1];
  }

  lemma CharEntry(row: seq<bool>, pattern: string, c: char, s: string, j: nat)
    requires RowIs(row, pattern, s) && j < |row| && c != '*'
    ensures |row| == |s| + 1
    ensures Matches(pattern + [c], s[..j]) <==> j > 0 && (c == '?' || c == s[j - 1]) && row[j - 1]
  {
    hide Matches;
    CharStep(pattern, c, s[..j]);
    assert j > 0 ==> s[..j][..j - 1] == s[..j - 1];
  }

  /** Decides a match with two rows of the table, cleared and swapped for each character. */
  method MatchWildcard(pattern: string, s: string) returns (matched: bool)
    ensures matched <==> Matches(pattern, s)
  {
    hide Matches, RowIs;
    var sn := |s|;
    var prev := new bool[sn + 1](_ => false);
    var curr := new bool[sn + 1](_ => false);
    prev[0] := true;
    FirstRow(prev[..], s);
    assert pattern[..0] == "";
    for pi := 0 to |pattern|
      invariant fresh(prev) && fresh(curr) && prev != curr && prev.Length == curr.Length == sn + 1
      invariant RowIs(prev[..], pattern[..pi], s)
    {
      var pc := pattern[pi];
      ghost var row, next := prev[..], pattern[..pi] + [pc];
      assert pattern[..pi + 1] == next;
      for j := 0 to curr.Length
        invariant forall i :: 0 <= i < j ==> !curr[i]
        invariant prev[..] == row
      {
        curr[j] := false;
      }
      if pc == '*' {
        StarEntry(row, pattern[..pi], s, 0);
        curr[0] := prev[0];
        for j := 1 to sn + 1
          invariant prev[..] == row
          invariant forall i :: 0 <= i < j ==> (curr[i] <==> Matches(next, s[..i]))
        {
          StarEntry(row, pattern[..pi], s, j);
          curr[j] := prev[j] || curr[j - 1];
        }
      } else {
        CharEntry(row, pattern[..pi], pc, s, 0);
        for j := 1 to sn + 1
          invariant prev[..] == row
          invariant forall i :: j <= i <= sn ==> !curr[i]
          invariant forall i :: 0 <= i < j ==> (curr[i] <==> Matches(next, s[..i]))
        {
          CharEntry(row, pattern[..pi], pc, s, j);
          if pc == '?' || pc == s[j - 1] {
            curr[j] := prev[j - 1];
          }
        }
      }
      FullRow(curr[..], next, s);
      prev, curr := curr, prev;
    }
    assert pattern[..|pattern|] == pattern;
    LastEntry(prev[..], pattern, s);
    matched := prev[sn];
  }

  lemma FullRow(row: seq<bool>, pattern: string, s: string)
    requires |row| == |s| + 1 && forall j :: 0 <= j <= |s| ==> (row[j] <==> Matches(pattern, s[..j]))
    ensures RowIs(row, pattern, s)
  {
  }

  lemma LastEntry(row: seq<bool>, pattern: string, s: string)
    requires RowIs(row, pattern, s)
    ensures |row| == |s| + 1 && (row[|s|] <==> Matches(pattern, s))
  {
    assert s[..|s|] == s;
  }
}
