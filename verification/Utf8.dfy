/** UTF-8 well-formedness (section 4 of RFC 3629) and the splitting of a byte string at
    the end of its longest well-formed prefix.

    A Go string is a string of bytes.  Throughout this project it is a Dafny `string`
    with one `char` per byte; a `char` above 255 is no byte and belongs to no sequence. */
module Utf8 {

  predicate IsContinuation(c: char) {
    0x80 <= c as int <= 0xBF
  }

  /** The second byte allowed after the first byte of a three-byte sequence. */
  predicate IsThreeByteStart(first: int, second: int) {
    || (first == 0xE0 && 0xA0 <= second <= 0xBF)
    || (0xE1 <= first <= 0xEC && 0x80 <= second <= 0xBF)
    || (first == 0xED && 0x80 <= second <= 0x9F)
    || (0xEE <= first <= 0xEF && 0x80 <= second <= 0xBF)
  }

  /** The second byte allowed after the first byte of a four-byte sequence. */
  predicate IsFourByteStart(first: int, second: int) {
    || (first == 0xF0 && 0x90 <= second <= 0xBF)
    || (0xF1 <= first <= 0xF3 && 0x80 <= second <= 0xBF)
    || (first == 0xF4 && 0x80 <= second <= 0x8F)
  }

  /** The length of the well-formed sequence at the front of `s`, or 0 if there is none. */
  function RuneLength(s: string): (n: nat)
    ensures n <= 4 && n <= |s|
  {
    if s == "" then 0
    else if s[0] as int <= 0x7F then 1
    else if |s| >= 2 && 0xC2 <= s[0] as int <= 0xDF && IsContinuation(s[1]) then 2
    else if |s| >= 3 && IsThreeByteStart(s[0] as int, s[1] as int) && IsContinuation(s[2]) then 3
    else if |s| >= 4 && IsFourByteStart(s[0] as int, s[1] as int) && IsContinuation(s[2]) && IsContinuation(s[3]) then 4
    else 0
  }

  /** A string that is nothing but well-formed sequences. */
  predicate Valid(s: string)
    decreases |s|
  {
    s == "" || (RuneLength(s) > 0 && Valid(s[RuneLength(s)..]))
  }

  /** How far the sequences at the front of `s` stay well formed. */
  function ValidPrefixLength(s: string): (n: nat)
    ensures n <= |s|
    decreases |s|
  {
    if RuneLength(s) == 0 then 0 else RuneLength(s) + ValidPrefixLength(s[RuneLength(s)..])
  }

  /** A sequence is recognised from its own bytes alone. */
  lemma RuneLengthIsLocal(s: string, t: string)
    requires RuneLength(s) > 0 && RuneLength(s) <= |t| && t[..RuneLength(s)] == s[..RuneLength(s)]
    ensures RuneLength(t) == RuneLength(s)
  {
    var n := RuneLength(s);
    assert forall i :: 0 <= i < n ==> t[i] == t[..n][i] == s[..n][i] == s[i];
  }

  lemma {:induction false} ValidAppend(a: string, b: string)
    requires Valid(a)
    ensures Valid(a + b) <==> Valid(b)
    decreases |a|
  {
    if a == "" {
      assert a + b == b;
    } else {
      var n := RuneLength(a);
      RuneLengthIsLocal(a, a + b);
      assert (a + b)[n..] == a[n..] + b;
      ValidAppend(a[n..], b);
    }
  }

  lemma {:induction false} ValidPrefixIsValid(s: string)
    ensures Valid(s[..ValidPrefixLength(s)])
    decreases |s|
  {
    var n := RuneLength(s);
    if n > 0 {
      var p := s[..ValidPrefixLength(s)];
      ValidPrefixIsValid(s[n..]);
      RuneLengthIsLocal(s, p);
      assert p[n..] == s[n..][..ValidPrefixLength(s[n..])];
    }
  }

  /** No longer prefix is well formed. */
  lemma {:induction false} ValidPrefixIsLongest(s: string, n: nat)
    requires n <= |s| && Valid(s[..n])
    ensures n <= ValidPrefixLength(s)
    decreases |s|
  {
    if n > 0 {
      var k := RuneLength(s[..n]);
      RuneLengthIsLocal(s[..n], s);
      assert s[..n][k..] == s[k..][..n - k];
      ValidPrefixIsLongest(s[k..], n - k);
    }
  }

  /** Where the well-formed prefix ends, no sequence starts. */
  lemma {:induction false} ValidPrefixStops(s: string)
    ensures RuneLength(s[ValidPrefixLength(s)..]) == 0
    decreases |s|
  {
    var n := RuneLength(s);
    if n > 0 {
      ValidPrefixStops(s[n..]);
      assert s[n..][ValidPrefixLength(s[n..])..] == s[ValidPrefixLength(s)..];
    } else {
      assert s[0..] == s;
    }
  }

  /** `s[..n]` is the longest prefix of `s` that is well formed. */
  ghost predicate IsLongestValid(s: string, n: nat) {
    && n <= |s| && Valid(s[..n])
    && forall m :: n < m <= |s| ==> !Valid(s[..m])
  }

  lemma SplitPointIsRight(s: string)
    ensures IsLongestValid(s, ValidPrefixLength(s))
  {
    ValidPrefixIsValid(s);
    hide Valid, ValidPrefixLength;
    forall n | ValidPrefixLength(s) < n <= |s|
      ensures !Valid(s[..n])
    {
      if Valid(s[..n]) {
        ValidPrefixIsLongest(s, n);
      }
    }
  }

  /** A valid string is its own longest valid prefix. */
  lemma WholeStringValid(s: string)
    ensures Valid(s) <==> ValidPrefixLength(s) == |s|
  {
    assert s[..|s|] == s;
    if Valid(s) {
      ValidPrefixIsLongest(s, |s|);
    }
    ValidPrefixIsValid(s);
  }

  /** A valid stream cut anywhere leaves at most three bytes of an unfinished sequence. */
  lemma {:induction false} CutLeavesAtMostThree(s: string, rest: string)
    requires Valid(s + rest)
    ensures |s| - ValidPrefixLength(s) <= 3
    decreases |s|
  {
    var t := s + rest;
    if s != "" {
      var n := RuneLength(t);
      if n <= |s| {
        assert t[..n] == s[..n];
        RuneLengthIsLocal(t, s);
        assert t[n..] == s[n..] + rest;
        CutLeavesAtMostThree(s[n..], rest);
      }
    }
  }

  /** A byte that is no continuation byte starts a sequence of its own. */
  lemma {:induction false} ValidSplitsBeforeStart(a: string, b: string)
    requires Valid(a + b) && b != "" && !IsContinuation(b[0])
    ensures Valid(a) && Valid(b)
    decreases |a|
  {
    if a == "" {
      assert a + b == b;
    } else {
      var n := RuneLength(a + b);
      assert (a + b)[|a|] == b[0];
      assert (a + b)[..n] == a[..n];
      RuneLengthIsLocal(a + b, a);
      assert (a + b)[n..] == a[n..] + b;
      ValidSplitsBeforeStart(a[n..], b);
    }
  }

  /** The decoder's answer for the rune at the front: its size, and whether it is the error
      rune of size one that stands for a byte starting no well-formed sequence. */
  function DecodeRune(s: string): (r: (bool, nat))
    requires s != ""
    ensures 1 <= r.1 <= |s|
    ensures r.0 <==> RuneLength(s) == 0
  {
    if RuneLength(s) == 0 then (true, 1) else (false, RuneLength(s))
  }

  lemma OneRuneOn(s: string, i: nat)
    requires i < |s| && RuneLength(s[i..]) > 0
    ensures ValidPrefixLength(s[i..]) == RuneLength(s[i..]) + ValidPrefixLength(s[i + RuneLength(s[i..])..])
  {
    var n := RuneLength(s[i..]);
    assert s[i..][n..] == s[i + n..];
  }

  lemma NoRuneHere(s: string)
    requires RuneLength(s) == 0
    ensures ValidPrefixLength(s) == 0
  {
  }

  /** Splits `s` into its longest well-formed prefix and the exact rest. */
  method SplitValidUTF8(s: string) returns (prefix: string, rest: string)
    ensures prefix + rest == s
    ensures prefix == s[..ValidPrefixLength(s)] && Valid(prefix)
    ensures IsLongestValid(s, |prefix|)
  {
    SplitPointIsRight(s);
    ValidPrefixIsValid(s);
    hide Valid, ValidPrefixLength, IsLongestValid, RuneLength;
    if s == "" {
      return "", "";
    }
    if Valid(s) {
      WholeStringValid(s);
      assert s[..|s|] == s;
      return s, "";
    }
    var validLen := 0;
    var i := 0;
    assert s[0..] == s;
    while i < |s|
      invariant i == validLen <= |s|
      invariant ValidPrefixLength(s) == validLen + ValidPrefixLength(s[i..])
    {
      var (isError, size) := DecodeRune(s[i..]);
      if isError {
        NoRuneHere(s[i..]);
        return s[..validLen], s[validLen..];
      }
      OneRuneOn(s, i);
      validLen := i + size;
      i := i + size;
    }
    return s[..validLen], s[validLen..];
  }
}
