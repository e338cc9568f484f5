/** White space as `strings.TrimSpace` sees it: the UTF-8 encodings of the code points with
    the Unicode White_Space property, and what trimming and squeezing do to a byte string. */
module Whitespace {
  import opened Utf8

  predicate IsAsciiSpace(c: char) {
    9 <= c as int <= 13 || c as int == 32
  }

  /** U+0085 and U+00A0. */
  predicate IsTwoByteSpace(a: char, b: char) {
    a as int == 0xC2 && b as int in {0x85, 0xA0}
  }

  /** U+1680, U+2000 to U+200A, U+2028, U+2029, U+202F, U+205F and U+3000. */
  predicate IsThreeByteSpace(a: char, b: char, c: char) {
    || (a as int == 0xE1 && b as int == 0x9A && c as int == 0x80)
    || (a as int == 0xE2 && b as int == 0x80 && (0x80 <= c as int <= 0x8A || c as int in {0xA8, 0xA9, 0xAF}))
    || (a as int == 0xE2 && b as int == 0x81 && c as int == 0x9F)
    || (a as int == 0xE3 && b as int == 0x80 && c as int == 0x80)
  }

  /** The length of the white-space character at the front of `s`, or 0. */
  function LeadingSpace(s: string): (n: nat)
    ensures n <= 3 && n <= |s|
  {
    if |s| >= 1 && IsAsciiSpace(s[0]) then 1
    else if |s| >= 2 && IsTwoByteSpace(s[0], s[1]) then 2
    else if |s| >= 3 && IsThreeByteSpace(s[0], s[1], s[2]) then 3
    else 0
  }

  /** The length of the white-space character at the end of `s`, or 0. */
  function TrailingSpace(s: string): (n: nat)
    ensures n <= 3 && n <= |s|
  {
    if |s| >= 1 && IsAsciiSpace(s[|s| - 1]) then 1
    else if |s| >= 2 && IsTwoByteSpace(s[|s| - 2], s[|s| - 1]) then 2
    else if |s| >= 3 && IsThreeByteSpace(s[|s| - 3], s[|s| - 2], s[|s| - 1]) then 3
    else 0
  }

  /** `w` is exactly one white-space character. */
  predicate IsSpace(w: string) {
    w != "" && LeadingSpace(w) == |w|
  }

  function TrimLeft(s: string): string
    decreases |s|
  {
    if LeadingSpace(s) == 0 then s else TrimLeft(s[LeadingSpace(s)..])
  }

  function TrimRight(s: string): string
    decreases |s|
  {
    if TrailingSpace(s) == 0 then s else TrimRight(s[..|s| - TrailingSpace(s)])
  }

  function TrimSpace(s: string): string {
    TrimRight(TrimLeft(s))
  }

  /** `s` with every white-space character taken out: what is left "modulo white space". */
  function Squeeze(s: string): (r: string)
    ensures |r| <= |s|
    decreases |s|
  {
    if s == "" then ""
    else if LeadingSpace(s) > 0 then Squeeze(s[LeadingSpace(s)..])
    else [s[0]] + Squeeze(s[1..])
  }

  /** No white-space character starts in `a` and ends in `b`. */
  ghost predicate NoStraddle(a: string, b: string) {
    forall i :: 0 <= i < |a| ==> LeadingSpace(a[i..] + b) <= |a| - i
  }

  lemma NoStraddleBeforeStart(a: string, b: string)
    requires b == "" || !IsContinuation(b[0])
    ensures NoStraddle(a, b)
  {
    forall i | 0 <= i < |a|
      ensures LeadingSpace(a[i..] + b) <= |a| - i
    {
      assert b != "" ==> (a[i..] + b)[|a| - i] == b[0];
    }
  }

  lemma NoStraddleFromRune(a: string, b: string, i: nat)
    requires i < RuneLength(a)
    ensures LeadingSpace(a[i..] + b) <= |a| - i
  {
    assert forall k :: 0 <= k < |a| - i ==> (a[i..] + b)[k] == a[i + k];
  }

  lemma {:induction false} NoStraddleAfterValid(a: string, b: string)
    requires Valid(a)
    ensures NoStraddle(a, b)
    decreases |a|
  {
    hide LeadingSpace, RuneLength;
    if a != "" {
      var n := RuneLength(a);
      NoStraddleAfterValid(a[n..], b);
      forall i | 0 <= i < |a|
        ensures LeadingSpace(a[i..] + b) <= |a| - i
      {
        if i >= n {
          assert a[i..] == a[n..][i - n..];
        } else {
          NoStraddleFromRune(a, b, i);
        }
      }
    }
  }

  lemma LeadingSpaceAppend(a: string, b: string)
    ensures LeadingSpace(a) > 0 ==> LeadingSpace(a + b) == LeadingSpace(a)
    ensures 0 < LeadingSpace(a + b) <= |a| ==> LeadingSpace(a) == LeadingSpace(a + b)
  {
  }

  lemma {:induction false} SqueezeAppend(a: string, b: string)
    requires NoStraddle(a, b)
    ensures Squeeze(a + b) == Squeeze(a) + Squeeze(b)
    decreases |a|
  {
    if a == "" {
      assert a + b == b;
    } else {
      assert a[0..] + b == a + b;
      LeadingSpaceAppend(a, b);
      var n := if LeadingSpace(a) > 0 then LeadingSpace(a) else 1;
      assert (a + b)[n..] == a[n..] + b;
      forall i | 0 <= i < |a[n..]|
        ensures LeadingSpace(a[n..][i..] + b) <= |a[n..]| - i
      {
        assert a[n..][i..] == a[n + i..];
      }
      SqueezeAppend(a[n..], b);
    }
  }

  lemma {:induction false} SqueezeTrimLeft(s: string)
    ensures Squeeze(TrimLeft(s)) == Squeeze(s)
    decreases |s|
  {
    if LeadingSpace(s) > 0 {
      SqueezeTrimLeft(s[LeadingSpace(s)..]);
    }
  }

  /** Reading a white-space character from either end is the same thing. */
  lemma TrailingSpaceIsSpace(s: string)
    requires TrailingSpace(s) > 0
    ensures IsSpace(s[|s| - TrailingSpace(s)..])
    ensures !IsContinuation(s[|s| - TrailingSpace(s)])
  {
  }

  lemma {:induction false} SqueezeTrimRight(s: string)
    ensures Squeeze(TrimRight(s)) == Squeeze(s)
    decreases |s|
  {
    var n := TrailingSpace(s);
    if n > 0 {
      var a, w := s[..|s| - n], s[|s| - n..];
      TrailingSpaceIsSpace(s);
      assert s == a + w;
      NoStraddleBeforeStart(a, w);
      SqueezeAppend(a, w);
      assert w[|w|..] == "";
      assert Squeeze(w) == "";
      SqueezeTrimRight(a);
    }
  }

  /** Trimming changes nothing modulo white space. */
  lemma SqueezeTrim(s: string)
    ensures Squeeze(TrimSpace(s)) == Squeeze(s)
  {
    SqueezeTrimLeft(s);
    SqueezeTrimRight(TrimLeft(s));
  }

  /** A text streamed in pieces whose last one is trimmed is, modulo white space, the text. */
  lemma StreamedModuloSpace(text: string, n: nat)
    requires n <= |text| && Valid(text[..n])
    ensures Squeeze(text[..n] + TrimSpace(text[n..])) == Squeeze(text)
  {
    NoStraddleAfterValid(text[..n], text[n..]);
    SqueezeAppend(text[..n], text[n..]);
    assert text == text[..n] + text[n..];
    NoStraddleAfterValid(text[..n], TrimSpace(text[n..]));
    SqueezeAppend(text[..n], TrimSpace(text[n..]));
    SqueezeTrim(text[n..]);
  }

  lemma {:induction false} TrimLeftKeepsValid(s: string)
    requires Valid(s)
    ensures Valid(TrimLeft(s))
    decreases |s|
  {
    if LeadingSpace(s) > 0 {
      assert RuneLength(s) == LeadingSpace(s);
      TrimLeftKeepsValid(s[LeadingSpace(s)..]);
    }
  }

  lemma {:induction false} TrimRightKeepsValid(s: string)
    requires Valid(s)
    ensures Valid(TrimRight(s))
    decreases |s|
  {
    var n := TrailingSpace(s);
    if n > 0 {
      TrailingSpaceIsSpace(s);
      assert s == s[..|s| - n] + s[|s| - n..];
      ValidSplitsBeforeStart(s[..|s| - n], s[|s| - n..]);
      TrimRightKeepsValid(s[..|s| - n]);
    }
  }

  lemma TrimKeepsValid(s: string)
    requires Valid(s)
    ensures Valid(TrimSpace(s))
  {
    TrimLeftKeepsValid(s);
    TrimRightKeepsValid(TrimLeft(s));
  }

  lemma TrimSpaceBefore(w: string, s: string)
    requires IsSpace(w)
    ensures TrimSpace(w + s) == TrimSpace(s)
  {
    LeadingSpaceAppend(w, s);
    assert (w + s)[|w|..] == s;
  }

  lemma {:induction false} TrimLeftAppend(s: string, w: string)
    requires IsSpace(w)
    ensures TrimLeft(s + w) == if TrimLeft(s) == "" then "" else TrimLeft(s) + w
    decreases |s|
  {
    if s == "" {
      assert s + w == w;
      assert w[|w|..] == "";
    } else {
      LeadingSpaceAppend(s, w);
      NoStraddleBeforeStart(s, w);
      assert s[0..] + w == s + w;
      var n := LeadingSpace(s);
      if n > 0 {
        assert (s + w)[n..] == s[n..] + w;
        TrimLeftAppend(s[n..], w);
      }
    }
  }

  lemma TrimSpaceAfter(s: string, w: string)
    requires IsSpace(w)
    ensures TrimSpace(s + w) == TrimSpace(s)
  {
    TrimLeftAppend(s, w);
    var t := TrimLeft(s);
    if t != "" {
      assert TrailingSpace(t + w) == |w|;
      assert (t + w)[..|t + w| - |w|] == t;
    }
  }

  lemma TrimSpaceFixed(s: string)
    requires LeadingSpace(s) == 0 && TrailingSpace(s) == 0
    ensures TrimSpace(s) == s
  {
  }

  /** A trimmed string neither starts nor ends with white space. */
  lemma {:induction false} TrimRightEnds(s: string)
    ensures TrailingSpace(TrimRight(s)) == 0 && TrimRight(s) <= s
    decreases |s|
  {
    if TrailingSpace(s) > 0 {
      TrimRightEnds(s[..|s| - TrailingSpace(s)]);
    }
  }
}
