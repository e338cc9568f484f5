/** The byte tables of `Utf8` and `Whitespace` against the code points they stand for: the
    encoding of RFC 3629 and the characters with the Unicode White_Space property. */
module CodePoints {
  import opened Utf8
  import opened Whitespace

  /** A code point that is no surrogate. */
  predicate IsScalar(c: nat) {
    c <= 0x10FFFF && !(0xD800 <= c <= 0xDFFF)
  }

  /** Section 3 of RFC 3629. */
  function Encode(c: nat): (s: string)
    requires IsScalar(c)
    ensures 1 <= |s| <= 4
  {
    if c < 0x80 then [c as char]
    else if c < 0x800 then [(0xC0 + c / 64) as char, Low(c)]
    else if c < 0x10000 then [(0xE0 + c / 4096) as char, Low(c / 64), Low(c)]
    else [(0xF0 + c / 262144) as char, Low(c / 4096), Low(c / 64), Low(c)]
  }

  /** The low six bits, in a continuation byte. */
  function Low(c: nat): char {
    (0x80 + c % 64) as char
  }

  predicate AllScalar(cs: seq<nat>) {
    forall i :: 0 <= i < |cs| ==> IsScalar(cs[i])
  }

  function EncodeAll(cs: seq<nat>): string
    requires AllScalar(cs)
  {
    if cs == [] then "" else Encode(cs[0]) + EncodeAll(cs[1..])
  }

  // ----- Well-formed sequences

  /** The encoding of a character is one well-formed sequence, whatever follows. */
  lemma EncodedIsRune(c: nat, t: string)
    requires IsScalar(c)
    ensures RuneLength(Encode(c) + t) == |Encode(c)|
  {
  }

  function Decode2(a: int, b: int): int {
    (a - 0xC0) * 64 + (b - 0x80)
  }

  function Decode3(a: int, b: int, c: int): int {
    (a - 0xE0) * 4096 + (b - 0x80) * 64 + (c - 0x80)
  }

  function Decode4(a: int, b: int, c: int, d: int): int {
    (a - 0xF0) * 262144 + (b - 0x80) * 4096 + (c - 0x80) * 64 + (d - 0x80)
  }

  lemma TwoBytes(a: int, b: int)
    requires 0xC2 <= a <= 0xDF && 0x80 <= b <= 0xBF
    ensures var c := Decode2(a, b); 0x80 <= c < 0x800 && 0xC0 + c / 64 == a && 0x80 + c % 64 == b
  {
  }

  lemma ThreeBytes(a: int, b: int, c: int)
    requires IsThreeByteStart(a, b) && 0x80 <= c <= 0xBF
    ensures var n := Decode3(a, b, c);
            0x800 <= n < 0x10000 && IsScalar(n) && 0xE0 + n / 4096 == a && 0x80 + n / 64 % 64 == b && 0x80 + n % 64 == c
  {
    var n := Decode3(a, b, c);
    assert n / 64 == (a - 0xE0) * 64 + (b - 0x80);
  }

  lemma FourBytes(a: int, b: int, c: int, d: int)
    requires IsFourByteStart(a, b) && 0x80 <= c <= 0xBF && 0x80 <= d <= 0xBF
    ensures var n := Decode4(a, b, c, d);
            && 0x10000 <= n <= 0x10FFFF
            && 0xF0 + n / 262144 == a && 0x80 + n / 4096 % 64 == b && 0x80 + n / 64 % 64 == c && 0x80 + n % 64 == d
  {
    var n := Decode4(a, b, c, d);
    assert n / 64 == (a - 0xF0) * 4096 + (b - 0x80) * 64 + (c - 0x80);
    assert n / 4096 == (a - 0xF0) * 64 + (b - 0x80);
  }

  /** Every well-formed sequence is the encoding of a character. */
  lemma RuneIsEncoded(s: string) returns (c: nat)
    requires RuneLength(s) > 0
    ensures IsScalar(c) && s[..RuneLength(s)] == Encode(c)
  {
    var n := RuneLength(s);
    if n == 1 {
      c := s[0] as int;
      assert s[..1] == [s[0]];
    } else if n == 2 {
      TwoBytes(s[0] as int, s[1] as int);
      c := Decode2(s[0] as int, s[1] as int);
      assert s[..2] == [s[0], s[1]];
    } else if n == 3 {
      ThreeBytes(s[0] as int, s[1] as int, s[2] as int);
      c := Decode3(s[0] as int, s[1] as int, s[2] as int);
      assert s[..3] == [s[0], s[1], s[2]];
    } else {
      FourBytes(s[0] as int, s[1] as int, s[2] as int, s[3] as int);
      c := Decode4(s[0] as int, s[1] as int, s[2] as int, s[3] as int);
      assert s[..4] == [s[0], s[1], s[2], s[3]];
    }
  }

  lemma {:induction false} EncodedIsValid(cs: seq<nat>)
    requires AllScalar(cs)
    ensures Valid(EncodeAll(cs))
  {
    if cs != [] {
      hide Encode, RuneLength;
      EncodedIsValid(cs[1..]);
      EncodedIsRune(cs[0], EncodeAll(cs[1..]));
    }
  }

  lemma {:induction false} ValidIsEncoded(s: string) returns (cs: seq<nat>)
    requires Valid(s)
    ensures AllScalar(cs) && EncodeAll(cs) == s
    decreases |s|
  {
    hide Encode, RuneLength;
    if s == "" {
      cs := [];
    } else {
      var n := RuneLength(s);
      var c := RuneIsEncoded(s);
      var rest := ValidIsEncoded(s[n..]);
      cs := [c] + rest;
      assert cs[1..] == rest;
      assert s == s[..n] + s[n..];
    }
  }

  /** A byte string is valid if and only if it encodes characters, one after the other. */
  lemma ValidExactly(s: string)
    ensures Valid(s) <==> exists cs: seq<nat> :: AllScalar(cs) && EncodeAll(cs) == s
  {
    if Valid(s) {
      var cs := ValidIsEncoded(s);
    }
    if cs: seq<nat> :| AllScalar(cs) && EncodeAll(cs) == s {
      EncodedIsValid(cs);
    }
  }

  // ----- White space

  /** The Unicode White_Space property. */
  predicate IsWhiteSpace(c: nat) {
    || 0x9 <= c <= 0xD || c == 0x20 || c == 0x85 || c == 0xA0
    || c == 0x1680 || 0x2000 <= c <= 0x200A || c == 0x2028 || c == 0x2029 || c == 0x202F || c == 0x205F || c == 0x3000
  }

  /** White space is told from the first bytes. */
  lemma LeadingSpaceExactly(c: nat, t: string)
    requires IsScalar(c)
    ensures LeadingSpace(Encode(c) + t) == if IsWhiteSpace(c) then |Encode(c)| else 0
  {
    var s := Encode(c) + t;
    if 0x800 <= c < 0x10000 {
      ThreeByteSpaceExactly(c);
      assert s[0] == Encode(c)[0] && s[1] == Encode(c)[1] && s[2] == Encode(c)[2];
    }
  }

  lemma ThreeByteSpaceExactly(c: nat)
    requires IsScalar(c) && 0x800 <= c < 0x10000
    ensures IsThreeByteSpace(Encode(c)[0], Encode(c)[1], Encode(c)[2]) <==> IsWhiteSpace(c)
  {
    var a, b, d := c / 4096, c / 64 % 64, c % 64;
    assert c == a * 4096 + b * 64 + d;
  }

  /** A byte string is one white-space character if and only if it encodes one. */
  lemma SpaceExactly(w: string)
    ensures IsSpace(w) <==> exists c: nat :: IsScalar(c) && IsWhiteSpace(c) && Encode(c) == w
  {
    if c: nat :| IsScalar(c) && IsWhiteSpace(c) && Encode(c) == w {
      LeadingSpaceExactly(c, "");
      assert Encode(c) + "" == w;
    }
    if IsSpace(w) {
      assert RuneLength(w) == |w|;
      var c := RuneIsEncoded(w);
      assert w[..|w|] == w == Encode(c) + "";
      hide Encode, LeadingSpace;
      LeadingSpaceExactly(c, "");
    }
  }

  lemma TrailingSpaceExactly(a: string, c: nat)
    requires IsScalar(c)
    ensures TrailingSpace(a + Encode(c)) == if IsWhiteSpace(c) then |Encode(c)| else 0
  {
    var e := Encode(c);
    var s := a + e;
    assert forall i :: 0 <= i < |e| ==> s[|a| + i] == e[i];
    if 0x800 <= c < 0x10000 {
      ThreeByteSpaceExactly(c);
    }
  }

  lemma {:induction false} EncodeOneMore(cs: seq<nat>, c: nat)
    requires AllScalar(cs) && IsScalar(c)
    ensures EncodeAll(cs + [c]) == EncodeAll(cs) + Encode(c)
  {
    hide Encode;
    if cs == [] {
      assert cs + [c] == [c] && [c][1..] == [];
      assert Encode(c) + "" == Encode(c);
    } else {
      assert (cs + [c])[1..] == cs[1..] + [c];
      EncodeOneMore(cs[1..], c);
      assert Encode(cs[0]) + (EncodeAll(cs[1..]) + Encode(c)) == Encode(cs[0]) + EncodeAll(cs[1..]) + Encode(c);
    }
  }

  predicate AllWhite(cs: seq<nat>) {
    forall i :: 0 <= i < |cs| ==> IsWhiteSpace(cs[i])
  }

  lemma {:induction false} TrimLeftExactly(cs: seq<nat>) returns (i: nat)
    requires AllScalar(cs)
    ensures i <= |cs| && TrimLeft(EncodeAll(cs)) == EncodeAll(cs[i..])
    ensures AllWhite(cs[..i]) && (i < |cs| ==> !IsWhiteSpace(cs[i]))
  {
    hide Encode, LeadingSpace, IsWhiteSpace;
    i := 0;
    assert cs[0..] == cs;
    if cs != [] {
      var rest := EncodeAll(cs[1..]);
      LeadingSpaceExactly(cs[0], rest);
      if IsWhiteSpace(cs[0]) {
        var k := TrimLeftExactly(cs[1..]);
        assert (Encode(cs[0]) + rest)[|Encode(cs[0])|..] == rest;
        i := k + 1;
        assert cs[1..][k..] == cs[i..];
        assert cs[..i] == [cs[0]] + cs[1..][..k];
      }
    } else {
      NoSpaceInNothing();
    }
  }

  lemma NoSpaceInNothing()
    ensures LeadingSpace("") == TrailingSpace("") == 0 && EncodeAll([]) == ""
  {
  }

  lemma {:induction false} TrimRightExactly(cs: seq<nat>) returns (j: nat)
    requires AllScalar(cs)
    ensures j <= |cs| && TrimRight(EncodeAll(cs)) == EncodeAll(cs[..j])
    ensures AllWhite(cs[j..]) && (j > 0 ==> !IsWhiteSpace(cs[j - 1]))
  {
    hide Encode, TrailingSpace, IsWhiteSpace, EncodeAll;
    j := |cs|;
    assert cs[..j] == cs;
    if cs != [] {
      var init, last := cs[..|cs| - 1], cs[|cs| - 1];
      assert cs == init + [last];
      EncodeOneMore(init, last);
      TrailingSpaceExactly(EncodeAll(init), last);
      if IsWhiteSpace(last) {
        var s := EncodeAll(init) + Encode(last);
        assert s[..|s| - |Encode(last)|] == EncodeAll(init);
        j := TrimRightExactly(init);
        assert init[..j] == cs[..j];
        assert cs[j..] == init[j..] + [last];
      }
    } else {
      NoSpaceInNothing();
    }
  }

  /** Trimming takes the white-space characters off both ends, and nothing else. */
  lemma TrimSpaceExactly(cs: seq<nat>) returns (i: nat, j: nat)
    requires AllScalar(cs)
    ensures i <= j <= |cs| && TrimSpace(EncodeAll(cs)) == EncodeAll(cs[i..j])
    ensures AllWhite(cs[..i]) && AllWhite(cs[j..])
    ensures i < j ==> !IsWhiteSpace(cs[i]) && !IsWhiteSpace(cs[j - 1])
  {
    hide EncodeAll, IsWhiteSpace, TrimLeft, TrimRight;
    i := TrimLeftExactly(cs);
    var k := TrimRightExactly(cs[i..]);
    j := i + k;
    assert cs[i..][..k] == cs[i..j] && cs[i..][k..] == cs[j..];
  }

  function NotWhite(cs: seq<nat>): (r: seq<nat>)
    requires AllScalar(cs)
    ensures AllScalar(r)
  {
    if cs == [] then [] else (if IsWhiteSpace(cs[0]) then [] else [cs[0]]) + NotWhite(cs[1..])
  }

  lemma SqueezeOne(c: nat)
    requires IsScalar(c)
    ensures Squeeze(Encode(c)) == if IsWhiteSpace(c) then "" else Encode(c)
  {
    var e := Encode(c);
    assert e + "" == e;
    LeadingSpaceExactly(c, "");
    hide Encode, IsWhiteSpace;
    if IsWhiteSpace(c) {
      assert e[|e|..] == "";
    } else {
      ContinuationsStay(e[1..]) by {
        TailIsContinuation(c);
      }
      assert e == [e[0]] + e[1..];
    }
  }

  lemma TailIsContinuation(c: nat)
    requires IsScalar(c)
    ensures forall i :: 1 <= i < |Encode(c)| ==> IsContinuation(Encode(c)[i])
  {
  }

  lemma {:induction false} ContinuationsStay(s: string)
    requires forall i :: 0 <= i < |s| ==> IsContinuation(s[i])
    ensures Squeeze(s) == s
    decreases |s|
  {
    if s != "" {
      ContinuationsStay(s[1..]);
      assert s == [s[0]] + s[1..];
    }
  }

  /** Squeezing drops the white-space characters, wherever they stand. */
  lemma {:induction false} SqueezeExactly(cs: seq<nat>)
    requires AllScalar(cs)
    ensures Squeeze(EncodeAll(cs)) == EncodeAll(NotWhite(cs))
  {
    if cs != [] {
      var c, rest := cs[0], cs[1..];
      SqueezeExactly(rest);
      EncodedIsRune(c, "");
      assert Encode(c) + "" == Encode(c) && Encode(c)[|Encode(c)|..] == "";
      assert Valid(Encode(c));
      hide Encode, Squeeze, IsWhiteSpace, Valid;
      NoStraddleAfterValid(Encode(c), EncodeAll(rest));
      SqueezeAppend(Encode(c), EncodeAll(rest));
      SqueezeOne(c);
      if IsWhiteSpace(c) {
        assert [] + NotWhite(rest) == NotWhite(rest);
      } else {
        assert ([c] + NotWhite(rest))[1..] == NotWhite(rest);
      }
    }
  }
}
