/** The escaping mini-syntax of query strings: `field:value` terms joined by " OR ". */
module QueryStrings {
  import opened Wrappers
  import opened TextSearch

  // ----- field:value

  /** No colon of `s` is unescaped, and its last backslash escapes something. */
  predicate Plain(s: string) {
    if s == "" then true
    else if s[0] == '\\' then |s| >= 2 && Plain(s[2..])
    else s[0] != ':' && Plain(s[1..])
  }

  function Prefixed(front: string, split: Option<(string, string)>): Option<(string, string)> {
    match split
    case None => None
    case Some(pair) => Some((front + pair.0, pair.1))
  }

  /** The two sides of the first unescaped colon. */
  function SplitAt(s: string): Option<(string, string)> {
    if s == "" then None
    else if s[0] == '\\' then if |s| < 2 then None else Prefixed(s[..2], SplitAt(s[2..]))
    else if s[0] == ':' then Some(("", s[1..]))
    else Prefixed(s[..1], SplitAt(s[1..]))
  }

  /** A split is at a colon, with a plain field in front of it. */
  lemma {:induction false} SplitIsAtColon(s: string)
    requires SplitAt(s).Some?
    ensures var pair := SplitAt(s).value; s == pair.0 + ":" + pair.1 && Plain(pair.0)
    decreases |s|
  {
    var n := if s[0] == '\\' then 2 else if s[0] == ':' then 0 else 1;
    if n > 0 {
      SplitIsAtColon(s[n..]);
      var pair := SplitAt(s[n..]).value;
      assert (s[..n] + pair.0)[n..] == pair.0;
      assert s == s[..n] + s[n..];
    }
  }

  /** Without a split no colon has a plain field in front of it. */
  lemma {:induction false} NoSplitNoField(s: string, i: nat)
    requires SplitAt(s).None? && i < |s| && s[i] == ':'
    ensures !Plain(s[..i])
    decreases |s|
  {
    var n := if s[0] == '\\' then 2 else 1;
    if i >= n {
      assert s[n..][i - n] == ':' && s[..i][n..] == s[n..][..i - n];
      NoSplitNoField(s[n..], i - n);
    }
  }

  lemma {:induction false} PlainFieldSplits(field: string, value: string)
    requires Plain(field)
    ensures SplitAt(field + ":" + value) == Some((field, value))
    decreases |field|
  {
    var s := field + ":" + value;
    if field == "" {
      assert s[1..] == value;
    } else {
      var n := if field[0] == '\\' then 2 else 1;
      PlainFieldSplits(field[n..], value);
      assert s[n..] == field[n..] + ":" + value;
      assert s[..n] + field[n..] == field;
    }
  }

  /** Splitting gives back a field and a value exactly when the field is plain. */
  lemma SplitExactly(field: string, value: string)
    ensures SplitAt(field + ":" + value) == Some((field, value)) <==> Plain(field)
  {
    if Plain(field) {
      PlainFieldSplits(field, value);
    } else if SplitAt(field + ":" + value).Some? {
      SplitIsAtColon(field + ":" + value);
    }
  }

  lemma PrefixedTwice(a: string, b: string, split: Option<(string, string)>)
    ensures Prefixed(a, Prefixed(b, split)) == Prefixed(a + b, split)
    ensures Prefixed("", split) == split
  {
    if split.Some? {
      assert a + (b + split.value.0) == a + b + split.value.0;
      assert "" + split.value.0 == split.value.0;
    }
  }

  lemma SplitFrom(s: string, i: nat, n: nat)
    requires i + n <= |s| && SplitAt(s) == Prefixed(s[..i], SplitAt(s[i..])) && SplitAt(s[i..]) == Prefixed(s[i..][..n], SplitAt(s[i..][n..]))
    ensures SplitAt(s) == Prefixed(s[..i + n], SplitAt(s[i + n..]))
  {
    hide SplitAt, Prefixed;
    PrefixedTwice(s[..i], s[i..][..n], SplitAt(s[i..][n..]));
    assert s[..i] + s[i..][..n] == s[..i + n];
    assert s[i..][n..] == s[i + n..];
  }

  /** Scans for the first unescaped colon. */
  method SplitFieldValue(s: string) returns (field: string, value: string, ok: bool)
    ensures ok <==> SplitAt(s).Some?
    ensures ok ==> (field, value) == SplitAt(s).value
    ensures !ok ==> field == "" && value == ""
  {
    assert s[..0] == "" && s[0..] == s;
    PrefixedTwice("", "", SplitAt(s));
    var i := 0;
    while i < |s|
      invariant 0 <= i
      invariant if i <= |s| then SplitAt(s) == Prefixed(s[..i], SplitAt(s[i..])) else SplitAt(s) == None
    {
      assert s[i..][0] == s[i];
      if s[i] == '\\' {
        if i + 2 <= |s| {
          SplitFrom(s, i, 2);
        }
        i := i + 1;
        i := i + 1;
        continue;
      }
      if s[i] == ':' {
        assert s[i..][1..] == s[i + 1..];
        assert s[..i] + "" == s[..i];
        return s[..i], s[i + 1..], true;
      }
      SplitFrom(s, i, 1);
      i := i + 1;
    }
    return "", "", false;
  }

  // ----- Escaping

  /** Every special character gets a backslash in front of it. */
  function Escape(special: char -> bool, s: string): string {
    if s == "" then ""
    else (if special(s[0]) then ['\\', s[0]] else [s[0]]) + Escape(special, s[1..])
  }

  function Unescape(s: string): string {
    if s == "" then ""
    else if s[0] == '\\' && |s| >= 2 then [s[1]] + Unescape(s[2..])
    else [s[0]] + Unescape(s[1..])
  }

  /** Whichever characters the writer escapes: unescaping undoes it on all strings exactly
      when the backslash is among them. */
  lemma UnescapeUndoesEscape(special: char -> bool)
    ensures (forall s :: Unescape(Escape(special, s)) == s) <==> special('\\')
  {
    if special('\\') {
      forall s
        ensures Unescape(Escape(special, s)) == s
      {
        EscapedIsUndone(special, s);
      }
    } else {
      var s: string := ['\\', '\\'];
      assert s[1..] == ['\\'];
      assert Escape(special, ['\\']) == ['\\'];
      assert Escape(special, s) == s;
      assert s[2..] == "";
      assert Unescape(s) == ['\\'];
    }
  }

  lemma {:induction false} EscapedIsUndone(special: char -> bool, s: string)
    requires special('\\')
    ensures Unescape(Escape(special, s)) == s
    decreases |s|
  {
    if s != "" {
      var e := Escape(special, s);
      EscapedIsUndone(special, s[1..]);
      assert e[if special(s[0]) then 2 else 1..] == Escape(special, s[1..]);
    }
  }

  lemma UnescapeFrom(done: string, s: string, i: nat, n: nat)
    requires 0 < n && i + n <= |s|
    requires Unescape(s[i..]) == [s[i + n - 1]] + Unescape(s[i..][n..])
    ensures done + Unescape(s[i..]) == done + [s[i + n - 1]] + Unescape(s[i + n..])
  {
    assert s[i..][n..] == s[i + n..];
  }

  method UnescapeQueryString(s: string) returns (b: string)
    ensures b == Unescape(s)
  {
    b := "";
    assert s[0..] == s;
    var i := 0;
    while i < |s|
      invariant 0 <= i <= |s|
      invariant b + Unescape(s[i..]) == Unescape(s)
    {
      if s[i] == '\\' && i + 1 < |s| {
        UnescapeFrom(b, s, i, 2);
        i := i + 1;
        b := b + [s[i]];
        i := i + 1;
        continue;
      }
      UnescapeFrom(b, s, i, 1);
      b := b + [s[i]];
      i := i + 1;
    }
  }

  // ----- Terms joined by " OR "

  function Or(): string {
    " OR "
  }

  /** `strings.Split` at " OR ". */
  function SplitOr(s: string): (r: seq<string>)
    ensures r != []
    decreases |s|
  {
    var i := Index(s, Or());
    if i < 0 then [s] else [s[..i]] + SplitOr(s[i + |Or()|..])
  }

  function JoinOr(parts: seq<string>): string {
    if parts == [] then ""
    else if |parts| == 1 then parts[0]
    else parts[0] + Or() + JoinOr(parts[1..])
  }

  /** Nothing in the part is taken for the joint: no " OR " occurs in it, nor, unless the part
      is the last one, across the joint behind it. */
  predicate StandsAlone(part: string, last: bool) {
    if last then Index(part, Or()) == -1 else Index(part + Or(), Or()) == |part|
  }

  ghost predicate AllStandAlone(parts: seq<string>) {
    forall i :: 0 <= i < |parts| ==> StandsAlone(parts[i], i == |parts| - 1)
  }

  lemma OrOccursAtJoint(a: string, rest: string)
    ensures OccursAt(a + Or() + rest, Or(), |a|, false)
    ensures 0 <= Index(a + Or() + rest, Or()) <= |a|
  {
    var s := a + Or() + rest;
    assert s[|a|..|a| + |Or()|] == Or();
    assert OccursAt(s, Or(), |a|, false);
  }

  /** What is behind the joint does not matter. */
  lemma FirstJoint(a: string, rest: string)
    ensures StandsAlone(a, false) <==> Index(a + Or() + rest, Or()) == |a|
  {
    var s := a + Or() + rest;
    OrOccursAtJoint(a, rest);
    assert s[..|a| + 4] == a + Or();
    IndexInPrefix(s, |a| + 4, Or());
  }

  lemma SplitOnce(a: string, rest: string)
    requires StandsAlone(a, false)
    ensures SplitOr(a + Or() + rest) == [a] + SplitOr(rest)
  {
    FirstJoint(a, rest);
    hide Index, Or, StandsAlone;
    var s := a + Or() + rest;
    assert s[|a| + |Or()|..] == rest;
    assert s[..|a|] == a;
  }

  lemma SplitOnlyOnce(a: string, rest: string)
    requires SplitOr(a + Or() + rest)[0] == a
    ensures StandsAlone(a, false)
  {
    FirstJoint(a, rest);
    OrOccursAtJoint(a, rest);
    hide Index, Or, StandsAlone;
  }

  lemma SplitSingle(a: string)
    ensures SplitOr(a) == [a] <==> StandsAlone(a, true)
  {
    hide FindFrom;
  }

  lemma StandAloneFront(parts: seq<string>)
    requires |parts| > 1
    ensures AllStandAlone(parts) <==> StandsAlone(parts[0], false) && AllStandAlone(parts[1..])
  {
    hide StandsAlone;
    if StandsAlone(parts[0], false) && AllStandAlone(parts[1..]) {
      forall i | 0 <= i < |parts|
        ensures StandsAlone(parts[i], i == |parts| - 1)
      {
        assert i > 0 ==> parts[i] == parts[1..][i - 1];
      }
    }
    if AllStandAlone(parts) {
      forall i | 0 <= i < |parts[1..]|
        ensures StandsAlone(parts[1..][i], i == |parts[1..]| - 1)
      {
        assert parts[1..][i] == parts[i + 1];
      }
    }
  }

  /** Parts joined by " OR " come back from a split exactly if each stands alone. */
  lemma {:induction false} SplitUndoesJoin(parts: seq<string>)
    requires parts != []
    ensures SplitOr(JoinOr(parts)) == parts <==> AllStandAlone(parts)
    decreases |parts|
  {
    hide SplitOr, Or, StandsAlone;
    if |parts| == 1 {
      SplitSingle(parts[0]);
      assert parts == [parts[0]];
    } else {
      var rest := JoinOr(parts[1..]);
      assert parts == [parts[0]] + parts[1..];
      SplitUndoesJoin(parts[1..]);
      StandAloneFront(parts);
      if StandsAlone(parts[0], false) {
        SplitOnce(parts[0], rest);
        assert ([parts[0]] + SplitOr(rest))[1..] == SplitOr(rest);
      } else if SplitOr(parts[0] + Or() + rest)[0] == parts[0] {
        SplitOnlyOnce(parts[0], rest);
      }
    }
  }

  /** A part without blanks stands alone. */
  lemma BlanklessStandsAlone(a: string, last: bool)
    requires ' ' !in a
    ensures StandsAlone(a, last)
  {
    var s := a + Or();
    assert s[|a|..|a| + 4] == Or();
    forall i | 0 <= i < |a|
      ensures !OccursAt(s, Or(), i, false) && !OccursAt(a, Or(), i, false)
    {
      assert s[i] == a[i] != ' ';
      assert i + 4 <= |s| ==> s[i..i + 4][0] == a[i];
      assert i + 4 <= |a| ==> a[i..i + 4][0] == a[i];
    }
    FirstOccurrence(s, Or(), false, |a|);
  }

  /** The field of a term may hold a colon only behind a backslash. */
  lemma StrayColonExample()
    ensures SplitAt("a:b" + ":" + "c") == Some(("a", "b:c")) && !Plain("a:b")
  {
    var s := "a:b" + ":" + "c";
    assert s[1..][0] == ':' && s[1..][1..] == "b:c";
    assert s[..1] + "" == "a";
    assert "a:b"[1..][0] == ':';
  }
}
