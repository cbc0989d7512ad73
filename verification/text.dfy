/** String helpers the generator leans on: Python's `str.strip`, `str.split`,
    `str.join`, decimal formatting of integers, and the four-space `tabbify`
    indentation used for every indented block of the generated assembly. */
module Text {

  /** Python's `str.isspace` for one character: the characters `str.strip()`
      removes when called without arguments. */
  predicate IsSpace(c: char)
  {
    || ('\U{9}' <= c <= '\U{D}')
    || ('\U{1C}' <= c <= '\U{20}')
    || c == '\U{85}' || c == '\U{A0}' || c == '\U{1680}'
    || ('\U{2000}' <= c <= '\U{200A}')
    || c == '\U{2028}' || c == '\U{2029}' || c == '\U{202F}'
    || c == '\U{205F}' || c == '\U{3000}'
  }

  /** Removes trailing whitespace: the result is the longest prefix of `s`
      that does not end in whitespace, and everything cut off is whitespace. */
  function StripEnd(s: string): (r: string)
    ensures |r| <= |s| && r == s[..|r|]
    ensures forall k :: |r| <= k < |s| ==> IsSpace(s[k])
    ensures |r| == 0 || !IsSpace(r[|r| - 1])
  {
    if |s| > 0 && IsSpace(s[|s| - 1]) then StripEnd(s[..|s| - 1]) else s
  }

  /** Removes leading whitespace: the result is the longest suffix of `s`
      that does not start with whitespace, and everything cut off is whitespace. */
  function StripStart(s: string): (r: string)
    ensures |r| <= |s| && r == s[|s| - |r|..]
    ensures forall k :: 0 <= k < |s| - |r| ==> IsSpace(s[k])
    ensures |r| == 0 || !IsSpace(r[0])
  {
    if |s| > 0 && IsSpace(s[0]) then StripStart(s[1..]) else s
  }

  /** Python's `s.strip()`: the slice of `s` left once the whitespace at
      both ends is cut off. */
  function Strip(s: string): (r: string)
    ensures |r| <= |s|
    ensures exists a, b :: 0 <= a <= b <= |s| && r == s[a..b] && SpaceOutside(s, a, b)
    ensures |r| == 0 || (!IsSpace(r[0]) && !IsSpace(r[|r| - 1]))
  {
    var e := StripEnd(s);
    var r := StripStart(e);
    StripSlice(s, e, r);
    r
  }

  /** Stripping the end and then the start leaves the slice of `s` between
      the cut points, with whitespace only outside them. */
  lemma StripSlice(s: string, e: string, r: string)
    requires e == StripEnd(s) && r == StripStart(e)
    ensures |e| - |r| >= 0 && r == s[|e| - |r|..|e|] && SpaceOutside(s, |e| - |r|, |e|)
    ensures |r| == 0 || (!IsSpace(r[0]) && !IsSpace(r[|r| - 1]))
  {
    var a := |e| - |r|;
    assert e == s[..|e|] && r == e[a..];
    assert r == s[a..|e|];
    assert |r| > 0 ==> r[|r| - 1] == e[|e| - 1];
    forall k | 0 <= k < a
      ensures IsSpace(s[k])
    {
      assert s[k] == e[k];
    }
  }

  /** Everything in `s` before `a` and from `b` on is whitespace. */
  ghost predicate SpaceOutside(s: string, a: nat, b: nat)
    requires a <= b <= |s|
  {
    (forall k :: 0 <= k < a ==> IsSpace(s[k])) && (forall k :: b <= k < |s| ==> IsSpace(s[k]))
  }

  /** Python's `s.split(sep)` for a one-character separator: the pieces
      between separators, so there is always one more piece than separators. */
  function SplitOn(s: string, sep: char): (parts: seq<string>)
    ensures |parts| >= 1
    ensures forall k :: 0 <= k < |parts| ==> sep !in parts[k]
  {
    if |s| == 0 then [""]
    else
      var rest := SplitOn(s[1..], sep);
      if s[0] == sep then [""] + rest
      else [[s[0]] + rest[0]] + rest[1..]
  }

  /** Python's `sep.join(parts)`. */
  function JoinWith(sep: string, parts: seq<string>): string
  {
    if |parts| == 0 then ""
    else if |parts| == 1 then parts[0]
    else parts[0] + sep + JoinWith(sep, parts[1..])
  }

  /** Every occurrence of `c` in `s` replaced by `repl`. */
  function Replace(s: string, c: char, repl: string): (r: string)
    ensures c !in repl ==> c !in r
  {
    if |s| == 0 then ""
    else (if s[0] == c then repl else [s[0]]) + Replace(s[1..], c, repl)
  }

  /** Splitting on `c` and joining with `repl` replaces every `c` by `repl`. */
  lemma {:induction false} JoinSplitReplaces(s: string, c: char, repl: string)
    ensures JoinWith(repl, SplitOn(s, c)) == Replace(s, c, repl)
  {
    if |s| > 0 {
      JoinSplitReplaces(s[1..], c, repl);
      var rest := SplitOn(s[1..], c);
      if s[0] == c {
        JoinEmptyHead(repl, rest);
      } else {
        JoinExtendedHead(repl, [s[0]], rest);
      }
    }
  }

  /** An empty first piece contributes only the separator. */
  lemma JoinEmptyHead(sep: string, parts: seq<string>)
    requires |parts| >= 1
    ensures JoinWith(sep, [""] + parts) == sep + JoinWith(sep, parts)
  {
    assert ([""] + parts)[1..] == parts;
  }

  /** Extending the first piece at the front extends the joined text. */
  lemma JoinExtendedHead(sep: string, x: string, parts: seq<string>)
    requires |parts| >= 1
    ensures JoinWith(sep, [x + parts[0]] + parts[1..]) == x + JoinWith(sep, parts)
  {
    var ext := [x + parts[0]] + parts[1..];
    if |parts| > 1 {
      assert ext[1..] == parts[1..];
      assert JoinWith(sep, ext) == (x + parts[0]) + sep + JoinWith(sep, parts[1..]);
    }
  }

  /** Splitting on a character and joining with that same character gives the
      text back. */
  lemma {:induction false} SplitJoinRoundTrip(s: string, c: char)
    ensures JoinWith([c], SplitOn(s, c)) == s
  {
    JoinSplitReplaces(s, c, [c]);
    ReplaceByItself(s, c);
  }

  lemma {:induction false} ReplaceByItself(s: string, c: char)
    ensures Replace(s, c, [c]) == s
  {
    if |s| > 0 {
      ReplaceByItself(s[1..], c);
      assert s == [s[0]] + s[1..];
    }
  }

  const Indentation: string := "    "

  /** Python's `tabbify` (miditoavrasm.py:15-18): a non-empty text gets four
      spaces in front of each of its lines; the empty text stays empty. */
  function Tabbify(text: string): (r: string)
    ensures r == "" <==> text == ""
    ensures text != "" ==> |r| >= 4 && r[..4] == Indentation
  {
    if text != "" then Indentation + JoinWith("\n" + Indentation, SplitOn(text, '\n')) else ""
  }

  /** Removes the four spaces after every newline (the inverse of the
      per-line indentation `Tabbify` adds after the first line). */
  function Unindent(s: string): string
  {
    if |s| == 0 then ""
    else if s[0] == '\n' && |s| >= 5 && s[1..5] == Indentation then "\n" + Unindent(s[5..])
    else [s[0]] + Unindent(s[1..])
  }

  /** Dropping the leading indentation and unindenting the rest recovers the
      text that `Tabbify` was given: indentation loses nothing. */
  lemma TabbifyRoundTrip(text: string)
    requires text != ""
    ensures Unindent(Tabbify(text)[4..]) == text
  {
    TabbifyIsReplace(text);
    UnindentReplace(text);
  }

  /** A non-empty text, tabbified, is the indentation followed by the text
      with every newline replaced by a newline and the indentation. */
  lemma TabbifyIsReplace(text: string)
    requires text != ""
    ensures Tabbify(text) == Indentation + Replace(text, '\n', "\n" + Indentation)
  {
    JoinSplitReplaces(text, '\n', "\n" + Indentation);
  }

  lemma {:induction false} UnindentReplace(s: string)
    ensures Unindent(Replace(s, '\n', "\n" + Indentation)) == s
  {
    if |s| > 0 {
      UnindentReplace(s[1..]);
      var tail := Replace(s[1..], '\n', "\n" + Indentation);
      if s[0] == '\n' {
        var t := "\n" + Indentation + tail;
        assert t[1..5] == Indentation && t[5..] == tail;
      } else {
        var t := [s[0]] + tail;
        assert t[1..] == tail;
      }
      assert s == [s[0]] + s[1..];
    }
  }

  /** Every line of a tabbified text starts with the four-space indentation. */
  lemma TabbifyIndentsEveryLine(text: string, k: nat)
    requires text != ""
    requires k < |Tabbify(text)| && Tabbify(text)[k] == '\n'
    ensures k + 4 < |Tabbify(text)| && Tabbify(text)[k + 1..k + 5] == Indentation
  {
    var t := Tabbify(text);
    var rep := Replace(text, '\n', "\n" + Indentation);
    TabbifyIsReplace(text);
    if k < 4 {
      assert false;
    }
    ReplaceNewlineFollowed(text, k - 4);
    SliceOfTail(Indentation, rep, k + 1, k + 5);
  }

  lemma {:induction false} ReplaceNewlineFollowed(s: string, k: int)
    requires 0 <= k < |Replace(s, '\n', "\n" + Indentation)|
    requires Replace(s, '\n', "\n" + Indentation)[k] == '\n'
    ensures k + 4 < |Replace(s, '\n', "\n" + Indentation)|
    ensures Replace(s, '\n', "\n" + Indentation)[k + 1..k + 5] == Indentation
  {
    var head := if s[0] == '\n' then "\n" + Indentation else [s[0]];
    var tail := Replace(s[1..], '\n', "\n" + Indentation);
    assert Replace(s, '\n', "\n" + Indentation) == head + tail;
    if k >= |head| {
      ReplaceNewlineFollowed(s[1..], k - |head|);
      SliceOfTail(head, tail, k + 1, k + 5);
    }
  }

  /** A slice lying wholly in the second part of a concatenation. */
  lemma SliceOfTail(a: string, b: string, i: int, j: int)
    requires |a| <= i <= j <= |a + b|
    ensures (a + b)[i..j] == b[i - |a|..j - |a|]
  {
    assert forall m :: i <= m < j ==> (a + b)[m] == b[m - |a|];
  }

  // ---- decimal formatting: Python's str() of an int ----

  function DigitChar(d: nat): (c: char)
    requires d < 10
    ensures '0' <= c <= '9'
  {
    (48 + d) as char
  }

  function DigitValue(c: char): nat
  {
    if '0' <= c <= '9' then (c as int - '0' as int) as nat else 0
  }

  /** Decimal digits of `n`, most significant first, without leading zeros. */
  function NatToString(n: nat): (s: string)
    ensures |s| >= 1
    ensures forall k :: 0 <= k < |s| ==> '0' <= s[k] <= '9'
    ensures |s| > 1 ==> s[0] != '0'
  {
    if n < 10 then [DigitChar(n)] else NatToString(n / 10) + [DigitChar(n % 10)]
  }

  /** Python's `str(i)` / `"{}".format(i)` for an integer. */
  function IntToString(i: int): (s: string)
    ensures |s| >= 1 && '\n' !in s && ' ' !in s
  {
    if i < 0 then "-" + NatToString(-i) else NatToString(i)
  }

  /** Reads back a string of decimal digits. */
  function ParseNat(s: string): nat
  {
    if |s| == 0 then 0 else 10 * ParseNat(s[..|s| - 1]) + DigitValue(s[|s| - 1])
  }

  /** Formatting a natural number in decimal and reading it back is the identity. */
  lemma {:induction false} NatToStringRoundTrip(n: nat)
    ensures ParseNat(NatToString(n)) == n
  {
    if n >= 10 {
      NatToStringRoundTrip(n / 10);
      var s := NatToString(n);
      assert s[..|s| - 1] == NatToString(n / 10);
    }
  }
}
