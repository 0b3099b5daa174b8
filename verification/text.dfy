/**
 * String operations the platform relies on, written out with the semantics of
 * the runtime that performs them: JavaScript's `startsWith`, `includes`,
 * `replace`, `trim`, `trimEnd` and `split("\n")`, and Java's
 * `Integer.parseInt`, `Integer.toString` and string concatenation of `null`.
 * Strings are sequences of Unicode scalar values.
 */
module Text {
  import opened Wrappers

  /** Java's string conversion of a possibly-null reference: `"" + null` is "null". */
  function JavaStr(s: Option<string>): string {
    if s.Some? then s.value else "null"
  }

  /** `sub` occurs in `s` starting at index `j`. */
  predicate OccursAt(s: string, sub: string, j: nat) {
    j + |sub| <= |s| && s[j..j + |sub|] == sub
  }

  /** The first index at or after `from` where `sub` occurs in `s`, if any. */
  function IndexOfFrom(s: string, sub: string, from: nat): (r: Option<nat>)
    ensures r.Some? ==> from <= r.value && OccursAt(s, sub, r.value)
    ensures r.Some? ==> forall j :: from <= j < r.value ==> !OccursAt(s, sub, j)
    ensures r.None? ==> forall j :: from <= j ==> !OccursAt(s, sub, j)
    decreases |s| - from
  {
    if from + |sub| > |s| then None
    else if s[from..from + |sub|] == sub then Some(from)
    else IndexOfFrom(s, sub, from + 1)
  }

  /** JavaScript `s.indexOf(sub)`, with -1 rendered as `None`. */
  function IndexOf(s: string, sub: string): (r: Option<nat>)
    ensures r.Some? ==> OccursAt(s, sub, r.value)
    ensures r.Some? ==> forall j: nat :: j < r.value ==> !OccursAt(s, sub, j)
    ensures r.None? <==> forall j: nat :: !OccursAt(s, sub, j)
  {
    IndexOfFrom(s, sub, 0)
  }

  /** JavaScript `s.includes(sub)` (and Java `s.contains(sub)`). */
  predicate Includes(s: string, sub: string) {
    IndexOf(s, sub).Some?
  }

  /** JavaScript `s.startsWith(p)` (and Java `s.startsWith(p)`). */
  predicate StartsWith(s: string, p: string) {
    p <= s
  }

  /** Java `s.endsWith(p)`. */
  predicate EndsWith(s: string, p: string) {
    |p| <= |s| && s[|s| - |p|..] == p
  }

  lemma IncludesIff(s: string, sub: string)
    ensures Includes(s, sub) <==> exists j: nat :: OccursAt(s, sub, j)
  {
  }

  /** A prefix of a string occurs in it at index 0. */
  lemma PrefixIsIncluded(s: string, p: string)
    requires StartsWith(s, p)
    ensures Includes(s, p)
  {
    assert OccursAt(s, p, 0);
  }

  /**
   * JavaScript `s.replace(target, repl)` with a string pattern: only the FIRST
   * occurrence is replaced (the replacement strings used here contain no `$`).
   */
  function ReplaceFirst(s: string, target: string, repl: string): (r: string)
    ensures !Includes(s, target) ==> r == s
    ensures Includes(s, target) ==>
              var i := IndexOf(s, target).value;
              r == s[..i] + repl + s[i + |target|..]
  {
    match IndexOf(s, target)
    case None => s
    case Some(i) => s[..i] + repl + s[i + |target|..]
  }

  /** Removing a pattern that the string starts with drops exactly that prefix. */
  lemma ReplaceLeadingOccurrence(s: string, target: string)
    requires StartsWith(s, target)
    ensures ReplaceFirst(s, target, "") == s[|target|..]
  {
    assert OccursAt(s, target, 0);
  }

  /**
   * The characters JavaScript's `trim`/`trimEnd` remove: WhiteSpace (tab, vertical
   * tab, form feed, space, no-break space, byte order mark and the Space_Separator
   * category) and LineTerminator (LF, CR, LS, PS).
   */
  predicate IsJsWhitespace(c: char) {
    || c == '\t' || c == '\n' || c == '\U{0B}' || c == '\U{0C}' || c == '\r' || c == ' '
    || c == '\U{A0}' || c == '\U{1680}' || ('\U{2000}' <= c <= '\U{200A}')
    || c == '\U{2028}' || c == '\U{2029}' || c == '\U{202F}' || c == '\U{205F}'
    || c == '\U{3000}' || c == '\U{FEFF}'
  }

  /** JavaScript `s.trimEnd()`: the longest prefix not ending in whitespace, with only whitespace after it. */
  function TrimEnd(s: string): (r: string)
    ensures r <= s
    ensures |r| == 0 || !IsJsWhitespace(r[|r| - 1])
    ensures forall i :: |r| <= i < |s| ==> IsJsWhitespace(s[i])
  {
    if |s| > 0 && IsJsWhitespace(s[|s| - 1]) then TrimEnd(s[..|s| - 1]) else s
  }

  /** JavaScript `s.trimStart()`. */
  function TrimStart(s: string): (r: string)
    ensures |r| <= |s| && r == s[|s| - |r|..]
    ensures |r| == 0 || !IsJsWhitespace(r[0])
    ensures forall i :: 0 <= i < |s| - |r| ==> IsJsWhitespace(s[i])
  {
    if |s| > 0 && IsJsWhitespace(s[0]) then TrimStart(s[1..]) else s
  }

  /** JavaScript `s.trim()`. */
  function Trim(s: string): string {
    TrimStart(TrimEnd(s))
  }

  /** `s.trim().length > 0` exactly when `s` holds a character that is not whitespace. */
  predicate IsBlank(s: string) {
    forall i :: 0 <= i < |s| ==> IsJsWhitespace(s[i])
  }

  lemma {:induction false} BlankIffTrimEndEmpty(s: string)
    ensures IsBlank(s) <==> TrimEnd(s) == ""
  {
    if |s| > 0 && IsJsWhitespace(s[|s| - 1]) {
      BlankIffTrimEndEmpty(s[..|s| - 1]);
      assert IsBlank(s) <==> IsBlank(s[..|s| - 1]);
    } else if |s| > 0 {
      assert !IsBlank(s);
    }
  }

  lemma {:induction false} BlankIffTrimStartEmpty(s: string)
    ensures IsBlank(s) <==> TrimStart(s) == ""
  {
    if |s| > 0 && IsJsWhitespace(s[0]) {
      BlankIffTrimStartEmpty(s[1..]);
      assert IsBlank(s) <==> IsBlank(s[1..]);
    } else if |s| > 0 {
      assert !IsBlank(s);
    }
  }

  /** The filter `l.trim().length > 0` keeps exactly the pieces that are not blank. */
  lemma TrimEmptyIffBlank(s: string)
    ensures |Trim(s)| == 0 <==> IsBlank(s)
  {
    var e := TrimEnd(s);
    BlankIffTrimEndEmpty(s);
    BlankIffTrimStartEmpty(e);
    if |e| > 0 {
      assert !IsJsWhitespace(e[|e| - 1]);
      assert !IsBlank(e);
    }
  }

  /**
   * Java `Character.isWhitespace`: the Unicode space, line and paragraph
   * separators except the no-break spaces, plus the ASCII controls \t..\r and
   * \u001C..\u001F.
   */
  predicate IsJavaWhitespace(c: char) {
    || ('\t' <= c <= '\r') || ('\U{1C}' <= c <= '\U{1F}') || c == ' '
    || c == '\U{1680}' || ('\U{2000}' <= c <= '\U{2006}') || ('\U{2008}' <= c <= '\U{200A}')
    || c == '\U{2028}' || c == '\U{2029}' || c == '\U{205F}' || c == '\U{3000}'
  }

  function StripTrailing(s: string): (r: string)
    ensures r <= s
    ensures |r| == 0 || !IsJavaWhitespace(r[|r| - 1])
    ensures forall i :: |r| <= i < |s| ==> IsJavaWhitespace(s[i])
  {
    if |s| > 0 && IsJavaWhitespace(s[|s| - 1]) then
      var r := StripTrailing(s[..|s| - 1]);
      assert forall i :: |r| <= i < |s| - 1 ==> s[i] == s[..|s| - 1][i];
      r
    else s
  }

  function StripLeading(s: string): (r: string)
    ensures |r| <= |s| && r == s[|s| - |r|..]
    ensures |r| == 0 || !IsJavaWhitespace(r[0])
    ensures forall i :: 0 <= i < |s| - |r| ==> IsJavaWhitespace(s[i])
  {
    if |s| > 0 && IsJavaWhitespace(s[0]) then
      var r := StripLeading(s[1..]);
      assert s[1..][|s| - 1 - |r|..] == s[|s| - |r|..];
      assert forall i :: 1 <= i < |s| - |r| ==> s[i] == s[1..][i - 1];
      r
    else s
  }

  /** `r` is `s[i..]` cut to length |r|, with only whitespace cut off on either side. */
  predicate CutAt(s: string, r: string, i: int) {
    && 0 <= i <= |s| - |r| && r == s[i..i + |r|]
    && (forall j :: 0 <= j < i ==> IsJavaWhitespace(s[j]))
    && (forall j :: i + |r| <= j < |s| ==> IsJavaWhitespace(s[j]))
  }

  /**
   * Java `String.strip()`: the slice of `s` that neither starts nor ends with
   * whitespace, everything cut off on either side being whitespace.
   */
  function Strip(s: string): (r: string)
    ensures exists i :: CutAt(s, r, i)
    ensures |r| == 0 || (!IsJavaWhitespace(r[0]) && !IsJavaWhitespace(r[|r| - 1]))
  {
    var e := StripTrailing(s);
    var r := StripLeading(e);
    StripCut(s, e, r);
    r
  }

  lemma StripCut(s: string, e: string, r: string)
    requires e <= s && forall i :: |e| <= i < |s| ==> IsJavaWhitespace(s[i])
    requires |r| <= |e| && r == e[|e| - |r|..]
    requires forall i :: 0 <= i < |e| - |r| ==> IsJavaWhitespace(e[i])
    ensures CutAt(s, r, |e| - |r|)
  {
    var i := |e| - |r|;
    assert e == s[..|e|];
    assert r == s[i..i + |r|];
    assert forall j :: 0 <= j < i ==> s[j] == e[j];
  }

  /** Stripping twice is stripping once. */
  lemma StripIdempotent(s: string)
    ensures Strip(Strip(s)) == Strip(s)
  {
    var r := Strip(s);
    if |r| > 0 {
      assert StripTrailing(r) == r;
      assert StripLeading(r) == r;
    }
  }

  /** Joins the parts with "\n" between them: JavaScript `parts.join("\n")`. */
  function JoinLines(parts: seq<string>): string
    requires |parts| >= 1
  {
    if |parts| == 1 then parts[0] else parts[0] + "\n" + JoinLines(parts[1..])
  }

  /**
   * JavaScript `s.split("\n")`: the maximal newline-free pieces between the
   * newlines of `s`; the empty string splits into one empty piece.
   */
  function SplitLines(s: string): (parts: seq<string>)
    ensures |parts| >= 1
    ensures forall i :: 0 <= i < |parts| ==> '\n' !in parts[i]
  {
    SplitFrom(s, "")
  }

  /** Splits `s` when the piece under construction already holds `cur`. */
  function SplitFrom(s: string, cur: string): (parts: seq<string>)
    requires '\n' !in cur
    ensures |parts| >= 1
    ensures forall i :: 0 <= i < |parts| ==> '\n' !in parts[i]
  {
    if |s| == 0 then [cur]
    else if s[0] == '\n' then [cur] + SplitFrom(s[1..], "")
    else SplitFrom(s[1..], cur + [s[0]])
  }

  /** Splitting then joining gives back the original text. */
  lemma JoinSplit(s: string)
    ensures JoinLines(SplitLines(s)) == s
  {
    JoinSplitFrom(s, "");
  }

  lemma {:induction false} JoinSplitFrom(s: string, cur: string)
    requires '\n' !in cur
    ensures JoinLines(SplitFrom(s, cur)) == cur + s
    decreases |s|
  {
    if |s| > 0 {
      if s[0] == '\n' {
        JoinSplitFrom(s[1..], "");
        assert cur + s == cur + "\n" + s[1..];
      } else {
        JoinSplitFrom(s[1..], cur + [s[0]]);
        assert cur + s == cur + [s[0]] + s[1..];
      }
    }
  }

  /**
   * When `a` ends with a newline its last piece is empty, so splitting `a + b`
   * gives the other pieces of `a` followed by the pieces of `b`.
   */
  lemma SplitAfterNewline(a: string, b: string)
    requires |a| > 0 && a[|a| - 1] == '\n'
    ensures var pa := SplitLines(a);
            pa[|pa| - 1] == "" && SplitLines(a + b) == pa[..|pa| - 1] + SplitLines(b)
  {
    SplitFromAfterNewline(a, b, "");
  }

  lemma {:induction false} SplitFromAfterNewline(a: string, b: string, cur: string)
    requires '\n' !in cur
    requires |a| > 0 && a[|a| - 1] == '\n'
    ensures var pa := SplitFrom(a, cur);
            pa[|pa| - 1] == "" && SplitFrom(a + b, cur) == pa[..|pa| - 1] + SplitLines(b)
    decreases |a|
  {
    var a' := a[1..];
    assert (a + b)[1..] == a' + b;
    assert (a + b)[0] == a[0];
    if a[0] == '\n' {
      if |a'| == 0 {
        assert a' + b == b;
      } else {
        SplitFromAfterNewline(a', b, "");
        var pa' := SplitFrom(a', "");
        assert SplitFrom(a, cur)[..|SplitFrom(a, cur)| - 1] == [cur] + pa'[..|pa'| - 1];
      }
    } else {
      SplitFromAfterNewline(a', b, cur + [a[0]]);
    }
  }

  /** A text whose first line is `a` splits into `a` and the pieces of the rest. */
  lemma SplitFirstLine(a: string, b: string)
    requires '\n' !in a
    ensures SplitLines(a + "\n" + b) == [a] + SplitLines(b)
  {
    SplitFirstLineFrom(a, b, "");
    assert "" + a == a;
  }

  lemma {:induction false} SplitFirstLineFrom(a: string, b: string, cur: string)
    requires '\n' !in a && '\n' !in cur
    ensures SplitFrom(a + "\n" + b, cur) == [cur + a] + SplitLines(b)
    decreases |a|
  {
    var s := a + "\n" + b;
    if |a| == 0 {
      assert s[0] == '\n' && s[1..] == b;
      assert cur + a == cur;
    } else {
      assert s[0] == a[0] && s[1..] == a[1..] + "\n" + b;
      SplitFirstLineFrom(a[1..], b, cur + [a[0]]);
      assert cur + [a[0]] + a[1..] == cur + a;
    }
  }

  /** Pieces without newlines, joined and followed by a newline and more text, split back apart. */
  lemma {:induction false} SplitJoinedLines(parts: seq<string>, rest: string)
    requires |parts| >= 1
    requires forall k :: 0 <= k < |parts| ==> '\n' !in parts[k]
    ensures SplitLines(JoinLines(parts) + "\n" + rest) == parts + SplitLines(rest)
  {
    if |parts| == 1 {
      SplitFirstLine(parts[0], rest);
    } else {
      var tail := JoinLines(parts[1..]) + "\n" + rest;
      assert JoinLines(parts) + "\n" + rest == parts[0] + "\n" + tail;
      SplitFirstLine(parts[0], tail);
      SplitJoinedLines(parts[1..], rest);
      assert parts == [parts[0]] + parts[1..];
    }
  }

  /** ASCII-only `Character.toLowerCase`. */
  function LowerChar(c: char): char {
    if 'A' <= c <= 'Z' then (c as int + 32) as char else c
  }

  /** ASCII-only `String.toLowerCase()`. */
  function Lower(s: string): (r: string)
    ensures |r| == |s|
    ensures forall i :: 0 <= i < |s| ==> r[i] == LowerChar(s[i])
  {
    if |s| == 0 then "" else [LowerChar(s[0])] + Lower(s[1..])
  }

  const IntMin: int := -0x8000_0000
  const IntMax: int := 0x7FFF_FFFF

  predicate IsDigit(c: char) {
    '0' <= c <= '9'
  }

  predicate AllDigits(s: string) {
    forall i :: 0 <= i < |s| ==> IsDigit(s[i])
  }

  function DigitChar(d: nat): (c: char)
    requires d < 10
    ensures IsDigit(c) && c as int - '0' as int == d
  {
    ('0' as int + d) as char
  }

  /** The value of a string of decimal digits, most significant first. */
  function DigitsValue(s: string): nat
    requires AllDigits(s)
  {
    if |s| == 0 then 0 else DigitsValue(s[..|s| - 1]) * 10 + (s[|s| - 1] as int - '0' as int)
  }

  /** Decimal rendering of a natural number without leading zeros. */
  function NatToDecimal(n: nat): (r: string)
    ensures |r| >= 1 && AllDigits(r)
  {
    if n < 10 then [DigitChar(n)] else NatToDecimal(n / 10) + [DigitChar(n % 10)]
  }

  /** Java `Integer.toString(i)` / `"" + i`. */
  function IntToDecimal(i: int): string {
    if i < 0 then "-" + NatToDecimal(-i) else NatToDecimal(i)
  }

  /**
   * Java `Integer.parseInt(s)`: an optional `+` or `-`, one or more digits, and a
   * value inside the 32-bit range; anything else throws, rendered as `None`.
   */
  function ParseJavaInt(s: string): (r: Option<int>)
    ensures r.Some? ==> IntMin <= r.value <= IntMax
    ensures |s| == 0 ==> r.None?
  {
    var neg := |s| > 0 && s[0] == '-';
    var digits := if |s| > 0 && (s[0] == '-' || s[0] == '+') then s[1..] else s;
    if |digits| == 0 || !AllDigits(digits) then None
    else
      var v: int := if neg then -(DigitsValue(digits) as int) else DigitsValue(digits);
      if IntMin <= v <= IntMax then Some(v) else None
  }

  lemma {:induction false} NatDecimalRoundTrip(n: nat)
    ensures DigitsValue(NatToDecimal(n)) == n
  {
    if n >= 10 {
      NatDecimalRoundTrip(n / 10);
      var s := NatToDecimal(n);
      assert s[..|s| - 1] == NatToDecimal(n / 10);
    }
  }

  /** Rendering a 32-bit integer and parsing it back gives the integer. */
  lemma IntDecimalRoundTrip(i: int)
    requires IntMin <= i <= IntMax
    ensures ParseJavaInt(IntToDecimal(i)) == Some(i)
  {
    if i < 0 {
      NatDecimalRoundTrip(-i);
      ParseNegative(NatToDecimal(-i));
    } else {
      NatDecimalRoundTrip(i);
      ParseUnsigned(NatToDecimal(i));
    }
  }

  /** A plain run of digits parses to its value when that is in range. */
  lemma ParseUnsigned(d: string)
    requires |d| > 0 && AllDigits(d)
    ensures ParseJavaInt(d) == if DigitsValue(d) <= IntMax then Some(DigitsValue(d) as int) else None
  {
    assert d[0] != '-' && d[0] != '+' by {
      assert IsDigit(d[0]);
    }
  }

  /** A minus sign and a run of digits parse to the negated value when that is in range. */
  lemma ParseNegative(d: string)
    requires |d| > 0 && AllDigits(d)
    ensures ParseJavaInt("-" + d) == if IntMin <= -(DigitsValue(d) as int) then Some(-(DigitsValue(d) as int)) else None
  {
    assert ("-" + d)[1..] == d;
  }

  /** The UTF-16 code units Java spends on one character: two above the Basic Multilingual Plane. */
  function Utf16Units(c: char): nat {
    if c as int >= 0x1_0000 then 2 else 1
  }

  /** Java's `String.length()`: the number of UTF-16 code units. */
  function JavaLength(s: string): nat {
    if |s| == 0 then 0 else Utf16Units(s[0]) + JavaLength(s[1..])
  }

  /**
   * Java's `substring(0, limit)`: the longest prefix whose Java length is at
   * most `limit`. Where the cut would split a surrogate pair, Java keeps the
   * lone high surrogate, which a string of scalar values cannot hold; the
   * prefix then stops before the pair.
   */
  function JavaPrefix(s: string, limit: nat): (r: string)
    ensures r <= s && JavaLength(r) <= limit
    ensures |r| < |s| ==> JavaLength(r) + Utf16Units(s[|r|]) > limit
    ensures JavaLength(s) <= limit ==> r == s
  {
    if |s| == 0 || Utf16Units(s[0]) > limit then []
    else
      var rest := JavaPrefix(s[1..], limit - Utf16Units(s[0]));
      assert ([s[0]] + rest)[1..] == rest;
      assert JavaLength(s) <= limit ==> [s[0]] + rest == s by {
        if JavaLength(s) <= limit {
          assert s == [s[0]] + s[1..];
        }
      }
      [s[0]] + rest
  }

  /** Below the supplementary planes, Java's length is the number of characters. */
  lemma {:induction false} BmpJavaLength(s: string)
    requires forall k :: 0 <= k < |s| ==> Utf16Units(s[k]) == 1
    ensures JavaLength(s) == |s|
  {
    if |s| > 0 {
      assert forall k :: 0 <= k < |s[1..]| ==> s[1..][k] == s[k + 1];
      BmpJavaLength(s[1..]);
    }
  }
}
