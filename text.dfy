/**
 * The string primitives the archiver relies on, over `string` (a `seq<char>`):
 * SQLite's `upper()` and the case-insensitive header-name comparison of Python's
 * email package (both ASCII-only here), the `in` substring test, `bytes.split()`
 * with no separator, `str.strip(c)`, and `int()` applied to decimal text.
 */
module Text {
  import opened Wrappers

  // ---------------------------------------------------------------------------
  // ASCII upper-casing (SQLite `upper()`, `"Message-Id".upper()`)
  // ---------------------------------------------------------------------------

  function UpperChar(c: char): (u: char)
    ensures 'a' <= c <= 'z' ==> u as int == c as int - 32
    ensures !('a' <= c <= 'z') ==> u == c
  {
    if 'a' <= c <= 'z' then (c as int - 32) as char else c
  }

  /** Upper-cases every ASCII letter of `s` and leaves every other character alone. */
  function Upper(s: string): (r: string)
    ensures |r| == |s|
    ensures forall i :: 0 <= i < |s| ==> r[i] == UpperChar(s[i])
  {
    seq(|s|, i requires 0 <= i < |s| => UpperChar(s[i]))
  }

  /** Header names compare without regard to ASCII case. */
  predicate SameName(a: string, b: string) {
    Upper(a) == Upper(b)
  }

  // ---------------------------------------------------------------------------
  // Substring test (Python's `sub in s`): case-sensitive
  // ---------------------------------------------------------------------------

  /** `sub` occurs in `s` starting at index `i`. */
  predicate OccursAt(s: string, i: nat, sub: string) {
    i + |sub| <= |s| && s[i..i + |sub|] == sub
  }

  predicate Contains(s: string, sub: string) {
    exists i: nat | i <= |s| :: OccursAt(s, i, sub)
  }

  // ---------------------------------------------------------------------------
  // ASCII whitespace and `bytes.split()` with no separator
  // ---------------------------------------------------------------------------

  /** The bytes `bytes.split()` and `int()` treat as whitespace: space, \t, \n, \v, \f, \r. */
  predicate IsSpace(c: char) {
    c == ' ' || c == '\t' || c == '\n' || c == '\r' || c as int == 11 || c as int == 12
  }

  /** A piece `split()` can return: non-empty, without whitespace. */
  predicate IsWord(w: string) {
    w != [] && forall i :: 0 <= i < |w| ==> !IsSpace(w[i])
  }

  /** `s` with its leading whitespace removed. */
  function SkipSpaces(s: string): (r: string)
    ensures |r| <= |s| && r == s[|s| - |r|..]
    ensures forall i :: 0 <= i < |s| - |r| ==> IsSpace(s[i])
    ensures r == [] || !IsSpace(r[0])
  {
    if s != [] && IsSpace(s[0]) then
      var r := SkipSpaces(s[1..]);
      assert s[1..][|s| - 1 - |r|..] == s[|s| - |r|..];
      assert forall i :: 1 <= i < |s| - |r| ==> s[i] == s[1..][i - 1];
      r
    else s
  }

  /** `s` with its trailing whitespace removed. */
  function SkipTrailingSpaces(s: string): (r: string)
    ensures |r| <= |s| && r == s[..|r|]
    ensures forall i :: |r| <= i < |s| ==> IsSpace(s[i])
    ensures r == [] || !IsSpace(r[|r| - 1])
  {
    if s != [] && IsSpace(s[|s| - 1]) then
      var r := SkipTrailingSpaces(s[..|s| - 1]);
      assert s[..|s| - 1][..|r|] == s[..|r|];
      assert forall i :: |r| <= i < |s| - 1 ==> s[i] == s[..|s| - 1][i];
      r
    else s
  }

  /** The length of the longest whitespace-free prefix of `s`. */
  function WordLength(s: string): (n: nat)
    ensures n <= |s|
    ensures forall i :: 0 <= i < n ==> !IsSpace(s[i])
    ensures n == |s| || IsSpace(s[n])
  {
    if s == [] || IsSpace(s[0]) then 0
    else
      var n := WordLength(s[1..]);
      assert forall i :: 1 <= i <= n ==> s[i] == s[1..][i - 1];
      1 + n
  }

  predicate AllWords(ws: seq<string>) {
    forall i :: 0 <= i < |ws| ==> IsWord(ws[i])
  }

  /** A string that does not start with whitespace starts with a word. */
  lemma LeadingWord(t: string)
    requires t != [] && !IsSpace(t[0])
    ensures WordLength(t) > 0 && IsWord(t[..WordLength(t)])
  {
    var w := t[..WordLength(t)];
    assert forall i :: 0 <= i < |w| ==> w[i] == t[i];
  }

  lemma AllWordsCons(w: string, ws: seq<string>)
    requires IsWord(w) && AllWords(ws)
    ensures AllWords([w] + ws)
  {
    assert forall i :: 1 <= i < |ws| + 1 ==> ([w] + ws)[i] == ws[i - 1];
  }

  /** `bytes.split()`: the maximal runs of non-whitespace, in order. */
  function Split(s: string): (r: seq<string>)
    ensures AllWords(r)
    decreases |s|
  {
    var t := SkipSpaces(s);
    if t == [] then []
    else
      var n := WordLength(t);
      LeadingWord(t);
      var rest := Split(t[n..]);
      AllWordsCons(t[..n], rest);
      [t[..n]] + rest
  }

  /** The words joined by single spaces. */
  function JoinWords(ws: seq<string>): string {
    if ws == [] then ""
    else if |ws| == 1 then ws[0]
    else ws[0] + " " + JoinWords(ws[1..])
  }

  lemma SplitWord(w: string)
    requires IsWord(w)
    ensures Split(w) == [w]
  {
    assert SkipSpaces(w) == w;
    assert WordLength(w) == |w|;
    assert w[..|w|] == w;
    assert w[|w|..] == [];
  }

  /** A word followed by a space splits off as the first piece. */
  lemma SplitWordThenSpace(w: string, rest: string)
    requires IsWord(w)
    ensures Split(w + " " + rest) == [w] + Split(rest)
  {
    var s := w + " " + rest;
    assert s[0] == w[0];
    assert SkipSpaces(s) == s;
    assert s[|w|] == ' ';
    assert WordLength(s) == |w|;
    assert s[..|w|] == w;
    var t := s[|w|..];
    assert t == " " + rest;
    assert t[1..] == rest;
    assert SkipSpaces(t) == SkipSpaces(rest);
  }

  /** Splitting words joined by spaces gives the words back. */
  lemma {:induction false} SplitJoinWords(ws: seq<string>)
    requires AllWords(ws)
    ensures Split(JoinWords(ws)) == ws
  {
    if ws == [] {
    } else if |ws| == 1 {
      SplitWord(ws[0]);
    } else {
      var tail := ws[1..];
      assert JoinWords(ws) == ws[0] + " " + JoinWords(tail);
      SplitWordThenSpace(ws[0], JoinWords(tail));
      assert AllWords(tail) by {
        forall i | 0 <= i < |tail| ensures IsWord(tail[i]) {
          assert tail[i] == ws[i + 1];
        }
      }
      SplitJoinWords(tail);
      assert [ws[0]] + tail == ws;
    }
  }

  // ---------------------------------------------------------------------------
  // `str.strip(c)` for one character c
  // ---------------------------------------------------------------------------

  function StripLeading(s: string, c: char): (r: string)
    ensures |r| <= |s| && r == s[|s| - |r|..]
    ensures forall i :: 0 <= i < |s| - |r| ==> s[i] == c
    ensures r == [] || r[0] != c
  {
    if s != [] && s[0] == c then
      var r := StripLeading(s[1..], c);
      assert s[1..][|s| - 1 - |r|..] == s[|s| - |r|..];
      assert forall i :: 1 <= i < |s| - |r| ==> s[i] == s[1..][i - 1];
      r
    else s
  }

  function StripTrailing(s: string, c: char): (r: string)
    ensures |r| <= |s| && r == s[..|r|]
    ensures forall i :: |r| <= i < |s| ==> s[i] == c
    ensures r == [] || r[|r| - 1] != c
  {
    if s != [] && s[|s| - 1] == c then
      var r := StripTrailing(s[..|s| - 1], c);
      assert s[..|s| - 1][..|r|] == s[..|r|];
      assert forall i :: |r| <= i < |s| - 1 ==> s[i] == s[..|s| - 1][i];
      r
    else s
  }

  lemma StripLeadingStep(s: string, c: char)
    requires s != [] && s[0] == c
    ensures StripLeading(s, c) == StripLeading(s[1..], c)
  {
  }

  lemma StripLeadingStop(s: string, c: char)
    requires s == [] || s[0] != c
    ensures StripLeading(s, c) == s
  {
  }

  lemma StripTrailingStep(s: string, c: char)
    requires s != [] && s[|s| - 1] == c
    ensures StripTrailing(s, c) == StripTrailing(s[..|s| - 1], c)
  {
  }

  lemma StripTrailingStop(s: string, c: char)
    requires s == [] || s[|s| - 1] != c
    ensures StripTrailing(s, c) == s
  {
  }

  /** `s.strip(c)`: every leading and every trailing `c` removed. */
  function Strip(s: string, c: char): string {
    StripTrailing(StripLeading(s, c), c)
  }

  /** `r` is the slice of `s` that starts at `i`, everything before and after it in
    * `s` is `c`, and `r` neither starts nor ends with `c`. */
  predicate TrimmedSlice(s: string, c: char, i: nat, r: string) {
    && i + |r| <= |s| && s[i..i + |r|] == r
    && (forall k :: 0 <= k < i ==> s[k] == c)
    && (forall k :: i + |r| <= k < |s| ==> s[k] == c)
    && (r == [] || (r[0] != c && r[|r| - 1] != c))
  }

  /** What `strip` does: it keeps one contiguous slice of `s` and cuts off exactly
    * the runs of `c` around it. */
  lemma StripIsTrimmedSlice(s: string, c: char)
    ensures TrimmedSlice(s, c, |s| - |StripLeading(s, c)|, Strip(s, c))
  {
    var m := StripLeading(s, c);
    TrimAround(s, c, |s| - |m|, m, StripTrailing(m, c));
  }

  /** Cutting a run of `c` off the front of `s` and then one off the back of what
    * is left keeps a trimmed slice. */
  lemma TrimAround(s: string, c: char, i: nat, m: string, r: string)
    requires i <= |s| && m == s[i..]
    requires forall k :: 0 <= k < i ==> s[k] == c
    requires m == [] || m[0] != c
    requires |r| <= |m| && r == m[..|r|]
    requires forall k :: |r| <= k < |m| ==> m[k] == c
    requires r == [] || r[|r| - 1] != c
    ensures TrimmedSlice(s, c, i, r)
  {
    assert s[i..i + |r|] == m[..|r|];
    forall k | i + |r| <= k < |s| ensures s[k] == c {
      assert s[k] == m[k - i];
    }
    if r != [] {
      assert r[0] == m[0];
    }
  }

  /** A string that neither starts nor ends with `c` is left as it is. */
  lemma StripUntouched(s: string, c: char)
    requires s == [] || (s[0] != c && s[|s| - 1] != c)
    ensures Strip(s, c) == s
  {
  }

  // ---------------------------------------------------------------------------
  // `int()` on decimal text, and decimal rendering
  // ---------------------------------------------------------------------------

  predicate IsDigit(c: char) {
    '0' <= c <= '9'
  }

  predicate AllDigits(s: string) {
    forall i :: 0 <= i < |s| ==> IsDigit(s[i])
  }

  /** The value of a string of decimal digits (leading zeros allowed). */
  function DigitsValue(s: string): nat
    requires AllDigits(s)
  {
    if s == [] then 0 else 10 * DigitsValue(s[..|s| - 1]) + (s[|s| - 1] as int - '0' as int)
  }

  /**
   * `int(s)`: surrounding whitespace is ignored, an optional sign is
   * followed by at least one decimal digit; anything else is a `ValueError` (None).
   */
  function ParseInt(s: string): Option<int> {
    ParseSigned(SkipTrailingSpaces(SkipSpaces(s)))
  }

  /** An optional sign followed by at least one decimal digit, and nothing else. */
  function ParseSigned(t: string): Option<int> {
    if t == [] then None
    else
      var digits := if t[0] == '-' || t[0] == '+' then t[1..] else t;
      if digits != [] && AllDigits(digits) then
        Some(if t[0] == '-' then -(DigitsValue(digits) as int) else DigitsValue(digits))
      else None
  }

  function DigitChar(d: nat): (c: char)
    requires d < 10
    ensures IsDigit(c) && c as int - '0' as int == d
  {
    ('0' as int + d) as char
  }

  /** The shortest decimal digits of `n`. */
  function NatDigits(n: nat): (s: string)
    ensures s != []
  {
    if n < 10 then [DigitChar(n)] else NatDigits(n / 10) + [DigitChar(n % 10)]
  }

  /** `str(n)`: decimal rendering, with a leading '-' for negative numbers. */
  function Decimal(n: int): string {
    if n < 0 then "-" + NatDigits(-n) else NatDigits(n)
  }

  lemma {:induction false} NatDigitsValue(n: nat)
    ensures AllDigits(NatDigits(n)) && DigitsValue(NatDigits(n)) == n
  {
    var s := NatDigits(n);
    if n >= 10 {
      NatDigitsValue(n / 10);
      assert s[..|s| - 1] == NatDigits(n / 10);
    }
  }

  lemma Unpadded(s: string)
    requires s != [] && !IsSpace(s[0]) && !IsSpace(s[|s| - 1])
    ensures SkipTrailingSpaces(SkipSpaces(s)) == s
  {
  }

  lemma ParseDigits(m: nat)
    ensures ParseSigned(NatDigits(m)) == Some(m as int)
  {
    var d := NatDigits(m);
    NatDigitsValue(m);
    assert IsDigit(d[0]);
  }

  lemma ParseNegativeDigits(m: nat)
    ensures ParseSigned("-" + NatDigits(m)) == Some(-(m as int))
  {
    var d := NatDigits(m);
    NatDigitsValue(m);
    assert ("-" + d)[1..] == d;
  }

  /** `int(str(n)) == n`: parsing a rendered integer gives it back. */
  lemma DecimalRoundTrip(n: int)
    ensures ParseInt(Decimal(n)) == Some(n)
  {
    var m: nat := if n < 0 then -n else n;
    var d := NatDigits(m);
    NatDigitsValue(m);
    var s := Decimal(n);
    assert IsDigit(d[0]) && IsDigit(d[|d| - 1]);
    if n < 0 {
      assert s == "-" + d && s[|s| - 1] == d[|d| - 1];
      Unpadded(s);
      ParseNegativeDigits(m);
    } else {
      Unpadded(s);
      ParseDigits(m);
    }
  }
}
