/** The text conversions of .NET's System.Convert that the marshaler relies on, for the
    two non-string scalar property types it supports: Int32 and Boolean. The source
    converts under the current culture; the model takes the invariant culture's signs
    and digits. Convert.ToString(int) prints decimal digits with a leading '-';
    Convert.ChangeType(string, typeof(int)) is Int32.Parse with NumberStyles.Integer;
    Convert.ToString(bool) prints "True"/"False"; Convert.ChangeType(string, typeof(bool))
    is Boolean.Parse. */
module DotNetConvert {
  import opened Wrappers

  const MinInt32: int := -0x8000_0000
  const MaxInt32: int := 0x7FFF_FFFF

  /** The values a C# `int` can hold. */
  predicate IsInt32(n: int) {
    MinInt32 <= n <= MaxInt32
  }

  /** The white-space characters NumberStyles.AllowLeadingWhite/AllowTrailingWhite admit:
      U+0009 to U+000D and U+0020. */
  predicate IsWhite(c: char) {
    c == ' ' || '\t' <= c <= '\r'
  }

  predicate IsDigit(c: char) {
    '0' <= c <= '9'
  }

  predicate AllDigits(s: string) {
    forall i :: 0 <= i < |s| ==> IsDigit(s[i])
  }

  /** Every character of `s` is white space. */
  predicate AllWhite(s: string) {
    forall i :: 0 <= i < |s| ==> IsWhite(s[i])
  }

  /** `s` with its leading white space removed. */
  function TrimStart(s: string): (r: string)
    ensures |r| <= |s| && r == s[|s| - |r|..]
    ensures AllWhite(s[..|s| - |r|])
    ensures r == [] || !IsWhite(r[0])
  {
    if |s| > 0 && IsWhite(s[0]) then
      var r := TrimStart(s[1..]);
      assert s[..|s| - |r|] == [s[0]] + s[1..][..|s| - 1 - |r|];
      r
    else s
  }

  /** `s` with its trailing white space removed. */
  function TrimEnd(s: string): (r: string)
    ensures |r| <= |s| && r == s[..|r|]
    ensures AllWhite(s[|r|..])
    ensures r == [] || !IsWhite(r[|r| - 1])
  {
    if |s| > 0 && IsWhite(s[|s| - 1]) then
      var r := TrimEnd(s[..|s| - 1]);
      assert s[|r|..] == s[..|s| - 1][|r|..] + [s[|s| - 1]];
      r
    else s
  }

  /** String.Trim over the white space above. */
  function Trim(s: string): string {
    TrimEnd(TrimStart(s))
  }

  /** `s` is `word`, in any letter case, with white space around it. */
  ghost predicate Padded(s: string, word: string) {
    exists i, j :: 0 <= i <= j <= |s| && AllWhite(s[..i]) && AllWhite(s[j..]) && EqualsIgnoreCase(s[i..j], word)
  }

  function DigitChar(d: nat): (c: char)
    requires d < 10
    ensures IsDigit(c)
  {
    ('0' as int + d) as char
  }

  function DigitValue(c: char): (d: nat)
    requires IsDigit(c)
    ensures d < 10 && DigitChar(d) == c
  {
    c as int - '0' as int
  }

  /** The shortest decimal digit string of `n`. */
  function Digits(n: nat): string
    decreases n
  {
    if n < 10 then [DigitChar(n)] else Digits(n / 10) + [DigitChar(n % 10)]
  }

  /** The number a string of decimal digits denotes (leading zeros allowed). */
  function DigitsValue(s: string): nat
    requires AllDigits(s)
  {
    if s == [] then 0 else DigitsValue(s[..|s| - 1]) * 10 + DigitValue(s[|s| - 1])
  }

  /** Convert.ToString(int): Int32.Parse reads it back as `n`. */
  function FormatInt32(n: int): (r: string)
    ensures |r| > 0 && (r[0] == '-' <==> n < 0)
    ensures IsInt32(n) ==> ParseInt32(r) == Some(n)
  {
    var m: nat := if n < 0 then -n else n;
    DigitsRoundTrip(m);
    if n < 0 then
      var t := "-" + Digits(m);
      assert t[0] == '-' && t[1..] == Digits(m);
      ParseBareNumber(t);
      t
    else
      var t := Digits(m);
      assert IsDigit(t[0]);
      ParseBareNumber(t);
      t
  }

  /** Int32.Parse(s) with NumberStyles.Integer: optional surrounding white space, an
      optional '+' or '-', then one or more decimal digits; None stands for the
      FormatException (not a number) or OverflowException (outside Int32) it throws. */
  function ParseInt32(s: string): (r: Option<int>)
    ensures r.Some? ==> IsInt32(r.value)
    ensures forall i, j :: PaddedNumber(s, i, j) ==>
      r == if IsInt32(SignedValue(s[i..j])) then Some(SignedValue(s[i..j])) else None
    ensures r.Some? ==> exists i, j :: PaddedNumber(s, i, j) && r.value == SignedValue(s[i..j])
  {
    ParsePadded(s);
    ParseSigned(Trim(s))
  }

  /** An optional '+' or '-', then one or more decimal digits. */
  ghost predicate SignedDigits(t: string) {
    if |t| > 0 && (t[0] == '-' || t[0] == '+') then |t| > 1 && AllDigits(t[1..])
    else |t| > 0 && AllDigits(t)
  }

  /** The number such a text denotes, leading zeros allowed. */
  ghost function SignedValue(t: string): int
    requires SignedDigits(t)
  {
    if t[0] == '-' then -(DigitsValue(t[1..]) as int)
    else if t[0] == '+' then DigitsValue(t[1..]) as int
    else DigitsValue(t) as int
  }

  /** `s[i..j]` is a signed number with only white space around it. */
  ghost predicate PaddedNumber(s: string, i: int, j: int) {
    0 <= i <= j <= |s| && AllWhite(s[..i]) && AllWhite(s[j..]) && SignedDigits(s[i..j])
  }

  /** The part of Int32.Parse after white space is trimmed. */
  function ParseSigned(t: string): (r: Option<int>)
    ensures r.Some? ==> IsInt32(r.value)
  {
    if |t| > 0 && (t[0] == '-' || t[0] == '+') then
      if |t| == 1 || !AllDigits(t[1..]) then None
      else
        var n := if t[0] == '-' then -(DigitsValue(t[1..]) as int) else DigitsValue(t[1..]);
        if IsInt32(n) then Some(n) else None
    else if |t| == 0 || !AllDigits(t) then None
    else if IsInt32(DigitsValue(t)) then Some(DigitsValue(t))
    else None
  }

  /** Convert.ToString(bool): Boolean.Parse reads it back as `b`. */
  function FormatBool(b: bool): (r: string)
    ensures ParseBool(r) == Some(b)
  {
    var r := if b then "True" else "False";
    WordIsPadded(r);
    r
  }

  function ToLowerAscii(c: char): char {
    if 'A' <= c <= 'Z' then (c as int + 32) as char else c
  }

  /** Ordinal comparison ignoring the case of ASCII letters. */
  predicate EqualsIgnoreCase(a: string, b: string) {
    |a| == |b| && forall i :: 0 <= i < |a| ==> ToLowerAscii(a[i]) == ToLowerAscii(b[i])
  }

  /** Boolean.Parse(s): "True" or "False" in any letter case, with surrounding white
      space (here the same set Int32.Parse trims); None stands for the FormatException
      it throws on anything else. */
  function ParseBool(s: string): (r: Option<bool>)
    ensures r == Some(true) <==> Padded(s, "True")
    ensures r == Some(false) <==> Padded(s, "False")
  {
    PaddedIffTrimmed(s, "True");
    PaddedIffTrimmed(s, "False");
    var t := Trim(s);
    if EqualsIgnoreCase(t, "True") then Some(true)
    else if EqualsIgnoreCase(t, "False") then Some(false)
    else None
  }

  lemma {:induction false} DigitsRoundTrip(n: nat)
    ensures |Digits(n)| > 0 && AllDigits(Digits(n))
    ensures DigitsValue(Digits(n)) == n
    decreases n
  {
    if n >= 10 {
      DigitsRoundTrip(n / 10);
      var s := Digits(n);
      assert s[..|s| - 1] == Digits(n / 10);
    }
  }

  /** Trimming a string that is white space, a middle part that neither starts nor ends
      with white space, and white space again leaves exactly that middle part. */
  lemma {:induction false} TrimOfPadded(s: string, i: nat, j: nat)
    requires i < j <= |s| && AllWhite(s[..i]) && AllWhite(s[j..])
    requires !IsWhite(s[i]) && !IsWhite(s[j - 1])
    ensures Trim(s) == s[i..j]
  {
    TrimStartStops(s, i);
    var t := s[i..];
    assert AllWhite(t[j - i..]) by { assert t[j - i..] == s[j..]; }
    assert !IsWhite(t[j - i - 1]);
    TrimEndStops(t, j - i);
    assert t[..j - i] == s[i..j];
  }

  lemma {:induction false} TrimStartStops(s: string, i: nat)
    requires i < |s| && AllWhite(s[..i]) && !IsWhite(s[i])
    ensures TrimStart(s) == s[i..]
    decreases i
  {
    if i > 0 {
      assert IsWhite(s[..i][0]);
      assert s[1..][..i - 1] == s[..i][1..];
      TrimStartStops(s[1..], i - 1);
      assert s[1..][i - 1..] == s[i..];
    }
  }

  lemma {:induction false} TrimEndStops(s: string, j: nat)
    requires 0 < j <= |s| && AllWhite(s[j..]) && !IsWhite(s[j - 1])
    ensures TrimEnd(s) == s[..j]
    decreases |s| - j
  {
    if j < |s| {
      assert IsWhite(s[j..][|s| - 1 - j]);
      var front := s[..|s| - 1];
      assert front[j..] == s[j..][..|s| - 1 - j];
      TrimEndStops(front, j);
      assert front[..j] == s[..j];
    }
  }

  /** A word is itself with no white space around it. */
  lemma {:induction false} WordIsPadded(w: string)
    ensures Padded(w, w)
  {
    assert w[..0] == [] && w[|w|..] == [] && w[0..|w|] == w;
  }

  /** A padded word is what Trim leaves. */
  lemma {:induction false} PaddedIsTrimmed(s: string, word: string)
    requires |word| > 0
    requires 'a' <= ToLowerAscii(word[0]) <= 'z' && 'a' <= ToLowerAscii(word[|word| - 1]) <= 'z'
    requires Padded(s, word)
    ensures EqualsIgnoreCase(Trim(s), word)
  {
    var i, j :| 0 <= i <= j <= |s| && AllWhite(s[..i]) && AllWhite(s[j..]) && EqualsIgnoreCase(s[i..j], word);
    assert ToLowerAscii(s[i..j][0]) == ToLowerAscii(word[0]);
    assert ToLowerAscii(s[i..j][j - i - 1]) == ToLowerAscii(word[|word| - 1]);
    TrimOfPadded(s, i, j);
  }

  /** Trim leaves the string padded by what it removed. */
  lemma {:induction false} TrimmedIsPadded(s: string)
    ensures exists i, j :: 0 <= i <= j <= |s| && AllWhite(s[..i]) && AllWhite(s[j..]) && s[i..j] == Trim(s)
  {
    var t := TrimStart(s);
    var u := TrimEnd(t);
    var i := |s| - |t|;
    var j := i + |u|;
    assert t == s[i..] && u == t[..|u|];
    assert s[i..j] == u;
    assert s[j..] == t[|u|..];
    assert Trim(s) == u;
  }

  /** Boolean.Parse's acceptance, stated without Trim: the string is a word that begins
      and ends with a letter, with white space around it, iff its trim is that word. */
  lemma {:induction false} PaddedIffTrimmed(s: string, word: string)
    requires |word| > 0
    requires 'a' <= ToLowerAscii(word[0]) <= 'z' && 'a' <= ToLowerAscii(word[|word| - 1]) <= 'z'
    ensures Padded(s, word) <==> EqualsIgnoreCase(Trim(s), word)
  {
    if Padded(s, word) {
      PaddedIsTrimmed(s, word);
    }
    TrimmedIsPadded(s);
  }

  /** ParseSigned accepts exactly the signed numbers within Int32, with their value. */
  lemma {:induction false} ParseSignedValue(t: string)
    ensures ParseSigned(t) == if SignedDigits(t) && IsInt32(SignedValue(t)) then Some(SignedValue(t)) else None
  {
  }

  /** Int32.Parse's acceptance, stated without Trim: a signed number with white space
      around it is what trimming leaves, and whatever parses is such a number. */
  lemma {:induction false} ParsePadded(s: string)
    ensures forall i, j :: PaddedNumber(s, i, j) ==>
      ParseSigned(Trim(s)) == if IsInt32(SignedValue(s[i..j])) then Some(SignedValue(s[i..j])) else None
    ensures ParseSigned(Trim(s)).Some? ==>
      exists i, j :: PaddedNumber(s, i, j) && ParseSigned(Trim(s)).value == SignedValue(s[i..j])
  {
    forall i, j | PaddedNumber(s, i, j)
      ensures ParseSigned(Trim(s)) == if IsInt32(SignedValue(s[i..j])) then Some(SignedValue(s[i..j])) else None
    {
      PaddedNumberTrims(s, i, j);
      ParseSignedValue(s[i..j]);
    }
    if ParseSigned(Trim(s)).Some? {
      ParsedIsPadded(s);
    }
  }

  /** A signed number neither starts nor ends with white space, so Trim leaves it. */
  lemma {:induction false} PaddedNumberTrims(s: string, i: int, j: int)
    requires PaddedNumber(s, i, j)
    ensures Trim(s) == s[i..j]
  {
    var t := s[i..j];
    assert t[0] == s[i] && t[|t| - 1] == s[j - 1];
    if t[0] == '-' || t[0] == '+' {
      assert t[1..][|t| - 2] == t[|t| - 1];
    }
    TrimOfPadded(s, i, j);
  }

  /** Whatever parses is a signed number with white space around it. */
  lemma {:induction false} ParsedIsPadded(s: string)
    requires ParseSigned(Trim(s)).Some?
    ensures exists i, j :: PaddedNumber(s, i, j) && ParseSigned(Trim(s)).value == SignedValue(s[i..j])
  {
    TrimmedIsPadded(s);
    var i, j :| 0 <= i <= j <= |s| && AllWhite(s[..i]) && AllWhite(s[j..]) && s[i..j] == Trim(s);
    ParseSignedValue(Trim(s));
    assert PaddedNumber(s, i, j);
  }

  /** Int32.Parse on a signed number with no white space around it. */
  lemma {:induction false} ParseBareNumber(t: string)
    requires SignedDigits(t)
    ensures ParseInt32(t) == if IsInt32(SignedValue(t)) then Some(SignedValue(t)) else None
  {
    assert t[..0] == [] && t[|t|..] == [] && t[0..|t|] == t;
    assert PaddedNumber(t, 0, |t|);
  }
}
