/**
 * The handful of Python `str` operations the system relies on, restricted to
 * ASCII: `isspace`, `isdigit`, `isalpha`, `lower`, `upper`, `strip`,
 * `startswith`, `in`, `find`, `split`, `replace`, `title`, `capitalize`,
 * `join` and `str(int)`.
 */
module Text {

  /** `c.isspace()` for the ASCII range: space, \t \n \v \f \r and \x1c-\x1f. */
  predicate IsSpace(c: char) {
    c == ' ' || ('\t' <= c <= '\r') || ('\U{1C}' <= c <= '\U{1F}')
  }

  predicate IsDigit(c: char) { '0' <= c <= '9' }

  predicate IsUpper(c: char) { 'A' <= c <= 'Z' }

  predicate IsLower(c: char) { 'a' <= c <= 'z' }

  predicate IsAlpha(c: char) { IsUpper(c) || IsLower(c) }

  /** `s.isalpha()`: non-empty and made of letters only. */
  predicate IsAlphaString(s: string) {
    |s| > 0 && forall i :: 0 <= i < |s| ==> IsAlpha(s[i])
  }

  function LowerChar(c: char): (r: char)
    ensures !IsUpper(r)
    ensures IsAlpha(c) <==> IsAlpha(r)
    ensures !IsUpper(c) ==> r == c
  {
    if IsUpper(c) then (c as int - 'A' as int + 'a' as int) as char else c
  }

  function UpperChar(c: char): (r: char)
    ensures !IsLower(r)
    ensures IsAlpha(c) <==> IsAlpha(r)
    ensures !IsLower(c) ==> r == c
  {
    if IsLower(c) then (c as int - 'a' as int + 'A' as int) as char else c
  }

  /** `s.lower()` */
  function Lower(s: string): (r: string)
    ensures |r| == |s|
    ensures forall i :: 0 <= i < |r| ==> !IsUpper(r[i]) && r[i] == LowerChar(s[i])
  {
    seq(|s|, i requires 0 <= i < |s| => LowerChar(s[i]))
  }

  /** `s.upper()` */
  function Upper(s: string): (r: string)
    ensures |r| == |s|
    ensures forall i :: 0 <= i < |r| ==> !IsLower(r[i]) && r[i] == UpperChar(s[i])
  {
    seq(|s|, i requires 0 <= i < |s| => UpperChar(s[i]))
  }

  predicate IsLowerCase(s: string) {
    forall i :: 0 <= i < |s| ==> !IsUpper(s[i])
  }

  lemma LowerIdempotent(s: string)
    ensures Lower(Lower(s)) == Lower(s)
  {
    assert forall i :: 0 <= i < |s| ==> Lower(Lower(s))[i] == Lower(s)[i];
  }

  lemma LowerConcat(a: string, b: string)
    ensures Lower(a + b) == Lower(a) + Lower(b)
  {
    assert forall i :: 0 <= i < |a + b| ==> Lower(a + b)[i] == (Lower(a) + Lower(b))[i];
  }

  lemma LowerOfLowerCase(s: string)
    requires IsLowerCase(s)
    ensures Lower(s) == s
  {
    assert forall i :: 0 <= i < |s| ==> Lower(s)[i] == s[i];
  }

  /** `s.lstrip()` */
  function StripLeft(s: string): (r: string)
    ensures |r| <= |s| && r == s[|s| - |r|..]
    ensures r == [] || !IsSpace(r[0])
  {
    if s != [] && IsSpace(s[0]) then StripLeft(s[1..]) else s
  }

  /** `s.rstrip()` */
  function StripRight(s: string): (r: string)
    ensures |r| <= |s| && r == s[..|r|]
    ensures r == [] || !IsSpace(r[|r| - 1])
  {
    if s != [] && IsSpace(s[|s| - 1]) then StripRight(s[..|s| - 1]) else s
  }

  /** `s.strip()`: no white space at either end. */
  function Strip(s: string): (r: string)
    ensures |r| <= |s|
    ensures r == [] || (!IsSpace(r[0]) && !IsSpace(r[|r| - 1]))
  {
    var l := StripLeft(s);
    var r := StripRight(l);
    assert r == [] || r[0] == l[0];
    r
  }

  /** `s.startswith(p)` */
  predicate StartsWith(s: string, p: string) {
    |p| <= |s| && s[..|p|] == p
  }

  /** `p in s` for strings: `p` occurs in `s` at some position. */
  predicate Contains(s: string, p: string)
    decreases |s|
  {
    StartsWith(s, p) || (s != [] && Contains(s[1..], p))
  }

  lemma ContainsAt(s: string, p: string, i: nat)
    requires i + |p| <= |s| && s[i..i + |p|] == p
    ensures Contains(s, p)
    decreases i
  {
    if i > 0 {
      assert s[1..][i - 1..i - 1 + |p|] == s[i..i + |p|];
      ContainsAt(s[1..], p, i - 1);
    }
  }

  /** `s.find(c)` for a character known to occur. */
  function IndexOf(s: string, c: char): (r: nat)
    requires c in s
    ensures r < |s| && s[r] == c && c !in s[..r]
  {
    if s[0] == c then 0 else
      assert c in s[1..];
      var k := IndexOf(s[1..], c);
      assert s[..k + 1] == [s[0]] + s[1..][..k];
      1 + k
  }

  /** `s.split(c)[0]`: the text before the first `c`, or all of `s`. */
  function Before(s: string, c: char): (r: string)
    ensures c !in r
    ensures |r| <= |s| && r == s[..|r|]
    ensures c in s ==> |r| < |s| && s[|r|] == c
    ensures c !in s ==> r == s
  {
    if c in s then s[..IndexOf(s, c)] else s
  }

  /** `s.split(c, 1)[1]` for a character known to occur: the text after the first `c`. */
  function After(s: string, c: char): (r: string)
    requires c in s
    ensures |r| < |s| && r == s[|s| - |r|..]
    ensures s == s[..IndexOf(s, c)] + [c] + r
  {
    s[IndexOf(s, c) + 1..]
  }

  /** The first index at which `p` occurs in `s`, when it occurs. */
  function Find(s: string, p: string): (r: nat)
    requires Contains(s, p)
    ensures r + |p| <= |s| && s[r..r + |p|] == p
    decreases |s|
  {
    if StartsWith(s, p) then 0 else
      var k := Find(s[1..], p);
      assert s[1..][k..k + |p|] == s[k + 1..k + 1 + |p|];
      1 + k
  }

  /** `s.split(sep)[-1]`: the last piece after splitting on the non-overlapping
      occurrences of `sep`, found left to right. */
  function LastPiece(s: string, sep: string): (r: string)
    requires |sep| > 0
    ensures |r| <= |s|
    ensures !Contains(r, sep)
    decreases |s|
  {
    if Contains(s, sep) then LastPiece(s[Find(s, sep) + |sep|..], sep) else s
  }

  /** `s.replace(pat, rep)`: every non-overlapping occurrence, left to right. */
  function ReplaceAll(s: string, pat: string, rep: string): (r: string)
    requires |pat| > 0
    decreases |s|
  {
    if |s| < |pat| then s
    else if s[..|pat|] == pat then rep + ReplaceAll(s[|pat|..], pat, rep)
    else [s[0]] + ReplaceAll(s[1..], pat, rep)
  }

  lemma ReplaceAllAbsent(s: string, pat: string, rep: string)
    requires |pat| > 0 && !Contains(s, pat)
    ensures ReplaceAll(s, pat, rep) == s
    decreases |s|
  {
    if |s| >= |pat| {
      assert !StartsWith(s, pat);
      ReplaceAllAbsent(s[1..], pat, rep);
    }
  }

  /** `s.replace(a, b)` for single characters. */
  function ReplaceChar(s: string, a: char, b: char): (r: string)
    ensures |r| == |s|
    ensures forall i :: 0 <= i < |s| ==> r[i] == if s[i] == a then b else s[i]
  {
    seq(|s|, i requires 0 <= i < |s| => if s[i] == a then b else s[i])
  }

  /** `' '.join(s.split())` for a string with no white space at either end:
      every run of white space becomes one space. */
  function Squeeze(s: string): (r: string)
    ensures |r| <= |s|
    ensures |r| == 0 <==> |s| == 0
    decreases |s|
  {
    if s == [] then []
    else if IsSpace(s[0]) then [' '] + Squeeze(StripLeft(s))
    else [s[0]] + Squeeze(s[1..])
  }

  /** `s.capitalize()`: first character upper-case, the rest lower-case. */
  function Capitalize(s: string): (r: string)
    ensures |r| == |s|
    ensures s != [] ==> r[0] == UpperChar(s[0]) && r[1..] == Lower(s[1..])
  {
    if s == [] then [] else [UpperChar(s[0])] + Lower(s[1..])
  }

  /** `s.title()` after a character that is (`afterLetter`) or is not a letter:
      a letter that follows a letter is lower-cased, any other letter upper-cased. */
  function TitleFrom(s: string, afterLetter: bool): (r: string)
    ensures |r| == |s|
    decreases |s|
  {
    if s == [] then []
    else [if afterLetter then LowerChar(s[0]) else UpperChar(s[0])] + TitleFrom(s[1..], IsAlpha(s[0]))
  }

  /** `s.title()` */
  function Title(s: string): (r: string)
    ensures |r| == |s|
  {
    TitleFrom(s, false)
  }

  /** `sep.join(xs)` */
  function Join(xs: seq<string>, sep: string): string
    decreases |xs|
  {
    if xs == [] then [] else if |xs| == 1 then xs[0] else xs[0] + sep + Join(xs[1..], sep)
  }

  function DigitChar(d: nat): (c: char)
    requires d < 10
    ensures IsDigit(c)
  {
    ('0' as int + d) as char
  }

  /** `str(n)` for a natural number: its decimal digits. */
  function NatToString(n: nat): (r: string)
    ensures |r| > 0 && forall i :: 0 <= i < |r| ==> IsDigit(r[i])
    decreases n
  {
    if n < 10 then [DigitChar(n)] else NatToString(n / 10) + [DigitChar(n % 10)]
  }

  /** `int(s)` for a string of decimal digits. */
  function DigitsValue(s: string): (r: nat)
    requires forall i :: 0 <= i < |s| ==> IsDigit(s[i])
    decreases |s|
  {
    if s == [] then 0 else
      assert IsDigit(s[|s| - 1]);
      10 * DigitsValue(s[..|s| - 1]) + (s[|s| - 1] as int - '0' as int)
  }

  lemma {:induction false} DigitsValueOfNatToString(n: nat)
    ensures DigitsValue(NatToString(n)) == n
    decreases n
  {
    var r := NatToString(n);
    if n >= 10 {
      DigitsValueOfNatToString(n / 10);
      assert r[..|r| - 1] == NatToString(n / 10);
    }
  }
}
