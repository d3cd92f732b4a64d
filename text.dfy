/**
 * The few `str` methods the validator relies on: `strip`, `replace(" ", "")`,
 * `isdigit`, `isalpha` and `isupper`, and `int(...)` of a run of decimal digits.
 * Digits and letters are the ASCII ones; the whitespace set is Python's own.
 */
module Text {

  /** Python's `str.isspace` for one character (the full list of code points it accepts). */
  predicate IsSpace(c: char)
  {
    var n := c as int;
    c == ' ' || 0x09 <= n <= 0x0D || 0x1C <= n <= 0x1F || n == 0x85 || n == 0xA0
    || n == 0x1680 || 0x2000 <= n <= 0x200A || n == 0x2028 || n == 0x2029
    || n == 0x202F || n == 0x205F || n == 0x3000
  }

  predicate IsDigit(c: char) { '0' <= c <= '9' }

  predicate IsUpperLetter(c: char) { 'A' <= c <= 'Z' }

  predicate IsLowerLetter(c: char) { 'a' <= c <= 'z' }

  predicate IsLetter(c: char) { IsUpperLetter(c) || IsLowerLetter(c) }

  /** `s.isdigit()`: non-empty and every character a digit. */
  predicate IsDigitString(s: string)
  {
    |s| > 0 && forall i :: 0 <= i < |s| ==> IsDigit(s[i])
  }

  /** `s.isalpha()`: non-empty and every character a letter. */
  predicate IsAlphaString(s: string)
  {
    |s| > 0 && forall i :: 0 <= i < |s| ==> IsLetter(s[i])
  }

  /** `s.isupper()`: at least one cased character and no lower-case one. */
  predicate IsUpperString(s: string)
  {
    (exists i :: 0 <= i < |s| && IsUpperLetter(s[i])) && forall i :: 0 <= i < |s| ==> !IsLowerLetter(s[i])
  }

  /** `int(c)` for one decimal digit. */
  function DigitValue(c: char): (v: nat)
    requires IsDigit(c)
    ensures v <= 9
  {
    c as int - '0' as int
  }

  function DigitChar(v: nat): (c: char)
    requires v <= 9
    ensures IsDigit(c) && DigitValue(c) == v
  {
    ('0' as int + v) as char
  }

  /** `int(s[lo:hi])` for a run of decimal digits, read by position. */
  function DigitsValue(s: string, lo: nat, hi: nat): nat
    requires lo <= hi <= |s|
    requires forall i :: lo <= i < hi ==> IsDigit(s[i])
    decreases hi - lo
  {
    if hi == lo then 0 else DigitsValue(s, lo, hi - 1) * 10 + DigitValue(s[hi - 1])
  }

  /** DigitsValue only reads the characters between its bounds. */
  lemma {:induction false} DigitsValueSame(s: string, lo: nat, t: string, lo': nat, n: nat)
    requires lo + n <= |s| && lo' + n <= |t| && s[lo..lo + n] == t[lo'..lo' + n]
    requires forall i :: lo <= i < lo + n ==> IsDigit(s[i])
    ensures forall i :: lo' <= i < lo' + n ==> IsDigit(t[i])
    ensures DigitsValue(s, lo, lo + n) == DigitsValue(t, lo', lo' + n)
    decreases n
  {
    forall i | lo' <= i < lo' + n ensures IsDigit(t[i]) {
      assert t[i] == t[lo'..lo' + n][i - lo'] == s[lo + (i - lo')];
    }
    if n > 0 {
      assert s[lo + n - 1] == s[lo..lo + n][n - 1] == t[lo' + n - 1];
      assert s[lo..lo + n - 1] == s[lo..lo + n][..n - 1];
      assert t[lo'..lo' + n - 1] == t[lo'..lo' + n][..n - 1];
      DigitsValueSame(s, lo, t, lo', n - 1);
    }
  }

  /** The index of the first non-whitespace character of `s` at or after i, or |s|. */
  function SkipSpaces(s: string, i: nat): (k: nat)
    requires i <= |s|
    ensures i <= k <= |s|
    decreases |s| - i
  {
    if i < |s| && IsSpace(s[i]) then SkipSpaces(s, i + 1) else i
  }

  /** SkipSpaces passes over whitespace only and stops at the first other character. */
  lemma {:induction false} SkipSpacesShape(s: string, i: nat)
    requires i <= |s|
    ensures forall j :: i <= j < SkipSpaces(s, i) ==> IsSpace(s[j])
    ensures SkipSpaces(s, i) < |s| ==> !IsSpace(s[SkipSpaces(s, i)])
    decreases |s| - i
  {
    if i < |s| && IsSpace(s[i]) {
      SkipSpacesShape(s, i + 1);
    }
  }

  /** The end of `s[lo..j]` once its trailing whitespace is dropped. */
  function TrimEnd(s: string, lo: nat, j: nat): (k: nat)
    requires lo <= j <= |s|
    ensures lo <= k <= j
    decreases j - lo
  {
    if j > lo && IsSpace(s[j - 1]) then TrimEnd(s, lo, j - 1) else j
  }

  /** TrimEnd drops whitespace only and stops after the last other character. */
  lemma {:induction false} TrimEndShape(s: string, lo: nat, j: nat)
    requires lo <= j <= |s|
    ensures forall m :: TrimEnd(s, lo, j) <= m < j ==> IsSpace(s[m])
    ensures TrimEnd(s, lo, j) > lo ==> !IsSpace(s[TrimEnd(s, lo, j) - 1])
    decreases j - lo
  {
    if j > lo && IsSpace(s[j - 1]) {
      TrimEndShape(s, lo, j - 1);
    }
  }

  /** `str.strip()`: the slice of `s` between its leading and its trailing whitespace. */
  function Strip(s: string): (r: string)
    ensures |r| <= |s|
  {
    s[SkipSpaces(s, 0)..TrimEnd(s, SkipSpaces(s, 0), |s|)]
  }

  /**
   * What `strip` keeps: a slice of `s` with only whitespace around it, neither starting
   * nor ending with whitespace, and empty exactly for blank text.
   */
  lemma {:induction false} StripShape(s: string)
    ensures var a, r := SkipSpaces(s, 0), Strip(s);
      && a + |r| <= |s| && r == s[a..a + |r|]
      && (forall i :: 0 <= i < a ==> IsSpace(s[i]))
      && (forall i :: a + |r| <= i < |s| ==> IsSpace(s[i]))
    ensures var r := Strip(s); r != [] ==> !IsSpace(r[0]) && !IsSpace(r[|r| - 1])
    ensures Strip(s) == [] <==> forall i :: 0 <= i < |s| ==> IsSpace(s[i])
  {
    var a := SkipSpaces(s, 0);
    var b := TrimEnd(s, a, |s|);
    SkipSpacesShape(s, 0);
    TrimEndShape(s, a, |s|);
    assert b > a ==> s[a..b][0] == s[a] && s[a..b][b - a - 1] == s[b - 1];
  }

  /** Text that neither starts nor ends with whitespace is its own strip. */
  lemma {:induction false} StripUnchanged(s: string)
    requires s != [] && !IsSpace(s[0]) && !IsSpace(s[|s| - 1])
    ensures Strip(s) == s
  {
  }

  /** Stripping twice strips nothing more. */
  lemma {:induction false} StripIdempotent(s: string)
    ensures Strip(Strip(s)) == Strip(s)
  {
    var r := Strip(s);
    StripShape(s);
    if r == [] {
      assert Strip(r) == [];
    } else {
      StripUnchanged(r);
    }
  }

  /** `s.replace(" ", "")`: every plain space removed, everything else kept in order. */
  function RemoveSpaces(s: string): (r: string)
    ensures |r| <= |s|
  {
    if s == [] then []
    else if s[0] == ' ' then RemoveSpaces(s[1..])
    else [s[0]] + RemoveSpaces(s[1..])
  }

  /** No space survives RemoveSpaces, and text without spaces comes through unchanged. */
  lemma {:induction false} RemoveSpacesShape(s: string)
    ensures forall i :: 0 <= i < |RemoveSpaces(s)| ==> RemoveSpaces(s)[i] != ' '
    ensures (forall i :: 0 <= i < |s| ==> s[i] != ' ') ==> RemoveSpaces(s) == s
    decreases |s|
  {
    if s != [] {
      RemoveSpacesShape(s[1..]);
      if s[0] != ' ' {
        var r := [s[0]] + RemoveSpaces(s[1..]);
        assert forall i :: 1 <= i < |r| ==> r[i] == RemoveSpaces(s[1..])[i - 1];
      }
    }
  }

  /** A single character is dropped exactly when it is a plain space. */
  lemma RemoveSpacesOfChar(c: char)
    ensures RemoveSpaces([c]) == if c == ' ' then [] else [c]
  {
    assert [c][1..] == [];
  }

  /**
   * RemoveSpaces works piece by piece: the cleaned text of a + b is that of a followed by
   * that of b, so with RemoveSpacesOfChar every non-space character is kept, in order.
   */
  lemma {:induction false} RemoveSpacesConcat(a: string, b: string)
    ensures RemoveSpaces(a + b) == RemoveSpaces(a) + RemoveSpaces(b)
    decreases |a|
  {
    if a == [] {
      assert a + b == b;
    } else {
      assert (a + b)[0] == a[0] && (a + b)[1..] == a[1..] + b;
      RemoveSpacesConcat(a[1..], b);
    }
  }
}
