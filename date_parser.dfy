/**
 * `parse_date_flex` (Health_system.py:64-109) and the part of `datetime.strptime` it
 * depends on. `strptime` turns each format into a regular expression:
 *   %Y -> \d\d\d\d
 *   %m -> 1[0-2] | 0[1-9] | [1-9]
 *   %d -> 3[01] | [12]\d | 0[1-9] | [1-9] | " "[1-9]
 * and any other character matches itself. The expression is matched at the start
 * of the text, trying alternatives left to right and backtracking into an earlier
 * field when a later one cannot match; the first match found is taken, and if it
 * does not reach the end of the text ("unconverted data remains") the format fails.
 * The captured numbers must then form a real date.
 */
module DateParser {
  import opened Wrappers
  import opened Text
  import opened Calendar

  /** One character position of a regular-expression alternative. */
  datatype CharClass = Exactly(c: char) | Between(lo: char, hi: char)

  predicate ClassMatches(k: CharClass, c: char)
  {
    match k
    case Exactly(x) => c == x
    case Between(lo, hi) => lo <= c <= hi
  }

  /** The alternative matches the characters of `s` starting at `pos`. */
  predicate AltMatchesAt(alt: seq<CharClass>, s: string, pos: nat)
  {
    pos + |alt| <= |s| && forall i :: 0 <= i < |alt| ==> ClassMatches(alt[i], s[pos + i])
  }

  datatype Directive = Year | Month | Day

  datatype Token = Literal(c: char) | Field(f: Directive)

  const AnyDigit := Between('0', '9')

  /** The alternatives of each token, in the order the regular expression tries them. */
  function Alternatives(t: Token): (alts: seq<seq<CharClass>>)
    ensures |alts| > 0
  {
    match t
    case Literal(c) => [[Exactly(c)]]
    case Field(Year) => [[AnyDigit, AnyDigit, AnyDigit, AnyDigit]]
    case Field(Month) =>
      [[Exactly('1'), Between('0', '2')], [Exactly('0'), Between('1', '9')], [Between('1', '9')]]
    case Field(Day) =>
      [[Exactly('3'), Between('0', '1')], [Between('1', '2'), AnyDigit],
       [Exactly('0'), Between('1', '9')], [Between('1', '9')], [Exactly(' '), Between('1', '9')]]
  }

  /** The numbers captured so far; `strptime` starts from year 1900, month 1, day 1. */
  datatype Captures = Captures(year: int, month: int, day: int)

  const NoCaptures := Captures(1900, 1, 1)

  /** A class that only admits decimal digits. */
  predicate DigitClass(k: CharClass)
  {
    match k
    case Exactly(x) => IsDigit(x)
    case Between(lo, hi) => '0' <= lo && hi <= '9'
  }

  /** Every field alternative is digit classes, except that %d's last one starts with a space. */
  lemma {:induction false} FieldAlternativesAreNumeric(f: Directive, a: nat, i: nat)
    requires a < |Alternatives(Field(f))| && i < |Alternatives(Field(f))[a]|
    ensures var k := Alternatives(Field(f))[a][i];
            DigitClass(k) || (i == 0 && k == Exactly(' '))
  {
  }

  /** The text s[lo..hi] a field alternative can capture: digits, possibly after one leading space. */
  predicate Capturable(s: string, lo: nat, hi: nat)
  {
    lo <= hi <= |s| && forall i :: lo <= i < hi ==> IsDigit(s[i]) || (i == lo && s[i] == ' ')
  }

  /** What a field alternative matches is always capturable. */
  lemma {:induction false} MatchedAltCapturable(t: Token, k: nat, s: string, pos: nat)
    requires k < |Alternatives(t)| && AltMatchesAt(Alternatives(t)[k], s, pos)
    ensures t.Field? ==> Capturable(s, pos, pos + |Alternatives(t)[k]|)
  {
    if t.Field? {
      var alt := Alternatives(t)[k];
      forall i | pos <= i < pos + |alt| ensures IsDigit(s[i]) || (i == pos && s[i] == ' ') {
        FieldAlternativesAreNumeric(t.f, k, i - pos);
        assert ClassMatches(alt[i - pos], s[i]);
      }
    }
  }

  /** `int(s[lo:hi])` of a captured field; `int` ignores the leading space " [1-9]" can capture. */
  function CaptureValue(s: string, lo: nat, hi: nat): nat
    requires Capturable(s, lo, hi)
  {
    if lo < hi && s[lo] == ' ' then DigitsValue(s, lo + 1, hi) else DigitsValue(s, lo, hi)
  }

  function Capture(acc: Captures, t: Token, s: string, lo: nat, hi: nat): Captures
    requires t.Field? ==> Capturable(s, lo, hi)
  {
    match t
    case Literal(_) => acc
    case Field(Year) => acc.(year := CaptureValue(s, lo, hi))
    case Field(Month) => acc.(month := CaptureValue(s, lo, hi))
    case Field(Day) => acc.(day := CaptureValue(s, lo, hi))
  }

  /**
   * Backtracking match of `toks` against `s` from `pos`, trying the first token's
   * alternatives from index `alt` on. The result is the captures and the end position
   * of the first match in the regular expression's priority order.
   */
  function MatchTokens(toks: seq<Token>, alt: nat, s: string, pos: nat, acc: Captures)
    : (r: Option<(Captures, nat)>)
    ensures r.Some? ==> pos <= r.value.1 <= |s|
    decreases |toks|, if toks == [] then 0 else |Alternatives(toks[0])| - alt
  {
    if toks == [] then (if pos <= |s| then Some((acc, pos)) else None)
    else
      var alts := Alternatives(toks[0]);
      if alt >= |alts| then None
      else if AltMatchesAt(alts[alt], s, pos) then
        var next := pos + |alts[alt]|;
        MatchedAltCapturable(toks[0], alt, s, pos);
        var rest := MatchTokens(toks[1..], 0, s, next, Capture(acc, toks[0], s, pos, next));
        if rest.Some? then rest else MatchTokens(toks, alt + 1, s, pos, acc)
      else MatchTokens(toks, alt + 1, s, pos, acc)
  }

  /** The rest of the match once alternative k of the first token has matched at pos. */
  function AfterAlt(toks: seq<Token>, k: nat, s: string, pos: nat, acc: Captures): Option<(Captures, nat)>
    requires toks != [] && k < |Alternatives(toks[0])|
    requires AltMatchesAt(Alternatives(toks[0])[k], s, pos)
  {
    var next := pos + |Alternatives(toks[0])[k]|;
    MatchedAltCapturable(toks[0], k, s, pos);
    MatchTokens(toks[1..], 0, s, next, Capture(acc, toks[0], s, pos, next))
  }

  /** One step of the backtracking search: alternative j is tried before j + 1. */
  lemma {:induction false} MatchTriesAltsInOrder(toks: seq<Token>, j: nat, s: string, pos: nat, acc: Captures)
    requires toks != [] && j < |Alternatives(toks[0])|
    ensures MatchTokens(toks, j, s, pos, acc) ==
      if AltMatchesAt(Alternatives(toks[0])[j], s, pos) && AfterAlt(toks, j, s, pos, acc).Some?
      then AfterAlt(toks, j, s, pos, acc)
      else MatchTokens(toks, j + 1, s, pos, acc)
  {
  }

  /** When no remaining alternative of the first token matches, the match fails. */
  lemma {:induction false} NoAltMatches(toks: seq<Token>, j: nat, s: string, pos: nat, acc: Captures)
    requires toks != []
    requires forall k :: j <= k < |Alternatives(toks[0])| ==> !AltMatchesAt(Alternatives(toks[0])[k], s, pos)
    ensures MatchTokens(toks, j, s, pos, acc) == None
    decreases |Alternatives(toks[0])| - j
  {
    if j < |Alternatives(toks[0])| {
      NoAltMatches(toks, j + 1, s, pos, acc);
    }
  }

  function SetField(acc: Captures, f: Directive, v: int): Captures
  {
    match f
    case Year => acc.(year := v)
    case Month => acc.(month := v)
    case Day => acc.(day := v)
  }

  /** A literal that matches passes the match on to the next token. */
  lemma {:induction false} LiteralStep(toks: seq<Token>, s: string, pos: nat, acc: Captures)
    requires toks != [] && toks[0].Literal? && pos < |s| && s[pos] == toks[0].c
    requires MatchTokens(toks[1..], 0, s, pos + 1, acc).Some?
    ensures MatchTokens(toks, 0, s, pos, acc) == MatchTokens(toks[1..], 0, s, pos + 1, acc)
  {
    MatchTriesAltsInOrder(toks, 0, s, pos, acc);
    assert AltMatchesAt(Alternatives(toks[0])[0], s, pos);
  }

  /** %Y takes the next four digits. */
  lemma {:induction false} YearStep4(toks: seq<Token>, s: string, pos: nat, acc: Captures)
    requires toks != [] && toks[0] == Field(Year) && pos + 4 <= |s|
    requires forall i :: pos <= i < pos + 4 ==> IsDigit(s[i])
    requires MatchTokens(toks[1..], 0, s, pos + 4, SetField(acc, Year, DigitsValue(s, pos, pos + 4))).Some?
    ensures MatchTokens(toks, 0, s, pos, acc)
            == MatchTokens(toks[1..], 0, s, pos + 4, SetField(acc, Year, DigitsValue(s, pos, pos + 4)))
  {
    MatchTriesAltsInOrder(toks, 0, s, pos, acc);
    assert AltMatchesAt(Alternatives(toks[0])[0], s, pos);
  }

  /**
   * %m (1..12) or %d (1..31) written with two digits is taken whole: the alternatives
   * tried before the one that takes it do not match its first digit.
   */
  lemma {:induction false} TwoDigitStep(toks: seq<Token>, s: string, pos: nat, acc: Captures, v: int)
    requires toks != []
    requires (toks[0] == Field(Month) && 1 <= v <= 12) || (toks[0] == Field(Day) && 1 <= v <= 31)
    requires pos + 2 <= |s| && IsDigit(s[pos]) && IsDigit(s[pos + 1])
    requires DigitValue(s[pos]) * 10 + DigitValue(s[pos + 1]) == v
    requires MatchTokens(toks[1..], 0, s, pos + 2, SetField(acc, toks[0].f, v)).Some?
    ensures MatchTokens(toks, 0, s, pos, acc)
            == MatchTokens(toks[1..], 0, s, pos + 2, SetField(acc, toks[0].f, v))
  {
    var alts := Alternatives(toks[0]);
    assert DigitsValue(s, pos, pos + 1) == DigitValue(s[pos]);
    assert CaptureValue(s, pos, pos + 2) == v;
    // the index of the alternative that takes the two digits
    var k := if toks[0] == Field(Month) then (if v >= 10 then 0 else 1)
             else (if v >= 30 then 0 else if v >= 10 then 1 else 2);
    assert DigitValue(s[pos]) == v / 10;
    assert AltMatchesAt(alts[k], s, pos);
    assert AfterAlt(toks, k, s, pos, acc) == MatchTokens(toks[1..], 0, s, pos + 2, SetField(acc, toks[0].f, v));
    MatchTriesAltsInOrder(toks, k, s, pos, acc);
    if k >= 1 {
      assert !ClassMatches(alts[0][0], s[pos]);
      MatchTriesAltsInOrder(toks, 0, s, pos, acc);
    }
    if k == 2 {
      assert !ClassMatches(alts[1][0], s[pos]);
      MatchTriesAltsInOrder(toks, 1, s, pos, acc);
    }
  }

  /**
   * %m or %d written as one digit 1..9 and not followed by another digit is taken by the
   * one-digit alternative `[1-9]`: every two-character alternative tried before it needs
   * a digit in second place.
   */
  lemma {:induction false} OneDigitStep(toks: seq<Token>, s: string, pos: nat, acc: Captures, v: int)
    requires toks != [] && (toks[0] == Field(Month) || toks[0] == Field(Day)) && 1 <= v <= 9
    requires pos < |s| && s[pos] == DigitChar(v)
    requires pos + 1 < |s| ==> !IsDigit(s[pos + 1])
    requires MatchTokens(toks[1..], 0, s, pos + 1, SetField(acc, toks[0].f, v)).Some?
    ensures MatchTokens(toks, 0, s, pos, acc)
            == MatchTokens(toks[1..], 0, s, pos + 1, SetField(acc, toks[0].f, v))
  {
    var alts := Alternatives(toks[0]);
    var rest := MatchTokens(toks[1..], 0, s, pos + 1, SetField(acc, toks[0].f, v));
    // the index of `[1-9]`
    var k := if toks[0] == Field(Month) then 2 else 3;
    assert DigitsValue(s, pos, pos + 1) == DigitValue(s[pos]);
    assert CaptureValue(s, pos, pos + 1) == v;
    assert AltMatchesAt(alts[k], s, pos);
    assert AfterAlt(toks, k, s, pos, acc) == rest;
    MatchTriesAltsInOrder(toks, k, s, pos, acc);
    var j := k;
    while j > 0
      invariant 0 <= j <= k
      invariant MatchTokens(toks, j, s, pos, acc) == rest
    {
      j := j - 1;
      assert |alts[j]| == 2;
      FieldAlternativesAreNumeric(toks[0].f, j, 1);
      assert !AltMatchesAt(alts[j], s, pos) by {
        if pos + 2 <= |s| {
          assert !ClassMatches(alts[j][1], s[pos + 1]);
        }
      }
      MatchTriesAltsInOrder(toks, j, s, pos, acc);
    }
  }

  /** %d written as a space then one digit 1..9 is taken by the last alternative `" [1-9]"`. */
  lemma {:induction false} SpaceDigitStep(toks: seq<Token>, s: string, pos: nat, acc: Captures, v: int)
    requires toks != [] && toks[0] == Field(Day) && 1 <= v <= 9
    requires pos + 2 <= |s| && s[pos] == ' ' && s[pos + 1] == DigitChar(v)
    requires MatchTokens(toks[1..], 0, s, pos + 2, SetField(acc, Day, v)).Some?
    ensures MatchTokens(toks, 0, s, pos, acc) == MatchTokens(toks[1..], 0, s, pos + 2, SetField(acc, Day, v))
  {
    var alts := Alternatives(toks[0]);
    var rest := MatchTokens(toks[1..], 0, s, pos + 2, SetField(acc, Day, v));
    assert DigitsValue(s, pos + 1, pos + 2) == DigitValue(s[pos + 1]);
    assert CaptureValue(s, pos, pos + 2) == v;
    assert AltMatchesAt(alts[4], s, pos);
    assert AfterAlt(toks, 4, s, pos, acc) == rest;
    MatchTriesAltsInOrder(toks, 4, s, pos, acc);
    var j := 4;
    while j > 0
      invariant 0 <= j <= 4
      invariant MatchTokens(toks, j, s, pos, acc) == rest
    {
      j := j - 1;
      FieldAlternativesAreNumeric(Day, j, 0);
      assert !ClassMatches(alts[j][0], s[pos + 0]);
      MatchTriesAltsInOrder(toks, j, s, pos, acc);
    }
  }

  /** `datetime.strptime(s, format).date()`, or None where it raises ValueError. */
  function Strptime(format: seq<Token>, s: string): (r: Option<Date>)
    ensures r.Some? ==> ValidDate(r.value)
  {
    match MatchTokens(format, 0, s, 0, NoCaptures)
    case None => None
    case Some((caps, end)) =>
      var d := Date(caps.year, caps.month, caps.day);
      if end == |s| && ValidDate(d) then Some(d) else None
  }

  /** "%Y-%m-%d", "%Y/%m/%d", "%d-%m-%Y", "%d/%m/%Y", "%Y%m%d" */
  const YearMonthDayDash: seq<Token> := [Field(Year), Literal('-'), Field(Month), Literal('-'), Field(Day)]
  const YearMonthDaySlash: seq<Token> := [Field(Year), Literal('/'), Field(Month), Literal('/'), Field(Day)]
  const DayMonthYearDash: seq<Token> := [Field(Day), Literal('-'), Field(Month), Literal('-'), Field(Year)]
  const DayMonthYearSlash: seq<Token> := [Field(Day), Literal('/'), Field(Month), Literal('/'), Field(Year)]
  const YearMonthDayCompact: seq<Token> := [Field(Year), Field(Month), Field(Day)]

  /** The formats in the order `parse_date_flex` tries them. */
  const Patterns: seq<seq<Token>> :=
    [YearMonthDayDash, YearMonthDaySlash, DayMonthYearDash, DayMonthYearSlash, YearMonthDayCompact]

  /** The result of the first format in `formats` that parses `s`. */
  function FirstMatch(formats: seq<seq<Token>>, s: string): (r: Option<Date>)
    ensures r.Some? ==> ValidDate(r.value)
  {
    if formats == [] then None
    else
      var d := Strptime(formats[0], s);
      if d.Some? then d else FirstMatch(formats[1..], s)
  }

  /** The date `parse_date_flex` returns for `text`, or None. */
  function ParseFlex(text: string): (r: Option<Date>)
    ensures r.Some? ==> ValidDate(r.value)
    ensures Strip(text) == "" ==> r == None
  {
    if Strip(text) == "" then None else FirstMatch(Patterns, Strip(text))
  }

  const EmptySuffix := " is empty"
  const NotValidDateSuffix :=
    " is not a valid date in supported formats (expected something like YYYY-MM-DD)"

  /** The one message `parse_date_flex` appends when it returns None. */
  function FailureMessage(text: string, fieldName: string): string
  {
    if Strip(text) == "" then fieldName + EmptySuffix else fieldName + NotValidDateSuffix
  }

  /**
   * `parse_date_flex(date_str, field_name, errors)`: the caller's `errors` list is
   * passed in and its new value returned; on failure exactly one message is appended.
   */
  method ParseDateFlex(dateStr: string, fieldName: string, errors: seq<string>)
    returns (result: Option<Date>, errorsOut: seq<string>)
    ensures result == ParseFlex(dateStr)
    ensures result.Some? ==> errorsOut == errors
    ensures result.None? ==> errorsOut == errors + [FailureMessage(dateStr, fieldName)]
  {
    if Strip(dateStr) == "" {
      return None, errors + [fieldName + EmptySuffix];
    }
    var text := Strip(dateStr);
    var patterns := Patterns;
    var i := 0;
    while i < |patterns|
      invariant 0 <= i <= |patterns|
      invariant FirstMatch(patterns[i..], text) == FirstMatch(patterns, text)
    {
      var dt := Strptime(patterns[i], text);
      if dt.Some? {
        return dt, errors;
      }
      assert patterns[i..][1..] == patterns[i + 1..];
      i := i + 1;
    }
    return None, errors + [fieldName + NotValidDateSuffix];
  }

  /** Two digits at s[pos], s[pos + 1] whose value is v. */
  predicate TwoDigitsAt(s: string, pos: nat, v: int)
  {
    pos + 2 <= |s| && IsDigit(s[pos]) && IsDigit(s[pos + 1])
    && DigitValue(s[pos]) * 10 + DigitValue(s[pos + 1]) == v
  }

  /** Four digits at s[pos..pos + 4] whose value is v. */
  predicate FourDigitsAt(s: string, pos: nat, v: int)
  {
    pos + 4 <= |s| && (forall i :: pos <= i < pos + 4 ==> IsDigit(s[i])) && DigitsValue(s, pos, pos + 4) == v
  }

  lemma {:induction false} Pad2Layout(a: string, b: string, v: nat)
    requires v < 100
    ensures TwoDigitsAt(a + Pad2(v) + b, |a|, v)
  {
    var s := a + Pad2(v) + b;
    assert s[|a|] == Pad2(v)[0] && s[|a| + 1] == Pad2(v)[1];
  }

  lemma {:induction false} Pad4Layout(a: string, b: string, v: nat)
    requires v < 10000
    ensures FourDigitsAt(a + Pad4(v) + b, |a|, v)
  {
    var s := a + Pad4(v) + b;
    assert s[|a|..|a| + 4] == Pad4(v)[0..4];
    DigitsValueSame(Pad4(v), 0, s, |a|, 4);
  }

  /** A date written year, sep, month, sep, day with zero padding parses back under "%Y<sep>%m<sep>%d". */
  lemma {:induction false} YearFirstParses(d: Date, sep: char)
    requires ValidDate(d)
    ensures Strptime([Field(Year), Literal(sep), Field(Month), Literal(sep), Field(Day)],
                     Pad4(d.year) + [sep] + Pad2(d.month) + [sep] + Pad2(d.day)) == Some(d)
  {
    var toks := [Field(Year), Literal(sep), Field(Month), Literal(sep), Field(Day)];
    var s := Pad4(d.year) + [sep] + Pad2(d.month) + [sep] + Pad2(d.day);
    Pad4Layout([], [sep] + Pad2(d.month) + [sep] + Pad2(d.day), d.year);
    Pad2Layout(Pad4(d.year) + [sep], [sep] + Pad2(d.day), d.month);
    Pad2Layout(Pad4(d.year) + [sep] + Pad2(d.month) + [sep], [], d.day);
    assert s == [] + Pad4(d.year) + ([sep] + Pad2(d.month) + [sep] + Pad2(d.day));
    assert s == (Pad4(d.year) + [sep]) + Pad2(d.month) + ([sep] + Pad2(d.day));
    assert s == (Pad4(d.year) + [sep] + Pad2(d.month) + [sep]) + Pad2(d.day) + [];
    assert |s| == 10 && s[4] == sep && s[7] == sep;
    YmdChain(toks, s, d);
  }

  /** "%Y?%m?%d" with any two literals matches ten characters laid out that way, capturing the date. */
  lemma {:induction false} YmdChain(toks: seq<Token>, s: string, d: Date)
    requires ValidDate(d) && |toks| == 5 && |s| == 10
    requires toks[0] == Field(Year) && toks[2] == Field(Month) && toks[4] == Field(Day)
    requires toks[1].Literal? && toks[3].Literal?
    requires FourDigitsAt(s, 0, d.year) && TwoDigitsAt(s, 5, d.month) && TwoDigitsAt(s, 8, d.day)
    requires s[4] == toks[1].c && s[7] == toks[3].c
    ensures Strptime(toks, s) == Some(d)
  {
    YmdMatch(toks, s, d);
  }

  /**
   * "%Y?%m?%d" matches the first ten characters of text laid out that way and stops there,
   * whatever follows: the match takes the two-digit day and does not look further.
   */
  lemma {:induction false} YmdMatch(toks: seq<Token>, s: string, d: Date)
    requires ValidDate(d) && |toks| == 5 && |s| >= 10
    requires toks[0] == Field(Year) && toks[2] == Field(Month) && toks[4] == Field(Day)
    requires toks[1].Literal? && toks[3].Literal?
    requires FourDigitsAt(s, 0, d.year) && TwoDigitsAt(s, 5, d.month) && TwoDigitsAt(s, 8, d.day)
    requires s[4] == toks[1].c && s[7] == toks[3].c
    ensures MatchTokens(toks, 0, s, 0, NoCaptures) == Some((Captures(d.year, d.month, d.day), 10))
  {
    var c1 := SetField(NoCaptures, Year, d.year);
    var c2 := SetField(c1, Month, d.month);
    var c3 := SetField(c2, Day, d.day);
    assert toks[1..][1..] == toks[2..] && toks[2..][1..] == toks[3..];
    assert toks[3..][1..] == toks[4..] && toks[4..][1..] == [];
    assert MatchTokens([], 0, s, 10, c3) == Some((c3, 10));
    TwoDigitStep(toks[4..], s, 8, c2, d.day);
    LiteralStep(toks[3..], s, 7, c2);
    TwoDigitStep(toks[2..], s, 5, c1, d.month);
    LiteralStep(toks[1..], s, 4, c1);
    YearStep4(toks, s, 0, NoCaptures);
  }

  /** A date written day, sep, month, sep, year with zero padding parses back under "%d<sep>%m<sep>%Y". */
  lemma {:induction false} DayFirstParses(d: Date, sep: char)
    requires ValidDate(d)
    ensures Strptime([Field(Day), Literal(sep), Field(Month), Literal(sep), Field(Year)],
                     Pad2(d.day) + [sep] + Pad2(d.month) + [sep] + Pad4(d.year)) == Some(d)
  {
    var toks := [Field(Day), Literal(sep), Field(Month), Literal(sep), Field(Year)];
    var s := Pad2(d.day) + [sep] + Pad2(d.month) + [sep] + Pad4(d.year);
    Pad2Layout([], [sep] + Pad2(d.month) + [sep] + Pad4(d.year), d.day);
    Pad2Layout(Pad2(d.day) + [sep], [sep] + Pad4(d.year), d.month);
    Pad4Layout(Pad2(d.day) + [sep] + Pad2(d.month) + [sep], [], d.year);
    assert s == [] + Pad2(d.day) + ([sep] + Pad2(d.month) + [sep] + Pad4(d.year));
    assert s == (Pad2(d.day) + [sep]) + Pad2(d.month) + ([sep] + Pad4(d.year));
    assert s == (Pad2(d.day) + [sep] + Pad2(d.month) + [sep]) + Pad4(d.year) + [];
    assert |s| == 10 && s[2] == sep && s[5] == sep;
    DmyChain(toks, s, d);
  }

  /** "%d?%m?%Y" with any two literals matches ten characters laid out that way, capturing the date. */
  lemma {:induction false} DmyChain(toks: seq<Token>, s: string, d: Date)
    requires ValidDate(d) && |toks| == 5 && |s| == 10
    requires toks[0] == Field(Day) && toks[2] == Field(Month) && toks[4] == Field(Year)
    requires toks[1].Literal? && toks[3].Literal?
    requires TwoDigitsAt(s, 0, d.day) && TwoDigitsAt(s, 3, d.month) && FourDigitsAt(s, 6, d.year)
    requires s[2] == toks[1].c && s[5] == toks[3].c
    ensures Strptime(toks, s) == Some(d)
  {
    var c1 := SetField(NoCaptures, Day, d.day);
    var c2 := SetField(c1, Month, d.month);
    var c3 := SetField(c2, Year, d.year);
    assert toks[1..][1..] == toks[2..] && toks[2..][1..] == toks[3..];
    assert toks[3..][1..] == toks[4..] && toks[4..][1..] == [];
    assert MatchTokens([], 0, s, 10, c3) == Some((c3, 10));
    YearStep4(toks[4..], s, 6, c2);
    LiteralStep(toks[3..], s, 5, c2);
    TwoDigitStep(toks[2..], s, 3, c1, d.month);
    LiteralStep(toks[1..], s, 2, c1);
    TwoDigitStep(toks, s, 0, NoCaptures, d.day);
  }

  /** A date written as eight digits, year, month, day, parses back under "%Y%m%d". */
  lemma {:induction false} CompactParses(d: Date)
    requires ValidDate(d)
    ensures Strptime(YearMonthDayCompact, Pad4(d.year) + Pad2(d.month) + Pad2(d.day)) == Some(d)
  {
    var s := Pad4(d.year) + Pad2(d.month) + Pad2(d.day);
    Pad4Layout([], Pad2(d.month) + Pad2(d.day), d.year);
    Pad2Layout(Pad4(d.year), Pad2(d.day), d.month);
    Pad2Layout(Pad4(d.year) + Pad2(d.month), [], d.day);
    assert s == [] + Pad4(d.year) + (Pad2(d.month) + Pad2(d.day));
    assert s == Pad4(d.year) + Pad2(d.month) + Pad2(d.day) + [];
    CompactChain(s, d);
  }

  /** "%Y%m%d" matches eight digits laid out that way, capturing the date. */
  lemma {:induction false} CompactChain(s: string, d: Date)
    requires ValidDate(d) && |s| == 8
    requires FourDigitsAt(s, 0, d.year) && TwoDigitsAt(s, 4, d.month) && TwoDigitsAt(s, 6, d.day)
    ensures Strptime(YearMonthDayCompact, s) == Some(d)
  {
    var toks := YearMonthDayCompact;
    var c1 := SetField(NoCaptures, Year, d.year);
    var c2 := SetField(c1, Month, d.month);
    var c3 := SetField(c2, Day, d.day);
    assert toks[1..][1..] == toks[2..] && toks[2..][1..] == [];
    assert MatchTokens([], 0, s, 8, c3) == Some((c3, 8));
    TwoDigitStep(toks[2..], s, 6, c2, d.day);
    TwoDigitStep(toks[1..], s, 4, c1, d.month);
    YearStep4(toks, s, 0, NoCaptures);
  }

  /** A format starting "%Y" then the literal c fails on text without c right after four digits. */
  lemma {:induction false} YearThenLiteralFails(toks: seq<Token>, s: string, c: char)
    requires |toks| >= 2 && toks[0] == Field(Year) && toks[1] == Literal(c)
    requires 4 < |s| ==> s[4] != c
    ensures Strptime(toks, s) == None
  {
    forall a | true ensures MatchTokens(toks[1..], 0, s, 4, a) == None {
      assert toks[1..][0] == Literal(c);
      assert Alternatives(Literal(c))[0][0] == Exactly(c);
      assert 4 < |s| ==> !ClassMatches(Exactly(c), s[4 + 0]);
      NoAltMatches(toks[1..], 0, s, 4, a);
    }
    MatchTriesAltsInOrder(toks, 0, s, 0, NoCaptures);
  }

  /** A format starting "%d" then the literal c fails on text with no c at index 1 or 2. */
  lemma {:induction false} DayThenLiteralFails(toks: seq<Token>, s: string, c: char)
    requires |toks| >= 2 && toks[0] == Field(Day) && toks[1] == Literal(c)
    requires 1 < |s| ==> s[1] != c
    requires 2 < |s| ==> s[2] != c
    ensures Strptime(toks, s) == None
  {
    forall a, p | p == 1 || p == 2 ensures MatchTokens(toks[1..], 0, s, p, a) == None {
      assert toks[1..][0] == Literal(c);
      assert Alternatives(Literal(c))[0][0] == Exactly(c);
      assert p < |s| ==> !ClassMatches(Exactly(c), s[p + 0]);
      NoAltMatches(toks[1..], 0, s, p, a);
    }
    var alts := Alternatives(toks[0]);
    var j := |alts|;
    while j > 0
      invariant 0 <= j <= |alts|
      invariant MatchTokens(toks, j, s, 0, NoCaptures) == None
    {
      j := j - 1;
      assert |alts[j]| == 1 || |alts[j]| == 2;
      MatchTriesAltsInOrder(toks, j, s, 0, NoCaptures);
    }
  }

  /** Text whose first character is neither a digit nor a space matches no format that starts with a field. */
  lemma {:induction false} NonDigitStartFails(toks: seq<Token>, s: string)
    requires toks != [] && toks[0].Field?
    requires |s| > 0 && !IsDigit(s[0]) && s[0] != ' '
    ensures Strptime(toks, s) == None
  {
    var alts := Alternatives(toks[0]);
    forall k | 0 <= k < |alts| ensures !AltMatchesAt(alts[k], s, 0) {
      FieldAlternativesAreNumeric(toks[0].f, k, 0);
      assert !ClassMatches(alts[k][0], s[0]);
    }
    NoAltMatches(toks, 0, s, 0, NoCaptures);
  }

  /** FirstMatch returns the result of the earliest format that succeeds, and only that. */
  lemma {:induction false} FirstMatchIsEarliest(formats: seq<seq<Token>>, s: string, d: Date)
    ensures FirstMatch(formats, s) == Some(d) <==>
      exists k :: 0 <= k < |formats| && Strptime(formats[k], s) == Some(d)
                  && forall j :: 0 <= j < k ==> Strptime(formats[j], s) == None
  {
    if FirstMatch(formats, s) == Some(d) {
      FirstMatchFound(formats, s, d);
    }
    if exists k :: 0 <= k < |formats| && Strptime(formats[k], s) == Some(d)
                   && forall j :: 0 <= j < k ==> Strptime(formats[j], s) == None {
      var k :| 0 <= k < |formats| && Strptime(formats[k], s) == Some(d)
               && forall j :: 0 <= j < k ==> Strptime(formats[j], s) == None;
      EarliestIsFirstMatch(formats, s, k, d);
    }
  }

  /** A result of FirstMatch comes from some format, and every format before it failed. */
  lemma {:induction false} FirstMatchFound(formats: seq<seq<Token>>, s: string, d: Date)
    requires FirstMatch(formats, s) == Some(d)
    ensures exists k :: 0 <= k < |formats| && Strptime(formats[k], s) == Some(d)
                        && forall j :: 0 <= j < k ==> Strptime(formats[j], s) == None
  {
    if Strptime(formats[0], s).Some? {
      assert Strptime(formats[0], s) == Some(d);
    } else {
      FirstMatchFound(formats[1..], s, d);
      var k :| 0 <= k < |formats| - 1 && Strptime(formats[1..][k], s) == Some(d)
               && forall j :: 0 <= j < k ==> Strptime(formats[1..][j], s) == None;
      assert Strptime(formats[k + 1], s) == Some(d);
      forall j | 0 <= j < k + 1 ensures Strptime(formats[j], s) == None {
        if j > 0 { assert formats[j] == formats[1..][j - 1]; }
      }
    }
  }

  /** The first format that parses gives FirstMatch its result. */
  lemma {:induction false} EarliestIsFirstMatch(formats: seq<seq<Token>>, s: string, k: nat, d: Date)
    requires k < |formats| && Strptime(formats[k], s) == Some(d)
    requires forall j :: 0 <= j < k ==> Strptime(formats[j], s) == None
    ensures FirstMatch(formats, s) == Some(d)
    decreases k
  {
    if k > 0 {
      assert Strptime(formats[0], s) == None;
      assert formats[1..][k - 1] == formats[k];
      forall j | 0 <= j < k - 1 ensures Strptime(formats[1..][j], s) == None {
        assert formats[1..][j] == formats[j + 1];
      }
      EarliestIsFirstMatch(formats[1..], s, k - 1, d);
    }
  }


  /** Every date the valid-records output writes, `date.isoformat()`, parses back to itself. */
  lemma {:induction false} IsoFormatRoundTrip(d: Date)
    requires ValidDate(d)
    ensures ParseFlex(IsoFormat(d)) == Some(d)
  {
    var s := IsoFormat(d);
    assert s == Pad4(d.year) + ['-'] + Pad2(d.month) + ['-'] + Pad2(d.day);
    StripUnchanged(s);
    YearFirstParses(d, '-');
  }

  /** When every format fails, so does FirstMatch. */
  lemma {:induction false} AllFormatsFail(formats: seq<seq<Token>>, s: string)
    requires forall k :: 0 <= k < |formats| ==> Strptime(formats[k], s) == None
    ensures FirstMatch(formats, s) == None
  {
    if formats != [] {
      AllFormatsFail(formats[1..], s);
    }
  }

  /** Text without surrounding whitespace parses to d when format k gives d and every earlier one fails. */
  lemma {:induction false} ParseFlexPicks(s: string, k: nat, d: Date)
    requires s != [] && !IsSpace(s[0]) && !IsSpace(s[|s| - 1])
    requires k < |Patterns| && Strptime(Patterns[k], s) == Some(d)
    requires forall j :: 0 <= j < k ==> Strptime(Patterns[j], s) == None
    ensures ParseFlex(s) == Some(d)
  {
    StripUnchanged(s);
    EarliestIsFirstMatch(Patterns, s, k, d);
  }

  /** The characters of the "%Y/%m/%d" form that the earlier formats stumble on. */
  lemma {:induction false} YearFirstLayout(d: Date, sep: char)
    requires ValidDate(d)
    ensures var s := Pad4(d.year) + [sep] + Pad2(d.month) + [sep] + Pad2(d.day);
      |s| == 10 && IsDigit(s[0]) && s[4] == sep && IsDigit(s[9])
  {
    var s := Pad4(d.year) + [sep] + Pad2(d.month) + [sep] + Pad2(d.day);
    assert s[0] == Pad4(d.year)[0] && s[9] == Pad2(d.day)[1];
  }

  /** A valid date written "%Y/%m/%d", zero padded, is read back as that date. */
  lemma {:induction false} YearFirstSlashForm(d: Date)
    requires ValidDate(d)
    ensures ParseFlex(Pad4(d.year) + "/" + Pad2(d.month) + "/" + Pad2(d.day)) == Some(d)
  {
    var s := Pad4(d.year) + "/" + Pad2(d.month) + "/" + Pad2(d.day);
    YearFirstLayout(d, '/');
    YearThenLiteralFails(YearMonthDayDash, s, '-');
    YearFirstParses(d, '/');
    ParseFlexPicks(s, 1, d);
  }

  /** The characters of the day-first forms that the earlier formats stumble on. */
  lemma {:induction false} DayFirstLayout(d: Date, sep: char)
    requires ValidDate(d)
    ensures var s := Pad2(d.day) + [sep] + Pad2(d.month) + [sep] + Pad4(d.year);
      |s| == 10 && IsDigit(s[0]) && IsDigit(s[1]) && s[2] == sep && IsDigit(s[4]) && IsDigit(s[9])
  {
    var s := Pad2(d.day) + [sep] + Pad2(d.month) + [sep] + Pad4(d.year);
    assert s[0] == Pad2(d.day)[0] && s[1] == Pad2(d.day)[1];
    assert s[4] == Pad2(d.month)[1] && s[9] == Pad4(d.year)[3];
  }

  /** A valid date written "%d-%m-%Y", zero padded, is read back as that date. */
  lemma {:induction false} DayFirstDashForm(d: Date)
    requires ValidDate(d)
    ensures ParseFlex(Pad2(d.day) + "-" + Pad2(d.month) + "-" + Pad4(d.year)) == Some(d)
  {
    var s := Pad2(d.day) + "-" + Pad2(d.month) + "-" + Pad4(d.year);
    DayFirstDashEarlierFail(d);
    DayFirstLayout(d, '-');
    DayFirstParses(d, '-');
    ParseFlexPicks(s, 2, d);
  }

  lemma {:induction false} DayFirstDashEarlierFail(d: Date)
    requires ValidDate(d)
    ensures var s := Pad2(d.day) + "-" + Pad2(d.month) + "-" + Pad4(d.year);
      forall j :: 0 <= j < 2 ==> Strptime(Patterns[j], s) == None
  {
    var s := Pad2(d.day) + "-" + Pad2(d.month) + "-" + Pad4(d.year);
    DayFirstLayout(d, '-');
    YearThenLiteralFails(YearMonthDayDash, s, '-');
    YearThenLiteralFails(YearMonthDaySlash, s, '/');
  }

  /** A valid date written "%d/%m/%Y", zero padded, is read back as that date. */
  lemma {:induction false} DayFirstSlashForm(d: Date)
    requires ValidDate(d)
    ensures ParseFlex(Pad2(d.day) + "/" + Pad2(d.month) + "/" + Pad4(d.year)) == Some(d)
  {
    var s := Pad2(d.day) + "/" + Pad2(d.month) + "/" + Pad4(d.year);
    DayFirstSlashEarlierFail(d);
    DayFirstLayout(d, '/');
    DayFirstParses(d, '/');
    ParseFlexPicks(s, 3, d);
  }

  lemma {:induction false} DayFirstSlashEarlierFail(d: Date)
    requires ValidDate(d)
    ensures var s := Pad2(d.day) + "/" + Pad2(d.month) + "/" + Pad4(d.year);
      forall j :: 0 <= j < 3 ==> Strptime(Patterns[j], s) == None
  {
    var s := Pad2(d.day) + "/" + Pad2(d.month) + "/" + Pad4(d.year);
    DayFirstLayout(d, '/');
    YearThenLiteralFails(YearMonthDayDash, s, '-');
    YearThenLiteralFails(YearMonthDaySlash, s, '/');
    DayThenLiteralFails(DayMonthYearDash, s, '-');
  }

  /** The characters of the "%Y%m%d" form that the earlier formats stumble on. */
  lemma {:induction false} CompactLayout(d: Date)
    requires ValidDate(d)
    ensures var s := Pad4(d.year) + Pad2(d.month) + Pad2(d.day);
      |s| == 8 && IsDigit(s[0]) && IsDigit(s[1]) && IsDigit(s[2]) && IsDigit(s[4]) && IsDigit(s[7])
  {
    var s := Pad4(d.year) + Pad2(d.month) + Pad2(d.day);
    assert s[0] == Pad4(d.year)[0] && s[1] == Pad4(d.year)[1] && s[2] == Pad4(d.year)[2];
    assert s[4] == Pad2(d.month)[0] && s[7] == Pad2(d.day)[1];
  }

  /** A valid date written "%Y%m%d", zero padded, is read back as that date. */
  lemma {:induction false} CompactForm(d: Date)
    requires ValidDate(d)
    ensures ParseFlex(Pad4(d.year) + Pad2(d.month) + Pad2(d.day)) == Some(d)
  {
    var s := Pad4(d.year) + Pad2(d.month) + Pad2(d.day);
    CompactEarlierFail(d);
    CompactLayout(d);
    CompactParses(d);
    ParseFlexPicks(s, 4, d);
  }

  lemma {:induction false} CompactEarlierFail(d: Date)
    requires ValidDate(d)
    ensures var s := Pad4(d.year) + Pad2(d.month) + Pad2(d.day);
      forall j :: 0 <= j < 4 ==> Strptime(Patterns[j], s) == None
  {
    var s := Pad4(d.year) + Pad2(d.month) + Pad2(d.day);
    CompactLayout(d);
    YearThenLiteralFails(YearMonthDayDash, s, '-');
    YearThenLiteralFails(YearMonthDaySlash, s, '/');
    DayThenLiteralFails(DayMonthYearDash, s, '-');
    DayThenLiteralFails(DayMonthYearSlash, s, '/');
  }

  /** A format starting "%Y" then a field fails on text whose fifth character is neither a digit nor a space. */
  lemma {:induction false} YearThenFieldFails(toks: seq<Token>, s: string)
    requires |toks| >= 2 && toks[0] == Field(Year) && toks[1].Field?
    requires 4 < |s| && !IsDigit(s[4]) && s[4] != ' '
    ensures Strptime(toks, s) == None
  {
    forall a | true ensures MatchTokens(toks[1..], 0, s, 4, a) == None {
      var alts := Alternatives(toks[1..][0]);
      forall k | 0 <= k < |alts| ensures !AltMatchesAt(alts[k], s, 4) {
        FieldAlternativesAreNumeric(toks[1].f, k, 0);
        assert !ClassMatches(alts[k][0], s[4 + 0]);
      }
      NoAltMatches(toks[1..], 0, s, 4, a);
    }
    MatchTriesAltsInOrder(toks, 0, s, 0, NoCaptures);
  }

  /** An ISO date followed by one more character: "%Y-%m-%d" matches the date and leaves that character over. */
  lemma {:induction false} IsoThenCharFails(d: Date, c: char)
    requires ValidDate(d)
    ensures Strptime(YearMonthDayDash, IsoFormat(d) + [c]) == None
  {
    var s := IsoFormat(d) + [c];
    assert s == Pad4(d.year) + ['-'] + Pad2(d.month) + ['-'] + Pad2(d.day) + [c];
    Pad4Layout([], ['-'] + Pad2(d.month) + ['-'] + Pad2(d.day) + [c], d.year);
    Pad2Layout(Pad4(d.year) + ['-'], ['-'] + Pad2(d.day) + [c], d.month);
    Pad2Layout(Pad4(d.year) + ['-'] + Pad2(d.month) + ['-'], [c], d.day);
    assert s == [] + Pad4(d.year) + (['-'] + Pad2(d.month) + ['-'] + Pad2(d.day) + [c]);
    assert s == (Pad4(d.year) + ['-']) + Pad2(d.month) + (['-'] + Pad2(d.day) + [c]);
    assert s == (Pad4(d.year) + ['-'] + Pad2(d.month) + ['-']) + Pad2(d.day) + [c];
    YmdMatch(YearMonthDayDash, s, d);
  }

  /**
   * Trailing text is refused ("unconverted data remains"): an ISO date with one more
   * non-whitespace character, such as "2024-01-311", is not a date in any of the formats.
   */
  lemma {:induction false} TrailingDataRejected(d: Date, c: char)
    requires ValidDate(d) && !IsSpace(c)
    ensures ParseFlex(IsoFormat(d) + [c]) == None
  {
    var iso := IsoFormat(d);
    var s := iso + [c];
    assert s[0] == iso[0] && s[1] == iso[1] && s[2] == iso[2] && s[4] == iso[4] && s[|s| - 1] == c;
    StripUnchanged(s);
    IsoThenCharFails(d, c);
    YearThenLiteralFails(YearMonthDaySlash, s, '/');
    DayThenLiteralFails(DayMonthYearDash, s, '-');
    DayThenLiteralFails(DayMonthYearSlash, s, '/');
    YearThenFieldFails(YearMonthDayCompact, s);
    AllFormatsFail(Patterns, s);
  }

  /** "%Y-%m-%d" reads a month and a day of one digit each. */
  lemma {:induction false} UnpaddedParses(y: int, m: int, dd: int)
    requires MinYear <= y <= MaxYear && 1 <= m <= 9 && 1 <= dd <= 9
    ensures Strptime(YearMonthDayDash, Pad4(y) + "-" + [DigitChar(m)] + "-" + [DigitChar(dd)]) == Some(Date(y, m, dd))
  {
    var s := Pad4(y) + "-" + [DigitChar(m)] + "-" + [DigitChar(dd)];
    Pad4Layout([], "-" + [DigitChar(m)] + "-" + [DigitChar(dd)], y);
    assert s == [] + Pad4(y) + ("-" + [DigitChar(m)] + "-" + [DigitChar(dd)]);
    assert |s| == 8 && s[4] == '-' && s[5] == DigitChar(m) && s[6] == '-' && s[7] == DigitChar(dd);
    UnpaddedChain(s, y, m, dd);
  }

  /** The match of "%Y-%m-%d" on eight characters "YYYY-m-d", one alternative after another. */
  lemma {:induction false} UnpaddedChain(s: string, y: int, m: int, dd: int)
    requires MinYear <= y <= MaxYear && 1 <= m <= 9 && 1 <= dd <= 9
    requires |s| == 8 && FourDigitsAt(s, 0, y)
    requires s[4] == '-' && s[5] == DigitChar(m) && s[6] == '-' && s[7] == DigitChar(dd)
    ensures Strptime(YearMonthDayDash, s) == Some(Date(y, m, dd))
  {
    var toks := YearMonthDayDash;
    var c1 := SetField(NoCaptures, Year, y);
    var c2 := SetField(c1, Month, m);
    var c3 := SetField(c2, Day, dd);
    assert toks[1..][1..] == toks[2..] && toks[2..][1..] == toks[3..];
    assert toks[3..][1..] == toks[4..] && toks[4..][1..] == [];
    assert MatchTokens([], 0, s, 8, c3) == Some((c3, 8));
    OneDigitStep(toks[4..], s, 7, c2, dd);
    LiteralStep(toks[3..], s, 6, c2);
    OneDigitStep(toks[2..], s, 5, c1, m);
    LiteralStep(toks[1..], s, 4, c1);
    YearStep4(toks, s, 0, NoCaptures);
  }

  /** Month and day need no zero padding: "2024-1-5" style text is read as that date. */
  lemma {:induction false} UnpaddedForm(y: int, m: int, dd: int)
    requires MinYear <= y <= MaxYear && 1 <= m <= 9 && 1 <= dd <= 9
    ensures ParseFlex(Pad4(y) + "-" + [DigitChar(m)] + "-" + [DigitChar(dd)]) == Some(Date(y, m, dd))
  {
    var s := Pad4(y) + "-" + [DigitChar(m)] + "-" + [DigitChar(dd)];
    assert s[0] == Pad4(y)[0] && s[|s| - 1] == DigitChar(dd);
    UnpaddedParses(y, m, dd);
    ParseFlexPicks(s, 0, Date(y, m, dd));
  }

  /** "%Y-%m-%d" reads a day written as a space and one digit. */
  lemma {:induction false} SpacePaddedDayParses(d: Date)
    requires ValidDate(d) && d.day <= 9
    ensures Strptime(YearMonthDayDash, Pad4(d.year) + "-" + Pad2(d.month) + "- " + [DigitChar(d.day)]) == Some(d)
  {
    var s := Pad4(d.year) + "-" + Pad2(d.month) + "- " + [DigitChar(d.day)];
    Pad4Layout([], "-" + Pad2(d.month) + "- " + [DigitChar(d.day)], d.year);
    Pad2Layout(Pad4(d.year) + "-", "- " + [DigitChar(d.day)], d.month);
    assert s == [] + Pad4(d.year) + ("-" + Pad2(d.month) + "- " + [DigitChar(d.day)]);
    assert s == (Pad4(d.year) + "-") + Pad2(d.month) + ("- " + [DigitChar(d.day)]);
    assert |s| == 10 && s[4] == '-' && s[7] == '-' && s[8] == ' ' && s[9] == DigitChar(d.day);
    SpacePaddedChain(s, d);
  }

  /** The match of "%Y-%m-%d" on ten characters "YYYY-MM- d", one alternative after another. */
  lemma {:induction false} SpacePaddedChain(s: string, d: Date)
    requires ValidDate(d) && d.day <= 9
    requires |s| == 10 && FourDigitsAt(s, 0, d.year) && TwoDigitsAt(s, 5, d.month)
    requires s[4] == '-' && s[7] == '-' && s[8] == ' ' && s[9] == DigitChar(d.day)
    ensures Strptime(YearMonthDayDash, s) == Some(d)
  {
    var toks := YearMonthDayDash;
    var c1 := SetField(NoCaptures, Year, d.year);
    var c2 := SetField(c1, Month, d.month);
    var c3 := SetField(c2, Day, d.day);
    assert toks[1..][1..] == toks[2..] && toks[2..][1..] == toks[3..];
    assert toks[3..][1..] == toks[4..] && toks[4..][1..] == [];
    assert MatchTokens([], 0, s, 10, c3) == Some((c3, 10));
    SpaceDigitStep(toks[4..], s, 8, c2, d.day);
    LiteralStep(toks[3..], s, 7, c2);
    TwoDigitStep(toks[2..], s, 5, c1, d.month);
    LiteralStep(toks[1..], s, 4, c1);
    YearStep4(toks, s, 0, NoCaptures);
  }

  /** A one-digit day may be padded with a space instead of a zero: "2024-01- 5" is 5 January 2024. */
  lemma {:induction false} SpacePaddedDayForm(d: Date)
    requires ValidDate(d) && d.day <= 9
    ensures ParseFlex(Pad4(d.year) + "-" + Pad2(d.month) + "- " + [DigitChar(d.day)]) == Some(d)
  {
    var s := Pad4(d.year) + "-" + Pad2(d.month) + "- " + [DigitChar(d.day)];
    assert s[0] == Pad4(d.year)[0] && s[|s| - 1] == DigitChar(d.day);
    SpacePaddedDayParses(d);
    ParseFlexPicks(s, 0, d);
  }

  /** The documented example "2024-01-31" is read as 31 January 2024. */
  lemma IsoDashExample()
    ensures ParseFlex("2024-01-31") == Some(Date(2024, 1, 31))
  {
    assert Pad4(2024) == "2024" && Pad2(1) == "01" && Pad2(31) == "31";
    assert IsoFormat(Date(2024, 1, 31)) == "2024-01-31";
    IsoFormatRoundTrip(Date(2024, 1, 31));
  }

  /** The documented example "2024/01/31" is read as 31 January 2024. */
  lemma YearFirstSlashExample()
    ensures ParseFlex("2024/01/31") == Some(Date(2024, 1, 31))
  {
    assert Pad4(2024) == "2024" && Pad2(1) == "01" && Pad2(31) == "31";
    assert Pad4(2024) + "/" + Pad2(1) + "/" + Pad2(31) == "2024/01/31";
    YearFirstSlashForm(Date(2024, 1, 31));
  }

  /** The documented example "31-01-2024" is read as 31 January 2024. */
  lemma DayFirstDashExample()
    ensures ParseFlex("31-01-2024") == Some(Date(2024, 1, 31))
  {
    assert Pad4(2024) == "2024" && Pad2(1) == "01" && Pad2(31) == "31";
    assert Pad2(31) + "-" + Pad2(1) + "-" + Pad4(2024) == "31-01-2024";
    DayFirstDashForm(Date(2024, 1, 31));
  }

  /** The documented example "31/01/2024" is read as 31 January 2024. */
  lemma DayFirstSlashExample()
    ensures ParseFlex("31/01/2024") == Some(Date(2024, 1, 31))
  {
    assert Pad4(2024) == "2024" && Pad2(1) == "01" && Pad2(31) == "31";
    assert Pad2(31) + "/" + Pad2(1) + "/" + Pad4(2024) == "31/01/2024";
    DayFirstSlashForm(Date(2024, 1, 31));
  }

  /** The documented example "20240131" is read as 31 January 2024. */
  lemma CompactExample()
    ensures ParseFlex("20240131") == Some(Date(2024, 1, 31))
  {
    assert Pad4(2024) == "2024" && Pad2(1) == "01" && Pad2(31) == "31";
    assert Pad4(2024) + Pad2(1) + Pad2(31) == "20240131";
    CompactForm(Date(2024, 1, 31));
  }

  /** Blank text and text that is not a date both fail. */
  lemma RejectedFormsExample()
    ensures ParseFlex("") == None
    ensures ParseFlex("   ") == None
    ensures ParseFlex("not-a-date") == None
  {
    var s := "not-a-date";
    StripUnchanged(s);
    forall k | 0 <= k < |Patterns| ensures Strptime(Patterns[k], s) == None {
      NonDigitStartFails(Patterns[k], s);
    }
    AllFormatsFail(Patterns, s);
  }

  /** "2024-1-5" is read as 5 January 2024. */
  lemma UnpaddedExample(s: string)
    requires s == "2024-1-5"
    ensures ParseFlex(s) == Some(Date(2024, 1, 5))
  {
    assert Pad4(2024) == "2024";
    assert s == Pad4(2024) + "-" + [DigitChar(1)] + "-" + [DigitChar(5)];
    UnpaddedForm(2024, 1, 5);
  }

  /** "2024-01-311", a valid date with a digit too many, is refused. */
  lemma TrailingDigitExample(s: string)
    requires s == "2024-01-311"
    ensures ParseFlex(s) == None
  {
    assert Pad4(2024) == "2024" && Pad2(1) == "01" && Pad2(31) == "31";
    assert s == IsoFormat(Date(2024, 1, 31)) + ['1'];
    TrailingDataRejected(Date(2024, 1, 31), '1');
  }
}
