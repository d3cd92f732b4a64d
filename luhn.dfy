/**
 * The MOD 10 (Luhn) check of Health_system.py's `luhn_check`: the last digit of the
 * number is its check digit, and counting positions from the right with the check
 * digit at position 0, every digit at an odd position is doubled, with 9 taken off a
 * doubled value over 9; the number passes when the sum is a multiple of 10.
 */
module Luhn {
  import opened Text

  type Digit = x: nat | x <= 9

  /** A doubled digit with 9 taken off when over 9. */
  function Doubled(d: Digit): Digit
  {
    if 2 * d > 9 then 2 * d - 9 else 2 * d
  }

  /** Taking 9 off a doubled digit over 9 gives the sum of the decimal digits of 2 * d. */
  lemma DoubledIsDigitSum(d: Digit)
    ensures Doubled(d) == 2 * d / 10 + 2 * d % 10
  {
  }

  /** `[int(d) for d in number]`. */
  function DigitValues(s: string): (ds: seq<Digit>)
    requires forall i :: 0 <= i < |s| ==> IsDigit(s[i])
    ensures |ds| == |s|
    ensures forall i :: 0 <= i < |s| ==> ds[i] == DigitValue(s[i])
  {
    if s == [] then [] else [DigitValue(s[0]) as Digit] + DigitValues(s[1..])
  }

  /** The contribution of digit d: doubled when `doubled` holds, as it is. */
  function Weight(d: Digit, doubled: bool): Digit
  {
    if doubled then Doubled(d) else d
  }

  /**
   * The weighted digit sum read from the right end of `ds`: the last digit is doubled when
   * `doubleLast` holds, and doubling alternates from there leftwards.
   */
  function WeightedSum(ds: seq<Digit>, doubleLast: bool): nat
  {
    if ds == [] then 0
    else Weight(ds[|ds| - 1], doubleLast) + WeightedSum(ds[..|ds| - 1], !doubleLast)
  }

  /** The Luhn sum of a whole number: the check digit (position 0) as it is, odd positions doubled. */
  function LuhnSum(ds: seq<Digit>): nat
  {
    WeightedSum(ds, false)
  }

  /** A number passes the Luhn check: a non-empty digit string whose Luhn sum is a multiple of 10. */
  predicate LuhnValid(number: string)
  {
    IsDigitString(number) && LuhnSum(DigitValues(number)) % 10 == 0
  }

  /** The check digit counts as it is, and the digits before it start with a doubled one. */
  lemma {:induction false} CheckDigitSplit(p: seq<Digit>, c: Digit)
    ensures LuhnSum(p + [c]) == WeightedSum(p, true) + c
  {
    assert (p + [c])[..|p|] == p;
  }

  /**
   * Putting a digit x in front of q adds its weight; it is doubled when the parity reached
   * after |q| alternations from `doubleLast` says so.
   */
  lemma {:induction false} PrependDigit(x: Digit, q: seq<Digit>, doubleLast: bool)
    ensures WeightedSum([x] + q, doubleLast)
            == WeightedSum(q, doubleLast) + Weight(x, doubleLast != (|q| % 2 == 1))
    decreases |q|
  {
    if q == [] {
      assert [x] + q == [x];
      assert [x][..0] == [];
    } else {
      var last := q[|q| - 1];
      assert ([x] + q)[..|q|] == [x] + q[..|q| - 1];
      assert ([x] + q)[|q|] == last;
      PrependDigit(x, q[..|q| - 1], !doubleLast);
    }
  }

  /** The sum over a number is the doubled-first sum of the digits before its check digit, plus that digit. */
  lemma {:induction false} LastIsCheckDigit(ds: seq<Digit>)
    requires ds != []
    ensures LuhnSum(ds) == WeightedSum(ds[..|ds| - 1], true) + ds[|ds| - 1]
  {
    assert ds == ds[..|ds| - 1] + [ds[|ds| - 1]];
    CheckDigitSplit(ds[..|ds| - 1], ds[|ds| - 1]);
  }

  /** A digit string passes exactly when the doubled-first sum before its check digit, plus that digit, is a multiple of 10. */
  lemma {:induction false} LuhnValidBySplit(number: string)
    requires IsDigitString(number)
    ensures var ds := DigitValues(number);
      LuhnValid(number) <==> (WeightedSum(ds[..|ds| - 1], true) + ds[|ds| - 1]) % 10 == 0
  {
    LastIsCheckDigit(DigitValues(number));
  }

  /**
   * One more digit of the prefix, read from its right end: the digit i places from the
   * end joins the suffix summed so far, doubled exactly at even i.
   */
  lemma {:induction false} SuffixStep(prefix: seq<Digit>, i: nat)
    requires i < |prefix|
    ensures WeightedSum(prefix[|prefix| - (i + 1)..], true)
            == WeightedSum(prefix[|prefix| - i..], true) + Weight(prefix[|prefix| - 1 - i], i % 2 == 0)
  {
    var n := |prefix|;
    var x, q := prefix[n - 1 - i], prefix[n - i..];
    assert prefix[n - (i + 1)..] == [x] + q;
    PrependDigit(x, q, true);
  }

  /**
   * `luhn_check(number)`: false for a string that is empty or has a non-digit; otherwise
   * the digits before the check digit are summed by ReversedPrefixSum and the check digit
   * is added.
   */
  method LuhnCheck(number: string) returns (ok: bool)
    ensures ok == LuhnValid(number)
    ensures !IsDigitString(number) ==> !ok
  {
    if !IsDigitString(number) {
      return false;
    }
    var digits := DigitValues(number);
    var checkDigit := digits[|digits| - 1];
    var total := ReversedPrefixSum(digits[..|digits| - 1]);
    LuhnValidBySplit(number);
    ok := (total + checkDigit) % 10 == 0;
  }

  /**
   * The loop of `luhn_check`: the digits before the check digit are walked in reverse
   * order (element i of the reversed list is the digit i places from their right end),
   * and those at even i are doubled, with 9 taken off when over 9, before summing.
   */
  method ReversedPrefixSum(prefix: seq<Digit>) returns (total: nat)
    ensures total == WeightedSum(prefix, true)
  {
    total := 0;
    var i := 0;
    while i < |prefix|
      invariant 0 <= i <= |prefix|
      invariant total == WeightedSum(prefix[|prefix| - i..], true)
    {
      var d: nat := prefix[|prefix| - 1 - i];
      if i % 2 == 0 {
        d := d * 2;
        if d > 9 {
          d := d - 9;
        }
      }
      SuffixStep(prefix, i);
      total := total + d;
      i := i + 1;
    }
    assert prefix[|prefix| - i..] == prefix;
  }

  /** Doubling with 9 taken off never maps two different digits to the same value. */
  lemma DoubledInjective(a: Digit, b: Digit)
    requires Doubled(a) == Doubled(b)
    ensures a == b
  {
  }

  /** Whether the digit at index k of a run of n digits is doubled, given whether the last one is. */
  function DoubledAt(n: nat, k: nat, doubleLast: bool): bool
    requires k < n
  {
    doubleLast != ((n - 1 - k) % 2 == 1)
  }

  /** Changing the digit at one index changes the weighted sum by the change of its weight alone. */
  lemma {:induction false} ChangeOneDigit(ds: seq<Digit>, es: seq<Digit>, k: nat, doubleLast: bool)
    requires |ds| == |es| && k < |ds|
    requires forall i :: 0 <= i < |ds| && i != k ==> ds[i] == es[i]
    ensures var doubled := DoubledAt(|ds|, k, doubleLast);
            WeightedSum(ds, doubleLast) - Weight(ds[k], doubled) == WeightedSum(es, doubleLast) - Weight(es[k], doubled)
    decreases |ds|
  {
    var n := |ds|;
    if k == n - 1 {
      assert ds[..n - 1] == es[..n - 1];
      assert DoubledAt(n, k, doubleLast) == doubleLast;
    } else {
      assert ds[n - 1] == es[n - 1];
      ChangeOneDigit(ds[..n - 1], es[..n - 1], k, !doubleLast);
      assert DoubledAt(n - 1, k, !doubleLast) == DoubledAt(n, k, doubleLast);
    }
  }

  /** Two sums that differ by the difference of two different digits are not both multiples of 10. */
  lemma NotBothMultiplesOfTen(x: int, y: int, a: Digit, b: Digit)
    requires a != b && x - a == y - b
    ensures !(x % 10 == 0 && y % 10 == 0)
  {
  }

  /**
   * The Luhn check catches every single-digit error: two digit strings of the same length
   * that differ in exactly one place never both pass.
   */
  lemma {:induction false} SingleDigitErrorDetected(s: string, t: string, k: nat)
    requires IsDigitString(s) && IsDigitString(t) && |s| == |t| && k < |s|
    requires s[k] != t[k]
    requires forall i :: 0 <= i < |s| && i != k ==> s[i] == t[i]
    ensures !(LuhnValid(s) && LuhnValid(t))
  {
    var ds, es := DigitValues(s), DigitValues(t);
    var doubled := DoubledAt(|ds|, k, false);
    ChangeOneDigit(ds, es, k, false);
    assert ds[k] != es[k];
    if doubled && Doubled(ds[k]) == Doubled(es[k]) {
      DoubledInjective(ds[k], es[k]);
    }
    NotBothMultiplesOfTen(LuhnSum(ds), LuhnSum(es), Weight(ds[k], doubled), Weight(es[k], doubled));
  }

  /** A run of digits has at most one check digit that makes it pass (`CheckDigitExists` gives one). */
  lemma {:induction false} CheckDigitUnique(prefix: string, c: char, c': char)
    requires forall i :: 0 <= i < |prefix| ==> IsDigit(prefix[i])
    requires IsDigit(c) && IsDigit(c')
    requires LuhnValid(prefix + [c]) && LuhnValid(prefix + [c'])
    ensures c == c'
  {
    var s, t := prefix + [c], prefix + [c'];
    if c != c' {
      SingleDigitErrorDetected(s, t, |prefix|);
    }
  }

  /** The digit that tops w up to a multiple of 10. */
  function TopUp(w: nat): (v: Digit)
    ensures (w + v) % 10 == 0
  {
    var v := (10 - w % 10) % 10;
    assert w == 10 * (w / 10) + w % 10;
    v
  }

  /** Appending one digit character appends its value. */
  lemma {:induction false} DigitValuesSnoc(s: string, c: char)
    requires forall i :: 0 <= i < |s| ==> IsDigit(s[i])
    requires IsDigit(c)
    ensures forall i :: 0 <= i < |s + [c]| ==> IsDigit((s + [c])[i])
    ensures DigitValues(s + [c]) == DigitValues(s) + [DigitValue(c) as Digit]
  {
    var t := s + [c];
    assert forall i :: 0 <= i < |s| ==> t[i] == s[i];
  }

  /** A digit character appended to a run of digits is its check digit: the rest starts doubled. */
  lemma {:induction false} AppendCheckDigit(prefix: string, c: char)
    requires forall i :: 0 <= i < |prefix| ==> IsDigit(prefix[i])
    requires IsDigit(c)
    ensures IsDigitString(prefix + [c])
    ensures LuhnSum(DigitValues(prefix + [c])) == WeightedSum(DigitValues(prefix), true) + DigitValue(c)
  {
    DigitValuesSnoc(prefix, c);
    CheckDigitSplit(DigitValues(prefix), DigitValue(c) as Digit);
  }

  /** Every run of digits, empty included, is completed to a passing number by its top-up digit. */
  lemma {:induction false} CheckDigitExists(prefix: string)
    requires forall i :: 0 <= i < |prefix| ==> IsDigit(prefix[i])
    ensures LuhnValid(prefix + [DigitChar(TopUp(WeightedSum(DigitValues(prefix), true)))])
  {
    var w := WeightedSum(DigitValues(prefix), true);
    AppendCheckDigit(prefix, DigitChar(TopUp(w)));
  }

  /** A digit string whose values are p then c passes exactly when p's doubled-first sum plus c is a multiple of 10. */
  lemma {:induction false} ValidBySplitDigits(number: string, p: seq<Digit>, c: Digit)
    requires IsDigitString(number) && DigitValues(number) == p + [c]
    ensures LuhnValid(number) <==> (WeightedSum(p, true) + c) % 10 == 0
  {
    CheckDigitSplit(p, c);
  }

  /** "1234567897" passes: its first nine digits weigh 43 and the check digit 7 tops that up to 50. */
  lemma PassingExample(s: string)
    requires s == "1234567897"
    ensures LuhnValid(s)
  {
    PassingExampleDigits(s);
    FirstNineSum();
    ValidBySplitDigits(s, [1, 2, 3, 4, 5, 6, 7, 8, 9], 7);
  }

  /** "1234567890", the shape of card number the documentation shows, fails: its sum is 43. */
  lemma FailingExample(s: string)
    requires s == "1234567890"
    ensures !LuhnValid(s)
  {
    FailingExampleDigits(s);
    FirstNineSum();
    ValidBySplitDigits(s, [1, 2, 3, 4, 5, 6, 7, 8, 9], 0);
  }

  /** The digit values of the passing example: nine digits, then its check digit 7. */
  lemma PassingExampleDigits(s: string)
    requires s == "1234567897"
    ensures IsDigitString(s)
    ensures DigitValues(s) == [1, 2, 3, 4, 5, 6, 7, 8, 9] + [7]
  {
  }

  /** The digit values of the failing example: the same nine digits, then 0. */
  lemma FailingExampleDigits(s: string)
    requires s == "1234567890"
    ensures IsDigitString(s)
    ensures DigitValues(s) == [1, 2, 3, 4, 5, 6, 7, 8, 9] + [0]
  {
  }

  /** The digits 1 to 9 before a check digit weigh 43. */
  lemma FirstNineSum()
    ensures WeightedSum([1, 2, 3, 4, 5, 6, 7, 8, 9], true) == 43
  {
    assert [1][..0] == [];
    assert WeightedSum([1], true) == 2;
    assert [1, 2][..1] == [1];
    assert WeightedSum([1, 2], false) == 4;
    assert [1, 2, 3][..2] == [1, 2];
    assert WeightedSum([1, 2, 3], true) == 10;
    assert [1, 2, 3, 4][..3] == [1, 2, 3];
    assert WeightedSum([1, 2, 3, 4], false) == 14;
    assert [1, 2, 3, 4, 5][..4] == [1, 2, 3, 4];
    assert WeightedSum([1, 2, 3, 4, 5], true) == 15;
    assert [1, 2, 3, 4, 5, 6][..5] == [1, 2, 3, 4, 5];
    assert WeightedSum([1, 2, 3, 4, 5, 6], false) == 21;
    assert [1, 2, 3, 4, 5, 6, 7][..6] == [1, 2, 3, 4, 5, 6];
    assert WeightedSum([1, 2, 3, 4, 5, 6, 7], true) == 26;
    assert [1, 2, 3, 4, 5, 6, 7, 8][..7] == [1, 2, 3, 4, 5, 6, 7];
    assert WeightedSum([1, 2, 3, 4, 5, 6, 7, 8], false) == 34;
    assert [1, 2, 3, 4, 5, 6, 7, 8, 9][..8] == [1, 2, 3, 4, 5, 6, 7, 8];
    assert WeightedSum([1, 2, 3, 4, 5, 6, 7, 8, 9], true) == 43;
  }
}
