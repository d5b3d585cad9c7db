/**
 * Integer reading and printing as the JavaScript runtime does it for the
 * values the core handles: `parseInt(x)` with no radix (seat counts) and
 * the decimal text of a non-negative count (the reply's introduction).
 */
module Numbers {
  import opened Wrappers
  import opened Strings

  function DigitValue(c: char): (d: int)
    ensures -1 <= d < 16
  {
    if '0' <= c <= '9' then c as int - '0' as int
    else if 'a' <= c <= 'f' then c as int - 'a' as int + 10
    else if 'A' <= c <= 'F' then c as int - 'A' as int + 10
    else -1
  }

  predicate IsDigit(c: char, radix: nat) { 0 <= DigitValue(c) < radix }

  /** The end of the run of `radix` digits that starts at `i`. */
  function DigitRun(s: string, i: nat, radix: nat): (k: nat)
    requires i <= |s|
    ensures i <= k <= |s|
    ensures forall j :: i <= j < k ==> IsDigit(s[j], radix)
    ensures k < |s| ==> !IsDigit(s[k], radix)
    decreases |s| - i
  {
    if i == |s| || !IsDigit(s[i], radix) then i else DigitRun(s, i + 1, radix)
  }

  lemma DigitRunEnds(s: string, i: nat, e: nat, radix: nat)
    requires i <= e <= |s|
    requires forall j :: i <= j < e ==> IsDigit(s[j], radix)
    requires e == |s| || !IsDigit(s[e], radix)
    ensures DigitRun(s, i, radix) == e
    decreases e - i
  {
    if i < e {
      DigitRunEnds(s, i + 1, e, radix);
    }
  }

  /** The value of a digit string, most significant digit first. */
  function DigitsValue(d: string, radix: nat): int
  {
    if d == [] then 0
    else DigitsValue(d[..|d| - 1], radix) * radix + DigitValue(d[|d| - 1])
  }

  /**
   * `parseInt(s)`: skip leading white space, an optional sign, a "0x"/"0X"
   * prefix selects base 16; then the longest run of digits. No digit at all
   * is NaN, modelled as None.
   */
  function ParseInt(s: string): (r: Option<int>)
  {
    var i := SkipSpaces(s, 0);
    var negative := i < |s| && s[i] == '-';
    var j := if i < |s| && (s[i] == '-' || s[i] == '+') then i + 1 else i;
    var hex := j + 1 < |s| && s[j] == '0' && (s[j + 1] == 'x' || s[j + 1] == 'X');
    var k := if hex then j + 2 else j;
    var radix := if hex then 16 else 10;
    var e := DigitRun(s, k, radix);
    if e == k then None
    else Some(if negative then -DigitsValue(s[k..e], radix) else DigitsValue(s[k..e], radix))
  }

  function DigitChar(d: nat): (c: char)
    requires d < 10
    ensures DigitValue(c) == d
  {
    ('0' as int + d) as char
  }

  /** `String(n)` for a non-negative integer: its shortest decimal numeral. */
  function DecimalString(n: nat): (s: string)
    ensures |s| >= 1
    ensures forall i :: 0 <= i < |s| ==> IsDigit(s[i], 10)
    ensures s[0] != '0' || n == 0
  {
    if n < 10 then [DigitChar(n)] else DecimalString(n / 10) + [DigitChar(n % 10)]
  }

  lemma {:induction false} DecimalValue(n: nat)
    ensures DigitsValue(DecimalString(n), 10) == n
  {
    if n >= 10 {
      var s := DecimalString(n);
      assert s[..|s| - 1] == DecimalString(n / 10);
      DecimalValue(n / 10);
    }
  }

  /** Printing a count and reading it back with `parseInt` gives the count again. */
  lemma ParseDecimal(n: nat)
    ensures ParseInt(DecimalString(n)) == Some(n)
  {
    var s := DecimalString(n);
    assert !IsSpace(s[0]);
    assert SkipSpaces(s, 0) == 0;
    DigitRunEnds(s, 0, |s|, 10);
    assert s[0..|s|] == s;
    DecimalValue(n);
  }

  /** A value with no digit after the optional sign, such as a missing or textual seat count, reads as NaN. */
  lemma ParseNoDigits(s: string)
    requires forall i :: 0 <= i < |s| ==> !IsDigit(s[i], 10)
    ensures ParseInt(s) == None
  {
  }

  /** `parseInt` stops at the first non-digit: "12 seats" reads as 12 (but "0x" starts a hexadecimal numeral). */
  lemma ParseStopsAtNonDigit(n: nat, tail: string)
    requires tail == [] || !IsDigit(tail[0], 10)
    requires n > 0 || tail == [] || (tail[0] != 'x' && tail[0] != 'X')
    ensures ParseInt(DecimalString(n) + tail) == Some(n)
  {
    var s := DecimalString(n);
    var t := s + tail;
    assert !IsSpace(t[0]);
    assert SkipSpaces(t, 0) == 0;
    assert t[0] == s[0];
    assert |s| > 1 ==> t[1] == s[1];
    assert forall i :: 0 <= i < |s| ==> t[i] == s[i];
    DigitRunEnds(t, 0, |s|, 10);
    assert t[0..|s|] == s;
    DecimalValue(n);
  }

  /** A minus sign negates: "-3" reads as -3, which the seat filter treats as no seats. */
  lemma ParseNegative(n: nat)
    ensures ParseInt("-" + DecimalString(n)) == Some(0 - n)
  {
    var s := DecimalString(n);
    var t := "-" + s;
    assert SkipSpaces(t, 0) == 0;
    assert forall i :: 0 <= i < |s| ==> t[i + 1] == s[i];
    DigitRunEnds(t, 1, |t|, 10);
    assert t[1..|t|] == s;
    DecimalValue(n);
  }
}
