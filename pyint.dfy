/**
 * Python's `int(text)` for base-10 text: surrounding whitespace is ignored,
 * an optional sign, then ASCII digits that may be grouped by single underscores.
 * Anything else raises `ValueError`, modelled as `None`.
 */
module PyInt {
  import opened Wrappers
  import opened Text

  predicate IsDigit(c: char) { '0' <= c <= '9' }

  function DigitValue(c: char): nat
    requires IsDigit(c)
  {
    c as int - '0' as int
  }

  /** Digits with single underscores strictly between digits: `1_000` but not `_1`, `1_` or `1__0`. */
  predicate WellFormedDigits(s: string) {
    && s != []
    && IsDigit(s[0]) && IsDigit(s[|s| - 1])
    && (forall i :: 0 <= i < |s| ==> IsDigit(s[i]) || s[i] == '_')
    && (forall i :: 0 <= i < |s| - 1 ==> s[i] == '_' ==> s[i + 1] != '_')
  }

  /** The value of the digits of `s`, read left to right, underscores skipped. */
  function DigitsValue(s: string): nat
    requires forall i :: 0 <= i < |s| ==> IsDigit(s[i]) || s[i] == '_'
  {
    if s == [] then 0
    else
      var last := s[|s| - 1];
      var init := DigitsValue(s[..|s| - 1]);
      if last == '_' then init else 10 * init + DigitValue(last)
  }

  /** `int(text)`; `None` stands for the `ValueError` it raises. */
  function ParseInt(text: string): Option<int> {
    var t := Strip(text);
    if t == [] then None
    else
      var body := if t[0] == '-' || t[0] == '+' then t[1..] else t;
      if !WellFormedDigits(body) then None
      else
        var magnitude: int := DigitsValue(body);
        Some(if t[0] == '-' then -magnitude else magnitude)
  }

  function DigitChar(d: nat): (c: char)
    requires d < 10
    ensures IsDigit(c) && DigitValue(c) == d
  {
    ('0' as int + d) as char
  }

  /** Decimal rendering of a natural number (Python's `str(n)`). */
  function ShowNat(n: nat): (s: string)
    ensures s != [] && forall i :: 0 <= i < |s| ==> IsDigit(s[i])
  {
    if n < 10 then [DigitChar(n)] else ShowNat(n / 10) + [DigitChar(n % 10)]
  }

  /** Reading back the digits of `ShowNat(n)` gives `n`. */
  lemma {:induction false} DigitsValueShowNat(n: nat)
    ensures DigitsValue(ShowNat(n)) == n
  {
    var s := ShowNat(n);
    if n >= 10 {
      assert s[..|s| - 1] == ShowNat(n / 10);
      DigitsValueShowNat(n / 10);
    }
  }

  /** `int(str(n)) == n` for every natural number. */
  lemma ParseShowNat(n: nat)
    ensures ParseInt(ShowNat(n)) == Some(n)
  {
    var s := ShowNat(n);
    DigitsAreWellFormed(s);
    DigitsValueShowNat(n);
  }

  /** Plain digit strings are well formed and are their own `strip()`. */
  lemma DigitsAreWellFormed(s: string)
    requires s != [] && forall i :: 0 <= i < |s| ==> IsDigit(s[i])
    ensures WellFormedDigits(s) && Strip(s) == s
  {
    assert IsDigit(s[0]) && IsDigit(s[|s| - 1]);
    StripKeeps(s);
  }

  /** `int("-" + str(n)) == -n`. */
  lemma ParseNegated(n: nat)
    ensures ParseInt("-" + ShowNat(n)) == Some(-(n as int))
  {
    DigitsAreWellFormed(ShowNat(n));
    DigitsValueShowNat(n);
    ParseMinusDigits(ShowNat(n), n);
  }

  /** A minus sign before well-formed digits negates their value. */
  lemma ParseMinusDigits(d: string, value: int)
    requires WellFormedDigits(d) && DigitsValue(d) == value
    ensures ParseInt("-" + d) == Some(-value)
  {
    var s := "-" + d;
    assert !IsSpace(s[0]) && !IsSpace(s[|s| - 1]) by {
      assert s[|s| - 1] == d[|d| - 1];
    }
    StripKeeps(s);
    assert s[1..] == d;
    ParseStrippedNegative(s, d, value);
  }

  lemma ParseStrippedNegative(s: string, d: string, value: int)
    requires Strip(s) == s && s != [] && s[0] == '-' && s[1..] == d
    requires WellFormedDigits(d) && DigitsValue(d) == value
    ensures ParseInt(s) == Some(-value)
  {
  }

  /** Text with no digit at all never parses. */
  lemma NoDigitNoInt(text: string)
    requires forall i :: 0 <= i < |text| ==> !IsDigit(text[i])
    ensures ParseInt(text) == None
  {
    var t := Strip(text);
    if t != [] {
      var body := if t[0] == '-' || t[0] == '+' then t[1..] else t;
      if body != [] {
        assert body[0] in text;
      }
    }
  }
}
