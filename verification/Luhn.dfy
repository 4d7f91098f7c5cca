/** Card-number detection before a text is published (crates/airpaste-agent/src/lib.rs): the Luhn check
    of ISO/IEC 7812-1, Annex B, and the scanner that feeds it. */
module Luhn {

  predicate IsDigit(c: char) {
    '0' <= c <= '9'
  }

  predicate AllDigits(s: string) {
    forall k :: 0 <= k < |s| ==> IsDigit(s[k])
  }

  function Value(c: char): nat
    requires IsDigit(c)
  {
    c as int - '0' as int
  }

  // ---------- the check, by position ----------

  /** Every second digit, counted from the right, contributes the digit sum of its double. */
  function Contribution(digit: nat, fromRight: nat): nat {
    if fromRight % 2 == 1 then 2 * digit / 10 + 2 * digit % 10 else digit
  }

  function Total(s: string, n: nat): nat
    requires AllDigits(s) && n <= |s|
  {
    if n == 0 then 0 else Total(s, n - 1) + Contribution(Value(s[n - 1]), |s| - n)
  }

  predicate Valid(s: string)
    requires AllDigits(s)
  {
    Total(s, |s|) % 10 == 0
  }

  /** The loop goes through the digits from the right, doubling every other one and subtracting nine
      from what exceeds nine. */
  method LuhnValid(s: string) returns (valid: bool)
    requires AllDigits(s)
    ensures valid <==> Valid(s)
  {
    var sum := 0;
    var double := false;
    var k := |s|;
    while k > 0
      invariant 0 <= k <= |s|
      invariant double <==> (|s| - k) % 2 == 1
      invariant sum + Total(s, k) == Total(s, |s|)
    {
      k := k - 1;
      var digit := Value(s[k]);
      if double {
        digit := digit * 2;
        if digit > 9 {
          digit := digit - 9;
        }
      }
      assert digit == Contribution(Value(s[k]), |s| - (k + 1));
      sum := sum + digit;
      double := !double;
    }
    return sum % 10 == 0;
  }

  // ---------- what the check detects ----------

  lemma {:induction false} TotalAfterChange(s: string, i: nat, c: char, n: nat)
    requires AllDigits(s) && IsDigit(c) && i < |s| && n <= |s|
    ensures AllDigits(s[i := c])
    ensures Total(s[i := c], n) ==
            if n <= i then Total(s, n)
            else Total(s, n) - Contribution(Value(s[i]), |s| - 1 - i) + Contribution(Value(c), |s| - 1 - i)
  {
    if n > 0 {
      TotalAfterChange(s, i, c, n - 1);
    }
  }

  /** In either kind of position the ten digits contribute ten different amounts between 0 and 9. */
  lemma ContributionsDiffer(a: nat, b: nat, fromRight: nat)
    requires a < 10 && b < 10
    ensures Contribution(a, fromRight) < 10
    ensures Contribution(a, fromRight) == Contribution(b, fromRight) <==> a == b
  {
  }

  lemma DigitFor(amount: nat, fromRight: nat) returns (c: char)
    requires amount < 10
    ensures IsDigit(c) && Contribution(Value(c), fromRight) == amount
  {
    var digit := if fromRight % 2 == 0 then amount else if amount % 2 == 0 then amount / 2 else (amount + 9) / 2;
    c := ('0' as int + digit) as char;
  }

  lemma OneResidue(rest: int, amount: nat)
    requires amount < 10
    ensures (rest + amount) % 10 == 0 <==> amount == (-rest) % 10
  {
  }

  /** At any position of any digit string exactly one digit makes it valid. */
  lemma OneDigitFits(s: string, i: nat) returns (c: char)
    requires AllDigits(s) && i < |s|
    ensures IsDigit(c)
    ensures forall d :: IsDigit(d) ==> AllDigits(s[i := d]) && (Valid(s[i := d]) <==> d == c)
  {
    var p := |s| - 1 - i;
    var rest := Total(s, |s|) - Contribution(Value(s[i]), p);
    c := DigitFor((-rest) % 10, p);
    forall d | IsDigit(d) ensures AllDigits(s[i := d]) && (Valid(s[i := d]) <==> d == c) {
      DigitFits(s, i, rest, d, c);
    }
  }

  lemma DigitFits(s: string, i: nat, rest: int, d: char, c: char)
    requires AllDigits(s) && i < |s| && IsDigit(d) && IsDigit(c)
    requires rest == Total(s, |s|) - Contribution(Value(s[i]), |s| - 1 - i)
    requires Contribution(Value(c), |s| - 1 - i) == (-rest) % 10
    ensures AllDigits(s[i := d]) && (Valid(s[i := d]) <==> d == c)
  {
    TotalAfterChange(s, i, d, |s|);
    ContributionsDiffer(Value(d), Value(c), |s| - 1 - i);
    OneResidue(rest, Contribution(Value(d), |s| - 1 - i));
  }

  /** So every single wrong digit is noticed. */
  lemma WrongDigitNoticed(s: string, i: nat, d: char)
    requires AllDigits(s) && Valid(s) && i < |s| && IsDigit(d) && d != s[i]
    ensures AllDigits(s[i := d]) && !Valid(s[i := d])
  {
    var c := OneDigitFits(s, i);
    assert s[i := s[i]] == s;
  }

  /** What doubling adds to a digit's contribution. */
  function Gain(digit: nat): int {
    if digit < 5 then digit else digit - 9
  }

  lemma GainIsDoubling(digit: nat, fromRight: nat)
    requires digit < 10
    ensures Contribution(digit, fromRight) == digit + (if fromRight % 2 == 1 then Gain(digit) else 0)
  {
  }

  lemma GainsDiffer(a: nat, b: nat)
    requires a < 10 && b < 10 && a != b
    ensures (Gain(b) - Gain(a)) % 10 == 0 <==> (a == 0 && b == 9) || (a == 9 && b == 0)
  {
    var d := Gain(b) - Gain(a);
    assert -9 < d < 9;
    assert d % 10 == 0 <==> d == 0;
  }

  /** What swapping neighbours `a` and `b` adds to the total. */
  lemma SwapShift(a: nat, b: nat, fromRight: nat)
    requires a < 10 && b < 10 && fromRight >= 1
    ensures Contribution(b, fromRight) + Contribution(a, fromRight - 1)
            - Contribution(a, fromRight) - Contribution(b, fromRight - 1)
         == if fromRight % 2 == 1 then Gain(b) - Gain(a) else Gain(a) - Gain(b)
  {
    GainIsDoubling(a, fromRight);
    GainIsDoubling(b, fromRight);
    GainIsDoubling(a, fromRight - 1);
    GainIsDoubling(b, fromRight - 1);
  }

  lemma ModShift(total: int, shift: int)
    requires total % 10 == 0
    ensures (total + shift) % 10 == 0 <==> shift % 10 == 0
  {
  }

  function Swapped(s: string, i: nat): string
    requires i + 1 < |s|
  {
    s[i := s[i + 1]][i + 1 := s[i]]
  }

  /** Swapping two different neighbours is noticed except for 0 and 9. */
  lemma SwapNoticedExactly(s: string, i: nat)
    requires AllDigits(s) && Valid(s) && i + 1 < |s| && s[i] != s[i + 1]
    ensures AllDigits(Swapped(s, i))
    ensures Valid(Swapped(s, i)) <==> (s[i] == '0' && s[i + 1] == '9') || (s[i] == '9' && s[i + 1] == '0')
  {
    var a, b, p := Value(s[i]), Value(s[i + 1]), |s| - 1 - i;
    TotalAfterChange(s, i, s[i + 1], |s|);
    TotalAfterChange(s[i := s[i + 1]], i + 1, s[i], |s|);
    SwapShift(a, b, p);
    GainsDiffer(a, b);
    GainsDiffer(b, a);
    ModShift(Total(s, |s|), if p % 2 == 1 then Gain(b) - Gain(a) else Gain(a) - Gain(b));
  }

  lemma TotalOfOne(b: char)
    requires IsDigit(b)
    ensures Total([b], 1) == Contribution(Value(b), 0)
  {
    assert Total([b], 0) == 0;
  }

  lemma TotalOfTwo(a: char, b: char)
    requires IsDigit(a) && IsDigit(b)
    ensures Total([a, b], 2) == Contribution(Value(a), 1) + Contribution(Value(b), 0)
  {
    assert Total([a, b], 1) == Total([a, b], 0) + Contribution(Value(a), 1);
  }

  /** The last digit counts as it is, the one before it doubled. */
  lemma ShortNumbers(a: char, b: char)
    requires IsDigit(a) && IsDigit(b)
    ensures Valid([b]) <==> b == '0'
    ensures Valid([a, b]) <==>
            ((if Value(a) < 5 then 2 * Value(a) else 2 * Value(a) - 9) + Value(b)) % 10 == 0
  {
    GainIsDoubling(Value(a), 1);
    TotalOfOne(b);
    TotalOfTwo(a, b);
  }

  lemma {:induction false} TotalAfterZero(s: string, n: nat)
    requires AllDigits(s) && n <= |s|
    ensures AllDigits("0" + s) && Total("0" + s, n + 1) == Total(s, n)
  {
    var longer := "0" + s;
    if n == 0 {
      assert Total(longer, 1) == Total(longer, 0) + Contribution(Value(longer[0]), |s|);
    } else {
      TotalAfterZero(s, n - 1);
      assert longer[n] == s[n - 1];
    }
  }

  /** Positions are counted from the right: a zero in front changes nothing, and zeros alone are valid. */
  lemma ZeroInFront(s: string)
    requires AllDigits(s)
    ensures AllDigits("0" + s) && (Valid("0" + s) <==> Valid(s))
    ensures Valid("")
  {
    TotalAfterZero(s, |s|);
  }

  // ---------- the scanner ----------

  predicate InRun(c: char) {
    IsDigit(c) || c == ' ' || c == '-'
  }

  /** A longest stretch of digits, spaces and hyphens. */
  predicate MaximalRun(text: string, a: nat, b: nat) {
    && a <= b <= |text|
    && (forall k :: a <= k < b ==> InRun(text[k]))
    && (a == 0 || !InRun(text[a - 1]))
    && (b == |text| || !InRun(text[b]))
  }

  function Digits(s: string): string {
    if s == "" then "" else Digits(s[..|s| - 1]) + (if IsDigit(s[|s| - 1]) then [s[|s| - 1]] else "")
  }

  lemma {:induction false} DigitsAreDigits(s: string)
    ensures AllDigits(Digits(s))
  {
    if s != "" {
      DigitsAreDigits(s[..|s| - 1]);
    }
  }

  predicate CardDigits(s: string) {
    13 <= |s| <= 19 && AllDigits(s) && Valid(s)
  }

  predicate CardAt(text: string, a: nat, b: nat) {
    MaximalRun(text, a, b) && CardDigits(Digits(text[a..b]))
  }

  method CreditCardDigitsMatch(digits: string) returns (r: bool)
    requires AllDigits(digits)
    ensures r <==> CardDigits(digits)
  {
    if 13 <= |digits| <= 19 {
      r := LuhnValid(digits);
    } else {
      r := false;
    }
  }

  lemma DigitsExtend(text: string, a: nat, k: nat)
    requires a <= k < |text|
    ensures Digits(text[a..k + 1]) == Digits(text[a..k]) + (if IsDigit(text[k]) then [text[k]] else "")
  {
    assert text[a..k + 1][..k - a] == text[a..k];
  }

  /** The text contains a maximal run of digits, spaces and hyphens whose digits are 13 to 19 and pass
      the check. */
  method ContainsCreditCardLikeNumber(text: string) returns (found: bool)
    ensures found <==> exists a: nat, b: nat :: CardAt(text, a, b)
  {
    var chars := text + " ";
    var digits := "";
    ghost var a: nat := 0;
    for k := 0 to |chars|
      invariant a <= k && a <= |text|
      invariant a == 0 || !InRun(text[a - 1])
      invariant forall j :: a <= j < k && j < |text| ==> InRun(text[j])
      invariant digits == Digits(text[a..if k <= |text| then k else |text|])
      invariant forall x: nat, y: nat :: y < a ==> !CardAt(text, x, y)
    {
      DigitsAreDigits(text[a..if k <= |text| then k else |text|]);
      if k < |text| {
        DigitsExtend(text, a, k);
      }
      if IsDigit(chars[k]) {
        digits := digits + [chars[k]];
      } else if chars[k] == ' ' || chars[k] == '-' {
      } else {
        var card := CreditCardDigitsMatch(digits);
        if card {
          assert CardAt(text, a, k);
          return true;
        }
        NoOtherRun(text, a, k);
        digits := "";
        a := k + 1;
        assert text[a..k + 1] == "";
      }
    }
    DigitsAreDigits(text[a..|text|]);
    found := CreditCardDigitsMatch(digits);
    if found {
      assert CardAt(text, a, |text|);
    } else {
      NoOtherRun(text, a, |text|);
    }
  }

  lemma RunsDoNotOverlap(text: string, a: nat, k: nat, x: nat, y: nat)
    requires MaximalRun(text, a, k) && MaximalRun(text, x, y) && a <= y <= k
    ensures x == a && y == k
  {
  }

  lemma NoOtherRun(text: string, a: nat, k: nat)
    requires MaximalRun(text, a, k) && !CardDigits(Digits(text[a..k]))
    requires forall x: nat, y: nat :: y < a ==> !CardAt(text, x, y)
    ensures forall x: nat, y: nat :: y < k + 1 ==> !CardAt(text, x, y)
  {
    forall x: nat, y: nat | a <= y <= k && MaximalRun(text, x, y) ensures !CardAt(text, x, y) {
      RunsDoNotOverlap(text, a, k, x, y);
    }
  }
}
