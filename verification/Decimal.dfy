/** Decimal numerals as JavaScript prints and reads them. */
module Decimal {

  function DigitValue(c: char): nat { if '0' <= c <= '9' then c as int - '0' as int else 0 }

  function DigitChar(d: nat): (c: char)
    requires d < 10
    ensures '0' <= c <= '9' && DigitValue(c) == d
  {
    (d + '0' as int) as char
  }

  /** `Number(text)` on decimal digits. */
  function Number(text: string): nat {
    if text == "" then 0 else Number(text[..|text| - 1]) * 10 + DigitValue(text[|text| - 1])
  }

  /** `String(n)`. */
  function Numeral(n: nat): (text: string)
    ensures text != ""
  {
    if n < 10 then [DigitChar(n)] else Numeral(n / 10) + [DigitChar(n % 10)]
  }

  predicate AllDigits(text: string) { text != "" && forall c <- text :: '0' <= c <= '9' }

  lemma {:induction false} NumberOfNumeral(n: nat)
    ensures Number(Numeral(n)) == n
  {
    if n >= 10 {
      NumberOfNumeral(n / 10);
      NumberPush(Numeral(n / 10), DigitChar(n % 10));
    } else {
      NumberPush("", DigitChar(n));
      assert "" + [DigitChar(n)] == [DigitChar(n)];
    }
  }

  lemma {:induction false} NumberPush(text: string, c: char)
    ensures Number(text + [c]) == Number(text) * 10 + DigitValue(c)
  {
  }

  /** Decimal digits as `String` would print them: no leading zero. */
  predicate PlainDigits(text: string) { AllDigits(text) && (|text| == 1 || text[0] != '0') }

  lemma {:induction false} NumberPositive(text: string)
    requires AllDigits(text) && text[0] != '0'
    ensures Number(text) > 0
  {
    var init := text[..|text| - 1];
    assert text[0] in text;
    if init == "" {
      assert DigitValue(text[0]) > 0;
    } else {
      assert forall d <- init :: d in text;
      NumberPositive(init);
    }
  }

  lemma {:induction false} NumeralPush(n: nat, c: char)
    requires '0' <= c <= '9'
    ensures Numeral(n * 10 + DigitValue(c)) == if n == 0 then [c] else Numeral(n) + [c]
  {
    var m := n * 10 + DigitValue(c);
    assert m / 10 == n && m % 10 == DigitValue(c);
    assert DigitChar(DigitValue(c)) == c;
  }

  /** Plain digits are the numeral of their number. */
  lemma {:induction false} NumeralOfNumber(text: string)
    requires PlainDigits(text)
    ensures Numeral(Number(text)) == text
  {
    var init, c := text[..|text| - 1], text[|text| - 1];
    assert text == init + [c] && c in text;
    NumeralPush(Number(init), c);
    if init == "" {
    } else {
      assert text[0] == init[0] && forall d <- init :: d in text;
      NumberPositive(init);
      NumeralOfNumber(init);
    }
  }

  /** Plain digits that read as one number are spelled alike. */
  lemma {:induction false} PlainDigitsUnique(a: string, b: string)
    requires PlainDigits(a) && PlainDigits(b) && Number(a) == Number(b)
    ensures a == b
  {
    NumeralOfNumber(a);
    NumeralOfNumber(b);
  }
}
