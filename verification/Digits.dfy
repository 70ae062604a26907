/** Decimal digits and the numbers they write. */
module Digits {

  predicate IsDigit(c: char) { '0' <= c <= '9' }

  predicate AllDigits(s: string) { forall i :: 0 <= i < |s| ==> IsDigit(s[i]) }

  function DigitValue(c: char): nat
    requires IsDigit(c)
  {
    c as int - '0' as int
  }

  function Digit(n: nat): (c: char)
    requires n < 10
    ensures IsDigit(c) && DigitValue(c) == n && c == "0123456789"[n]
  {
    ('0' as int + n) as char
  }

  function Number(s: string): nat
    requires AllDigits(s)
  {
    if s == "" then 0 else Number(s[..|s| - 1]) * 10 + DigitValue(s[|s| - 1])
  }

  function PowerOfTen(k: nat): (p: nat)
    ensures p > 0
  {
    if k == 0 then 1 else 10 * PowerOfTen(k - 1)
  }

  /** `n` digits, with leading zeros. */
  function Fixed(k: nat, n: nat): string { if n == 0 then "" else Fixed(k / 10, n - 1) + [Digit(k % 10)] }

  lemma {:induction false} FixedRound(k: nat, n: nat)
    requires k < PowerOfTen(n)
    ensures |Fixed(k, n)| == n && AllDigits(Fixed(k, n)) && Number(Fixed(k, n)) == k
  {
    if n > 0 {
      FixedRound(k / 10, n - 1);
      var t := Fixed(k, n);
      assert t[..|t| - 1] == Fixed(k / 10, n - 1);
    }
  }

  lemma LastDigit(d: string)
    requires AllDigits(d) && d != ""
    ensures var head, last := d[..|d| - 1], d[|d| - 1];
      d == head + [last] && AllDigits(head) && IsDigit(last) && Number(d) == 10 * Number(head) + DigitValue(last)
  {
  }

  lemma {:induction false} FixedUnique(d: string)
    requires AllDigits(d)
    ensures Number(d) < PowerOfTen(|d|) && Fixed(Number(d), |d|) == d
  {
    if d != "" {
      LastDigit(d);
      hide Number, PowerOfTen, Fixed, DigitValue, AllDigits, IsDigit;
      var head, last := d[..|d| - 1], d[|d| - 1];
      FixedUnique(head);
      DigitIs(last);
      FixedStep(Number(head), DigitValue(last), |d|);
    }
  }

  lemma FixedStep(k: nat, c: nat, n: nat)
    requires n > 0 && c < 10
    ensures Fixed(10 * k + c, n) == Fixed(k, n - 1) + [Digit(c)]
    ensures k < PowerOfTen(n - 1) ==> 10 * k + c < PowerOfTen(n)
  {
    assert (10 * k + c) / 10 == k && (10 * k + c) % 10 == c;
  }

  lemma TenMore(k: nat)
    ensures PowerOfTen(k + 1) == 10 * PowerOfTen(k)
  {
  }

  lemma FourDigits(k: nat)
    ensures PowerOfTen(k + 4) == 10_000 * PowerOfTen(k)
  {
    hide PowerOfTen;
    TenMore(k);
    TenMore(k + 1);
    TenMore(k + 2);
    TenMore(k + 3);
  }

  lemma NoDigits(k: nat)
    requires k == 0
    ensures PowerOfTen(k) == 1
  {
  }

  lemma DigitIs(c: char)
    requires IsDigit(c)
    ensures DigitValue(c) < 10 && Digit(DigitValue(c)) == c
    ensures c != '0' ==> DigitValue(c) > 0
  {
  }

  // ---------- Numerals without leading zeros ----------

  function PrintNat(n: nat): string {
    if n < 10 then [Digit(n)] else PrintNat(n / 10) + [Digit(n % 10)]
  }

  lemma {:induction false} NatPrinted(n: nat)
    ensures PrintNat(n) != "" && AllDigits(PrintNat(n)) && Number(PrintNat(n)) == n
    ensures PrintNat(n)[0] == '0' <==> n == 0
  {
    var t := PrintNat(n);
    if n < 10 {
      assert t[..0] == "";
    } else {
      NatPrinted(n / 10);
      assert t[..|t| - 1] == PrintNat(n / 10);
    }
  }

  lemma {:induction false} DigitCount(n: nat, k: nat)
    requires k > 0 && n < PowerOfTen(k)
    ensures |PrintNat(n)| <= k
  {
    if n >= 10 {
      assert k > 1 by {
        assert PowerOfTen(0) == 1 && PowerOfTen(1) == 10;
      }
      DigitCount(n / 10, k - 1);
    }
  }

  lemma {:induction false} NatUnique(s: string)
    requires AllDigits(s) && s != "" && (s[0] != '0' || |s| == 1)
    ensures PrintNat(Number(s)) == s && (s[0] != '0' ==> Number(s) > 0)
  {
    var head, last := s[..|s| - 1], s[|s| - 1];
    LastDigit(s);
    DigitIs(last);
    if |s| > 1 {
      hide PrintNat, Number, Digit, DigitValue, AllDigits, IsDigit;
      NatUnique(head);
      OneMoreDigit(Number(head), DigitValue(last));
    } else {
      assert head == "";
    }
  }

  lemma OneMoreDigit(n: nat, d: nat)
    requires n > 0 && d < 10
    ensures PrintNat(n * 10 + d) == PrintNat(n) + [Digit(d)]
  {
    assert (n * 10 + d) / 10 == n && (n * 10 + d) % 10 == d;
  }
}
