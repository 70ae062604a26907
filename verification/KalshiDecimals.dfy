/**
  The canonical decimal texts of prices and quantities (_parse_price and _parse_quantity of
  inci_tennis_adapters/kalshi_candidate.py). A decimal is counted in ten-thousandths.
*/
module KalshiDecimals {
  import opened Common
  import opened Digits
  import opened BoundedJson

  const ONE: nat := 10_000
  const PLACES: nat := 4
  const MAX_QUANTITY: int := 1_000_000 * ONE

  // ---------- Parsing ----------

  /** One to four digits, the last not zero. */
  predicate FractionText(d: string) { 1 <= |d| <= PLACES && AllDigits(d) && d[|d| - 1] != '0' }

  function FractionValue(d: string): nat
    requires FractionText(d)
  {
    Number(d) * PowerOfTen(PLACES - |d|)
  }

  function ParsePrice(text: string): Option<nat> {
    if text == "0" then Some(0)
    else if text == "1" then Some(ONE)
    else if |text| > 2 && text[..2] == "0." && FractionText(text[2..]) then Some(FractionValue(text[2..]))
    else None
  }

  /** Where the first decimal point is, or the length. */
  function PointAt(text: string): (i: nat)
    ensures i <= |text|
  {
    if text == "" || text[0] == '.' then 0 else 1 + PointAt(text[1..])
  }

  /** "0", or up to twelve digits that do not start with zero. */
  predicate WholeText(head: string) {
    head == "0" || (1 <= |head| <= 12 && AllDigits(head) && head[0] != '0')
  }

  function ParseUnsigned(text: string): Option<nat> {
    var point := PointAt(text);
    var head := text[..point];
    if !WholeText(head) then None
    else if point == |text| then Some(Number(head) * ONE)
    else if FractionText(text[point + 1..]) then Some(Number(head) * ONE + FractionValue(text[point + 1..]))
    else None
  }

  function ParseQuantity(text: string, signed: bool): Option<int> {
    var negative := Peek(text, '-');
    var absolute := ParseUnsigned(if negative then text[1..] else text);
    if absolute.None? || (negative && !signed) then None
    else if absolute.value > MAX_QUANTITY || absolute.value == 0 then None
    else Some(if negative then -(absolute.value as int) else absolute.value as int)
  }

  // ---------- Printing ----------

  /** `k` out of ten to the `n`, without trailing zeros. */
  function Trimmed(k: nat, n: nat): string
    decreases n
  {
    if n > 0 && k % 10 == 0 then Trimmed(k / 10, n - 1) else Fixed(k, n)
  }

  function FractionOf(k: nat): string { Trimmed(k, PLACES) }

  function PriceText(k: nat): string
    requires k <= ONE
  {
    if k == 0 then "0" else if k == ONE then "1" else "0." + FractionOf(k)
  }

  function UnsignedText(m: nat): string {
    PrintNat(m / ONE) + if m % ONE == 0 then "" else "." + FractionOf(m % ONE)
  }

  function QuantityText(k: int): string {
    if k < 0 then "-" + UnsignedText(-k) else UnsignedText(k)
  }

  // ---------- Fractions ----------

  lemma {:induction false} TrimmedRound(k: nat, n: nat)
    requires 0 < k < PowerOfTen(n)
    ensures var d := Trimmed(k, n);
      1 <= |d| <= n && AllDigits(d) && d[|d| - 1] != '0' && Number(d) * PowerOfTen(n - |d|) == k
  {
    if k % 10 == 0 {
      TrimmedRound(k / 10, n - 1);
      var d := Trimmed(k / 10, n - 1);
      TenTimes(Number(d), PowerOfTen(n - 1 - |d|), k / 10);
    } else {
      FixedRound(k, n);
    }
  }

  lemma TenTimes(a: nat, b: nat, c: nat)
    requires a * b == c
    ensures a * (10 * b) == 10 * c
  {
  }

  lemma {:induction false} TrimmedUnique(d: string, n: nat)
    requires 1 <= |d| <= n && AllDigits(d) && d[|d| - 1] != '0'
    ensures Trimmed(Number(d) * PowerOfTen(n - |d|), n) == d
    ensures 0 < Number(d) * PowerOfTen(n - |d|) < PowerOfTen(n)
    decreases n
  {
    if |d| < n {
      var less := Number(d) * PowerOfTen(n - 1 - |d|);
      TrimmedUnique(d, n - 1);
      TenTimes(Number(d), PowerOfTen(n - 1 - |d|), less);
      TrimStep(less, n);
    } else {
      LastDigit(d);
      FixedUnique(d);
      assert PowerOfTen(0) == 1;
    }
  }

  lemma TrimStep(k: nat, n: nat)
    requires n > 0
    ensures Trimmed(10 * k, n) == Trimmed(k, n - 1)
  {
  }

  lemma LastDigit(d: string)
    requires d != "" && AllDigits(d) && d[|d| - 1] != '0'
    ensures Number(d) % 10 != 0
  {
    DigitIs(d[|d| - 1]);
  }

  lemma FractionUnique(d: string)
    requires FractionText(d)
    ensures 0 < FractionValue(d) < ONE && FractionOf(FractionValue(d)) == d
  {
    TrimmedUnique(d, PLACES);
    TenThousand();
  }

  lemma FractionRound(k: nat)
    requires 0 < k < ONE
    ensures FractionText(FractionOf(k)) && FractionValue(FractionOf(k)) == k
  {
    TenThousand();
    TrimmedRound(k, PLACES);
  }

  lemma TenThousand()
    ensures PowerOfTen(PLACES) == ONE
  {
    NoDigits(PLACES - 4);
    FourDigits(PLACES - 4);
  }

  // ---------- Prices ----------

  /** A text parses to a price exactly when it is that price's one canonical text. */
  lemma PriceIsCanonical(text: string, k: nat)
    ensures ParsePrice(text) == Some(k) <==> k <= ONE && text == PriceText(k)
  {
    hide FractionOf, FractionValue, FractionText;
    if ParsePrice(text) == Some(k) && text != "0" && text != "1" {
      FractionUnique(text[2..]);
      assert text == text[..2] + text[2..];
    }
    if 0 < k < ONE && text == PriceText(k) {
      FractionRound(k);
      assert text[..2] == "0." && text[2..] == FractionOf(k);
    }
  }

  // ---------- Quantities ----------

  lemma {:induction false} PointAfterDigits(head: string, rest: string)
    requires AllDigits(head) && (rest == "" || rest[0] == '.')
    ensures PointAt(head + rest) == |head|
  {
    if head == "" {
      assert head + rest == rest;
    } else {
      assert (head + rest)[1..] == head[1..] + rest;
      PointAfterDigits(head[1..], rest);
    }
  }

  lemma {:induction false} PointIs(text: string)
    ensures PointAt(text) < |text| ==> text[PointAt(text)] == '.'
  {
    if text != "" && text[0] != '.' { PointIs(text[1..]); }
  }

  lemma WholeUnique(head: string)
    requires WholeText(head)
    ensures AllDigits(head) && PrintNat(Number(head)) == head
  {
    NatUnique(head);
  }

  /** What parses is the canonical text of its value. */
  lemma UnsignedUnique(text: string)
    requires ParseUnsigned(text).Some?
    ensures UnsignedText(ParseUnsigned(text).value) == text
  {
    hide FractionOf, FractionValue, FractionText, PrintNat, Number, WholeText;
    var point := PointAt(text);
    var head := text[..point];
    WholeUnique(head);
    PointIs(text);
    if point == |text| {
      WholeIs(Number(head));
      assert head == text;
    } else {
      FractionUnique(text[point + 1..]);
      SplitIs(Number(head), FractionValue(text[point + 1..]));
      assert text == head + "." + text[point + 1..];
    }
  }

  lemma WholeIs(a: nat)
    ensures UnsignedText(a * ONE) == PrintNat(a)
  {
    hide PrintNat, FractionOf;
    Quotient(a, 0);
  }

  lemma SplitIs(a: nat, b: nat)
    requires 0 < b < ONE
    ensures UnsignedText(a * ONE + b) == PrintNat(a) + "." + FractionOf(b)
  {
    hide PrintNat, FractionOf;
    Quotient(a, b);
  }

  lemma Quotient(a: nat, b: nat)
    requires b < ONE
    ensures (a * ONE + b) / ONE == a && (a * ONE + b) % ONE == b
  {
  }

  lemma WholeRound(n: nat)
    requires n <= 1_000_000
    ensures WholeText(PrintNat(n)) && AllDigits(PrintNat(n)) && Number(PrintNat(n)) == n
  {
    NatPrinted(n);
    SevenDigits(PLACES);
    DigitCount(n, 7);
    if n == 0 { assert PrintNat(0) == "0"; }
  }

  lemma SevenDigits(n: nat)
    requires n == PLACES
    ensures PowerOfTen(n + 3) == 10_000_000
  {
    TenThousand();
    TenMore(n);
    TenMore(n + 1);
    TenMore(n + 2);
  }

  lemma UnsignedRound(m: nat)
    requires m <= MAX_QUANTITY
    ensures ParseUnsigned(UnsignedText(m)) == Some(m)
  {
    hide FractionOf, FractionValue, FractionText;
    var head := PrintNat(m / ONE);
    WholeRound(m / ONE);
    var rest := if m % ONE == 0 then "" else "." + FractionOf(m % ONE);
    PointAfterDigits(head, rest);
    assert UnsignedText(m)[..|head|] == head;
    assert m == m / ONE * ONE + m % ONE;
    if m % ONE != 0 {
      FractionRound(m % ONE);
      assert UnsignedText(m)[|head| + 1..] == FractionOf(m % ONE);
    }
  }

  lemma UnsignedStart(m: nat)
    ensures UnsignedText(m) != "" && UnsignedText(m)[0] != '-'
  {
    NatPrinted(m / ONE);
  }

  /**
    A text parses to a quantity exactly when it is that quantity's one canonical text, in range and of an allowed sign.
  */
  lemma QuantityIsCanonical(text: string, k: int, signed: bool)
    ensures ParseQuantity(text, signed) == Some(k)
       <==> k != 0 && -MAX_QUANTITY <= k <= MAX_QUANTITY && (k < 0 ==> signed) && text == QuantityText(k)
  {
    hide ParseUnsigned, UnsignedText;
    if ParseQuantity(text, signed) == Some(k) {
      UnsignedUnique(if Peek(text, '-') then text[1..] else text);
      assert Peek(text, '-') ==> text == "-" + text[1..];
    }
    if -MAX_QUANTITY <= k <= MAX_QUANTITY {
      var m: nat := if k < 0 then -k else k;
      UnsignedRound(m);
      UnsignedStart(m);
      assert ("-" + UnsignedText(m))[1..] == UnsignedText(m);
    }
  }
}
