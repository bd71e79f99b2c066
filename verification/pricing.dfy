/**
 * `calculate_package`: the offer derived from the number of pages found, and
 * the thousands-separated euro amounts it prints.
 */
module Pricing {

  /** Tier name, one-time price and monthly fee, as displayed. */
  datatype Package = Package(tier: string, price: string, monthly: string)

  function DigitChar(d: nat): char
    requires d < 10
  {
    ('0' as int + d) as char
  }

  /** `str(n)` */
  function Digits(n: nat): string
  {
    if n < 10 then [DigitChar(n)] else Digits(n / 10) + [DigitChar(n % 10)]
  }

  /** Three digits with leading zeros: `f"{k:03}"`. */
  function Pad3(k: nat): string
    requires k < 1000
  {
    [DigitChar(k / 100), DigitChar(k / 10 % 10), DigitChar(k % 10)]
  }

  /** `f"{n:,}".replace(",", ".")`: groups of three digits separated by dots. */
  function GroupThousands(n: nat): string
  {
    if n < 1000 then Digits(n) else GroupThousands(n / 1000) + "." + Pad3(n % 1000)
  }

  /** The number a displayed amount stands for: its digits read in order, the dots skipped. */
  function AmountValue(s: string): nat
  {
    if s == [] then 0
    else
      var c := s[|s| - 1];
      var before := AmountValue(s[..|s| - 1]);
      if c == '.' then before
      else if '0' <= c <= '9' then before * 10 + (c as int - '0' as int)
      else before
  }

  lemma AmountValueAppendDigit(s: string, d: nat)
    requires d < 10
    ensures AmountValue(s + [DigitChar(d)]) == AmountValue(s) * 10 + d
  {
    assert (s + [DigitChar(d)])[..|s|] == s;
  }

  lemma AmountValueAppendDot(s: string)
    ensures AmountValue(s + ".") == AmountValue(s)
  {
    assert (s + ".")[..|s|] == s;
  }

  lemma {:induction false} DigitsValue(n: nat)
    ensures AmountValue(Digits(n)) == n
  {
    if n < 10 {
      AmountValueAppendDigit([], n);
      assert [] + [DigitChar(n)] == Digits(n);
    } else {
      DigitsValue(n / 10);
      AmountValueAppendDigit(Digits(n / 10), n % 10);
    }
  }

  lemma AmountValueAppendPad3(s: string, k: nat)
    requires k < 1000
    ensures AmountValue(s + Pad3(k)) == AmountValue(s) * 1000 + k
  {
    hide AmountValue;
    var a, b, c := k / 100, k / 10 % 10, k % 10;
    var s1 := s + [DigitChar(a)];
    var s2 := s1 + [DigitChar(b)];
    AmountValueAppendDigit(s, a);
    AmountValueAppendDigit(s1, b);
    AmountValueAppendDigit(s2, c);
    assert s + Pad3(k) == s2 + [DigitChar(c)];
    var v := AmountValue(s);
    assert k == a * 100 + b * 10 + c;
    calc {
      AmountValue(s2 + [DigitChar(c)]);
      ((v * 10 + a) * 10 + b) * 10 + c;
      v * 1000 + (a * 100 + b * 10 + c);
    }
  }

  /** Reading a formatted amount back gives the amount: the dots are separators only. */
  lemma {:induction false} GroupThousandsValue(n: nat)
    ensures AmountValue(GroupThousands(n)) == n
  {
    if n < 1000 {
      DigitsValue(n);
    } else {
      var head := GroupThousands(n / 1000);
      GroupThousandsValue(n / 1000);
      AmountValueAppendDot(head);
      AmountValueAppendPad3(head + ".", n % 1000);
    }
  }

  /** The digits of a displayed amount, the dots left out. */
  function RemoveDots(s: string): string
  {
    if s == [] then []
    else (if s[0] == '.' then [] else [s[0]]) + RemoveDots(s[1..])
  }

  lemma {:induction false} RemoveDotsAppend(a: string, b: string)
    ensures RemoveDots(a + b) == RemoveDots(a) + RemoveDots(b)
  {
    if a != [] {
      assert (a + b)[1..] == a[1..] + b;
      RemoveDotsAppend(a[1..], b);
    } else {
      assert a + b == b;
    }
  }

  lemma {:induction false} RemoveDotsNoDots(s: string)
    requires forall k :: 0 <= k < |s| ==> '0' <= s[k] <= '9'
    ensures RemoveDots(s) == s
  {
    if s != [] {
      RemoveDotsNoDots(s[1..]);
    }
  }

  /** `str(n)` has only decimal digits, at most three below 1000, and no leading zero unless `n` is 0. */
  lemma {:induction false} DigitsShape(n: nat)
    ensures |Digits(n)| >= 1 && (n < 1000 ==> |Digits(n)| <= 3)
    ensures forall k :: 0 <= k < |Digits(n)| ==> '0' <= Digits(n)[k] <= '9'
    ensures n > 0 ==> Digits(n)[0] != '0'
  {
    if n >= 10 {
      DigitsShape(n / 10);
    }
  }

  /** The last three digits of a number of four or more digits, leading zeros kept. */
  lemma DigitsSplit(n: nat)
    requires n >= 1000
    ensures Digits(n) == Digits(n / 1000) + Pad3(n % 1000)
  {
    var q, k := n / 1000, n % 1000;
    assert n / 10 == q * 100 + k / 10 && n / 100 == q * 10 + k / 100;
    assert n / 10 / 10 == n / 100 && n / 100 / 10 == q;
    assert n % 10 == k % 10 && n / 10 % 10 == k / 10 % 10 && n / 100 % 10 == k / 100;
    assert Digits(n) == Digits(n / 10) + [DigitChar(n % 10)];
    assert Digits(n / 10) == Digits(n / 100) + [DigitChar(n / 10 % 10)];
    assert Digits(n / 100) == Digits(q) + [DigitChar(n / 100 % 10)];
  }

  /** Counted from the right, every fourth character of `s` is a dot and all others are digits. */
  predicate Grouped(s: string)
  {
    forall k :: 0 <= k < |s| ==> if (|s| - k) % 4 == 0 then s[k] == '.' else '0' <= s[k] <= '9'
  }

  /** The dots of a grouped string followed by a dot and three more digits keep their places counted from the right. */
  lemma GroupedAppend(h: string, p: string)
    requires Grouped(h)
    requires |p| == 3 && forall k :: 0 <= k < 3 ==> '0' <= p[k] <= '9'
    ensures Grouped(h + "." + p)
  {
    var s := h + "." + p;
    forall k | 0 <= k < |s|
      ensures if (|s| - k) % 4 == 0 then s[k] == '.' else '0' <= s[k] <= '9'
    {
      if k < |h| {
        assert s[k] == h[k] && |s| - k == (|h| - k) + 4;
      } else if k > |h| {
        assert s[k] == p[k - |h| - 1];
      }
    }
  }

  /**
   * The layout of `f"{n:,}".replace(",", ".")`: counted from the right,
   * every fourth character is a dot and all others are digits, and the
   * first character is a digit.
   */
  lemma {:induction false} GroupThousandsLayout(n: nat)
    ensures Grouped(GroupThousands(n))
    ensures |GroupThousands(n)| > 0 && '0' <= GroupThousands(n)[0] <= '9'
    ensures forall k :: 0 <= k < |GroupThousands(n)| ==>
      (GroupThousands(n)[k] == '.' <==> (|GroupThousands(n)| - k) % 4 == 0)
  {
    if n < 1000 {
      DigitsShape(n);
    } else {
      var h, p := GroupThousands(n / 1000), Pad3(n % 1000);
      GroupThousandsLayout(n / 1000);
      assert p == [DigitChar(n % 1000 / 100), DigitChar(n % 1000 / 10 % 10), DigitChar(n % 1000 % 10)];
      GroupedAppend(h, p);
      assert GroupThousands(n) == h + "." + p;
      assert GroupThousands(n)[0] == h[0];
    }
  }

  /** Without its dots, the formatted amount is `str(n)`, and it starts with a zero only when `n` is 0. */
  lemma {:induction false} GroupThousandsDigits(n: nat)
    ensures RemoveDots(GroupThousands(n)) == Digits(n)
    ensures n > 0 ==> GroupThousands(n)[0] != '0'
  {
    DigitsShape(n);
    if n < 1000 {
      RemoveDotsNoDots(Digits(n));
    } else {
      var h, p := GroupThousands(n / 1000), Pad3(n % 1000);
      GroupThousandsDigits(n / 1000);
      RemoveDotsAppend(h + ".", p);
      RemoveDotsAppend(h, ".");
      RemoveDotsNoDots(p);
      DigitsSplit(n);
      assert GroupThousands(n)[0] == h[0];
    }
  }

  /** The Enterprise price: 18000 plus 1000 per started block of 200 pages beyond the first. */
  function EnterprisePrice(numPages: nat): nat
    requires numPages > 200
  {
    18000 + (numPages - 1) / 200 * 1000
  }

  /** `calculate_package(num_pages)` */
  function CalculatePackage(numPages: nat): Package
  {
    if numPages <= 50 then Package("Starter", "12.000 €", "697 €/Monat")
    else if numPages <= 100 then Package("Professional", "15.000 €", "997 €/Monat")
    else if numPages <= 200 then Package("Advanced", "18.000 €", "1.497 €/Monat")
    else Package("Enterprise", GroupThousands(EnterprisePrice(numPages)) + " €", "1.997 €/Monat")
  }

  /** The one-time price of the offer, in euro. */
  function Price(numPages: nat): nat
  {
    if numPages <= 50 then 12000
    else if numPages <= 100 then 15000
    else if numPages <= 200 then 18000
    else EnterprisePrice(numPages)
  }

  /** The monthly fee of the offer, in euro. */
  function MonthlyFee(numPages: nat): nat
  {
    if numPages <= 50 then 697
    else if numPages <= 100 then 997
    else if numPages <= 200 then 1497
    else 1997
  }

  lemma PricesFormatted()
    ensures GroupThousands(12000) == "12.000"
    ensures GroupThousands(15000) == "15.000"
    ensures GroupThousands(18000) == "18.000"
  {
    assert Digits(12) == "12" && Digits(15) == "15" && Digits(18) == "18";
    assert Pad3(0) == "000";
  }

  lemma FeesFormatted()
    ensures GroupThousands(697) == "697"
    ensures GroupThousands(997) == "997"
    ensures GroupThousands(1497) == "1.497"
    ensures GroupThousands(1997) == "1.997"
  {
    assert Digits(1) == "1";
    assert Pad3(497) == "497" && Pad3(997) == "997";
    assert Digits(69) == "69" && Digits(697) == "697";
    assert Digits(99) == "99" && Digits(997) == "997";
  }

  /**
   * Every one-time price `calculate_package` displays is the formatted form
   * of the tier's price: the literal strings of the first three tiers and the
   * computed Enterprise price follow the one format.
   */
  lemma CalculatePackagePrice(numPages: nat)
    ensures CalculatePackage(numPages).price == GroupThousands(Price(numPages)) + " €"
  {
    PricesFormatted();
  }

  /** Every monthly fee `calculate_package` displays is the formatted form of the tier's fee. */
  lemma CalculatePackageMonthly(numPages: nat)
    ensures CalculatePackage(numPages).monthly == GroupThousands(MonthlyFee(numPages)) + " €/Monat"
  {
    FeesFormatted();
  }

  /**
   * The tiers partition the page counts: Starter up to 50 (0 included),
   * Professional to 100, Advanced to 200, Enterprise above.
   */
  lemma CalculatePackageTiers(numPages: nat)
    ensures CalculatePackage(numPages).tier in {"Starter", "Professional", "Advanced", "Enterprise"}
    ensures CalculatePackage(numPages).tier == "Starter" <==> numPages <= 50
    ensures CalculatePackage(numPages).tier == "Professional" <==> 50 < numPages <= 100
    ensures CalculatePackage(numPages).tier == "Advanced" <==> 100 < numPages <= 200
    ensures CalculatePackage(numPages).tier == "Enterprise" <==> 200 < numPages
  {
  }

  /** More pages never make the offer cheaper, in one-time price or monthly fee. */
  lemma PriceMonotone(n: nat, m: nat)
    requires n <= m
    ensures Price(n) <= Price(m)
    ensures MonthlyFee(n) <= MonthlyFee(m)
  {
    if n > 200 {
      assert (n - 1) / 200 <= (m - 1) / 200;
    }
  }

  /** Enterprise starts one block above Advanced and adds 1000 every 200 pages. */
  lemma EnterpriseBlocks(numPages: nat)
    requires numPages > 200
    ensures Price(numPages) >= 19000
    ensures Price(numPages + 200) == Price(numPages) + 1000
  {
    assert (numPages + 200 - 1) / 200 == (numPages - 1) / 200 + 1;
  }

  /** The boundaries: 0 and 50 are Starter, 51 Professional, 200 Advanced, 201 Enterprise at 19.000 €. */
  lemma CalculatePackageExamples()
    ensures CalculatePackage(0).tier == "Starter" && CalculatePackage(50).tier == "Starter"
    ensures CalculatePackage(51).tier == "Professional"
    ensures CalculatePackage(200).tier == "Advanced"
    ensures CalculatePackage(201) == Package("Enterprise", "19.000 €", "1.997 €/Monat")
  {
    assert EnterprisePrice(201) == 19000;
    assert Digits(1) == "1" && Digits(19) == "19";
    assert Pad3(0) == "000";
    assert GroupThousands(19000) == "19.000";
  }
}
