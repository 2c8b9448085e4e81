/** Converting a decimal amount to a payment provider's minor units. */
module Amounts {
  import Text

  /** A finite decimal: (-1)^negative * coef * 10^exp. */
  datatype Decimal = Decimal(negative: bool, coef: nat, exp: int)

  datatype Result = Ok(minorUnits: int) | UnsupportedCurrency | TooPrecise | NotPositive

  // ---- Powers of ten -----------------------------------------------------------

  function Pow10(k: nat): (p: nat)
    ensures 1 <= p
  {
    if k == 0 then 1 else 10 * Pow10(k - 1)
  }

  lemma {:induction false} Pow10Add(a: nat, b: nat)
    ensures Pow10(a + b) == Pow10(a) * Pow10(b)
  {
    if a > 0 {
      Pow10Add(a - 1, b);
      assert Pow10(a + b) == 10 * Pow10(a - 1 + b) == 10 * (Pow10(a - 1) * Pow10(b)) == (10 * Pow10(a - 1)) * Pow10(b);
    }
  }

  /** coef * 10^exp is the integer m. */
  ghost predicate Denotes(coef: nat, exp: int, m: nat) {
    if exp >= 0 then m == coef * Pow10(exp) else coef == m * Pow10(-exp)
  }

  // ---- Decimal arithmetic in the default context ----------------------------------

  const PRECISION := 28

  function DigitCount(n: nat): nat {
    if n < 10 then 1 else 1 + DigitCount(n / 10)
  }

  function Quotient(n: nat, unit: nat): nat
    requires 1 <= unit
  {
    n / unit
  }

  /** Half-even rounding of n / unit. */
  function RoundHalfEven(n: nat, unit: nat): nat
    requires 1 <= unit
  {
    var q, r := n / unit, n % unit;
    if 2 * r > unit || (2 * r == unit && q % 2 == 1) then q + 1 else q
  }

  /** How many digits do not fit the context. */
  function Excess(coef: nat): nat {
    if DigitCount(coef) <= PRECISION then 0 else DigitCount(coef) - PRECISION
  }

  function RoundToContext(coef: nat, exp: int): (nat, int) {
    (RoundHalfEven(coef, Pow10(Excess(coef))), exp + Excess(coef))
  }

  /** amount * 100 comes out unrounded. */
  predicate ExactProduct(amount: Decimal) {
    amount.coef * 100 % Pow10(Excess(amount.coef * 100)) == 0
  }

  function IsIntegral(coef: nat, exp: int): bool {
    exp >= 0 || coef % Pow10(-exp) == 0
  }

  function IntegralValue(coef: nat, exp: int): nat {
    if exp >= 0 then coef * Pow10(exp) else Quotient(coef, Pow10(-exp))
  }

  // ---- The conversion ---------------------------------------------------------

  /** `str.upper()`, as far as it can produce one of the supported codes: the
      long s is the only letter outside ASCII whose upper case is among theirs. */
  function Upper(s: string): string {
    seq(|s|, i requires 0 <= i < |s| =>
      if 'a' <= s[i] <= 'z' then 'A' + (s[i] - 'a') else if s[i] == '\U{17f}' then 'S' else s[i])
  }

  predicate Supported(currency: string) {
    var code := Upper(Text.Strip(currency));
    code == "USD" || code == "NGN"
  }

  function ToMinorUnits(amount: Decimal, currency: string): Result {
    if !Supported(currency) then UnsupportedCurrency
    else
      var (coef, exp) := RoundToContext(amount.coef * 100, amount.exp);
      if !IsIntegral(coef, exp) then TooPrecise
      else
        var cents: int := IntegralValue(coef, exp);
        var signed := if amount.negative then -cents else cents;
        if signed <= 0 then NotPositive else Ok(signed)
  }

  // ---- Integers denoted by decimals ----------------------------------------------

  lemma DenotesIntegral(coef: nat, exp: int, m: nat)
    ensures Denotes(coef, exp, m) <==> IsIntegral(coef, exp) && IntegralValue(coef, exp) == m
  {
    if exp < 0 {
      var p := Pow10(-exp);
      if coef == m * p {
        QuotientOfMultiple(m, p);
      } else {
        assert coef == coef / p * p + coef % p;
      }
    }
  }

  // Small facts about products.

  lemma Reorder(a: int, b: int, c: int)
    ensures a * (b * c) == a * b * c == a * c * b
  {
  }

  lemma OneMore(a: int, p: int)
    ensures (a + 1) * p == a * p + p
  {
  }

  lemma Monotone(a: int, b: int, p: nat)
    ensures a <= b ==> a * p <= b * p
  {
  }

  lemma Cancel(x: int, y: int, p: nat)
    requires 1 <= p
    ensures x * p == y * p <==> x == y
  {
  }

  lemma QuotientOfMultiple(m: nat, p: nat)
    requires 1 <= p
    ensures m * p / p == m && m * p % p == 0
  {
    var q := m * p / p;
    assert q * p <= m * p < q * p + p;
    Monotone(q + 1, m, p);
    Monotone(m + 1, q, p);
    OneMore(q, p);
    OneMore(m, p);
  }

  /** Moving a power of ten between coefficient and exponent. */
  lemma DenotesShift(coef: nat, exp: int, k: nat, m: nat)
    ensures Denotes(coef, exp + k, m) <==> Denotes(coef * Pow10(k), exp, m)
  {
    if exp >= 0 {
      ShiftWithin(coef, exp, k);
    } else if exp + k >= 0 {
      ShiftAcross(coef, exp, k, m);
    } else {
      ShiftBelow(coef, exp, k, m);
    }
  }

  lemma ShiftWithin(coef: nat, exp: nat, k: nat)
    ensures coef * Pow10(exp + k) == coef * Pow10(k) * Pow10(exp)
  {
    Pow10Add(k, exp);
    Reorder(coef, Pow10(k), Pow10(exp));
  }

  lemma ShiftAcross(coef: nat, exp: int, k: nat, m: nat)
    requires exp < 0 <= exp + k
    ensures coef * Pow10(k) == m * Pow10(-exp) <==> m == coef * Pow10(exp + k)
  {
    Pow10Add(exp + k, -exp);
    Reorder(coef, Pow10(exp + k), Pow10(-exp));
    Cancel(coef * Pow10(exp + k), m, Pow10(-exp));
  }

  lemma ShiftBelow(coef: nat, exp: int, k: nat, m: nat)
    requires exp + k < 0
    ensures coef * Pow10(k) == m * Pow10(-exp) <==> coef == m * Pow10(-(exp + k))
  {
    Pow10Add(k, -(exp + k));
    Reorder(m, Pow10(k), Pow10(-(exp + k)));
    Cancel(coef, m * Pow10(-(exp + k)), Pow10(k));
  }

  lemma DenotesSum(a: nat, b: nat, exp: int, m: nat, n: nat)
    requires Denotes(a, exp, m) && Denotes(b, exp, n)
    ensures Denotes(a + b, exp, m + n)
  {
  }

  lemma DenotesInjective(a: nat, b: nat, exp: int, m: nat)
    requires Denotes(a, exp, m) && Denotes(b, exp, m)
    ensures a == b
  {
  }

  // ---- Rounding --------------------------------------------------------------------

  lemma RoundingIsExactIff(n: nat, unit: nat)
    requires 1 <= unit
    ensures RoundHalfEven(n, unit) * unit == n <==> n % unit == 0
  {
  }

  /** What the conversion accepts, in terms of the rounded product. */
  lemma AcceptedDenotes(amount: Decimal, currency: string, m: nat)
    ensures ToMinorUnits(amount, currency) == Ok(m)
            <==> Supported(currency) && !amount.negative && 1 <= m
                 && Denotes(RoundHalfEven(amount.coef * 100, Pow10(Excess(amount.coef * 100)))
                            * Pow10(Excess(amount.coef * 100)),
                            amount.exp, m)
  {
    var (coef, exp) := RoundToContext(amount.coef * 100, amount.exp);
    DenotesIntegral(coef, exp, m);
    DenotesShift(coef, amount.exp, Excess(amount.coef * 100), m);
  }

  // ---- What the conversion promises -------------------------------------------------

  /** When the product fits the context, the conversion succeeds if and only if
      the currency is supported and the amount is a positive whole number of
      hundredths, and the result is exactly a hundred times the amount. */
  lemma SucceedsIff(amount: Decimal, currency: string, m: nat)
    requires ExactProduct(amount)
    ensures ToMinorUnits(amount, currency) == Ok(m)
            <==> Supported(currency) && !amount.negative && 1 <= m && Denotes(amount.coef * 100, amount.exp, m)
  {
    AcceptedDenotes(amount, currency, m);
    RoundingIsExactIff(amount.coef * 100, Pow10(Excess(amount.coef * 100)));
  }

  /** Which refusal it is, when the product fits the context. */
  lemma RefusedIff(amount: Decimal, currency: string)
    requires ExactProduct(amount)
    ensures ToMinorUnits(amount, currency) == UnsupportedCurrency <==> !Supported(currency)
    ensures ToMinorUnits(amount, currency) == TooPrecise
            <==> Supported(currency) && forall m: nat :: !Denotes(amount.coef * 100, amount.exp, m)
    ensures ToMinorUnits(amount, currency) == NotPositive
            <==> Supported(currency)
                 && exists m: nat :: Denotes(amount.coef * 100, amount.exp, m) && (amount.negative || m == 0)
  {
    IntegralIff(amount);
    forall m: nat ensures ToMinorUnits(amount, currency) == Ok(m)
                          <==> Supported(currency) && !amount.negative && 1 <= m
                               && Denotes(amount.coef * 100, amount.exp, m)
    {
      SucceedsIff(amount, currency, m);
    }
  }

  /** The rounded product is a whole number exactly when the exact one is. */
  lemma IntegralIff(amount: Decimal)
    requires ExactProduct(amount)
    ensures var (coef, exp) := RoundToContext(amount.coef * 100, amount.exp);
            IsIntegral(coef, exp) <==> exists m: nat :: Denotes(amount.coef * 100, amount.exp, m)
  {
    var n := amount.coef * 100;
    var (coef, exp) := RoundToContext(n, amount.exp);
    var unit := Pow10(Excess(n));
    RoundingIsExactIff(n, unit);
    if IsIntegral(coef, exp) {
      var m := IntegralValue(coef, exp);
      DenotesIntegral(coef, exp, m);
      DenotesShift(coef, amount.exp, Excess(n), m);
    }
    if m: nat :| Denotes(n, amount.exp, m) {
      DenotesShift(coef, amount.exp, Excess(n), m);
      DenotesIntegral(coef, exp, m);
    }
  }

  /** Rounding is to the nearest, and to the even one of two that are equally near. */
  lemma RoundsHalfToEven(n: nat, unit: nat)
    requires 1 <= unit
    ensures var q := RoundHalfEven(n, unit);
            && 0 - unit <= 2 * (n - q * unit) <= unit
            && (2 * (n - q * unit) == unit || 2 * (n - q * unit) == 0 - unit ==> q % 2 == 0)
  {
    var q, r := n / unit, n % unit;
    assert n == q * unit + r;
    OneMore(q, unit);
  }

  // ---- Currencies -------------------------------------------------------------------

  /** The text spells the code, in letters of either case; an upper-case long s is
      an S too. */
  ghost predicate Spells(text: string, code: string) {
    |text| == |code|
    && forall i :: 0 <= i < |code| ==>
         text[i] == code[i] || ('A' <= code[i] <= 'Z' && text[i] == 'a' + (code[i] - 'A'))
         || (code[i] == 'S' && text[i] == '\U{17f}')
  }

  lemma UpperSpells(text: string, code: string)
    requires forall i :: 0 <= i < |code| ==> 'A' <= code[i] <= 'Z'
    ensures Upper(text) == code <==> Spells(text, code)
  {
    if Spells(text, code) {
      assert forall i :: 0 <= i < |code| ==> Upper(text)[i] == code[i];
    }
    if Upper(text) == code {
      assert forall i :: 0 <= i < |code| ==> Upper(text)[i] == code[i];
    }
  }

  /** Dollars and nairas are supported, in any case and among blanks, and nothing
      else is. */
  lemma SupportedIff(before: string, code: string, after: string)
    requires Text.AllSpace(before) && Text.AllSpace(after)
    requires code != "" && !Text.IsSpace(code[0]) && !Text.IsSpace(code[|code| - 1])
    ensures Supported(before + code + after) <==> Spells(code, "USD") || Spells(code, "NGN")
  {
    Text.StripBlanks(before, code, after);
    SupportedCodes(before + code + after, code);
  }

  lemma SupportedCodes(currency: string, code: string)
    requires Text.Strip(currency) == code
    ensures Supported(currency) <==> Spells(code, "USD") || Spells(code, "NGN")
  {
    UpperIsDollar(code);
    UpperIsNaira(code);
  }

  lemma UpperIsDollar(code: string)
    ensures Upper(code) == "USD" <==> Spells(code, "USD")
  {
    UpperSpells(code, "USD");
  }

  lemma UpperIsNaira(code: string)
    ensures Upper(code) == "NGN" <==> Spells(code, "NGN")
  {
    UpperSpells(code, "NGN");
  }

  /** Beyond the context the two-decimals test is made on the rounded product.
      An accepted amount is converted exactly if and only if the product was
      exact: every other acceptance is of an amount that is off. */
  lemma AcceptedIsExactIff(amount: Decimal, currency: string, m: nat)
    requires ToMinorUnits(amount, currency) == Ok(m)
    ensures Denotes(amount.coef * 100, amount.exp, m) <==> ExactProduct(amount)
  {
    var unit := Pow10(Excess(amount.coef * 100));
    AcceptedDenotes(amount, currency, m);
    RoundingIsExactIff(amount.coef * 100, unit);
    if Denotes(amount.coef * 100, amount.exp, m) {
      DenotesInjective(amount.coef * 100, RoundHalfEven(amount.coef * 100, unit) * unit, amount.exp, m);
    }
  }

  /** Every amount of at most 26 digits is within the context. */
  lemma TwentySixDigitsAreExact(amount: Decimal)
    requires amount.coef < Pow10(26)
    ensures ExactProduct(amount)
  {
    assert Pow10(28) == 100 * Pow10(26);
    DigitCountBound(amount.coef * 100, 28);
  }

  lemma {:induction false} DigitCountBound(n: nat, k: nat)
    requires 1 <= k && n < Pow10(k)
    ensures DigitCount(n) <= k
  {
    if n >= 10 {
      assert k > 1;
      DigitCountBound(n / 10, k - 1);
    }
  }

  /** 1.5 and 1.50 are the same amount: the representation does not matter. */
  lemma RepresentationDoesNotMatter(a: Decimal, b: Decimal, currency: string, m: nat)
    requires ExactProduct(a) && ExactProduct(b) && a.negative == b.negative
    requires b.exp <= a.exp && b.coef == a.coef * Pow10(a.exp - b.exp)
    ensures ToMinorUnits(a, currency) == Ok(m) <==> ToMinorUnits(b, currency) == Ok(m)
  {
    SucceedsIff(a, currency, m);
    SucceedsIff(b, currency, m);
    var k := a.exp - b.exp;
    DenotesShift(a.coef * 100, b.exp, k, m);
    Reorder(a.coef, 100, Pow10(k));
  }

  function Min(x: int, y: int): int { if x < y then x else y }

  /** Decimal addition of amounts that are not negative. */
  function Plus(a: Decimal, b: Decimal): Decimal {
    var e := Min(a.exp, b.exp);
    Decimal(false, a.coef * Pow10(a.exp - e) + b.coef * Pow10(b.exp - e), e)
  }

  lemma Rescaled(coef: nat, exp: int, e: int, m: nat)
    requires e <= exp && Denotes(coef * 100, exp, m)
    ensures Denotes(coef * Pow10(exp - e) * 100, e, m)
  {
    DenotesShift(coef * 100, e, exp - e, m);
    Reorder(coef, 100, Pow10(exp - e));
  }

  lemma PlusDenotesSum(a: Decimal, b: Decimal, m: nat, n: nat)
    requires Denotes(a.coef * 100, a.exp, m) && Denotes(b.coef * 100, b.exp, n)
    ensures Denotes(Plus(a, b).coef * 100, Plus(a, b).exp, m + n)
  {
    var e := Min(a.exp, b.exp);
    Rescaled(a.coef, a.exp, e, m);
    Rescaled(b.coef, b.exp, e, n);
    DenotesSum(a.coef * Pow10(a.exp - e) * 100, b.coef * Pow10(b.exp - e) * 100, e, m, n);
  }

  /** Splitting a payment conserves minor units. */
  lemma SplitConserves(a: Decimal, b: Decimal, currency: string, m: nat, n: nat)
    requires ExactProduct(a) && ExactProduct(b) && ExactProduct(Plus(a, b))
    requires ToMinorUnits(a, currency) == Ok(m) && ToMinorUnits(b, currency) == Ok(n)
    ensures ToMinorUnits(Plus(a, b), currency) == Ok(m + n)
  {
    SucceedsIff(a, currency, m);
    SucceedsIff(b, currency, n);
    PlusDenotesSum(a, b, m, n);
    SucceedsIff(Plus(a, b), currency, m + n);
  }

  /** One hundredth and a trace, 0.010...01 with thirty decimal places, is
      accepted as one cent although it has more than two. */
  lemma TraceIsRoundedAway(unit: nat)
    requires unit == Pow10(27)
    ensures ToMinorUnits(Decimal(false, 10 * unit + 1, -30), "USD") == Ok(1)
    ensures !ExactProduct(Decimal(false, 10 * unit + 1, -30))
  {
    UsdIsSupported();
    TraceInContext(unit);
    TraceConverts(Decimal(false, 10 * unit + 1, -30), unit);
  }

  lemma TraceInContext(unit: nat)
    requires unit == Pow10(27)
    ensures RoundToContext((10 * unit + 1) * 100, -30) == (unit, -27)
    ensures !ExactProduct(Decimal(false, 10 * unit + 1, -30))
  {
    var product := (10 * unit + 1) * 100;
    assert product == 1000 * unit + 100;
    TracePowers(unit);
    DigitCountExact(product, 31);
    ThreeTooMany(product, -30);
    TraceRounds(unit);
  }

  lemma ThreeTooMany(coef: nat, exp: int)
    requires DigitCount(coef) == 31
    ensures RoundToContext(coef, exp) == (RoundHalfEven(coef, 1000), exp + 3) && Pow10(Excess(coef)) == 1000
  {
  }

  lemma TracePowers(unit: nat)
    requires unit == Pow10(27)
    ensures Pow10(30) <= 1000 * unit + 100 < Pow10(31)
    ensures Pow10(3) == 1000
  {
  }

  lemma TraceRounds(unit: nat)
    ensures RoundHalfEven(1000 * unit + 100, 1000) == unit && (1000 * unit + 100) % 1000 != 0
  {
  }

  lemma TraceConverts(amount: Decimal, unit: nat)
    requires Supported("USD") && !amount.negative && unit == Pow10(27)
    requires RoundToContext(amount.coef * 100, amount.exp) == (unit, -27)
    ensures ToMinorUnits(amount, "USD") == Ok(1)
  {
  }

  lemma UsdIsSupported()
    ensures Supported("USD")
  {
    Text.StripNothing("USD");
    assert Upper("USD") == "USD";
  }

  lemma {:induction false} DigitCountExact(n: nat, k: nat)
    requires 1 <= k && Pow10(k - 1) <= n < Pow10(k)
    ensures DigitCount(n) == k
  {
    if n >= 10 {
      DigitCountExact(n / 10, k - 1);
    }
  }
}
