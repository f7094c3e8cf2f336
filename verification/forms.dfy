/** What the browser forms share: the error map every `validateForm`
    builds, the quantity and unit-price checks, and how the values a form
    submits reach the server (`parseInt` for quantities, `parseFloat` for
    prices, which the `DECIMAL(10, 2)` column rounds to cents). */
module Forms {
  import opened Prelude
  import opened Text
  import Ledger

  /** The messages a `validateForm` can attach to a field. */
  datatype Message =
    | SelectPart
    | Required
    | MustBePositive
    | NotEnoughStock(available: int)
    | TooShort(minimum: nat)
    | NeedsUppercase
    | NeedsDigit
    | Mismatch

  /** `newErrors`: field to message. A form is valid exactly when
      `Object.keys(newErrors).length === 0`. */
  type Errors<F> = map<F, Message>

  /** Records the message of one check, if it produced one. */
  function Record<F(!new)>(errors: Errors<F>, field: F, m: Option<Message>): (r: Errors<F>)
    ensures field in r <==> m.Some? || field in errors
    ensures m.Some? ==> r[field] == m.value
    ensures forall k :: k != field ==> (k in r <==> k in errors)
    ensures forall k :: k in errors && k != field ==> r[k] == errors[k]
    ensures m.None? ==> r == errors
  {
    if m.Some? then errors[field := m.value] else errors
  }

  // ---------------------------------------------------------------------------
  // Comparisons against `parseInt`

  /** `parseInt(s) <= bound`; false when `parseInt` gives NaN. */
  predicate IntAtMost(s: string, bound: int) {
    var n := ParseInt(s);
    n.Some? && n.value <= bound
  }

  /** `parseInt(s) < bound`; false when `parseInt` gives NaN. */
  predicate IntBelow(s: string, bound: int) {
    var n := ParseInt(s);
    n.Some? && n.value < bound
  }

  /** `parseInt(s) > bound`; false when `parseInt` gives NaN. */
  predicate IntAbove(s: string, bound: int) {
    var n := ParseInt(s);
    n.Some? && n.value > bound
  }

  // ---------------------------------------------------------------------------
  // The shared checks

  /** The quantity chain of the stock forms: empty is `Required`; `NaN` or
      a whole part of at most 0 is `MustBePositive`. */
  function QuantityMessage(q: string): Option<Message> {
    if q == "" then Some(Required)
    else if IsNaN(q) || IntAtMost(q, 0) then Some(MustBePositive)
    else None
  }

  /** The unit-price chain: empty is `Required`; `NaN` or a value of at
      most 0 is `MustBePositive`. */
  function PriceMessage(p: string): Option<Message> {
    if p == "" then Some(Required)
    else if IsNaN(p) || FloatNonPositive(p) then Some(MustBePositive)
    else None
  }

  /** On the text of an integer the quantity check is exactly positivity. */
  lemma QuantityOfIntText(n: int)
    ensures QuantityMessage(IntText(n)) == if n > 0 then None else Some(MustBePositive)
  {
    IntTextRoundTrip(n);
    IntTextNonEmpty(n);
  }

  /** On a price rendered from cents the price check is exactly
      positivity. */
  lemma PriceOfCentsText(cents: int)
    ensures PriceMessage(CentsText(cents)) == if cents > 0 then None else Some(MustBePositive)
  {
    CentsTextSign(cents);
    assert CentsText(cents) != "" by {
      var a := if cents < 0 then -cents else cents;
      assert |CentsText(cents)| >= |NatText(a / 100)|;
    }
  }

  /** A quantity the check accepts never reads as a non-positive integer:
      `parseInt` gives a positive number or NaN. */
  lemma AcceptedQuantity(q: string)
    requires QuantityMessage(q).None?
    ensures ParseInt(q).None? || ParseInt(q).value > 0
  {
  }

  /** White space alone passes the quantity check: `Number` reads it as 0,
      which is not NaN, and `parseInt` reads NaN, which is not `<= 0`. */
  lemma BlankQuantityPasses(q: string)
    requires q != "" && IsBlank(q)
    ensures QuantityMessage(q).None? && ParseInt(q).None?
  {
    ParseBlank(q);
  }

  /** White space alone passes the unit-price check too. */
  lemma BlankPricePasses(p: string)
    requires p != "" && IsBlank(p)
    ensures PriceMessage(p).None? && SentPrice(p).None?
  {
    ParseBlank(p);
  }

  // ---------------------------------------------------------------------------
  // Submitted values

  function DigitAt(f: string, i: nat): nat
    requires AllDigits(f)
  {
    if i < |f| then f[i] as int - '0' as int else 0
  }

  /** The cents a `DECIMAL(10, 2)` column stores for the numeral
      `±w.f`: two fraction digits kept, rounded half away from zero on the
      third. */
  function NumeralCents(negative: bool, w: string, f: string): int
    requires AllDigits(w) && AllDigits(f)
  {
    var up := if DigitAt(f, 2) >= 5 then 1 else 0;
    Signed(negative, DigitsValue(w) * 100 + DigitAt(f, 0) * 10 + DigitAt(f, 1) + up)
  }

  /** `parseFloat(p)` as the request body carries it: whether the number
      is non-zero, and the cents the server stores for it; `None` for NaN,
      which `JSON.stringify` sends as `null`. Only consulted on strings
      `Number` accepts. */
  function SentPrice(p: string): Option<Ledger.Price> {
    match ParseNumber(p)
    case Some(Numeral(neg, w, f)) => Some(Ledger.Price(HasNonzeroDigit(w + f), NumeralCents(neg, w, f)))
    case _ => None
  }

  /** A price the check accepts is sent as a non-zero number with a
      non-negative amount, so the server's `!unitPrice` test passes it;
      rounding may still store it as `0.00`. */
  lemma AcceptedPrice(p: string)
    requires PriceMessage(p).None?
    ensures SentPrice(p).None? || (SentPrice(p).value.nonZero && SentPrice(p).value.cents >= 0)
  {
  }

  /** A positive price below half a cent, such as `0.004`, passes the
      check, is sent as a non-zero number, and is stored as `0.00`. */
  lemma SubCentPrice(p: string, f: string)
    requires AllDigits(f) && |f| >= 3 && f[0] == '0' && f[1] == '0' && '1' <= f[2] <= '4'
    requires ParseNumber(p) == Some(Numeral(false, "0", f))
    ensures PriceMessage(p).None?
    ensures SentPrice(p) == Some(Ledger.Price(true, 0))
  {
    var w := "0";
    assert (w + f)[3] == f[2];
    assert HasNonzeroDigit(w + f);
    assert DigitsValue(w) == 0;
    assert NumeralCents(false, w, f) == 0;
  }

  /** A price rendered from cents is submitted as exactly those cents. */
  lemma SentPriceOfCentsText(cents: int)
    ensures SentPrice(CentsText(cents)) == Some(Ledger.ExactPrice(cents))
  {
    var a: nat := if cents < 0 then -cents else cents;
    var w := NatText(a / 100);
    var f := TwoDigits(a % 100);
    assert CentsText(cents) == (if cents < 0 then "-" else "") + (w + ("." + f));
    ParseRendered(cents < 0, w, true, f);
    TwoDigitsCents(a % 100);
    DigitsValuePositive(w);
    DigitsValuePositive(f);
    NonzeroDigitOfConcat(w, f);
    assert HasNonzeroDigit(w + f) <==> cents != 0;
    SentPriceOfNumeral(CentsText(cents), cents, w, f);
  }

  /** A numeral whose digits spell `cents` is submitted as `cents`. */
  lemma SentPriceOfNumeral(p: string, cents: int, w: string, f: string)
    requires AllDigits(w) && AllDigits(f)
    requires ParseNumber(p) == Some(Numeral(cents < 0, w, f))
    requires DigitsValue(w) * 100 + DigitAt(f, 0) * 10 + DigitAt(f, 1) == if cents < 0 then -cents else cents
    requires DigitAt(f, 2) == 0
    ensures SentPrice(p) == Some(Ledger.Price(HasNonzeroDigit(w + f), cents))
  {
    var m := DigitsValue(w) * 100 + DigitAt(f, 0) * 10 + DigitAt(f, 1);
    assert NumeralCents(cents < 0, w, f) == Signed(cents < 0, m);
  }

  /** The two fraction digits of a rendered amount, read back. */
  lemma TwoDigitsCents(x: nat)
    requires x < 100
    ensures DigitAt(TwoDigits(x), 0) * 10 + DigitAt(TwoDigits(x), 1) == x
    ensures DigitAt(TwoDigits(x), 2) == 0
  {
    var f := TwoDigits(x);
    assert f[..1][..0] == [] && f[..1] == [f[0]];
    assert DigitsValue(f[..1]) == DigitAt(f, 0);
  }
}
