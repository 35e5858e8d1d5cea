/** Currency conversion through the ECB's EUR-anchored rates (src/currency.rs). */
module Currency {
  import opened Wrappers

  /** "1 EUR = rate `currency`" for each currency of the daily feed. */
  type Rates = map<string, real>

  const EUR := "EUR"

  ghost predicate Positive(rates: Rates) {
    forall currency <- rates :: rates[currency] > 0.0
  }

  function Convert(rates: Rates, amount: real, from: string, to: string): Option<real>
    requires Positive(rates)
  {
    if from == to then Some(amount)
    else if from != EUR && from !in rates then None
    else
      var eurAmount := if from == EUR then amount else amount / rates[from];
      if to == EUR then Some(eurAmount)
      else if to !in rates then None
      else Some(eurAmount * rates[to])
  }

  predicate Known(rates: Rates, currency: string) {
    currency == EUR || currency in rates
  }

  function Rate(rates: Rates, currency: string): (r: real)
    requires Positive(rates) && Known(rates, currency)
    ensures r > 0.0
  {
    if currency == EUR then 1.0 else rates[currency]
  }

  /** What one unit of `from` is worth in `to`. */
  function Factor(rates: Rates, from: string, to: string): (r: real)
    requires Positive(rates) && (from == to || (Known(rates, from) && Known(rates, to)))
    ensures r > 0.0
  {
    if from == to then 1.0 else Rate(rates, to) / Rate(rates, from)
  }

  /** Converting is multiplying by one positive factor, and fails only for want of a rate. */
  lemma ConvertScales(rates: Rates, amount: real, from: string, to: string)
    requires Positive(rates)
    ensures Convert(rates, amount, from, to).Some? <==> from == to || (Known(rates, from) && Known(rates, to))
    ensures Convert(rates, amount, from, to).Some? ==>
      Convert(rates, amount, from, to).value == amount * Factor(rates, from, to)
  {
    if from != to && Known(rates, from) && Known(rates, to) {
      var (p, q) := (Rate(rates, from), Rate(rates, to));
      assert amount / p * q == amount * (q / p);
    }
  }

  predicate Yields(r: Option<real>, amount: real) {
    r.Some? && r.value == amount
  }

  /** A rate says how much of a currency one EUR is: so much of it is worth one EUR, and what one EUR is in another. */
  lemma QuotedExactly(rates: Rates, amount: real, from: string, to: string)
    requires Positive(rates)
    requires from != "EUR" && from in rates && to != "EUR" && to in rates
    ensures Yields(Convert(rates, amount, "EUR", to), amount * rates[to])
    ensures Yields(Convert(rates, amount * rates[from], from, "EUR"), amount)
    ensures Yields(Convert(rates, amount * rates[from], from, to), amount * rates[to])
  {
    assert EUR == "EUR";
    ThereAndBack(amount, rates[from]);
  }

  lemma ThereAndBack(amount: real, rate: real)
    requires rate > 0.0
    ensures amount * rate / rate == amount
  {
  }

  /** Going through a third currency changes nothing; in particular there and back is the identity. */
  lemma FactorsCompose(rates: Rates, a: string, b: string, c: string)
    requires Positive(rates)
    requires (a == b || (Known(rates, a) && Known(rates, b))) && (b == c || (Known(rates, b) && Known(rates, c)))
    ensures a == c || (Known(rates, a) && Known(rates, c))
    ensures Factor(rates, a, b) * Factor(rates, b, c) == Factor(rates, a, c)
  {
    if a != b && b != c {
      var (p, q, r) := (Rate(rates, a), Rate(rates, b), Rate(rates, c));
      assert (q / p) * (r / q) == r / p;
    }
  }
}
