/**
 * CurrencyConverter: converts between an operation's currency and EUR,
 * through an abstract rate source (ExchangeRateServiceInterface::getRate).
 */
module CurrencyConverter {
  import opened Errors
  import ExchangeRates

  /** The supported-currency list and the rate source the converter is built with. */
  datatype Converter = Converter(supported: seq<string>, rate: string -> Result<real>)

  /** The production wiring: rates from an ExchangeRateService rate table. */
  function FromRateTable(rates: map<string, real>, supported: seq<string>): Converter {
    Converter(supported, c => ExchangeRates.GetRate(rates, supported, c))
  }

  /** convertToEur. */
  function ToEur(conv: Converter, amount: real, currency: string): (r: Result<real>)
    ensures currency !in conv.supported ==> r == Err(UnsupportedCurrency(currency))
    ensures currency in conv.supported && currency == "EUR" ==> r == Ok(amount)
    ensures currency in conv.supported && currency != "EUR" ==>
      (r.Ok? <==> conv.rate(currency).Ok? && conv.rate(currency).value != 0.0)
    ensures currency in conv.supported && currency != "EUR" && conv.rate(currency).Ok? && conv.rate(currency).value != 0.0 ==>
      r == Ok(amount / conv.rate(currency).value)
    ensures currency in conv.supported && currency != "EUR" && conv.rate(currency).Err? ==>
      r == Err(conv.rate(currency).error)
    ensures currency in conv.supported && currency != "EUR" && conv.rate(currency) == Ok(0.0) ==>
      r == Err(DivisionByZero)
  {
    if currency !in conv.supported then Err(UnsupportedCurrency(currency))
    else if currency == "EUR" then Ok(amount)
    else
      var rate :- conv.rate(currency);
      if rate == 0.0 then Err(DivisionByZero) else Ok(amount / rate)
  }

  /** convertFromEur. */
  function FromEur(conv: Converter, amount: real, currency: string): (r: Result<real>)
    ensures currency !in conv.supported ==> r == Err(UnsupportedCurrency(currency))
    ensures currency in conv.supported && currency == "EUR" ==> r == Ok(amount)
    ensures currency in conv.supported && currency != "EUR" ==> (r.Ok? <==> conv.rate(currency).Ok?)
    ensures r.Ok? && currency != "EUR" ==> r.value == amount * conv.rate(currency).value
  {
    if currency !in conv.supported then Err(UnsupportedCurrency(currency))
    else if currency == "EUR" then Ok(amount)
    else
      var rate :- conv.rate(currency);
      Ok(amount * rate)
  }

  /** Whatever converts to EUR can be converted back from EUR. */
  lemma ToEurOkThenFromEurOk(conv: Converter, amount: real, back: real, currency: string)
    requires ToEur(conv, amount, currency).Ok?
    ensures FromEur(conv, back, currency).Ok?
  {
  }

  /** Converting to EUR and back returns the original amount. */
  lemma ToEurThenFromEur(conv: Converter, amount: real, currency: string)
    requires ToEur(conv, amount, currency).Ok?
    ensures FromEur(conv, ToEur(conv, amount, currency).value, currency) == Ok(amount)
  {
    if currency != "EUR" {
      var rate := conv.rate(currency).value;
      var there := ToEur(conv, amount, currency).value;
      assert there == amount / rate;
      var back := FromEur(conv, there, currency);
      assert back.Ok? && back.value == there * rate;
      assert there * rate == amount;
      assert back.value == amount;
      assert back == Ok(amount);
    }
  }

  /** Converting from EUR and back returns the original amount when the rate is not zero. */
  lemma FromEurThenToEur(conv: Converter, amount: real, currency: string)
    requires FromEur(conv, amount, currency).Ok?
    requires currency != "EUR" ==> conv.rate(currency).value != 0.0
    ensures ToEur(conv, FromEur(conv, amount, currency).value, currency) == Ok(amount)
  {
    if currency != "EUR" {
      var rate := conv.rate(currency).value;
      var there := FromEur(conv, amount, currency).value;
      assert there == amount * rate;
      assert ToEur(conv, there, currency).value == there / rate;
      assert (amount * rate) / rate == amount;
    }
  }

  /** Both directions refuse the same currencies with the same error, except a zero rate, which only `ToEur` divides by. */
  lemma SameFailures(conv: Converter, a: real, b: real, currency: string)
    requires FromEur(conv, b, currency).Err?
    ensures ToEur(conv, a, currency) == FromEur(conv, b, currency)
  {
  }

  /** Over a rate table, EUR converts to itself even when the table has no EUR entry. */
  lemma EurIsIdentityOverRateTable(rates: map<string, real>, supported: seq<string>, amount: real)
    requires "EUR" in supported
    ensures ToEur(FromRateTable(rates, supported), amount, "EUR") == Ok(amount)
    ensures FromEur(FromRateTable(rates, supported), amount, "EUR") == Ok(amount)
  {
  }
}
