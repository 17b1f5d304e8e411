/**
 * ExchangeRateService: the EUR-based rate table and its lookup.
 *
 * A rate is "units of the currency per one EUR". The HTTP fetch, the JSON
 * decoding and the cache file are not modelled; `RebaseQuotes` starts from
 * the already-decoded `quotes` object of the API answer, whose keys are
 * "USD" followed by a currency code and whose values are units of that
 * currency per one USD.
 */
module ExchangeRates {
  import opened Errors

  /** getRate. */
  function GetRate(rates: map<string, real>, supported: seq<string>, currency: string): (r: Result<real>)
    ensures currency == "EUR" ==> r == Ok(1.0)
    ensures currency != "EUR" ==> (r.Ok? <==> currency in supported && currency in rates)
    ensures currency != "EUR" && currency !in supported ==> r == Err(CurrencyNotSupported(currency))
    ensures currency != "EUR" && currency in supported && currency !in rates ==> r == Err(RateNotAvailable(currency))
    ensures r.Ok? && currency != "EUR" ==> r.value == rates[currency]
  {
    if currency == "EUR" then Ok(1.0)
    else if currency !in supported then Err(CurrencyNotSupported(currency))
    else if currency !in rates then Err(RateNotAvailable(currency))
    else Ok(rates[currency])
  }

  predicate IsUsdPair(key: string) {
    |key| >= 3 && key[..3] == "USD"
  }

  /** The currency codes the quotes name: every quote key "USDxxx" gives "xxx". */
  function QuotedCurrencies(quotes: map<string, real>): set<string> {
    set key | key in quotes && IsUsdPair(key) :: key[3..]
  }

  lemma QuotedCurrencyKeys(quotes: map<string, real>)
    ensures forall c :: c in QuotedCurrencies(quotes) ==> "USD" + c in quotes
  {
    forall c | c in QuotedCurrencies(quotes) ensures "USD" + c in quotes {
      var key :| key in quotes && IsUsdPair(key) && key[3..] == c;
      assert key == key[..3] + key[3..];
    }
  }

  /** Every quoted currency's rate divided by the EUR quote: units per EUR. */
  function PerEur(quotes: map<string, real>, usdToEur: real): (rates: map<string, real>)
    requires usdToEur != 0.0
    ensures rates.Keys == QuotedCurrencies(quotes)
    ensures forall c :: c in rates ==> "USD" + c in quotes && rates[c] == quotes["USD" + c] / usdToEur
  {
    QuotedCurrencyKeys(quotes);
    map c | c in QuotedCurrencies(quotes) :: quotes["USD" + c] / usdToEur
  }

  /**
   * The rebasing part of loadRates, as written: each USD quote divided by
   * the USDEUR quote, then EUR and USD both set to 1.0.
   */
  function RebaseQuotes(quotes: map<string, real>): (r: Result<map<string, real>>)
    ensures "USDEUR" !in quotes <==> r == Err(EurQuoteMissing)
    ensures "USDEUR" in quotes && quotes["USDEUR"] == 0.0 <==> r == Err(DivisionByZero)
    ensures r.Ok? ==> r.value.Keys == QuotedCurrencies(quotes) + {"EUR", "USD"}
    ensures r.Ok? ==> r.value["EUR"] == 1.0 && r.value["USD"] == 1.0
    ensures r.Ok? ==> forall c :: c in r.value && c != "EUR" && c != "USD" ==>
      "USD" + c in quotes && r.value[c] == quotes["USD" + c] / quotes["USDEUR"]
  {
    if "USDEUR" !in quotes then Err(EurQuoteMissing)
    else
      var usdToEur := quotes["USDEUR"];
      if usdToEur == 0.0 then Err(DivisionByZero)
      else Ok(PerEur(quotes, usdToEur)["EUR" := 1.0]["USD" := 1.0])
  }

  /**
   * As written, the USD rate is 1.0 whatever USDEUR says, although every
   * other entry counts units per EUR: with USDEUR = 0.87 the table claims one
   * EUR buys one USD instead of 1/0.87 of a USD.
   */
  lemma RebasedUsdRateIgnoresQuote(quotes: map<string, real>)
    requires "USDEUR" in quotes && quotes["USDEUR"] != 0.0 && quotes["USDEUR"] != 1.0
    ensures RebaseQuotes(quotes).Ok?
    ensures RebaseQuotes(quotes).value["USD"] * quotes["USDEUR"] != 1.0
  {
  }

  /**
   * Rebasing with USD priced like every other currency: 1/USDEUR units per
   * EUR (a USDUSD quote of 1 gives the same), EUR at 1.0.
   */
  function RebaseQuotesPerEur(quotes: map<string, real>): (r: Result<map<string, real>>)
    ensures "USDEUR" !in quotes <==> r == Err(EurQuoteMissing)
    ensures "USDEUR" in quotes && quotes["USDEUR"] == 0.0 <==> r == Err(DivisionByZero)
    ensures r.Ok? ==> r.value.Keys == QuotedCurrencies(quotes) + {"EUR", "USD"}
    ensures r.Ok? ==> r.value["EUR"] == 1.0
  {
    if "USDEUR" !in quotes then Err(EurQuoteMissing)
    else
      var usdToEur := quotes["USDEUR"];
      if usdToEur == 0.0 then Err(DivisionByZero)
      else Ok(PerEur(quotes, usdToEur)["EUR" := 1.0]["USD" := 1.0 / usdToEur])
  }

  /**
   * In the corrected table every non-EUR entry, USD included, is the number
   * of units one EUR buys: multiplied by the EUR-per-USD quote it gives back
   * that currency's own USD quote (1 for USD itself).
   */
  lemma RebasedRatesArePerEur(quotes: map<string, real>, c: string)
    requires RebaseQuotesPerEur(quotes).Ok? && c in RebaseQuotesPerEur(quotes).value && c != "EUR"
    ensures c != "USD" ==> RebaseQuotesPerEur(quotes).value[c] * quotes["USDEUR"] == quotes["USD" + c]
    ensures c == "USD" ==> RebaseQuotesPerEur(quotes).value[c] * quotes["USDEUR"] == 1.0
  {
    var usdToEur := quotes["USDEUR"];
    var rates := RebaseQuotesPerEur(quotes).value;
    if c != "USD" {
      assert c in PerEur(quotes, usdToEur);
      assert rates[c] == quotes["USD" + c] / usdToEur;
    }
  }

  /** Taking one more quote key into account adds at most the one rate that key names. */
  lemma PerEurStep(quotes: map<string, real>, rest: set<string>, key: string, usdToEur: real)
    requires key in rest && rest <= quotes.Keys && usdToEur != 0.0
    ensures IsUsdPair(key) ==>
      PerEur(quotes - (rest - {key}), usdToEur) == PerEur(quotes - rest, usdToEur)[key[3..] := quotes[key] / usdToEur]
    ensures !IsUsdPair(key) ==> PerEur(quotes - (rest - {key}), usdToEur) == PerEur(quotes - rest, usdToEur)
  {
    var before := quotes - rest;
    var after := quotes - (rest - {key});
    assert after == before[key := quotes[key]];
    if IsUsdPair(key) {
      assert key == "USD" + key[3..];
      assert QuotedCurrencies(after) == QuotedCurrencies(before) + {key[3..]};
    } else {
      assert QuotedCurrencies(after) == QuotedCurrencies(before);
    }
  }

  lemma UnionUpdate(a: map<string, real>, b: map<string, real>, k: string, v: real)
    ensures (a + b)[k := v] == a + b[k := v]
  {
  }

  /**
   * The service object: the supported list it was configured with and the
   * rate table that loadRates fills in place.
   */
  class RateService {
    const supported: seq<string>
    var rates: map<string, real>

    constructor(supported: seq<string>)
      ensures this.supported == supported && rates == map[]
    {
      this.supported := supported;
      rates := map[];
    }

    /**
     * The rebasing loop of loadRates over the decoded quotes: every "USDxxx"
     * quote becomes the rate of "xxx", then EUR is set to 1.0 and USD, as
     * corrected, to 1/USDEUR. A missing USDEUR quote or a zero one is
     * reported and leaves the table alone.
     */
    method LoadRates(quotes: map<string, real>) returns (failure: Option<Error>)
      modifies this
      ensures var r := RebaseQuotesPerEur(quotes);
        && (r.Ok? ==> failure == None && rates == old(rates) + r.value)
        && (r.Err? ==> failure == Some(r.error) && rates == old(rates))
    {
      if "USDEUR" !in quotes {
        return Some(EurQuoteMissing);
      }
      var usdToEur := quotes["USDEUR"];
      if usdToEur == 0.0 {
        return Some(DivisionByZero);
      }
      ghost var start := rates;
      var rest := quotes.Keys;
      while rest != {}
        invariant rest <= quotes.Keys
        invariant rates == start + PerEur(quotes - rest, usdToEur)
        decreases |rest|
      {
        var key :| key in rest;
        PerEurStep(quotes, rest, key, usdToEur);
        if IsUsdPair(key) {
          UnionUpdate(start, PerEur(quotes - rest, usdToEur), key[3..], quotes[key] / usdToEur);
          rates := rates[key[3..] := quotes[key] / usdToEur];
        }
        rest := rest - {key};
      }
      assert quotes - rest == quotes;
      var table := PerEur(quotes, usdToEur);
      assert RebaseQuotesPerEur(quotes) == Ok(table["EUR" := 1.0]["USD" := 1.0 / usdToEur]);
      UnionUpdate(start, table, "EUR", 1.0);
      UnionUpdate(start, table["EUR" := 1.0], "USD", 1.0 / usdToEur);
      rates := rates["EUR" := 1.0];
      rates := rates["USD" := 1.0 / usdToEur];
      return None;
    }
  }
}
