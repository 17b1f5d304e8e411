/**
 * AppConfig: the values the calculator reads from its key/value
 * configuration store. The store is a map from key to the string the
 * environment holds; the PHP number casts are the `Casts` parameter.
 */
module AppConfig {
  import opened Errors
  import opened Strings

  const SupportedCurrenciesKey := "SUPPORTED_CURRENCIES"
  const DepositRateKey := "COMMISSION_DEPOSIT_RATE"
  const PrivateRateKey := "COMMISSION_WITHDRAW_PRIVATE_RATE"
  const FreeAmountKey := "COMMISSION_WITHDRAW_PRIVATE_FREE_AMOUNT"
  const FreeOperationsKey := "COMMISSION_WITHDRAW_PRIVATE_FREE_OPERATIONS"
  const BusinessRateKey := "COMMISSION_WITHDRAW_BUSINESS_RATE"

  /** The nested array getCommissionConfiguration returns, as a record. */
  datatype CommissionConfig = CommissionConfig(
    depositRate: real,
    privateWithdrawRate: real,
    freeAmount: real,
    freeOperations: int,
    businessWithdrawRate: real)

  /** PHP `empty($s)` on a string: the empty string and "0" are empty. */
  predicate IsEmptyValue(s: string) {
    s == "" || s == "0"
  }

  /** getSupportedCurrencies: the setting split on ',' with no trimming. */
  function SupportedCurrencies(env: map<string, string>): (currencies: seq<string>)
    ensures SupportedCurrenciesKey !in env || IsEmptyValue(env[SupportedCurrenciesKey]) ==> currencies == []
    ensures SupportedCurrenciesKey in env && !IsEmptyValue(env[SupportedCurrenciesKey]) ==>
      |currencies| >= 1 && Join(currencies, ',') == env[SupportedCurrenciesKey]
    ensures forall i :: 0 <= i < |currencies| ==> ',' !in currencies[i]
  {
    if SupportedCurrenciesKey !in env || IsEmptyValue(env[SupportedCurrenciesKey]) then []
    else
      JoinSplit(env[SupportedCurrenciesKey], ',');
      Split(env[SupportedCurrenciesKey], ',')
  }

  /** Listing currencies without commas and reading them back gives the same list. */
  lemma SupportedCurrenciesRoundTrip(env: map<string, string>, currencies: seq<string>)
    requires |currencies| >= 1 && forall i :: 0 <= i < |currencies| ==> ',' !in currencies[i]
    requires SupportedCurrenciesKey in env && env[SupportedCurrenciesKey] == Join(currencies, ',')
    requires !IsEmptyValue(Join(currencies, ','))
    ensures SupportedCurrencies(env) == currencies
  {
    SplitJoin(currencies, ',');
  }

  /** `$config->get($key, $default)` followed by a `(float)` cast. */
  function RealSetting(env: map<string, string>, casts: Casts, key: string, default: real): real {
    if key in env then casts.toReal(env[key]) else default
  }

  /** `$config->get($key, $default)` followed by an `(int)` cast. */
  function IntSetting(env: map<string, string>, casts: Casts, key: string, default: int): int {
    if key in env then casts.toInt(env[key]) else default
  }

  /** getCommissionConfiguration. */
  function CommissionConfiguration(env: map<string, string>, casts: Casts): (cfg: CommissionConfig)
    ensures DepositRateKey in env ==> cfg.depositRate == casts.toReal(env[DepositRateKey])
    ensures PrivateRateKey in env ==> cfg.privateWithdrawRate == casts.toReal(env[PrivateRateKey])
    ensures FreeAmountKey in env ==> cfg.freeAmount == casts.toReal(env[FreeAmountKey])
    ensures FreeOperationsKey in env ==> cfg.freeOperations == casts.toInt(env[FreeOperationsKey])
    ensures BusinessRateKey in env ==> cfg.businessWithdrawRate == casts.toReal(env[BusinessRateKey])
    ensures DepositRateKey !in env ==> cfg.depositRate == 0.0003
    ensures PrivateRateKey !in env ==> cfg.privateWithdrawRate == 0.003
    ensures FreeAmountKey !in env ==> cfg.freeAmount == 1000.00
    ensures FreeOperationsKey !in env ==> cfg.freeOperations == 3
    ensures BusinessRateKey !in env ==> cfg.businessWithdrawRate == 0.005
  {
    CommissionConfig(
      RealSetting(env, casts, DepositRateKey, 0.0003),
      RealSetting(env, casts, PrivateRateKey, 0.003),
      RealSetting(env, casts, FreeAmountKey, 1000.00),
      IntSetting(env, casts, FreeOperationsKey, 3),
      RealSetting(env, casts, BusinessRateKey, 0.005))
  }

  /** The documented defaults: 0.03% deposits, 0.3% private and 0.5% business withdrawals, 1000.00 EUR and 3 free withdrawals a week. */
  const DefaultConfig := CommissionConfig(0.0003, 0.003, 1000.00, 3, 0.005)

  /** With none of the commission keys set, every value is its default, whatever the casts do. */
  lemma DefaultsWhenAbsent(env: map<string, string>, casts: Casts)
    requires DepositRateKey !in env && PrivateRateKey !in env && FreeAmountKey !in env
    requires FreeOperationsKey !in env && BusinessRateKey !in env
    ensures CommissionConfiguration(env, casts) == DefaultConfig
  {
  }

  /** getDecimalPlacesForCurrency: JPY has no minor unit, every other currency two decimals. */
  function DecimalPlaces(currency: string): (places: nat)
    ensures places == 0 <==> currency == "JPY"
    ensures places == 0 || places == 2
  {
    if currency == "JPY" then 0 else 2
  }
}
