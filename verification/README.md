# Commission calculator, modelled in Dafny

The calculator reads financial operations from a CSV file: deposits and
withdrawals by private and business users, in EUR, USD or JPY. For each
operation, in file order, it prints the commission, rounded up to the
currency's smallest printed unit. The rules are:

- Deposits cost 0.03% of the amount.
- Business withdrawals cost 0.5%.
- Private withdrawals cost 0.3%, with an allowance per user and week.
  - The first three withdrawals of a week are free up to 1000.00 EUR in total.
  - Past that amount, only the excess is charged, converted back to the
    operation's currency.
  - From the fourth withdrawal of a week, the full amount is charged.
- The week of a withdrawal is decided by the history of the operations
  already priced.

The model follows the PHP classes one module each:

- `Operation` is a value with a validating constructor.
- `OperationHistory` is a class whose operation list is updated in place by
  `AddOperation` and read by `GetWeeklyOperations`.
- `ExchangeRateService` is a class whose rate table is filled by `LoadRates`.
- The parser, the calculator and `Application.run` are methods with loops.
  Each is proved against a specification function:
  - `Parse` for the parser;
  - `SumToEur` and `Commission` for the calculator;
  - `Replay` for `run`.
- Lemmas state what the PHP code promises about those functions.
- Module `Fixture` proves the repository's own worked example. Starting from
  an empty history, its thirteen operations print exactly
  `0.60 0.00 0.00 0.06 1.50 0 0.70 0.30 0.30 3.00 0.00 0.00 8612`.

Modelling choices:

- Amounts are exact reals.
- Dates are proleptic Gregorian `(year, month, day)` values.
- The bucket key of a week is PHP's `format('Y')` paired with
  `format('W')`. That is the calendar year and the ISO 8601 week number
  (ISO 8601:2004 section 3.2.2).
- PHP's `(int)` and `(float)` casts of CSV cells and settings are a
  parameter (`Casts`), not a model of PHP's numeric-string rules.
- `getFreeAmount` and `getFreeOperations` read the `freeAmount` and
  `freeOperations` fields of the configuration record. Their `?? 0` fallbacks
  never apply, because `getCommissionConfiguration` always sets both keys.
- Thrown exceptions are `Err` values of one `Error` datatype. The first
  exception thrown is the error reported.

Two behaviours of the code a reader may not expect:

- `roundCommission` has a special case. A USD commission within 0.01 of
  0.30 becomes exactly 0.30, so 0.305 USD is charged 0.30
  (`CommissionCalculator.UsdWindowRoundsDown`).
- The week bucket is keyed by the calendar year, not the ISO week-numbering
  year. So 2014-12-31 and 2015-01-01 fall in different buckets although
  they share ISO week 1 of 2015 (`History.YearEndSplitsIsoWeek`).
  Conversely, 2014-01-01 and 2014-12-31 share a bucket
  (`History.KeyJoinsDatesAYearApart`).
- The test of the worked example mocks the exchange-rate service with
  special cases. The fixture instead uses the plain rate table EUR 1,
  USD 1.1497, JPY 129.53, and the stated output still follows.

## Model

| member | source | states |
|---|---|---|
| Strings.NatToString | src/Application.php:46 | decimal digits of a natural number: at least one digit, one digit exactly for values below ten |
| Strings.DigitsValueOfNatToString | src/Application.php:46 | reading the digits written for `n` gives back `n` |
| Strings.JoinSplit | src/Config/AppConfig.php:33-41 | explode on `,` loses nothing: joining the pieces gives back the setting |
| Strings.SplitJoin | src/Config/AppConfig.php:33-41 | splitting a join of comma-free names gives back the names |
| Strings.ToLowerAscii | src/Service/OperationParser.php:70 | strtolower maps every character to its ASCII lower case and keeps the length |
| Strings.RoundHalfAwayFromZero | src/Application.php:46 | number_format rounds to the nearest integer, halves away from zero |
| Strings.FixedPointRoundTrip | src/Application.php:46 | the text written for `n` with `d` decimals is a plain decimal that reads back as `n` units of 10^-d |
| Strings.NumberFormatRounds | src/Application.php:46 | number_format of a non-negative value is a plain decimal within half a unit of the value |
| Strings.NumberFormatExact | src/Application.php:46 | a value that is a whole number of printed units prints exactly |
| Calendar.YearLength | src/Service/OperationHistory.php:26-28 | a Gregorian year has 366 days when it is a leap year and 365 otherwise |
| Calendar.DayNumberWithinYear | src/Service/OperationHistory.php:44-50 | the day number of a date lies within its own year |
| Calendar.YearOfDayUnique | src/Service/OperationHistory.php:26-28 | a day number lies in exactly one year |
| Calendar.Weekday | src/Service/OperationHistory.php:26-28 | the ISO weekday is between 1 (Monday) and 7 (Sunday) |
| Calendar.ThursdayInIsoWeekYear | src/Service/OperationHistory.php:26-28 | the ISO week-numbering year is the year holding the Thursday of the week |
| Calendar.IsoWeek | src/Service/OperationHistory.php:26-28 | format 'W' is a week number from 1 to 53 |
| Calendar.SameMondaySameIsoWeek | src/Service/OperationHistory.php:26-28 | days of one Monday-to-Sunday week share ISO year and week |
| Calendar.FirstThursdayInWeekOne | src/Service/OperationHistory.php:26-28 | a year's first Thursday is in week 1 of that year |
| Calendar.DatePatternIffFourDigitYear | src/Model/Operation.php:38-43 | the `^\d{4}-\d{2}-\d{2}$` check accepts a date's text exactly when the year has four digits |
| Calendar.ParseFormatDate | src/Model/Operation.php:78-81 | the 'Y-m-d' text of a four-digit-year date reads back as that date |
| Calendar.FormatDateInjective | src/Service/OperationHistory.php:77-85 | distinct four-digit-year dates have distinct 'Y-m-d' texts |
| Calendar.FormatParseDate | src/Service/OperationParser.php:100-103 | a cell read as a date is the canonical text of that date, with a four-digit year |
| OperationModel.ParseUserType | src/Model/Operation.php:52-57 | only "private" and "business" are user types, matched strictly, and the name reads back |
| OperationModel.ParseOperationType | src/Model/Operation.php:59-62 | only "deposit" and "withdraw" are operation types, matched strictly, and the name reads back |
| OperationModel.NewOperation | src/Model/Operation.php:21-76 | the constructor succeeds exactly when all six checks pass; what it builds satisfies them; it only fails with an invalid-argument error |
| OperationModel.GettersReturnConstructedValues | src/Model/Operation.php:78-106 | the getters return what the constructor was given, and getDate's text reads back as the date |
| OperationModel.FirstFailureReported | src/Model/Operation.php:30-35 | the checks run in order date, user id, user type, operation type, amount, currency, and the first failing one is reported |
| AppConfig.SupportedCurrencies | src/Config/AppConfig.php:33-41 | an absent or empty setting gives no currencies; otherwise the comma-free pieces that join back to the setting |
| AppConfig.SupportedCurrenciesRoundTrip | src/Config/AppConfig.php:33-41 | a comma-joined list of names reads back as that list |
| AppConfig.CommissionConfiguration | src/Config/AppConfig.php:61-78 | each commission setting, key by key, is its cast value when present and its own default (0.0003, 0.003, 1000.00, 3, 0.005) when absent |
| AppConfig.DefaultsWhenAbsent | src/Config/AppConfig.php:61-78 | with no commission keys set, the defaults are 0.0003, 0.003, 1000.00, 3 and 0.005 |
| AppConfig.DecimalPlaces | src/Config/AppConfig.php:83-86 | JPY has no decimals and every other currency two |
| CurrencyConverter.ToEur | src/Service/CurrencyConverter.php:23-34 | unsupported currencies are refused; EUR is the identity; otherwise the amount divided by the rate, the rate source's own error when it fails, and a division-by-zero error for a zero rate |
| CurrencyConverter.FromEur | src/Service/CurrencyConverter.php:40-51 | unsupported currencies are refused; EUR is the identity; otherwise the amount times the rate |
| CurrencyConverter.ToEurThenFromEur | src/Service/CurrencyConverter.php:23-51 | converting to EUR and back gives the original amount |
| CurrencyConverter.FromEurThenToEur | src/Service/CurrencyConverter.php:23-51 | converting from EUR and back gives the original amount when the rate is not zero |
| CurrencyConverter.SameFailures | src/Service/CurrencyConverter.php:23-51 | when conversion from EUR fails, conversion to EUR fails with the same error |
| CurrencyConverter.ToEurOkThenFromEurOk | src/Service/CurrencyConverter.php:23-51 | a currency that converts to EUR also converts from EUR |
| CurrencyConverter.EurIsIdentityOverRateTable | src/Service/ExchangeRateService.php:78-81 | over a rate table, EUR converts to itself even without an EUR entry |
| ExchangeRates.GetRate | src/Service/ExchangeRateService.php:78-93 | EUR is 1.0; otherwise the currency must be supported and have a rate, each failure with its own error, and the rate is the table's |
| ExchangeRates.QuotedCurrencyKeys | src/Service/ExchangeRateService.php:58-63 | every currency taken from a quote key comes from a "USD"-prefixed key |
| ExchangeRates.PerEur | src/Service/ExchangeRateService.php:58-63 | one rate per "USDxxx" quote, that quote divided by USDEUR |
| ExchangeRates.RebaseQuotes | src/Service/ExchangeRateService.php:50-67 | a missing USDEUR and a zero one are errors; otherwise the quoted currencies plus EUR and USD, each quote divided by USDEUR, EUR and USD at 1.0 |
| ExchangeRates.RebasedUsdRateIgnoresQuote | src/Service/ExchangeRateService.php:66-67 | as written, the USD rate does not turn the USDEUR quote into units per EUR |
| ExchangeRates.RebaseQuotesPerEur | src/Service/ExchangeRateService.php:50-67 | the corrected rebasing: the same errors and keys, EUR at 1.0 |
| ExchangeRates.RebasedRatesArePerEur | src/Service/ExchangeRateService.php:58-67 | in the corrected table every non-EUR rate times USDEUR is that currency's USD quote (1 for USD) |
| ExchangeRates.PerEurStep | src/Service/ExchangeRateService.php:58-63 | one more quote key adds at most the one rate it names |
| ExchangeRates.RateService.LoadRates | src/Service/ExchangeRateService.php:50-67 | on success the table becomes the old one overridden by the rebased quotes (USD corrected, see Findings); on failure it is unchanged and the error is reported |
| History.SameOperationIsEquality | src/Service/OperationHistory.php:77-85 | for constructed operations, isSameOperation is equality |
| History.RecordKeepsNoDuplicates | src/Service/OperationHistory.php:58-68 | adding an operation keeps the history free of same operations |
| History.RecordIdempotent | src/Service/OperationHistory.php:58-68 | adding the same operation twice is adding it once |
| History.Filter | src/Service/OperationHistory.php:31-41 | the filtered list holds exactly the stored operations of the reference's user, private withdrawals, same year and week |
| History.FilterAppend | src/Service/OperationHistory.php:31-41 | the filter works element by element over a concatenation |
| History.Insert | src/Service/OperationHistory.php:44-50 | inserting into a sorted list keeps it sorted and adds exactly the one element |
| History.SortByDate | src/Service/OperationHistory.php:44-50 | usort's result is ordered by date, then user id, and is a permutation of its input |
| History.WeeklyBucketIsSortedFilter | src/Service/OperationHistory.php:24-53 | the weekly bucket is a sorted permutation of the filtered list and holds exactly the stored operations in the bucket |
| History.DifferentIsoWeeksNeverShareBucket | src/Service/OperationHistory.php:38-39 | an operation of another ISO week is never in the bucket |
| History.DifferentYearsNeverShareBucket | src/Service/OperationHistory.php:38 | an operation of another calendar year is never in the bucket |
| History.YearEndSplitsIsoWeek | src/Service/OperationHistory.php:26-28 | 2014-12-31 and 2015-01-01 share ISO year and week but not the bucket key |
| History.KeyJoinsDatesAYearApart | src/Service/OperationHistory.php:26-28 | 2014-01-01 and 2014-12-31, 364 days and one ISO year apart, share the bucket key |
| History.OperationHistory.AddOperation | src/Service/OperationHistory.php:58-68 | the list becomes the old list with the operation appended unless a same one is stored, and stays free of duplicates |
| History.OperationHistory.GetWeeklyOperations | src/Service/OperationHistory.php:24-53 | returns the weekly bucket: sorted, a permutation of the filtered list, exactly the matching stored operations; it may not change the stored list (no `modifies`) |
| CommissionCalculator.CommissionRateSelection | src/Service/CommissionCalculator.php:98-104 | deposits use one rate whatever the user type; each withdrawal rate is its own setting |
| CommissionCalculator.Ceil | src/Service/CommissionCalculator.php:131 | ceil is the least integer not below the value |
| CommissionCalculator.RoundCommission | src/Service/CommissionCalculator.php:123-140 | never negative; non-positive amounts give 0; JPY rounds up to a whole yen; a USD amount within 0.01 of 0.30 gives 0.30; the rest rounds up to a whole cent |
| CommissionCalculator.RoundCommissionMonotone | src/Service/CommissionCalculator.php:123-140 | a larger amount never gets a smaller rounded commission, the USD window included |
| CommissionCalculator.RoundCommissionIdempotent | src/Service/CommissionCalculator.php:123-140 | rounding a rounded commission changes nothing |
| CommissionCalculator.UsdWindowRoundsDown | src/Service/CommissionCalculator.php:136-138 | the USD window charges 0.30 for 0.305 USD, where EUR is charged 0.31 |
| CommissionCalculator.SumToEurReportsFirstFailure | src/Service/CommissionCalculator.php:72-75 | the weekly EUR total exists exactly when every amount converts; otherwise it is the first failed conversion |
| CommissionCalculator.SumErrorPersists | src/Service/CommissionCalculator.php:72-75 | a failed conversion ends the total with that failure |
| CommissionCalculator.SumOfEurOperations | src/Service/CommissionCalculator.php:72-75 | over EUR operations the total is the plain sum of the amounts |
| CommissionCalculator.PrivateWithdrawFee | src/Service/CommissionCalculator.php:80-95 | the private-withdraw fee is never negative |
| CommissionCalculator.Commission | src/Service/CommissionCalculator.php:46-96 | a commission is never negative, and only private withdrawals can fail |
| CommissionCalculator.DepositFee | src/Service/CommissionCalculator.php:54-57 | a deposit costs its amount times the deposit rate, rounded, whatever the history |
| CommissionCalculator.BusinessWithdrawFee | src/Service/CommissionCalculator.php:60-63 | a business withdrawal costs its amount times the business rate, rounded, whatever the history |
| CommissionCalculator.PrivateWithdrawCommission | src/Service/CommissionCalculator.php:66-95 | when every conversion succeeds, a private withdrawal is priced from the bucket's size and EUR total |
| CommissionCalculator.ThresholdChargesFullAmount | src/Service/CommissionCalculator.php:80-83 | from the free-operations count on, the full amount is charged at the private rate |
| CommissionCalculator.ConversionFailureWins | src/Service/CommissionCalculator.php:72-77 | a failed conversion of a bucket entry, then of the operation, is the result, even past the threshold |
| CommissionCalculator.WithinAllowanceIsFree | src/Service/CommissionCalculator.php:86-95 | below the threshold, staying within the allowance is free |
| CommissionCalculator.CrossingAllowanceChargesExcess | src/Service/CommissionCalculator.php:86-91 | crossing the allowance charges only the EUR excess, converted back |
| CommissionCalculator.ExhaustedAllowanceChargesFullAmount | src/Service/CommissionCalculator.php:86-91 | with the allowance used up, a positive withdrawal is charged its full amount |
| CommissionCalculator.PrivateFeeAtMostFullCharge | src/Service/CommissionCalculator.php:80-95 | with positive rates, the allowance only lowers a private withdrawal's fee |
| CommissionCalculator.ConvertedBackAtMost | src/Service/CommissionCalculator.php:87-89 | converting back an EUR part of the amount gives at most the amount |
| CommissionCalculator.TotalEur | src/Service/CommissionCalculator.php:72-75 | the loop's total is the weekly EUR sum, or its first failed conversion |
| CommissionCalculator.CalculateCommission | src/Service/CommissionCalculator.php:46-96 | the commission is the rule set applied to the history's weekly bucket |
| OperationParser.Classify | src/Service/OperationParser.php:66-76 | empty rows, a "date" header on line 1 and rows without six cells are skipped; every other row is data |
| OperationParser.CreateOperation | src/Service/OperationParser.php:95-117 | a row fails only with an invalid date or invalid operation data |
| OperationParser.CreateOperationCharacterized | src/Service/OperationParser.php:95-117 | a row builds exactly when its date reads and the constructor accepts the cast cells; the operation then gives back the row |
| OperationParser.BuildAllCharacterized | src/Service/OperationParser.php:63-79 | the rows build exactly when each does, one operation per row; otherwise the first failing row's error |
| OperationParser.KeptRowsMembership | src/Service/OperationParser.php:63-79 | a row is kept exactly when it is classified as data on its own line |
| OperationParser.BuildAllErrorPersists | src/Service/OperationParser.php:78 | a failing row ends the read with its error |
| OperationParser.ParseOperations | src/Service/OperationParser.php:58-86 | the loop's result is the read of the rows |
| OperationParser.ParseOk | src/Service/OperationParser.php:58-86 | a successful read has one operation per kept row, built from it, and at least one |
| OperationParser.ParseErr | src/Service/OperationParser.php:58-86 | a failed read is "no valid operations" exactly when no row was kept, otherwise the first kept row that does not build |
| OperationParser.HeaderOnFirstLineSkipped | src/Service/OperationParser.php:70-72 | a header on line 1 is skipped whatever its case |
| OperationParser.HeaderAfterBlankLineIsData | src/Service/OperationParser.php:61-72 | line numbers count skipped rows, so a header after a blank first line is data and its date is refused |
| Application.FormatUsesConfiguredDecimals | src/Application.php:38-49 | the printed decimals agree with the configured decimals of the currency |
| Application.CommissionInPrintedUnits | src/Application.php:38-49 | every commission is a whole number of printed units |
| Application.PrintedCommissionIsExact | src/Application.php:38-49 | the printed line reads back as exactly the commission |
| Application.ReplayStopsAtFirstFailure | src/Application.php:27-36 | a run prints one line per operation before the first failure, reports that failure, and records exactly the priced operations |
| Application.ReplayLinesPriced | src/Application.php:31-35 | line k is the commission of operation k against the history of the operations before it |
| Application.ReplayPricesAgainstPast | src/Application.php:27-36 | both lemmas above together |
| Application.ReplayAllPriced | src/Application.php:31-35 | when every operation prices and none repeats an earlier one, the run prints every commission and records every operation |
| Application.RecordAllKeepsNoDuplicates | src/Service/OperationHistory.php:58-68 | recording keeps the history free of duplicates, and every recorded operation is in it |
| Application.RecordAllGrows | src/Service/OperationHistory.php:58-68 | recording never drops an operation already stored |
| Application.Run | src/Application.php:27-36 | a read failure prints nothing and leaves the history; otherwise lines, failure and history are those of the replay |
| Application.ProcessOperations | src/Application.php:31-35 | the loop prints, fails and records exactly as the replay of the operations against the old history |
| Fixture.SupportedSetting | src/Config/AppConfig.php:33-41 | the setting "EUR,USD,JPY" reads as the three currencies |
| Fixture.FirstWeekOf2016 | src/Service/OperationHistory.php:26-28 | Monday 2016-01-04 to Sunday 2016-01-10 all have bucket key (2016, 1) |
| Fixture.PriceAt | tests/TaskAutomationTest.php:176-206 | each example operation, priced against the operations before it, costs its expected commission |
| Fixture.PrintedLine | src/Application.php:38-49 | each commission of the example prints as its expected line |
| Fixture.ExampleOutput | tests/TaskAutomationTest.php:173-210 | the thirteen example operations print exactly the expected thirteen lines and all are recorded |

## Left out

- The HTTP request, JSON decoding, `$_ENV` settings and the cache file of `loadRates` are not modelled. `LoadRates` starts from the decoded `quotes` object.
- When the request or the decoding fails, or the response has no USDEUR quote, PHP catches the exception and falls back to the cached rates. That fallback is not modelled either: a failed `LoadRates` reports the error and keeps the table.
- ExchangeRates.RateService.LoadRates: checks for a zero USDEUR quote before its loop. PHP would throw the uncaught DivisionByZeroError at the first "USD" key, which is before any rate is stored, so the visible outcome is the same.
- ExchangeRates.RateService.LoadRates: stores the corrected USD rate 1/USDEUR (`RebaseQuotesPerEur`), not the 1.0 that `loadRates` writes. The as-written table is `RebaseQuotes`, and `RebasedUsdRateIgnoresQuote` shows where the two differ (see Findings).
- ExchangeRates.RateService.LoadRates: visits the quote keys in an unspecified order instead of PHP's array order. The result does not depend on the order.
- `readFromFile`'s file checks, `fgetcsv`'s CSV tokenisation and `echo` are not modelled. The model starts from the rows `fgetcsv` returns and returns the printed lines.
- `DateTime::createFromFormat` leniency is not modelled. It accepts overflowing fields such as 2016-02-30 and rolls them over. The model reads a date cell strictly and refuses what is not a calendar date.
- CurrencyConverter.ToEur and CurrencyConverter.FromEur: test membership in the supported list strictly. PHP's `in_array` without its strict flag compares loosely, which differs only for numeric-string currency codes such as "1e1" and "10".
- PHP's `(int)` and `(float)` string casts are the `Casts` parameter. Their own parsing rules are not modelled.
- Floating-point arithmetic is not modelled: amounts, rates and fees are exact reals. A fee that PHP's doubles would round differently is not captured.
- `getFixedRates` (the FIXED_RATES JSON setting) is not modelled. The core never calls it.
- The dependency-injection wiring (bootstrap/app.php, index.php) and the interfaces are not modelled.
- History.SortByDate: models PHP's `usort` as a stable insertion sort by (day, user id). PHP 8's sort is stable, so equal keys keep their filtered order in both.
- CommissionCalculator.CalculateCommission: the weekly-total loop is the separate method `TotalEur`.
- Application.Run: the loop over the operations is the separate method `ProcessOperations`.
- The test of the worked example mocks the rate service, with special answers for some amounts. Those answers are not modelled; the fixture uses the plain rate table.
- Fixture.ExampleOutput: starts from the thirteen operations rather than from the CSV text.

## Findings

| source | as written | input that shows it | evidently intended | confidence | as-written member | corrected member |
|---|---|---|---|---|---|---|
| src/Service/ExchangeRateService.php:66-67 | after rebasing every rate to units per EUR, the USD rate is set to 1.0 | quotes with USDEUR = 0.87: the table says one EUR buys 1.0 USD instead of 1/0.87 | USD priced like the others, 1/USDEUR units per EUR | not executed | ExchangeRates.RebasedUsdRateIgnoresQuote | ExchangeRates.RebasedRatesArePerEur |
