/**
 * The worked example of the repository's end-to-end test: thirteen
 * operations, the default commission settings and the rates EUR 1,
 * USD 1.1497 and JPY 129.53, expected to print
 * 0.60 0.00 0.00 0.06 1.50 0 0.70 0.30 0.30 3.00 0.00 0.00 8612.
 */
module Fixture {
  import opened Errors
  import opened Strings
  import opened Calendar
  import opened OperationModel
  import opened History
  import opened CurrencyConverter
  import opened AppConfig
  import opened CommissionCalculator
  import opened Application

  const Supported: seq<string> := ["EUR", "USD", "JPY"]
  const Rates: map<string, real> := map["EUR" := 1.0, "USD" := 1.1497, "JPY" := 129.53]
  const Conv: Converter := FromRateTable(Rates, Supported)

  /** The `SUPPORTED_CURRENCIES` setting of the example reads as the three currencies. */
  lemma SupportedSetting()
    ensures SupportedCurrencies(map[SupportedCurrenciesKey := "EUR,USD,JPY"]) == Supported
  {
    SupportedCurrenciesRoundTrip(map[SupportedCurrenciesKey := "EUR,USD,JPY"], Supported);
  }

  /** Monday 2016-01-04 to Sunday 2016-01-10 form ISO week 1 of 2016. */
  lemma FirstWeekOf2016(d: Date)
    requires d.year == 2016 && d.month == 1 && 4 <= d.day <= 10
    ensures DayNumber(d) == 736328 + d.day
    ensures BucketKey(d) == (2016, 1)
  {
    assert DaysBeforeYear(2016) == 736329;
    assert DaysBeforeYear(2017) == 736695;
    assert DayNumber(d) == 736328 + d.day;
    assert 736333 + d.day == 7 * 105191 + (d.day - 4);
    assert Weekday(d) == d.day - 3;
    assert ThursdayOf(d) == 736335;
    assert IsoWeekYear(d) == 2016;
  }

  /** Monday 2016-02-15 to Sunday 2016-02-21 form ISO week 7 of 2016. */
  lemma SeventhWeekOf2016(d: Date)
    requires d.year == 2016 && d.month == 2 && 15 <= d.day <= 21
    ensures BucketKey(d) == (2016, 7)
  {
    assert DaysBeforeYear(2016) == 736329;
    assert DaysBeforeYear(2017) == 736695;
    assert DaysBeforeMonth(2016, 2) == 31;
    assert DayNumber(d) == 736359 + d.day;
    assert 736364 + d.day == 7 * 105197 + (d.day - 15);
    assert Weekday(d) == d.day - 14;
    assert ThursdayOf(d) == 736377;
    assert IsoWeekYear(d) == 2016;
  }

  const O0 := Operation(Ymd(2014, 12, 31), 4, Private, Withdraw, 1200.0, "EUR")
  const O1 := Operation(Ymd(2015, 1, 1), 4, Private, Withdraw, 1000.0, "EUR")
  const O2 := Operation(Ymd(2016, 1, 5), 4, Private, Withdraw, 1000.0, "EUR")
  const O3 := Operation(Ymd(2016, 1, 5), 1, Private, Deposit, 200.0, "EUR")
  const O4 := Operation(Ymd(2016, 1, 6), 2, Business, Withdraw, 300.0, "EUR")
  const O5 := Operation(Ymd(2016, 1, 6), 1, Private, Withdraw, 30000.0, "JPY")
  const O6 := Operation(Ymd(2016, 1, 7), 1, Private, Withdraw, 1000.0, "EUR")
  const O7 := Operation(Ymd(2016, 1, 7), 1, Private, Withdraw, 100.0, "USD")
  const O8 := Operation(Ymd(2016, 1, 10), 1, Private, Withdraw, 100.0, "EUR")
  const O9 := Operation(Ymd(2016, 1, 10), 2, Business, Deposit, 10000.0, "EUR")
  const O10 := Operation(Ymd(2016, 1, 10), 3, Private, Withdraw, 1000.0, "EUR")
  const O11 := Operation(Ymd(2016, 2, 15), 1, Private, Withdraw, 300.0, "EUR")
  const O12 := Operation(Ymd(2016, 2, 19), 5, Private, Withdraw, 3000000.0, "JPY")

  /** The input file, in order. */
  const Ops: seq<Operation> := [O0, O1, O2, O3, O4, O5, O6, O7, O8, O9, O10, O11, O12]

  /** The output the example expects, one line per operation. */
  const Expected: seq<string> :=
    ["0.60", "0.00", "0.00", "0.06", "1.50", "0", "0.70", "0.30", "0.30", "3.00", "0.00", "0.00", "8612"]

  /** No stored operation is in the bucket: the bucket is empty. */
  lemma {:induction false} EmptyBucket(ops: seq<Operation>, ref: Operation)
    requires forall k :: 0 <= k < |ops| ==> !InBucket(ops[k], ref)
    ensures Filter(ops, ref) == [] && WeeklyBucket(ops, ref) == []
    decreases |ops|
  {
    if ops != [] {
      EmptyBucket(ops[..|ops| - 1], ref);
    }
  }

  lemma FilterOne(x: Operation, ref: Operation)
    ensures Filter([x], ref) == if InBucket(x, ref) then [x] else []
  {
    assert [x][..0] == [];
  }

  lemma SortTwo(a: Operation, b: Operation)
    requires Precedes(a, b)
    ensures SortByDate([a, b]) == [a, b]
  {
    assert [a, b][..1] == [a];
    assert [a][..0] == [];
  }

  lemma SortThree(a: Operation, b: Operation, c: Operation)
    requires Precedes(a, b) && Precedes(b, c)
    ensures SortByDate([a, b, c]) == [a, b, c]
  {
    SortTwo(a, b);
    assert [a, b, c][..2] == [a, b];
  }

  /** Operations of different users, or dated in different years, never share a bucket. */
  lemma ApartNotInBucket(x: Operation, ref: Operation)
    requires x.userId != ref.userId || x.date.year != ref.date.year || x.operationType == Deposit
    ensures !InBucket(x, ref)
  {
  }

  lemma SameWeekOfUserOne(x: Operation, ref: Operation)
    requires x.userId == ref.userId && x.userType == Private && x.operationType == Withdraw
    requires x.date.year == 2016 && x.date.month == 1 && 4 <= x.date.day <= 10
    requires ref.date.year == 2016 && ref.date.month == 1 && 4 <= ref.date.day <= 10
    ensures InBucket(x, ref)
    ensures DayNumber(x.date) == 736328 + x.date.day
  {
    FirstWeekOf2016(x.date);
    FirstWeekOf2016(ref.date);
  }

  lemma LaterWeekOfUserOne(x: Operation, ref: Operation)
    requires x.date.year == 2016 && x.date.month == 1 && 4 <= x.date.day <= 10
    requires ref.date.year == 2016 && ref.date.month == 2 && 15 <= ref.date.day <= 21
    ensures !InBucket(x, ref)
  {
    FirstWeekOf2016(x.date);
    SeventhWeekOf2016(ref.date);
  }

  lemma Bucket1()
    ensures WeeklyBucket(Ops[..1], O1) == []
  {
    assert Ops[..1] == [O0];
    ApartNotInBucket(O0, O1);
    EmptyBucket([O0], O1);
  }

  lemma Bucket2()
    ensures WeeklyBucket(Ops[..2], O2) == []
  {
    assert Ops[..2] == [O0, O1];
    ApartNotInBucket(O0, O2);
    ApartNotInBucket(O1, O2);
    EmptyBucket([O0, O1], O2);
  }

  lemma Bucket5()
    ensures WeeklyBucket(Ops[..5], O5) == []
  {
    assert Ops[..5] == [O0, O1, O2, O3, O4];
    EmptyBucket([O0, O1, O2, O3, O4], O5);
  }

  /** The first five operations are all outside the 2016 buckets of user 1. */
  lemma EarlyOutsideUserOne(ref: Operation)
    requires ref.userId == 1 && ref.date.year == 2016
    ensures Filter([O0, O1, O2, O3, O4], ref) == []
  {
    ApartNotInBucket(O0, ref);
    ApartNotInBucket(O1, ref);
    ApartNotInBucket(O2, ref);
    ApartNotInBucket(O3, ref);
    ApartNotInBucket(O4, ref);
    EmptyBucket([O0, O1, O2, O3, O4], ref);
  }

  lemma Bucket6()
    ensures WeeklyBucket(Ops[..6], O6) == [O5]
  {
    var prefix := [O0, O1, O2, O3, O4];
    assert Ops[..6] == prefix + [O5];
    EarlyOutsideUserOne(O6);
    FilterAppend(prefix, [O5], O6);
    SameWeekOfUserOne(O5, O6);
    FilterOne(O5, O6);
  }

  lemma FilterTwo(a: Operation, b: Operation, ref: Operation)
    requires InBucket(a, ref) && InBucket(b, ref)
    ensures Filter([a, b], ref) == [a, b]
  {
    FilterOne(a, ref);
    FilterOne(b, ref);
    assert [a] + [b] == [a, b];
    FilterAppend([a], [b], ref);
  }

  lemma Filter7()
    ensures Filter(Ops[..7], O7) == [O5, O6]
  {
    var prefix := [O0, O1, O2, O3, O4];
    assert Ops[..7] == prefix + [O5, O6];
    EarlyOutsideUserOne(O7);
    FilterAppend(prefix, [O5, O6], O7);
    SameWeekOfUserOne(O5, O7);
    SameWeekOfUserOne(O6, O7);
    FilterTwo(O5, O6, O7);
  }

  lemma Bucket7()
    ensures WeeklyBucket(Ops[..7], O7) == [O5, O6]
  {
    Filter7();
    SameWeekOfUserOne(O5, O7);
    SameWeekOfUserOne(O6, O7);
    SortTwo(O5, O6);
  }

  lemma FilterThree(a: Operation, b: Operation, c: Operation, ref: Operation)
    requires InBucket(a, ref) && InBucket(b, ref) && InBucket(c, ref)
    ensures Filter([a, b, c], ref) == [a, b, c]
  {
    FilterOne(a, ref);
    FilterOne(b, ref);
    FilterOne(c, ref);
    assert [a] + [b] == [a, b];
    FilterAppend([a], [b], ref);
    assert [a, b] + [c] == [a, b, c];
    FilterAppend([a, b], [c], ref);
  }

  lemma Filter8()
    ensures Filter(Ops[..8], O8) == [O5, O6, O7]
  {
    var prefix := [O0, O1, O2, O3, O4];
    assert Ops[..8] == prefix + [O5, O6, O7];
    EarlyOutsideUserOne(O8);
    FilterAppend(prefix, [O5, O6, O7], O8);
    SameWeekOfUserOne(O5, O8);
    SameWeekOfUserOne(O6, O8);
    SameWeekOfUserOne(O7, O8);
    FilterThree(O5, O6, O7, O8);
  }

  lemma Bucket8()
    ensures WeeklyBucket(Ops[..8], O8) == [O5, O6, O7]
  {
    Filter8();
    SameWeekOfUserOne(O5, O6);
    SameWeekOfUserOne(O7, O6);
    SortThree(O5, O6, O7);
  }

  lemma Bucket10()
    ensures WeeklyBucket(Ops[..10], O10) == []
  {
    assert Ops[..10] == [O0, O1, O2, O3, O4, O5, O6, O7, O8, O9];
    EmptyBucket(Ops[..10], O10);
  }

  lemma FirstWeekBeforeO11()
    ensures Filter([O5, O6, O7, O8], O11) == []
  {
    LaterWeekOfUserOne(O5, O11);
    LaterWeekOfUserOne(O6, O11);
    LaterWeekOfUserOne(O7, O11);
    LaterWeekOfUserOne(O8, O11);
    EmptyBucket([O5, O6, O7, O8], O11);
  }

  lemma OthersBeforeO11()
    ensures Filter([O0, O1, O2, O3, O4], O11) == []
    ensures Filter([O9, O10], O11) == []
  {
    EmptyBucket([O0, O1, O2, O3, O4], O11);
    EmptyBucket([O9, O10], O11);
  }

  lemma Bucket11()
    ensures WeeklyBucket(Ops[..11], O11) == []
  {
    var early, week, late := [O0, O1, O2, O3, O4], [O5, O6, O7, O8], [O9, O10];
    assert Ops[..11] == early + week + late;
    FirstWeekBeforeO11();
    OthersBeforeO11();
    FilterAppend(early, week, O11);
    FilterAppend(early + week, late, O11);
  }

  lemma Bucket12()
    ensures WeeklyBucket(Ops[..12], O12) == []
  {
    assert Ops[..12] == [O0, O1, O2, O3, O4, O5, O6, O7, O8, O9, O10, O11];
    EmptyBucket(Ops[..12], O12);
  }

  /** calculateCommission with the example's settings and rates. */
  const Price: Pricing := CommissionPricing(DefaultConfig, Conv)

  /** The commissions the example expects, as amounts. */
  const Commissions: seq<real> := [0.6, 0.0, 0.0, 0.06, 1.5, 0.0, 0.7, 0.3, 0.3, 3.0, 0.0, 0.0, 8612.0]

  lemma RateLookups()
    ensures Conv.rate("EUR") == Ok(1.0)
    ensures Conv.rate("USD") == Ok(1.1497)
    ensures Conv.rate("JPY") == Ok(129.53)
  {
  }

  /** A private withdrawal in EUR whose bucket is empty. */
  lemma FirstEurWithdrawal(op: Operation, fee: real)
    requires op.userType == Private && op.operationType == Withdraw && op.currency == "EUR"
    requires op.amount >= 0.0
    requires fee == if op.amount <= 1000.0 then 0.0 else RoundCommission((op.amount - 1000.0) * 0.003, "EUR")
    ensures Commission(DefaultConfig, Conv, [], op) == Ok(fee)
  {
    assert SumToEur(Conv, []) == Ok(0.0);
    assert EurAmount(Conv, op) == Ok(op.amount);
  }

  /** Pricing an operation is calculateCommission over its bucket. */
  lemma PriceFromBucket(past: seq<Operation>, op: Operation, bucket: seq<Operation>, fee: real)
    requires WeeklyBucket(past, op) == bucket
    requires Commission(DefaultConfig, Conv, bucket, op) == Ok(fee)
    ensures Price(past, op) == Ok(fee)
  {
  }

  lemma Price0(k: nat)
    requires k == 0
    ensures Price(Ops[..k], Ops[k]) == Ok(Commissions[k])
  {
    assert Commissions[k] == 0.6;
    EmptyBucket([], O0);
    FirstEurWithdrawal(O0, 0.6);
    assert Ops[..0] == [] && Ops[0] == O0;
    PriceFromBucket(Ops[..0], Ops[0], [], 0.6);
  }

  lemma Price1(k: nat)
    requires k == 1
    ensures Price(Ops[..k], Ops[k]) == Ok(Commissions[k])
  {
    assert Commissions[k] == 0.0;
    Bucket1();
    FirstEurWithdrawal(O1, 0.0);
    assert Ops[1] == O1;
    PriceFromBucket(Ops[..1], Ops[1], [], 0.0);
  }

  lemma Price2(k: nat)
    requires k == 2
    ensures Price(Ops[..k], Ops[k]) == Ok(Commissions[k])
  {
    assert Commissions[k] == 0.0;
    Bucket2();
    FirstEurWithdrawal(O2, 0.0);
    assert Ops[2] == O2;
    PriceFromBucket(Ops[..2], Ops[2], [], 0.0);
  }

  lemma Price3(k: nat)
    requires k == 3
    ensures Price(Ops[..k], Ops[k]) == Ok(Commissions[k])
  {
    assert Commissions[k] == 0.06;
    assert RoundedFee(200.0, 0.0003, "EUR") == 0.06;
  }

  lemma Price4(k: nat)
    requires k == 4
    ensures Price(Ops[..k], Ops[k]) == Ok(Commissions[k])
  {
    assert Commissions[k] == 1.5;
    assert RoundedFee(300.0, 0.005, "EUR") == 1.5;
  }

  lemma Fee5()
    ensures Commission(DefaultConfig, Conv, [], O5) == Ok(0.0)
  {
    assert SumToEur(Conv, []) == Ok(0.0);
    assert EurAmount(Conv, O5) == Ok(30000.0 / 129.53);
  }

  lemma Price5(k: nat)
    requires k == 5
    ensures Price(Ops[..k], Ops[k]) == Ok(Commissions[k])
  {
    assert Commissions[k] == 0.0;
    Bucket5();
    Fee5();
    assert Ops[5] == O5;
    PriceFromBucket(Ops[..5], Ops[5], [], 0.0);
  }

  lemma Fee6()
    ensures Commission(DefaultConfig, Conv, [O5], O6) == Ok(0.7)
  {
    var jpy := 30000.0 / 129.53;
    assert [O5][..0] == [];
    assert SumToEur(Conv, [O5]) == Ok(0.0 + jpy);
    assert EurAmount(Conv, O6) == Ok(1000.0);
    assert RoundedFee(jpy, 0.003, "EUR") == 0.7;
  }

  lemma Price6(k: nat)
    requires k == 6
    ensures Price(Ops[..k], Ops[k]) == Ok(Commissions[k])
  {
    assert Commissions[k] == 0.7;
    Bucket6();
    Fee6();
    assert Ops[6] == O6;
    PriceFromBucket(Ops[..6], Ops[6], [O5], 0.7);
  }

  lemma Fee7()
    ensures Commission(DefaultConfig, Conv, [O5, O6], O7) == Ok(0.3)
  {
    var jpy := 30000.0 / 129.53;
    var usd := 100.0 / 1.1497;
    assert [O5, O6][..1] == [O5];
    assert [O5][..0] == [];
    assert SumToEur(Conv, [O5]) == Ok(0.0 + jpy);
    assert SumToEur(Conv, [O5, O6]) == Ok(0.0 + jpy + 1000.0);
    assert EurAmount(Conv, O7) == Ok(usd);
    assert FromEur(Conv, usd, "USD") == Ok(100.0);
    assert RoundedFee(100.0, 0.003, "USD") == 0.3;
  }

  lemma Price7(k: nat)
    requires k == 7
    ensures Price(Ops[..k], Ops[k]) == Ok(Commissions[k])
  {
    assert Commissions[k] == 0.3;
    Bucket7();
    Fee7();
    assert Ops[7] == O7;
    PriceFromBucket(Ops[..7], Ops[7], [O5, O6], 0.3);
  }

  lemma Fee8()
    ensures Commission(DefaultConfig, Conv, [O5, O6, O7], O8) == Ok(0.3)
  {
    var jpy := 30000.0 / 129.53;
    var usd := 100.0 / 1.1497;
    assert [O5, O6, O7][..2] == [O5, O6];
    assert [O5, O6][..1] == [O5];
    assert [O5][..0] == [];
    assert SumToEur(Conv, [O5]) == Ok(0.0 + jpy);
    assert SumToEur(Conv, [O5, O6]) == Ok(0.0 + jpy + 1000.0);
    assert SumToEur(Conv, [O5, O6, O7]) == Ok(0.0 + jpy + 1000.0 + usd);
    assert RoundedFee(100.0, 0.003, "EUR") == 0.3;
  }

  lemma Price8(k: nat)
    requires k == 8
    ensures Price(Ops[..k], Ops[k]) == Ok(Commissions[k])
  {
    assert Commissions[k] == 0.3;
    Bucket8();
    Fee8();
    assert Ops[8] == O8;
    PriceFromBucket(Ops[..8], Ops[8], [O5, O6, O7], 0.3);
  }

  lemma Price9(k: nat)
    requires k == 9
    ensures Price(Ops[..k], Ops[k]) == Ok(Commissions[k])
  {
    assert Commissions[k] == 3.0;
    assert RoundedFee(10000.0, 0.0003, "EUR") == 3.0;
  }

  lemma Price10(k: nat)
    requires k == 10
    ensures Price(Ops[..k], Ops[k]) == Ok(Commissions[k])
  {
    assert Commissions[k] == 0.0;
    Bucket10();
    FirstEurWithdrawal(O10, 0.0);
    assert Ops[10] == O10;
    PriceFromBucket(Ops[..10], Ops[10], [], 0.0);
  }

  lemma Price11(k: nat)
    requires k == 11
    ensures Price(Ops[..k], Ops[k]) == Ok(Commissions[k])
  {
    assert Commissions[k] == 0.0;
    Bucket11();
    FirstEurWithdrawal(O11, 0.0);
    assert Ops[11] == O11;
    PriceFromBucket(Ops[..11], Ops[11], [], 0.0);
  }

  lemma Fee12()
    ensures Commission(DefaultConfig, Conv, [], O12) == Ok(8612.0)
  {
    var eur := 3000000.0 / 129.53;
    assert SumToEur(Conv, []) == Ok(0.0);
    assert EurAmount(Conv, O12) == Ok(eur);
    assert FromEur(Conv, eur - 1000.0, "JPY") == Ok(2870470.0);
    assert RoundedFee(2870470.0, 0.003, "JPY") == 8612.0;
  }

  lemma Price12(k: nat)
    requires k == 12
    ensures Price(Ops[..k], Ops[k]) == Ok(Commissions[k])
  {
    assert Commissions[k] == 8612.0;
    Bucket12();
    Fee12();
    assert Ops[12] == O12;
    PriceFromBucket(Ops[..12], Ops[12], [], 8612.0);
  }

  /** A commission that is a whole number `n` of cents prints as FixedPoint(n, 2). */
  lemma PrintedCents(x: real, n: nat, currency: string)
    requires currency != "JPY" && x * 100.0 == n as real
    ensures FormatCommission(x, currency) == FixedPoint(n, 2)
  {
    assert Pow10(2) == 100;
    assert Scaled(x, 2) == n as real;
    assert RoundHalfAwayFromZero(n as real) == n;
  }

  /** A whole number of yen prints as its digits. */
  lemma PrintedYen(x: real, n: nat)
    requires x == n as real
    ensures FormatCommission(x, "JPY") == NatToString(n)
  {
    assert Pow10(0) == 1;
    assert Scaled(x, 0) == n as real;
    assert RoundHalfAwayFromZero(n as real) == n;
  }

  lemma OneDigit(d: nat)
    requires d < 10
    ensures NatToString(d) == [DigitChar(d)]
  {
  }

  lemma TwoDigits(n: nat)
    requires 10 <= n < 100
    ensures NatToString(n) == [DigitChar(n / 10), DigitChar(n % 10)]
  {
    OneDigit(n / 10);
  }

  lemma PadOne(c: char)
    ensures ZeroPad([c], 2) == ['0', c]
  {
    assert Zeros(1) == ['0'];
  }

  lemma PadTwo(s: string)
    requires |s| == 2
    ensures ZeroPad(s, 2) == s
  {
  }

  /** `n` cents print as the whole part, a point and two fraction digits. */
  lemma CentsDigits(n: nat, whole: nat, frac: nat)
    requires frac < 100 && n == whole * 100 + frac
    ensures FixedPoint(n, 2) == NatToString(whole) + "." + ZeroPad(NatToString(frac), 2)
  {
    assert Pow10(2) == 100;
    assert n / 100 == whole && n % 100 == frac;
  }

  /** The two fraction digits of `frac` cents. */
  lemma FractionOf(frac: nat)
    requires frac < 100
    ensures frac < 10 ==> ZeroPad(NatToString(frac), 2) == ['0', DigitChar(frac)]
    ensures frac >= 10 ==> ZeroPad(NatToString(frac), 2) == [DigitChar(frac / 10), DigitChar(frac % 10)]
  {
    if frac < 10 {
      OneDigit(frac);
      PadOne(DigitChar(frac));
    } else {
      TwoDigits(frac);
      PadTwo(NatToString(frac));
    }
  }

  lemma PrintedWholeAndFraction(x: real, currency: string, whole: nat, frac: nat)
    requires currency != "JPY" && whole < 10 && frac < 100
    requires x * 100.0 == (whole * 100 + frac) as real
    ensures FormatCommission(x, currency) == [DigitChar(whole), '.'] + ZeroPad(NatToString(frac), 2)
  {
    var n := whole * 100 + frac;
    var fraction := ZeroPad(NatToString(frac), 2);
    calc {
      FormatCommission(x, currency);
      { PrintedCents(x, n, currency); }
      FixedPoint(n, 2);
      { CentsDigits(n, whole, frac); }
      NatToString(whole) + "." + fraction;
      { OneDigit(whole); }
      [DigitChar(whole)] + "." + fraction;
      [DigitChar(whole), '.'] + fraction;
    }
  }

  /** Amounts below ten with a fraction of exactly `frac` cents. */
  lemma PrintedSmall(x: real, currency: string, whole: nat, frac: nat)
    requires currency != "JPY" && whole < 10 && frac < 100
    requires x * 100.0 == (whole * 100 + frac) as real
    ensures frac < 10 ==> FormatCommission(x, currency) == [DigitChar(whole), '.', '0', DigitChar(frac)]
    ensures frac >= 10 ==> FormatCommission(x, currency) == [DigitChar(whole), '.', DigitChar(frac / 10), DigitChar(frac % 10)]
  {
    PrintedWholeAndFraction(x, currency, whole, frac);
    FractionOf(frac);
  }

  /** The lines the example prints. */
  lemma PrintsEur060()
    ensures FormatCommission(0.6, "EUR") == "0.60"
  {
    PrintedSmall(0.6, "EUR", 0, 60);
  }

  lemma PrintsEur000()
    ensures FormatCommission(0.0, "EUR") == "0.00"
  {
    PrintedSmall(0.0, "EUR", 0, 0);
  }

  lemma PrintsEur006()
    ensures FormatCommission(0.06, "EUR") == "0.06"
  {
    PrintedSmall(0.06, "EUR", 0, 6);
  }

  lemma PrintsEur150()
    ensures FormatCommission(1.5, "EUR") == "1.50"
  {
    PrintedSmall(1.5, "EUR", 1, 50);
  }

  lemma PrintsEur070()
    ensures FormatCommission(0.7, "EUR") == "0.70"
  {
    PrintedSmall(0.7, "EUR", 0, 70);
  }

  lemma PrintsUsd030()
    ensures FormatCommission(0.3, "USD") == "0.30"
  {
    PrintedSmall(0.3, "USD", 0, 30);
  }

  lemma PrintsEur030()
    ensures FormatCommission(0.3, "EUR") == "0.30"
  {
    PrintedSmall(0.3, "EUR", 0, 30);
  }

  lemma PrintsEur300()
    ensures FormatCommission(3.0, "EUR") == "3.00"
  {
    PrintedSmall(3.0, "EUR", 3, 0);
  }

  lemma PrintsJpy0()
    ensures FormatCommission(0.0, "JPY") == "0"
  {
    PrintedYen(0.0, 0);
    OneDigit(0);
  }

  lemma PrintsJpy8612()
    ensures FormatCommission(8612.0, "JPY") == "8612"
  {
    PrintedYen(8612.0, 8612);
    TwoDigits(86);
    assert NatToString(861) == NatToString(86) + [DigitChar(1)];
    assert NatToString(8612) == NatToString(861) + [DigitChar(2)];
  }

  /** Each expected line is how the calculator prints the expected commission. */
  lemma PrintedLine(k: nat)
    requires k < |Ops|
    ensures FormatCommission(Commissions[k], Ops[k].currency) == Expected[k]
  {
    match k
    case 0 => PrintsEur060();
    case 1 => PrintsEur000();
    case 2 => PrintsEur000();
    case 3 => PrintsEur006();
    case 4 => PrintsEur150();
    case 5 => PrintsJpy0();
    case 6 => PrintsEur070();
    case 7 => PrintsUsd030();
    case 8 => PrintsEur030();
    case 9 => PrintsEur300();
    case 10 => PrintsEur000();
    case 11 => PrintsEur000();
    case 12 => PrintsJpy8612();
  }

  lemma PriceAt(k: nat)
    requires k < |Ops|
    ensures Price(Ops[..k], Ops[k]) == Ok(Commissions[k])
  {
    if k < 7 {
      PriceAtEarly(k);
    } else {
      PriceAtLate(k);
    }
  }

  lemma PriceAtEarly(k: nat)
    requires k < 7
    ensures Price(Ops[..k], Ops[k]) == Ok(Commissions[k])
  {
    match k
    case 0 => Price0(k);
    case 1 => Price1(k);
    case 2 => Price2(k);
    case 3 => Price3(k);
    case 4 => Price4(k);
    case 5 => Price5(k);
    case 6 => Price6(k);
  }

  lemma PriceAtLate(k: nat)
    requires 7 <= k < |Ops|
    ensures Price(Ops[..k], Ops[k]) == Ok(Commissions[k])
  {
    match k
    case 7 => Price7(k);
    case 8 => Price8(k);
    case 9 => Price9(k);
    case 10 => Price10(k);
    case 11 => Price11(k);
    case 12 => Price12(k);
  }

  lemma DistinctOps(i: nat, k: nat)
    requires i < k < |Ops|
    ensures Ops[i] != Ops[k]
  {
  }

  lemma NotSame(i: nat, k: nat)
    requires i < k < |Ops|
    ensures !IsSameOperation(Ops[i], Ops[k])
  {
    DistinctOps(i, k);
    SameOperationIsEquality(Ops[i], Ops[k]);
  }

  /** No operation of the example repeats an earlier one. */
  lemma ExampleOperationIsNew(k: nat)
    requires k < |Ops|
    ensures !ContainsSame(Ops[..k], Ops[k])
  {
    forall i | 0 <= i < k
      ensures !IsSameOperation(Ops[..k][i], Ops[k])
    {
      assert Ops[..k][i] == Ops[i];
      NotSame(i, k);
    }
  }

  /**
   * The worked example: starting from an empty history, the thirteen
   * operations print exactly the expected lines, no operation fails and
   * all thirteen end up in the history.
   */
  lemma ExampleOutput()
    ensures Replay(Price, [], Ops) == Outcome(Expected, None, Ops)
  {
    var none: seq<Operation> := [];
    forall j | 0 <= j < |Ops|
      ensures none + Ops[..j] == Ops[..j]
      ensures Price(none + Ops[..j], Ops[j]) == Ok(Commissions[j])
      ensures !ContainsSame(none + Ops[..j], Ops[j])
      ensures Expected[j] == FormatCommission(Commissions[j], Ops[j].currency)
    {
      assert none + Ops[..j] == Ops[..j];
      PriceAt(j);
      ExampleOperationIsNew(j);
      PrintedLine(j);
    }
    ReplayAllPriced(Price, none, Ops, Commissions, Expected);
    assert none + Ops == Ops;
  }
}
