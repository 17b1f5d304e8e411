/**
 * CommissionCalculator: the fee of one operation, given the configuration,
 * the currency converter and the history of operations already priced.
 *
 * `Commission` is the rule set as a function of the weekly bucket the
 * history returns; `CalculateCommission` is the service method, which asks
 * the history for that bucket and sums it in a loop.
 */
module CommissionCalculator {
  import opened Errors
  import opened OperationModel
  import opened History
  import opened CurrencyConverter
  import opened AppConfig

  /** getCommissionRate: deposits have one rate whatever the user type; withdrawals one per user type. */
  function CommissionRate(cfg: CommissionConfig, operationType: OperationType, userType: UserType): real {
    match operationType
    case Deposit => cfg.depositRate
    case Withdraw => if userType == Private then cfg.privateWithdrawRate else cfg.businessWithdrawRate
  }

  /** The deposit rate does not depend on the user type; each withdrawal rate is its own setting. */
  lemma CommissionRateSelection(cfg: CommissionConfig, userType: UserType)
    ensures CommissionRate(cfg, Deposit, userType) == CommissionRate(cfg, Deposit, Private) == cfg.depositRate
    ensures CommissionRate(cfg, Withdraw, Private) == cfg.privateWithdrawRate
    ensures CommissionRate(cfg, Withdraw, Business) == cfg.businessWithdrawRate
  {
  }

  predicate IsWhole(x: real) {
    x.Floor as real == x
  }

  /** PHP ceil: the least integer not below `x`. */
  function Ceil(x: real): (c: int)
    ensures x <= c as real < x + 1.0
  {
    -((-x).Floor)
  }

  function Abs(x: real): real {
    if x < 0.0 then -x else x
  }

  function Max(a: real, b: real): (m: real)
    ensures m >= a && m >= b && (m == a || m == b)
  {
    if a >= b then a else b
  }

  /**
   * roundCommission: nothing for amounts that are not positive; otherwise up
   * to a whole yen for JPY, exactly 0.30 for USD amounts within 0.01 of 0.30,
   * and up to a whole cent for everything else.
   */
  function RoundCommission(amount: real, currency: string): (r: real)
    ensures r >= 0.0
    ensures amount <= 0.0 ==> r == 0.0
    ensures amount > 0.0 && currency == "JPY" ==> IsWhole(r) && amount <= r < amount + 1.0
    ensures amount > 0.0 && currency == "USD" && Abs(amount - 0.30) < 0.01 ==> r == 0.30
    ensures amount > 0.0 && currency != "JPY" && !(currency == "USD" && Abs(amount - 0.30) < 0.01) ==>
      IsWhole(r * 100.0) && amount <= r < amount + 0.01
  {
    if amount <= 0.0 then 0.0
    else if currency == "JPY" then Ceil(amount) as real
    else if currency == "USD" && Abs(amount - 0.30) < 0.01 then 0.30
    else Ceil(amount * 100.0) as real / 100.0
  }

  /** `$commission = $amount * rate` followed by roundCommission. */
  function RoundedFee(amount: real, rate: real, currency: string): real {
    RoundCommission(amount * rate, currency)
  }

  lemma CeilMonotone(x: real, y: real)
    requires x <= y
    ensures Ceil(x) <= Ceil(y)
  {
  }

  lemma CeilOfWhole(n: int)
    ensures Ceil(n as real) == n
  {
  }

  predicate InUsdWindow(amount: real, currency: string) {
    currency == "USD" && Abs(amount - 0.30) < 0.01
  }

  /** A larger amount never gets a smaller rounded fee, the USD window included. */
  lemma RoundCommissionMonotone(a: real, b: real, currency: string)
    requires a <= b
    ensures RoundCommission(a, currency) <= RoundCommission(b, currency)
  {
    if a > 0.0 {
      if currency == "JPY" {
        CeilMonotone(a, b);
      } else if InUsdWindow(a, currency) && !InUsdWindow(b, currency) {
        assert b >= 0.31;
      } else if !InUsdWindow(a, currency) && InUsdWindow(b, currency) {
        assert a * 100.0 <= 29.0;
        CeilMonotone(a * 100.0, 29.0);
        CeilOfWhole(29);
      } else if !InUsdWindow(a, currency) {
        CeilMonotone(a * 100.0, b * 100.0);
      }
    }
  }

  /** Rounding a rounded fee changes nothing. */
  lemma RoundCommissionIdempotent(amount: real, currency: string)
    ensures RoundCommission(RoundCommission(amount, currency), currency) == RoundCommission(amount, currency)
  {
    var r := RoundCommission(amount, currency);
    if amount > 0.0 {
      if currency == "JPY" {
        CeilOfWhole(Ceil(amount));
      } else if !InUsdWindow(amount, currency) {
        var c := Ceil(amount * 100.0);
        assert r == c as real / 100.0;
        assert r * 100.0 == c as real;
        if InUsdWindow(r, currency) {
          assert 29.0 < c as real < 31.0;
          assert c == 30;
        } else {
          CeilOfWhole(c);
        }
      }
    }
  }

  /**
   * The USD window rounds some amounts down: 0.305 USD is charged 0.30,
   * where rounding up to the cent gives 0.31.
   */
  lemma UsdWindowRoundsDown()
    ensures RoundCommission(0.305, "USD") == 0.30 < 0.305
    ensures RoundCommission(0.305, "EUR") == 0.31
  {
    assert Ceil(0.305 * 100.0) == 31;
  }

  /** convertToEur of one operation's amount. */
  function EurAmount(conv: Converter, op: Operation): Result<real> {
    ToEur(conv, op.amount, op.currency)
  }

  /** `ops[i]` is the first operation whose amount cannot be converted. */
  predicate FirstFailure(conv: Converter, ops: seq<Operation>, i: int) {
    && 0 <= i < |ops|
    && EurAmount(conv, ops[i]).Err?
    && forall j :: 0 <= j < i ==> EurAmount(conv, ops[j]).Ok?
  }

  /** The `$totalEur` loop: the EUR amounts of `ops` added in order, stopping at the first failed conversion. */
  function SumToEur(conv: Converter, ops: seq<Operation>): Result<real> {
    if ops == [] then Ok(0.0)
    else
      var total :- SumToEur(conv, ops[..|ops| - 1]);
      var eur :- EurAmount(conv, ops[|ops| - 1]);
      Ok(total + eur)
  }

  /** The sum succeeds exactly when every amount converts; otherwise it reports the first failed conversion. */
  lemma {:induction false} SumToEurReportsFirstFailure(conv: Converter, ops: seq<Operation>)
    ensures SumToEur(conv, ops).Ok? <==> forall i :: 0 <= i < |ops| ==> EurAmount(conv, ops[i]).Ok?
    ensures SumToEur(conv, ops).Err? ==>
      exists i :: FirstFailure(conv, ops, i) && EurAmount(conv, ops[i]) == SumToEur(conv, ops)
  {
    if ops != [] {
      var init, last := ops[..|ops| - 1], ops[|ops| - 1];
      SumToEurReportsFirstFailure(conv, init);
      assert forall i :: 0 <= i < |init| ==> init[i] == ops[i];
      if SumToEur(conv, init).Err? {
        var i :| FirstFailure(conv, init, i) && EurAmount(conv, init[i]) == SumToEur(conv, init);
        assert FirstFailure(conv, ops, i);
      } else if EurAmount(conv, last).Err? {
        assert FirstFailure(conv, ops, |ops| - 1);
      }
    }
  }

  /** Summing one more operation. */
  lemma SumStep(conv: Converter, ops: seq<Operation>, i: int)
    requires 0 <= i < |ops|
    ensures SumToEur(conv, ops[..i + 1]) ==
      match SumToEur(conv, ops[..i])
      case Err(e) => Err(e)
      case Ok(total) =>
        match EurAmount(conv, ops[i])
        case Err(e) => Err(e)
        case Ok(eur) => Ok(total + eur)
  {
    assert ops[..i + 1][..i] == ops[..i];
  }

  /** Once a prefix fails to convert, the whole sum fails with the same error. */
  lemma {:induction false} SumErrorPersists(conv: Converter, ops: seq<Operation>, k: int)
    requires 0 <= k <= |ops| && SumToEur(conv, ops[..k]).Err?
    ensures SumToEur(conv, ops) == SumToEur(conv, ops[..k])
    decreases |ops|
  {
    if k < |ops| {
      var init := ops[..|ops| - 1];
      assert init[..k] == ops[..k];
      SumErrorPersists(conv, init, k);
    } else {
      assert ops[..k] == ops;
    }
  }

  /** Over EUR operations the sum is the plain sum of the amounts. */
  function AmountSum(ops: seq<Operation>): real {
    if ops == [] then 0.0 else AmountSum(ops[..|ops| - 1]) + ops[|ops| - 1].amount
  }

  lemma {:induction false} SumOfEurOperations(conv: Converter, ops: seq<Operation>)
    requires "EUR" in conv.supported
    requires forall i :: 0 <= i < |ops| ==> ops[i].currency == "EUR"
    ensures SumToEur(conv, ops) == Ok(AmountSum(ops))
  {
    if ops != [] {
      SumOfEurOperations(conv, ops[..|ops| - 1]);
    }
  }

  /**
   * The private-withdraw rule once the week's EUR total and the operation's
   * EUR amount are known: the full amount past the free count, otherwise the
   * part above the unused allowance, converted back.
   */
  function PrivateWithdrawFee(cfg: CommissionConfig, conv: Converter, count: int, total: real, current: real, op: Operation): (fee: real)
    requires EurAmount(conv, op) == Ok(current)
    ensures fee >= 0.0
  {
    var rate := CommissionRate(cfg, Withdraw, Private);
    if count >= cfg.freeOperations then
      RoundedFee(op.amount, rate, op.currency)
    else
      var freeLeft := Max(0.0, cfg.freeAmount - total);
      var billable := Max(0.0, current - freeLeft);
      if billable > 0.0 then
        ToEurOkThenFromEurOk(conv, op.amount, billable, op.currency);
        RoundedFee(FromEur(conv, billable, op.currency).value, rate, op.currency)
      else
        0.0
  }

  /**
   * calculateCommission over the weekly bucket `bucket` (the operations the
   * history returns for `op`).
   */
  function Commission(cfg: CommissionConfig, conv: Converter, bucket: seq<Operation>, op: Operation): (r: Result<real>)
    ensures r.Ok? ==> r.value >= 0.0
    ensures r.Err? ==> op.operationType == Withdraw && op.userType == Private
  {
    if op.operationType.Deposit? then
      Ok(RoundedFee(op.amount, CommissionRate(cfg, Deposit, op.userType), op.currency))
    else if op.userType.Business? then
      Ok(RoundedFee(op.amount, CommissionRate(cfg, Withdraw, Business), op.currency))
    else
      var total :- SumToEur(conv, bucket);
      var current :- EurAmount(conv, op);
      Ok(PrivateWithdrawFee(cfg, conv, |bucket|, total, current, op))
  }

  /** The private-withdraw branch of Commission. */
  lemma PrivateWithdrawCommission(cfg: CommissionConfig, conv: Converter, bucket: seq<Operation>, op: Operation)
    requires IsPrivateWithdraw(op) && SumToEur(conv, bucket).Ok? && EurAmount(conv, op).Ok?
    ensures Commission(cfg, conv, bucket, op) ==
      Ok(PrivateWithdrawFee(cfg, conv, |bucket|, SumToEur(conv, bucket).value, EurAmount(conv, op).value, op))
  {
  }

  /** A deposit costs its amount times the deposit rate, rounded, for either user type and whatever the history holds. */
  lemma DepositFee(cfg: CommissionConfig, conv: Converter, bucket: seq<Operation>, op: Operation)
    requires op.operationType == Deposit
    ensures Commission(cfg, conv, bucket, op) == Ok(RoundedFee(op.amount, cfg.depositRate, op.currency))
  {
  }

  /** A business withdrawal costs its full amount times the business rate, rounded, whatever the history holds. */
  lemma BusinessWithdrawFee(cfg: CommissionConfig, conv: Converter, bucket: seq<Operation>, op: Operation)
    requires op.operationType == Withdraw && op.userType == Business
    ensures Commission(cfg, conv, bucket, op) == Ok(RoundedFee(op.amount, cfg.businessWithdrawRate, op.currency))
  {
  }

  predicate IsPrivateWithdraw(op: Operation) {
    op.operationType == Withdraw && op.userType == Private
  }

  /**
   * Once the bucket holds the free number of withdrawals, the full amount is
   * charged at the private rate, however much of the allowance is unused.
   */
  lemma ThresholdChargesFullAmount(cfg: CommissionConfig, conv: Converter, bucket: seq<Operation>, op: Operation)
    requires IsPrivateWithdraw(op) && |bucket| >= cfg.freeOperations
    requires SumToEur(conv, bucket).Ok? && EurAmount(conv, op).Ok?
    ensures Commission(cfg, conv, bucket, op) == Ok(RoundedFee(op.amount, cfg.privateWithdrawRate, op.currency))
  {
    PrivateWithdrawCommission(cfg, conv, bucket, op);
  }

  /**
   * Every bucket entry and the operation itself are converted before the
   * count is looked at: a failed conversion is the result even past the
   * threshold, and the first failure in bucket order wins.
   */
  lemma ConversionFailureWins(cfg: CommissionConfig, conv: Converter, bucket: seq<Operation>, op: Operation)
    requires IsPrivateWithdraw(op)
    requires SumToEur(conv, bucket).Err? || EurAmount(conv, op).Err?
    ensures SumToEur(conv, bucket).Err? ==> Commission(cfg, conv, bucket, op) == Err(SumToEur(conv, bucket).error)
    ensures SumToEur(conv, bucket).Ok? ==> Commission(cfg, conv, bucket, op) == Err(EurAmount(conv, op).error)
  {
  }

  /** Below the threshold, a withdrawal that keeps the week's EUR total within the allowance is free, and rounding is not involved. */
  lemma WithinAllowanceIsFree(cfg: CommissionConfig, conv: Converter, bucket: seq<Operation>, op: Operation)
    requires IsPrivateWithdraw(op) && |bucket| < cfg.freeOperations
    requires SumToEur(conv, bucket).Ok? && EurAmount(conv, op).Ok?
    requires SumToEur(conv, bucket).value + EurAmount(conv, op).value <= cfg.freeAmount
    ensures Commission(cfg, conv, bucket, op) == Ok(0.0)
  {
    PrivateWithdrawCommission(cfg, conv, bucket, op);
  }

  /**
   * Below the threshold, a withdrawal that crosses the allowance is charged
   * only on the EUR part above it, converted back to its own currency.
   */
  lemma CrossingAllowanceChargesExcess(cfg: CommissionConfig, conv: Converter, bucket: seq<Operation>, op: Operation)
    requires IsPrivateWithdraw(op) && |bucket| < cfg.freeOperations
    requires SumToEur(conv, bucket).Ok? && EurAmount(conv, op).Ok?
    requires SumToEur(conv, bucket).value <= cfg.freeAmount < SumToEur(conv, bucket).value + EurAmount(conv, op).value
    ensures var excess := SumToEur(conv, bucket).value + EurAmount(conv, op).value - cfg.freeAmount;
      && FromEur(conv, excess, op.currency).Ok?
      && Commission(cfg, conv, bucket, op) ==
           Ok(RoundedFee(FromEur(conv, excess, op.currency).value, cfg.privateWithdrawRate, op.currency))
  {
    var total, current := SumToEur(conv, bucket).value, EurAmount(conv, op).value;
    var excess := total + current - cfg.freeAmount;
    ToEurOkThenFromEurOk(conv, op.amount, excess, op.currency);
    PrivateWithdrawCommission(cfg, conv, bucket, op);
    assert Max(0.0, current - Max(0.0, cfg.freeAmount - total)) == excess;
  }

  /**
   * Below the threshold, once the allowance is used up a positive withdrawal
   * is charged exactly as past the threshold: EUR and back is the identity.
   */
  lemma ExhaustedAllowanceChargesFullAmount(cfg: CommissionConfig, conv: Converter, bucket: seq<Operation>, op: Operation)
    requires IsPrivateWithdraw(op) && |bucket| < cfg.freeOperations
    requires SumToEur(conv, bucket).Ok? && SumToEur(conv, bucket).value >= cfg.freeAmount
    requires EurAmount(conv, op).Ok? && EurAmount(conv, op).value > 0.0
    ensures Commission(cfg, conv, bucket, op) == Ok(RoundedFee(op.amount, cfg.privateWithdrawRate, op.currency))
  {
    ToEurThenFromEur(conv, op.amount, op.currency);
    PrivateWithdrawCommission(cfg, conv, bucket, op);
  }

  /**
   * With a positive rate and a non-negative private rate, the allowance can
   * only lower a private withdrawal's fee below the full charge.
   */
  lemma PrivateFeeAtMostFullCharge(cfg: CommissionConfig, conv: Converter, bucket: seq<Operation>, op: Operation)
    requires IsPrivateWithdraw(op) && cfg.privateWithdrawRate >= 0.0
    requires op.currency != "EUR" ==> conv.rate(op.currency).Ok? && conv.rate(op.currency).value > 0.0
    requires Commission(cfg, conv, bucket, op).Ok?
    ensures Commission(cfg, conv, bucket, op).value <= RoundedFee(op.amount, cfg.privateWithdrawRate, op.currency)
  {
    PrivateWithdrawCommission(cfg, conv, bucket, op);
    AllowanceOnlyLowersFee(cfg, conv, |bucket|, SumToEur(conv, bucket).value, EurAmount(conv, op).value, op);
  }

  lemma AllowanceOnlyLowersFee(cfg: CommissionConfig, conv: Converter, count: int, total: real, current: real, op: Operation)
    requires EurAmount(conv, op) == Ok(current) && cfg.privateWithdrawRate >= 0.0
    requires op.currency != "EUR" ==> conv.rate(op.currency).Ok? && conv.rate(op.currency).value > 0.0
    ensures PrivateWithdrawFee(cfg, conv, count, total, current, op) <= RoundedFee(op.amount, cfg.privateWithdrawRate, op.currency)
  {
    var rate := cfg.privateWithdrawRate;
    if count < cfg.freeOperations {
      var billable := Max(0.0, current - Max(0.0, cfg.freeAmount - total));
      if billable > 0.0 {
        ConvertedBackAtMost(conv, op.amount, billable, op.currency);
        var inCurrency := FromEur(conv, billable, op.currency).value;
        RoundedFeeMonotone(inCurrency, op.amount, rate, op.currency);
        assert PrivateWithdrawFee(cfg, conv, count, total, current, op) == RoundedFee(inCurrency, CommissionRate(cfg, Withdraw, Private), op.currency);
      }
    }
  }

  lemma RoundedFeeMonotone(x: real, y: real, rate: real, currency: string)
    requires x <= y && rate >= 0.0
    ensures RoundedFee(x, rate, currency) <= RoundedFee(y, rate, currency)
  {
    assert x * rate <= y * rate;
    RoundCommissionMonotone(x * rate, y * rate, currency);
  }

  /** With a positive rate, converting back an EUR amount no larger than the operation's gives no more than the operation's amount. */
  lemma ConvertedBackAtMost(conv: Converter, amount: real, eur: real, currency: string)
    requires currency != "EUR" ==> conv.rate(currency).Ok? && conv.rate(currency).value > 0.0
    requires ToEur(conv, amount, currency).Ok? && eur <= ToEur(conv, amount, currency).value
    ensures FromEur(conv, eur, currency).Ok? && FromEur(conv, eur, currency).value <= amount
  {
    ToEurThenFromEur(conv, amount, currency);
    if currency != "EUR" {
      var x := conv.rate(currency).value;
      var current := ToEur(conv, amount, currency).value;
      assert FromEur(conv, current, currency).value == amount;
      assert current * x == amount;
      assert FromEur(conv, eur, currency).value == eur * x;
      assert eur * x <= current * x;
    }
  }

  /** The `$totalEur` loop: adds up the EUR amounts of the bucket, stopping at the first failed conversion. */
  method TotalEur(conv: Converter, weekly: seq<Operation>) returns (r: Result<real>)
    ensures r == SumToEur(conv, weekly)
  {
    var totalEur := 0.0;
    var i := 0;
    while i < |weekly|
      invariant 0 <= i <= |weekly|
      invariant SumToEur(conv, weekly[..i]) == Ok(totalEur)
    {
      SumStep(conv, weekly, i);
      var eur := EurAmount(conv, weekly[i]);
      if eur.Err? {
        SumErrorPersists(conv, weekly, i + 1);
        return Err(eur.error);
      }
      totalEur := totalEur + eur.value;
      i := i + 1;
    }
    assert weekly[..i] == weekly;
    return Ok(totalEur);
  }

  /**
   * calculateCommission. The weekly bucket is asked of the history and its
   * EUR total accumulated by `TotalEur`; the history is only read.
   */
  method CalculateCommission(history: OperationHistory, cfg: CommissionConfig, conv: Converter, op: Operation)
    returns (r: Result<real>)
    ensures r == Commission(cfg, conv, WeeklyBucket(history.operations, op), op)
  {
    if op.operationType.Deposit? {
      return Ok(RoundedFee(op.amount, CommissionRate(cfg, Deposit, op.userType), op.currency));
    }
    if op.userType.Business? {
      return Ok(RoundedFee(op.amount, CommissionRate(cfg, Withdraw, Business), op.currency));
    }
    var weekly := history.GetWeeklyOperations(op);
    var operationCount := |weekly|;
    var totalEur :- TotalEur(conv, weekly);
    var currentAmountEur :- EurAmount(conv, op);
    PrivateWithdrawCommission(cfg, conv, weekly, op);
    var rate := CommissionRate(cfg, Withdraw, Private);
    if operationCount >= cfg.freeOperations {
      return Ok(RoundedFee(op.amount, rate, op.currency));
    }
    var freeLeft := Max(0.0, cfg.freeAmount - totalEur);
    var commissionableEur := Max(0.0, currentAmountEur - freeLeft);
    if commissionableEur > 0.0 {
      ToEurOkThenFromEurOk(conv, op.amount, commissionableEur, op.currency);
      var inCurrency := FromEur(conv, commissionableEur, op.currency).value;
      return Ok(RoundedFee(inCurrency, rate, op.currency));
    }
    return Ok(0.0);
  }
}
