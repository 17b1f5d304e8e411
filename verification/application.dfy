/**
 * Application: reads the operations, then for each one in file order
 * computes its commission against the history of the operations before it,
 * records it, and prints the commission on a line of its own.
 */
module Application {
  import opened Errors
  import opened Strings
  import opened OperationModel
  import opened History
  import opened CurrencyConverter
  import opened AppConfig
  import opened CommissionCalculator
  import opened OperationParser

  /** formatAndOutputCommission: no decimals for JPY, two for every other currency. */
  function FormatCommission(amount: real, currency: string): string {
    var decimals := if currency == "JPY" then 0 else 2;
    NumberFormat(amount, decimals)
  }

  /** The decimals used for printing agree with getDecimalPlacesForCurrency. */
  lemma FormatUsesConfiguredDecimals(amount: real, currency: string)
    ensures FormatCommission(amount, currency) == NumberFormat(amount, DecimalPlaces(currency))
  {
  }

  /** roundCommission yields a whole number of the currency's printed units. */
  lemma RoundCommissionInPrintedUnits(amount: real, currency: string)
    ensures IsWhole(Scaled(RoundCommission(amount, currency), DecimalPlaces(currency)))
  {
    var r := RoundCommission(amount, currency);
    if currency == "JPY" {
      assert Pow10(0) == 1;
      assert Scaled(r, 0) == r;
    } else {
      assert Pow10(2) == 100;
      assert Scaled(r, 2) == r * 100.0;
      if amount > 0.0 && InUsdWindow(amount, currency) {
        assert r * 100.0 == 30.0;
      }
    }
  }

  lemma RoundedFeeInPrintedUnits(amount: real, rate: real, currency: string)
    ensures IsWhole(Scaled(RoundedFee(amount, rate, currency), DecimalPlaces(currency)))
  {
    RoundCommissionInPrintedUnits(amount * rate, currency);
  }

  /** Every commission calculateCommission returns is a whole number of printed units. */
  lemma CommissionInPrintedUnits(cfg: CommissionConfig, conv: Converter, bucket: seq<Operation>, op: Operation)
    requires Commission(cfg, conv, bucket, op).Ok?
    ensures IsWhole(Scaled(Commission(cfg, conv, bucket, op).value, DecimalPlaces(op.currency)))
  {
    if op.operationType.Deposit? {
      RoundedFeeInPrintedUnits(op.amount, CommissionRate(cfg, Deposit, op.userType), op.currency);
    } else if op.userType.Business? {
      RoundedFeeInPrintedUnits(op.amount, CommissionRate(cfg, Withdraw, Business), op.currency);
    } else {
      var total := SumToEur(conv, bucket).value;
      var current := EurAmount(conv, op).value;
      assert Commission(cfg, conv, bucket, op).value == PrivateWithdrawFee(cfg, conv, |bucket|, total, current, op);
      PrivateWithdrawFeeInPrintedUnits(cfg, conv, |bucket|, total, current, op);
    }
  }

  lemma PrivateWithdrawFeeInPrintedUnits(cfg: CommissionConfig, conv: Converter, count: int, total: real, current: real, op: Operation)
    requires EurAmount(conv, op) == Ok(current)
    ensures IsWhole(Scaled(PrivateWithdrawFee(cfg, conv, count, total, current, op), DecimalPlaces(op.currency)))
  {
    var rate := CommissionRate(cfg, Withdraw, Private);
    if count >= cfg.freeOperations {
      RoundedFeeInPrintedUnits(op.amount, rate, op.currency);
    } else {
      var freeLeft := Max(0.0, cfg.freeAmount - total);
      var billable := Max(0.0, current - freeLeft);
      if billable > 0.0 {
        ToEurOkThenFromEurOk(conv, op.amount, billable, op.currency);
        RoundedFeeInPrintedUnits(FromEur(conv, billable, op.currency).value, rate, op.currency);
      } else {
        assert Scaled(0.0, DecimalPlaces(op.currency)) == 0.0;
      }
    }
  }

  /** The printed line of a commission reads back as exactly that commission. */
  lemma PrintedCommissionIsExact(cfg: CommissionConfig, conv: Converter, bucket: seq<Operation>, op: Operation)
    requires Commission(cfg, conv, bucket, op).Ok?
    ensures var c := Commission(cfg, conv, bucket, op).value;
      var d := DecimalPlaces(op.currency);
      && IsFixedPoint(FormatCommission(c, op.currency), d)
      && FixedPointValue(FormatCommission(c, op.currency), d) as real == Scaled(c, d)
  {
    CommissionInPrintedUnits(cfg, conv, bucket, op);
    var c := Commission(cfg, conv, bucket, op).value;
    NumberFormatExact(c, DecimalPlaces(op.currency));
  }

  /**
   * What a run leaves behind: the lines printed, the failure that stopped
   * it (if any) and the operations recorded in the history.
   */
  datatype Outcome = Outcome(lines: seq<string>, failure: Option<Error>, history: seq<Operation>)

  /** What calculateCommission returns for `op` when the history holds `past`. */
  type Pricing = (seq<Operation>, Operation) -> Result<real>

  /** The production pricing: calculateCommission over the weekly bucket of the history. */
  function CommissionPricing(cfg: CommissionConfig, conv: Converter): Pricing {
    (past: seq<Operation>, op: Operation) => Commission(cfg, conv, WeeklyBucket(past, op), op)
  }

  /** The loop of run: price, record, print, stopping at the first failure. */
  function Replay(price: Pricing, past: seq<Operation>, ops: seq<Operation>): Outcome
    decreases |ops|
  {
    if ops == [] then Outcome([], None, past)
    else
      match price(past, ops[0])
      case Err(e) => Outcome([], Some(e), past)
      case Ok(c) =>
        var rest := Replay(price, Record(past, ops[0]), ops[1..]);
        rest.(lines := [FormatCommission(c, ops[0].currency)] + rest.lines)
  }

  /** The history after adding `ops` one by one. */
  function RecordAll(past: seq<Operation>, ops: seq<Operation>): seq<Operation>
    decreases |ops|
  {
    if ops == [] then past else RecordAll(Record(past, ops[0]), ops[1..])
  }

  /** Line `k` is the commission of ops[k] against the history of the operations before it. */
  predicate PricedLine(price: Pricing, past: seq<Operation>, ops: seq<Operation>, k: nat, line: string)
    requires k < |ops|
  {
    var r := price(RecordAll(past, ops[..k]), ops[k]);
    r.Ok? && line == FormatCommission(r.value, ops[k].currency)
  }

  lemma ShiftPrefix(ops: seq<Operation>, k: nat)
    requires k < |ops|
    ensures ops[..k + 1][1..] == ops[1..][..k]
    ensures ops[..k + 1] != [] && ops[..k + 1][0] == ops[0]
  {
  }

  /**
   * A run stops at the first operation that cannot be priced: it prints one
   * line per operation before it, reports that operation's error, and the
   * history ends up holding exactly the operations that were priced.
   */
  lemma {:induction false} ReplayStopsAtFirstFailure(price: Pricing, past: seq<Operation>, ops: seq<Operation>)
    ensures var o := Replay(price, past, ops);
      && |o.lines| <= |ops|
      && (o.failure.None? <==> |o.lines| == |ops|)
      && o.history == RecordAll(past, ops[..|o.lines|])
      && (o.failure.Some? ==> price(RecordAll(past, ops[..|o.lines|]), ops[|o.lines|]) == Err(o.failure.value))
    decreases |ops|
  {
    if ops != [] {
      var o := Replay(price, past, ops);
      assert ops[..0] == [];
      match price(past, ops[0])
      case Err(e) =>
        assert o == Outcome([], Some(e), past);
      case Ok(c) =>
        var past' := Record(past, ops[0]);
        ReplayStopsAtFirstFailure(price, past', ops[1..]);
        var rest := Replay(price, past', ops[1..]);
        assert o == rest.(lines := [FormatCommission(c, ops[0].currency)] + rest.lines);
        var n := |rest.lines|;
        RecordAllStep(past, ops, n);
        assert o.history == RecordAll(past, ops[..n + 1]);
        if o.failure.Some? {
          assert ops[n + 1] == ops[1..][n];
        }
    }
  }

  /** Recording the first n + 1 operations is recording the first one, then the n after it. */
  lemma RecordAllStep(past: seq<Operation>, ops: seq<Operation>, n: nat)
    requires n < |ops|
    ensures RecordAll(past, ops[..n + 1]) == RecordAll(Record(past, ops[0]), ops[1..][..n])
    ensures n + 1 == |ops| ==> ops[1..][..n] == ops[1..]
  {
    ShiftPrefix(ops, n);
  }

  /** Line `k` of a run is the commission of ops[k] against the history of the operations before it. */
  lemma {:induction false} ReplayLinesPriced(price: Pricing, past: seq<Operation>, ops: seq<Operation>)
    ensures var o := Replay(price, past, ops);
      |o.lines| <= |ops| && forall k :: 0 <= k < |o.lines| ==> PricedLine(price, past, ops, k, o.lines[k])
    decreases |ops|
  {
    if ops != [] {
      var o := Replay(price, past, ops);
      assert ops[..0] == [];
      if price(past, ops[0]).Ok? {
        var past' := Record(past, ops[0]);
        ReplayLinesPriced(price, past', ops[1..]);
        var rest := Replay(price, past', ops[1..]);
        forall k | 0 <= k < |o.lines|
          ensures PricedLine(price, past, ops, k, o.lines[k])
        {
          if k > 0 {
            ShiftPrefix(ops, k - 1);
            assert PricedLine(price, past', ops[1..], k - 1, rest.lines[k - 1]);
            assert RecordAll(past, ops[..k]) == RecordAll(past', ops[1..][..k - 1]);
          }
        }
      }
    }
  }

  /**
   * One line per operation until the first failure: each line prices its
   * operation against the history of all operations before it, the failure
   * is that of the first operation that cannot be priced, and the history
   * ends up holding exactly the operations that were priced.
   */
  lemma ReplayPricesAgainstPast(price: Pricing, past: seq<Operation>, ops: seq<Operation>)
    ensures var o := Replay(price, past, ops);
      && |o.lines| <= |ops|
      && (o.failure.None? <==> |o.lines| == |ops|)
      && o.history == RecordAll(past, ops[..|o.lines|])
      && (forall k :: 0 <= k < |o.lines| ==> PricedLine(price, past, ops, k, o.lines[k]))
      && (o.failure.Some? ==> price(RecordAll(past, ops[..|o.lines|]), ops[|o.lines|]) == Err(o.failure.value))
  {
    ReplayStopsAtFirstFailure(price, past, ops);
    ReplayLinesPriced(price, past, ops);
  }

  /**
   * When every operation can be priced and none repeats one recorded before
   * it, the run prints the commission of each, in order, and appends all of
   * them to the history.
   */
  lemma {:induction false} ReplayAllPriced(price: Pricing, past: seq<Operation>, ops: seq<Operation>,
                                           commissions: seq<real>, lines: seq<string>)
    requires |commissions| == |ops| == |lines|
    requires forall j :: 0 <= j < |ops| ==> price(past + ops[..j], ops[j]) == Ok(commissions[j])
    requires forall j :: 0 <= j < |ops| ==> !ContainsSame(past + ops[..j], ops[j])
    requires forall j :: 0 <= j < |ops| ==> lines[j] == FormatCommission(commissions[j], ops[j].currency)
    ensures Replay(price, past, ops) == Outcome(lines, None, past + ops)
    decreases |ops|
  {
    if ops == [] {
      assert past + ops == past;
    } else {
      assert past + ops[..0] == past;
      assert price(past, ops[0]) == Ok(commissions[0]);
      var past' := past + [ops[0]];
      assert Record(past, ops[0]) == past';
      var rest, cs, ls := ops[1..], commissions[1..], lines[1..];
      AllPricedTail(price, past, ops, commissions, lines);
      ReplayAllPriced(price, past', rest, cs, ls);
      MovePastFront(past, ops, |ops| - 1);
      assert Replay(price, past, ops) == Replay(price, past', rest).(lines := [lines[0]] + ls);
      assert lines == [lines[0]] + ls;
    }
  }

  /** The requirements of ReplayAllPriced, moved one operation on. */
  lemma AllPricedTail(price: Pricing, past: seq<Operation>, ops: seq<Operation>,
                      commissions: seq<real>, lines: seq<string>)
    requires |commissions| == |ops| == |lines| >= 1
    requires forall j :: 0 <= j < |ops| ==> price(past + ops[..j], ops[j]) == Ok(commissions[j])
    requires forall j :: 0 <= j < |ops| ==> !ContainsSame(past + ops[..j], ops[j])
    requires forall j :: 0 <= j < |ops| ==> lines[j] == FormatCommission(commissions[j], ops[j].currency)
    ensures var past', rest, cs, ls := past + [ops[0]], ops[1..], commissions[1..], lines[1..];
      && (forall j :: 0 <= j < |rest| ==> price(past' + rest[..j], rest[j]) == Ok(cs[j]))
      && (forall j :: 0 <= j < |rest| ==> !ContainsSame(past' + rest[..j], rest[j]))
      && (forall j :: 0 <= j < |rest| ==> ls[j] == FormatCommission(cs[j], rest[j].currency))
  {
    var past', rest, cs, ls := past + [ops[0]], ops[1..], commissions[1..], lines[1..];
    forall j | 0 <= j < |rest|
      ensures price(past' + rest[..j], rest[j]) == Ok(cs[j])
      ensures !ContainsSame(past' + rest[..j], rest[j])
      ensures ls[j] == FormatCommission(cs[j], rest[j].currency)
    {
      MovePastFront(past, ops, j);
      assert rest[j] == ops[j + 1] && cs[j] == commissions[j + 1] && ls[j] == lines[j + 1];
    }
  }

  lemma MovePastFront(past: seq<Operation>, ops: seq<Operation>, j: nat)
    requires j < |ops|
    ensures (past + [ops[0]]) + ops[1..][..j] == past + ops[..j + 1]
    ensures j == |ops| - 1 ==> (past + [ops[0]]) + ops[1..] == past + ops
  {
    assert ops[..j + 1] == [ops[0]] + ops[1..][..j];
    if j == |ops| - 1 {
      assert ops[1..][..j] == ops[1..];
      assert ops[..j + 1] == ops;
    }
  }

  /** Recording keeps the history free of duplicates, and everything priced is in it. */
  lemma {:induction false} RecordAllKeepsNoDuplicates(past: seq<Operation>, ops: seq<Operation>)
    requires NoDuplicates(past)
    ensures NoDuplicates(RecordAll(past, ops))
    ensures forall k :: 0 <= k < |ops| ==> ContainsSame(RecordAll(past, ops), ops[k])
    decreases |ops|
  {
    if ops != [] {
      RecordKeepsNoDuplicates(past, ops[0]);
      RecordAllKeepsNoDuplicates(Record(past, ops[0]), ops[1..]);
      var all := RecordAll(past, ops);
      assert ContainsSame(Record(past, ops[0]), ops[0]) by {
        if !ContainsSame(past, ops[0]) {
          assert Record(past, ops[0])[|past|] == ops[0];
        }
      }
      forall k | 0 <= k < |ops|
        ensures ContainsSame(all, ops[k])
      {
        if k == 0 {
          ContainsSamePreserved(Record(past, ops[0]), ops[1..], ops[0]);
        } else {
          assert ops[1..][k - 1] == ops[k];
        }
      }
    }
  }

  lemma ContainsSamePreserved(past: seq<Operation>, ops: seq<Operation>, x: Operation)
    requires ContainsSame(past, x)
    ensures ContainsSame(RecordAll(past, ops), x)
  {
    var i :| 0 <= i < |past| && IsSameOperation(past[i], x);
    RecordAllGrows(past, ops);
    var all := RecordAll(past, ops);
    assert past[i] in all;
    var j :| 0 <= j < |all| && all[j] == past[i];
  }

  /** Recording never drops an operation already in the history. */
  lemma {:induction false} RecordAllGrows(past: seq<Operation>, ops: seq<Operation>)
    ensures forall x :: x in past ==> x in RecordAll(past, ops)
    decreases |ops|
  {
    if ops != [] {
      RecordAllGrows(Record(past, ops[0]), ops[1..]);
    }
  }

  /**
   * run: read the operations, then price, record and print each in turn.
   * A read failure prints nothing and leaves the history alone.
   */
  method Run(history: OperationHistory, cfg: CommissionConfig, conv: Converter, rows: seq<Row>, casts: Casts)
    returns (lines: seq<string>, failure: Option<Error>)
    requires history.Valid()
    modifies history
    ensures history.Valid()
    ensures var read := Parse(rows, conv.supported, casts);
      && (read.Err? ==> lines == [] && failure == Some(read.error) && history.operations == old(history.operations))
      && (read.Ok? ==> Replay(CommissionPricing(cfg, conv), old(history.operations), read.value)
                       == Outcome(lines, failure, history.operations))
  {
    var read := ParseOperations(rows, conv.supported, casts);
    if read.Err? {
      return [], Some(read.error);
    }
    lines, failure := ProcessOperations(history, cfg, conv, read.value);
  }

  /**
   * The loop of run: each operation is priced against the history, then
   * recorded, then its commission printed; a pricing failure ends the run.
   */
  method ProcessOperations(history: OperationHistory, cfg: CommissionConfig, conv: Converter, operations: seq<Operation>)
    returns (lines: seq<string>, failure: Option<Error>)
    requires history.Valid()
    modifies history
    ensures history.Valid()
    ensures Replay(CommissionPricing(cfg, conv), old(history.operations), operations) == Outcome(lines, failure, history.operations)
  {
    ghost var price := CommissionPricing(cfg, conv);
    ghost var full := Replay(price, history.operations, operations);
    lines := [];
    var i := 0;
    while i < |operations|
      invariant 0 <= i <= |operations|
      invariant history.Valid()
      invariant var tail := Replay(price, history.operations, operations[i..]);
        tail.failure == full.failure && tail.history == full.history && lines + tail.lines == full.lines
    {
      var operation := operations[i];
      ghost var before := history.operations;
      var commission := CalculateCommission(history, cfg, conv, operation);
      assert commission == price(before, operation);
      ReplayStep(price, before, operations, i);
      if commission.Err? {
        return lines, Some(commission.error);
      }
      history.AddOperation(operation);
      lines := lines + [FormatCommission(commission.value, operation.currency)];
      i := i + 1;
    }
    assert operations[i..] == [];
    return lines, None;
  }

  /** One turn of the run loop, as Replay sees it. */
  lemma ReplayStep(price: Pricing, past: seq<Operation>, ops: seq<Operation>, i: nat)
    requires i < |ops|
    ensures price(past, ops[i]).Err? ==> Replay(price, past, ops[i..]) == Outcome([], Some(price(past, ops[i]).error), past)
    ensures price(past, ops[i]).Ok? ==>
      var rest := Replay(price, Record(past, ops[i]), ops[i + 1..]);
      Replay(price, past, ops[i..]) == rest.(lines := [FormatCommission(price(past, ops[i]).value, ops[i].currency)] + rest.lines)
  {
    assert ops[i..][0] == ops[i] && ops[i..][1..] == ops[i + 1..];
  }
}
