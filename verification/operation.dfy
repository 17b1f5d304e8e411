/**
 * Operation: one validated input record. Built once by `NewOperation`,
 * which runs the constructor's checks in order and reports the first
 * failure; never changed afterwards.
 */
module OperationModel {
  import opened Errors
  import opened Calendar

  datatype UserType = Private | Business
  datatype OperationType = Deposit | Withdraw

  datatype Operation = Operation(
    date: Date,
    userId: int,
    userType: UserType,
    operationType: OperationType,
    amount: real,
    currency: string)

  /** Operation::PRIVATE and Operation::BUSINESS. */
  function UserTypeName(t: UserType): string {
    match t
    case Private => "private"
    case Business => "business"
  }

  /** Operation::DEPOSIT and Operation::WITHDRAW. */
  function OperationTypeName(t: OperationType): string {
    match t
    case Deposit => "deposit"
    case Withdraw => "withdraw"
  }

  /** Strict membership in VALID_USER_TYPES. */
  function ParseUserType(s: string): (r: Option<UserType>)
    ensures r.Some? <==> s == "private" || s == "business"
    ensures r.Some? ==> UserTypeName(r.value) == s
  {
    if s == "private" then Some(Private)
    else if s == "business" then Some(Business)
    else None
  }

  /** Strict membership in VALID_OPERATION_TYPES. */
  function ParseOperationType(s: string): (r: Option<OperationType>)
    ensures r.Some? <==> s == "deposit" || s == "withdraw"
    ensures r.Some? ==> OperationTypeName(r.value) == s
  {
    if s == "deposit" then Some(Deposit)
    else if s == "withdraw" then Some(Withdraw)
    else None
  }

  /** What the constructor guarantees of every Operation it lets through. */
  predicate IsValidOperation(op: Operation, supported: seq<string>) {
    && 0 <= op.date.year <= 9999
    && op.userId > 0
    && op.amount >= 0.0
    && op.currency in supported
  }

  /**
   * The constructor: validateDate, validateUserId, validateUserType,
   * validateOperationType, validateAmount, validateCurrency, in this order.
   */
  function NewOperation(
    date: Date, userId: int, userType: string, operationType: string,
    amount: real, currency: string, supported: seq<string>): (r: Result<Operation>)
    ensures r.Ok? <==>
      && 0 <= date.year <= 9999
      && userId > 0
      && (userType == "private" || userType == "business")
      && (operationType == "deposit" || operationType == "withdraw")
      && amount >= 0.0
      && currency in supported
    ensures r.Ok? ==> IsValidOperation(r.value, supported)
    ensures r.Err? ==> r.error.InvalidArgument?
  {
    DatePatternIffFourDigitYear(date);
    if !MatchesDatePattern(FormatDate(date)) then Err(InvalidArgument(InvalidDateFormat(FormatDate(date))))
    else if userId <= 0 then Err(InvalidArgument(NonPositiveUserId(userId)))
    else if ParseUserType(userType).None? then Err(InvalidArgument(InvalidUserType(userType)))
    else if ParseOperationType(operationType).None? then Err(InvalidArgument(InvalidOperationType(operationType)))
    else if amount < 0.0 then Err(InvalidArgument(NegativeAmount(amount)))
    else if currency !in supported then Err(InvalidArgument(InvalidCurrency(currency)))
    else Ok(Operation(date, userId, ParseUserType(userType).value,
                      ParseOperationType(operationType).value, amount, currency))
  }

  /** getDate: the 'Y-m-d' text of the date. */
  function GetDate(op: Operation): string {
    FormatDate(op.date)
  }

  /** getUserType. */
  function GetUserType(op: Operation): string {
    UserTypeName(op.userType)
  }

  /** getOperationType. */
  function GetOperationType(op: Operation): string {
    OperationTypeName(op.operationType)
  }

  /** The getters return what the constructor was given; getDate gives YYYY-MM-DD text that reads back as the date. */
  lemma GettersReturnConstructedValues(
    date: Date, userId: int, userType: string, operationType: string,
    amount: real, currency: string, supported: seq<string>)
    requires NewOperation(date, userId, userType, operationType, amount, currency, supported).Ok?
    ensures var op := NewOperation(date, userId, userType, operationType, amount, currency, supported).value;
      && GetDate(op) == FormatDate(date)
      && MatchesDatePattern(GetDate(op))
      && ParseDate(GetDate(op)) == Some(date)
      && op.userId == userId
      && GetUserType(op) == userType
      && GetOperationType(op) == operationType
      && op.amount == amount
      && op.currency == currency
  {
    DatePatternIffFourDigitYear(date);
    ParseFormatDate(date);
  }

  /** The first failing check, in constructor order, is the one reported. */
  lemma FirstFailureReported(
    date: Date, userId: int, userType: string, operationType: string,
    amount: real, currency: string, supported: seq<string>)
    ensures var r := NewOperation(date, userId, userType, operationType, amount, currency, supported);
      && (!(0 <= date.year <= 9999) ==> r == Err(InvalidArgument(InvalidDateFormat(FormatDate(date)))))
      && (0 <= date.year <= 9999 && userId <= 0 ==> r == Err(InvalidArgument(NonPositiveUserId(userId))))
      && (0 <= date.year <= 9999 && userId > 0 && userType != "private" && userType != "business" ==>
            r == Err(InvalidArgument(InvalidUserType(userType))))
      && (0 <= date.year <= 9999 && userId > 0 && (userType == "private" || userType == "business")
            && operationType != "deposit" && operationType != "withdraw" ==>
            r == Err(InvalidArgument(InvalidOperationType(operationType))))
      && (0 <= date.year <= 9999 && userId > 0 && (userType == "private" || userType == "business")
            && (operationType == "deposit" || operationType == "withdraw") && amount < 0.0 ==>
            r == Err(InvalidArgument(NegativeAmount(amount))))
      && (0 <= date.year <= 9999 && userId > 0 && (userType == "private" || userType == "business")
            && (operationType == "deposit" || operationType == "withdraw") && amount >= 0.0
            && currency !in supported ==>
            r == Err(InvalidArgument(InvalidCurrency(currency))))
  {
    DatePatternIffFourDigitYear(date);
  }
}
