/**
 * Failure values of the commission calculator.
 *
 * The PHP code signals every failure with an exception; here each exception
 * the core can raise is a variant of `Error`, and every operation that can
 * fail returns a `Result`.
 */
module Errors {

  datatype Option<+T> = None | Some(value: T)

  /** The reason an Operation refuses to be built (InvalidArgumentException). */
  datatype Violation =
    | InvalidDateFormat(formatted: string)
    | NonPositiveUserId(userId: int)
    | InvalidUserType(userType: string)
    | InvalidOperationType(operationType: string)
    | NegativeAmount(amount: real)
    | InvalidCurrency(currency: string)

  datatype Error =
      /** CurrencyConverter: InvalidInputException "Unsupported currency: X" */
    | UnsupportedCurrency(currency: string)
      /** ExchangeRateService::getRate: RuntimeException "Currency not supported: X" */
    | CurrencyNotSupported(currency: string)
      /** ExchangeRateService::getRate: RuntimeException "Exchange rate not available for currency: X" */
    | RateNotAvailable(currency: string)
      /** PHP 8 raises DivisionByZeroError for `/` with a zero divisor */
    | DivisionByZero
      /** ExchangeRateService::loadRates: RuntimeException "EUR rate not found in API response" */
    | EurQuoteMissing
      /** Operation constructor: InvalidArgumentException */
    | InvalidArgument(violation: Violation)
      /** OperationParser: InvalidInputException "Invalid date: X" */
    | InvalidDate(text: string)
      /** OperationParser: InvalidInputException "Invalid operation data: ..." wrapping a violation */
    | InvalidOperationData(violation: Violation)
      /** OperationParser: InvalidInputException "No valid operations found in CSV file" */
    | NoValidOperations

  datatype Result<+T> = Ok(value: T) | Err(error: Error) {
    predicate IsFailure() {
      Err?
    }

    function PropagateFailure<U>(): Result<U>
      requires Err?
    {
      Err(error)
    }

    function Extract(): T
      requires Ok?
    {
      value
    }
  }

  /**
   * The PHP string-to-number casts `(int)$s` and `(float)$s` applied to
   * configuration values and CSV cells. They belong to the PHP runtime, so
   * the model takes them as parameters.
   */
  datatype Casts = Casts(toInt: string -> int, toReal: string -> real)
}
