/** Error kinds of the gift service and the Result type its operations return. */
module GiftErrors {

  /** One constructor per entry of the service's error enumeration. */
  datatype Error =
    | InvalidToken
    | NotAllowedToCreator
    | Expired
    | AlreadyReceived
    | OnlyAllowedToCreator
    | QueryPeriodPassed
    | MustBePositive
    | AmountMustGreaterThanReceivers
    | AlreadyFullyConsumed
    | NoTokenAvailable

  /** The outcome of an operation: a value, or the error the service throws instead. */
  datatype Result<+T> = Success(value: T) | Failure(error: Error)
}
