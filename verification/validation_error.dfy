/** `ValidationError`: the single kind of error a validation run reports, an
    identifier plus a human-readable reason. */
module ValidationErrors {

  datatype ValidationError =
    /** `BasicValidationError(reason:)`. */
    | BasicValidationError(reason: string)
    /** A case of an error enum whose raw value is a `String`; its identifier
        is that raw value. */
    | RawValueError(rawValue: string, reason: string)
    /** Any other conforming error, with the identifier it declares. */
    | CustomError(id: string, reason: string)
  {
    /** `identifier`. */
    function Identifier(): string
    {
      match this
      case BasicValidationError(_) => "validation failed"
      case RawValueError(raw, _) => raw
      case CustomError(id, _) => id
    }

    /** `reason`. */
    function Reason(): string
    {
      reason
    }
  }

  /** `BasicValidationError.init(reason:)`: identified as `validation failed`,
      with the given reason. */
  function Basic(reason: string): (e: ValidationError)
    ensures e.Identifier() == "validation failed"
    ensures e.Reason() == reason
  {
    BasicValidationError(reason)
  }

  /** A `String`-backed error case is identified by its raw value, e.g. the
      library's test error `email` with reason `invalid email`. */
  lemma RawValueIdentifier(raw: string, reason: string)
    ensures RawValueError(raw, reason).Identifier() == raw
    ensures RawValueError(raw, reason).Reason() == reason
    ensures RawValueError("email", "invalid email").Identifier() == "email"
  {
  }
}
