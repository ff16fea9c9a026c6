/** `Validator<T>`: a total function from a value to a result. Failing a check
    is never an error of the call itself; it is recorded in the result. */
module Validators {
  import opened ValidatorResults

  datatype Validator<-T> = Validator(validate: T -> ValidatorResult)

  /** `Validator.init(validate:)`: wraps the closure, which is then what
      `validate` runs. */
  function Init<T(!new)>(f: T -> ValidatorResult): (v: Validator<T>)
    ensures forall x :: v.validate(x) == f(x)
  {
    Validator(f)
  }

  /** A custom validator `.init { ValidatorResults.Invalid(reason) }` returns that
      very result for every input, so it always fails with that reason. */
  lemma CustomValidatorReturnsItsResult<T(!new)>(reason: string, x: T)
    ensures Init((_: T) => Invalid(reason)).validate(x) == Invalid(reason)
    ensures Init((_: T) => Invalid(reason)).validate(x).IsFailure()
  {
  }
}
