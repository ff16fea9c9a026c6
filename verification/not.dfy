/** Prefix `!` on validators and the `Not` result it produces. */
module NotOperator {
  import opened OptionalType
  import opened ValidatorResults
  import opened Validators

  /** `!v`: evaluates `v` on the same input and inverts the outcome, swapping
      the two descriptions. */
  function Negate<T(!new)>(v: Validator<T>): (n: Validator<T>)
    ensures forall x :: n.validate(x).IsFailure() <==> !v.validate(x).IsFailure()
    ensures forall x :: n.validate(x).SuccessDescription() == v.validate(x).FailureDescription()
    ensures forall x :: n.validate(x).FailureDescription() == v.validate(x).SuccessDescription()
  {
    Init((x: T) => Not(v.validate(x)))
  }

  /** `!!v` is indistinguishable from `v` on every input, in outcome and in
      both descriptions. */
  lemma DoubleNegation<T(!new)>(v: Validator<T>, x: T)
    ensures Agree(Negate(Negate(v)).validate(x), v.validate(x))
  {
  }

  /** The swap carries an absent description across unchanged: `nil` stays `nil`. */
  lemma NegationKeepsAbsentDescriptions<T(!new)>(v: Validator<T>, x: T)
    ensures v.validate(x).FailureDescription().None? ==> Negate(v).validate(x).SuccessDescription().None?
    ensures v.validate(x).SuccessDescription().None? ==> Negate(v).validate(x).FailureDescription().None?
  {
  }

  /** Negating an `Invalid` result makes it pass, with no failure description. */
  lemma NegatedInvalid(reason: string)
    ensures !Not(Invalid(reason)).IsFailure()
    ensures Not(Invalid(reason)).FailureDescription() == None
    ensures Not(Invalid(reason)).SuccessDescription() == Some("is invalid: " + reason)
  {
  }
}
