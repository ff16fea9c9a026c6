/** The `nil` validator on optional values. */
module NilValidator {
  import opened OptionalType
  import ValidatorResults
  import opened Validators
  import NotOperator

  /** `.nil`: passes exactly when the optional holds no value. Its two
      descriptions are the two texts `is null` / `is not null`, swapped by
      whether the input was `nil`. */
  function Nil<W(!new)>(): (v: Validator<Option<W>>)
    ensures forall x :: v.validate(x).IsFailure() <==> x.Some?
    ensures forall x: Option<W> :: x.None? ==> v.validate(x).SuccessDescription() == Some("is not null")
    ensures forall x: Option<W> :: x.None? ==> v.validate(x).FailureDescription() == Some("is null")
    ensures forall x: Option<W> :: x.Some? ==> v.validate(x).SuccessDescription() == Some("is null")
    ensures forall x: Option<W> :: x.Some? ==> v.validate(x).FailureDescription() == Some("is not null")
  {
    Init((x: Option<W>) => ValidatorResults.Nil(Wrapped(x).None?))
  }

  /** Whatever the input, the two descriptions are the two distinct texts. */
  lemma NilDescriptionsDistinct<W(!new)>(x: Option<W>)
    ensures Nil<W>().validate(x).SuccessDescription() != Nil<W>().validate(x).FailureDescription()
    ensures {Nil<W>().validate(x).SuccessDescription(), Nil<W>().validate(x).FailureDescription()}
         == {Some("is null"), Some("is not null")}
  {
  }

  /** `!.nil` fails exactly on `nil`, and then reports `is not null`. */
  lemma NotNil<W(!new)>(x: Option<W>)
    ensures NotOperator.Negate(Nil<W>()).validate(x).IsFailure() <==> x.None?
    ensures x.None? ==> NotOperator.Negate(Nil<W>()).validate(x).FailureDescription() == Some("is not null")
  {
  }
}
