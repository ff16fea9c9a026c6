/** The `empty` validator on collections (strings are character sequences). */
module EmptyValidator {
  import opened OptionalType
  import ValidatorResults
  import opened Validators
  import NotOperator

  /** `.empty`: passes exactly on the empty collection. */
  function Empty<E(!new)>(): (v: Validator<seq<E>>)
    ensures forall x :: v.validate(x).IsFailure() <==> |x| > 0
    ensures forall x :: v.validate(x).SuccessDescription() == Some("is empty")
    ensures forall x :: v.validate(x).FailureDescription() == Some("is not empty")
  {
    Init((x: seq<E>) => ValidatorResults.Empty(|x| == 0))
  }

  /** `!.empty` fails exactly on the empty collection, reporting `is empty`. */
  lemma NotEmpty<E(!new)>(x: seq<E>)
    ensures NotOperator.Negate(Empty<E>()).validate(x).IsFailure() <==> |x| == 0
    ensures NotOperator.Negate(Empty<E>()).validate(x).FailureDescription() == Some("is empty")
  {
  }

  /** The cases of the library's own tests: `""` and `[]` pass, `"something"`
      and `[1, 2]` fail. */
  lemma EmptyExamples()
    ensures !Empty<char>().validate("").IsFailure()
    ensures Empty<char>().validate("something").IsFailure()
    ensures !Empty<int>().validate([]).IsFailure()
    ensures Empty<int>().validate([1, 2]).IsFailure()
  {
  }
}
