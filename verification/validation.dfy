/** `Validation<M>`: one registry entry, a display path, optional overrides of
    the reported error, and the check to run on the model. */
module ValidationEntry {
  import opened OptionalType
  import opened ValidatorResults
  import opened ValidationErrors

  datatype Validation<-M> = Validation(
    path: string,
    customValidationError: Option<ValidationError>,
    customFailureDescription: Option<string>,
    run: M -> ValidatorResult)
  {
    /** No entry carries both a custom error and a custom message. */
    predicate WellFormed()
    {
      !(customValidationError.Some? && customFailureDescription.Some?)
    }
  }

  /** `init(_ error:_:)`: the custom error replaces the reported error; the path
      is the placeholder `data`. */
  function WithError<M(!new)>(error: ValidationError, run: M -> ValidatorResult): (v: Validation<M>)
    ensures v.path == "data"
    ensures v.customValidationError == Some(error) && v.customFailureDescription == None
    ensures forall m :: v.run(m) == run(m)
    ensures v.WellFormed()
  {
    Validation("data", Some(error), None, run)
  }

  /** `init(_ reason:_:)`: the custom message becomes the reported reason; the
      path is the placeholder `data`. */
  function WithMessage<M(!new)>(message: string, run: M -> ValidatorResult): (v: Validation<M>)
    ensures v.path == "data"
    ensures v.customValidationError == None && v.customFailureDescription == Some(message)
    ensures forall m :: v.run(m) == run(m)
    ensures v.WellFormed()
  {
    Validation("data", None, Some(message), run)
  }

  /** `init(path:_:)`: the reported reason is built from this path. */
  function AtPath<M(!new)>(path: string, run: M -> ValidatorResult): (v: Validation<M>)
    ensures v.path == path
    ensures v.customValidationError == None && v.customFailureDescription == None
    ensures forall m :: v.run(m) == run(m)
    ensures v.WellFormed()
  {
    Validation(path, None, None, run)
  }
}
