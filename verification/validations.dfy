/** `Validations<M>`: the ordered registry of entries for a model type, and
    its fail-fast evaluation. */
module ValidationRegistry {
  import opened OptionalType
  import opened ValidatorResults
  import opened Validators
  import opened ValidationErrors
  import opened ValidationEntry

  datatype Validations<-M> = Validations(storage: seq<Validation<M>>)
  {
    /** Every entry is well formed. */
    predicate WellFormed()
    {
      forall i :: 0 <= i < |storage| ==> storage[i].WellFormed()
    }
  }

  /** `init(_:)`: a registry with no entry. */
  function New<M>(): (vs: Validations<M>)
    ensures |vs.storage| == 0
    ensures vs.WellFormed()
  {
    Validations([])
  }

  /** `r` is `vs` with one entry appended and nothing else changed. */
  ghost predicate AppendsOne<M>(vs: Validations<M>, r: Validations<M>)
  {
    && |r.storage| == |vs.storage| + 1
    && r.storage[..|vs.storage|] == vs.storage
    && (vs.WellFormed() ==> r.WellFormed())
  }

  /** `add(_:is:customError:)`. */
  function AddWithError<M(!new), T(!new)>(vs: Validations<M>, key: M -> T, validator: Validator<T>,
                                          error: ValidationError): (r: Validations<M>)
    ensures AppendsOne(vs, r)
    ensures r.storage[|vs.storage|].path == "data"
    ensures r.storage[|vs.storage|].customValidationError == Some(error)
    ensures r.storage[|vs.storage|].customFailureDescription == None
    ensures forall m :: r.storage[|vs.storage|].run(m) == validator.validate(key(m))
  {
    Validations(vs.storage + [WithError(error, (m: M) => validator.validate(key(m)))])
  }

  /** `add(_:is:customMessage:)`. */
  function AddWithMessage<M(!new), T(!new)>(vs: Validations<M>, key: M -> T, validator: Validator<T>,
                                            message: string): (r: Validations<M>)
    ensures AppendsOne(vs, r)
    ensures r.storage[|vs.storage|].path == "data"
    ensures r.storage[|vs.storage|].customValidationError == None
    ensures r.storage[|vs.storage|].customFailureDescription == Some(message)
    ensures forall m :: r.storage[|vs.storage|].run(m) == validator.validate(key(m))
  {
    Validations(vs.storage + [WithMessage(message, (m: M) => validator.validate(key(m)))])
  }

  /** `add(_:at:is:)`. */
  function AddAt<M(!new), T(!new)>(vs: Validations<M>, key: M -> T, path: string,
                                   validator: Validator<T>): (r: Validations<M>)
    ensures AppendsOne(vs, r)
    ensures r.storage[|vs.storage|].path == path
    ensures r.storage[|vs.storage|].customValidationError == None
    ensures r.storage[|vs.storage|].customFailureDescription == None
    ensures forall m :: r.storage[|vs.storage|].run(m) == validator.validate(key(m))
  {
    Validations(vs.storage + [AtPath(path, (m: M) => validator.validate(key(m)))])
  }

  /** The error reported for a failing entry: its custom error as is; else its
      custom message as a basic error; else `<path> <failure description>`, an
      absent description rendering as nothing after the space. */
  function ReportedError<M>(v: Validation<M>, result: ValidatorResult): (e: ValidationError)
    ensures v.customValidationError.Some? ==> e == v.customValidationError.value
    ensures v.customValidationError.None? && v.customFailureDescription.Some? ==>
      e == BasicValidationError(v.customFailureDescription.value)
    ensures v.customValidationError.None? && v.customFailureDescription.None? ==>
      e == BasicValidationError(v.path + " " + result.FailureDescription().GetOr(""))
  {
    match v.customValidationError
    case Some(error) => error
    case None =>
      match v.customFailureDescription
      case Some(reason) => Basic(reason)
      case None => Basic(v.path + " " + result.FailureDescription().GetOr(""))
  }

  /** Entry `k` is the first failing entry at or after `from`. */
  predicate FirstFailureAt<M>(entries: seq<Validation<M>>, m: M, from: nat, k: nat)
  {
    && from <= k < |entries|
    && entries[k].run(m).IsFailure()
    && forall j :: from <= j < k ==> !entries[j].run(m).IsFailure()
  }

  /** Evaluation of the entries from position `from` on, in order, stopping at
      the first failure. */
  function ValidateFrom<M>(entries: seq<Validation<M>>, m: M, from: nat): (r: Option<ValidationError>)
    requires from <= |entries|
    ensures r.None? <==> forall j :: from <= j < |entries| ==> !entries[j].run(m).IsFailure()
    ensures forall k: nat :: FirstFailureAt(entries, m, from, k) ==>
      r == Some(ReportedError(entries[k], entries[k].run(m)))
    decreases |entries| - from
  {
    if from == |entries| then None
    else if entries[from].run(m).IsFailure() then
      assert forall k: nat :: FirstFailureAt(entries, m, from, k) ==> k == from;
      Some(ReportedError(entries[from], entries[from].run(m)))
    else
      assert forall k: nat :: FirstFailureAt(entries, m, from, k) ==> FirstFailureAt(entries, m, from + 1, k);
      ValidateFrom(entries, m, from + 1)
  }

  /** `validate(on:)`: `None` when every entry passes; otherwise the error of the
      first failing entry in registration order. */
  function ValidateOn<M>(vs: Validations<M>, m: M): (r: Option<ValidationError>)
    ensures r.None? <==> forall j :: 0 <= j < |vs.storage| ==> !vs.storage[j].run(m).IsFailure()
    ensures forall k: nat :: FirstFailureAt(vs.storage, m, 0, k) ==>
      r == Some(ReportedError(vs.storage[k], vs.storage[k].run(m)))
  {
    ValidateFrom(vs.storage, m, 0)
  }

  /** `validate(on:)` as the source's loop over the storage, returning at the
      first failing entry. */
  method Validate<M>(vs: Validations<M>, m: M) returns (error: Option<ValidationError>)
    ensures error == ValidateOn(vs, m)
  {
    var i := 0;
    while i < |vs.storage|
      invariant 0 <= i <= |vs.storage|
      invariant ValidateOn(vs, m) == ValidateFrom(vs.storage, m, i)
    {
      var validation := vs.storage[i];
      var result := validation.run(m);
      ValidateStep(vs.storage, m, i);
      if result.IsFailure() {
        return Some(ReportedError(validation, result));
      }
      i := i + 1;
    }
    return None;
  }

  /** One step of the evaluation: the entry at `from` either fails and is
      reported, or passes and evaluation moves on; a step of `Validate`. */
  lemma ValidateStep<M>(entries: seq<Validation<M>>, m: M, from: nat)
    requires from < |entries|
    ensures entries[from].run(m).IsFailure() ==>
      ValidateFrom(entries, m, from) == Some(ReportedError(entries[from], entries[from].run(m)))
    ensures !entries[from].run(m).IsFailure() ==>
      ValidateFrom(entries, m, from) == ValidateFrom(entries, m, from + 1)
  {
  }

  /** Entries after the first failing one are never consulted: appending any
      entries to a registry that already fails does not change the outcome. */
  lemma {:induction false} LaterEntriesIgnored<M>(entries: seq<Validation<M>>, rest: seq<Validation<M>>,
                                                  m: M, from: nat)
    requires from <= |entries|
    requires exists k :: from <= k < |entries| && entries[k].run(m).IsFailure()
    ensures ValidateFrom(entries + rest, m, from) == ValidateFrom(entries, m, from)
    decreases |entries| - from
  {
    assert (entries + rest)[from] == entries[from];
    if !entries[from].run(m).IsFailure() {
      LaterEntriesIgnored(entries, rest, m, from + 1);
    }
  }

  /** An empty registry never reports an error. */
  lemma EmptyRegistryPasses<M>(m: M)
    ensures ValidateOn(New<M>(), m) == None
  {
  }

  /** With a custom error or a custom message, the reported error does not
      depend on the entry's path, so the placeholder `data` never shows. */
  lemma OverridesHidePath<M>(v: Validation<M>, result: ValidatorResult, otherPath: string)
    requires v.customValidationError.Some? || v.customFailureDescription.Some?
    ensures ReportedError(v, result) == ReportedError(v.(path := otherPath), result)
  {
  }

  /** Without overrides, the reported error is the basic error whose reason
      is the path, a space and the failure description. */
  lemma ReportedPathAndDescription<M>(v: Validation<M>, result: ValidatorResult, description: string)
    requires v.customValidationError.None? && v.customFailureDescription.None?
    requires result.FailureDescription() == Some(description)
    ensures ReportedError(v, result) == BasicValidationError(v.path + " " + description)
  {
  }

  /** A failing result with no failure description is reported as the path
      followed by a single space. */
  lemma AbsentDescriptionLeavesTrailingSpace<M>(v: Validation<M>, result: ValidatorResult)
    requires v.customValidationError.None? && v.customFailureDescription.None?
    requires result.FailureDescription().None?
    ensures ReportedError(v, result).Reason() == v.path + " "
  {
  }
}
