/** `Validatable`: a model type registers its entries through a static routine;
    `validate()` builds a fresh registry with it and evaluates the model. */
module ValidatableModel {
  import opened OptionalType
  import opened ValidationErrors
  import opened ValidationRegistry
  import RangeValidators
  import RangeResults
  import ValidatorResults
  import Validators
  import Text

  /** `static func validations(_ validations: inout Validations<Self>)`: the
      model's routine that adds its entries to a registry. */
  type Registration<!M> = Validations<M> -> Validations<M>

  /** `validations()`: a new, empty registry with the model's entries added once. */
  function BuildValidations<M>(register: Registration<M>): (vs: Validations<M>)
    ensures vs == register(New())
  {
    register(New())
  }

  /** `validate()`: evaluates the model against a freshly built registry; the
      outcome depends only on the model value and its registration routine. */
  function Validate<M>(m: M, register: Registration<M>): (r: Option<ValidationError>)
    ensures r == ValidateOn(register(New()), m)
    ensures r.None? <==> forall j :: 0 <= j < |register(New()).storage| ==>
                                    !register(New()).storage[j].run(m).IsFailure()
  {
    ValidateOn(BuildValidations(register), m)
  }

  /** A model whose routine registers nothing always validates. */
  lemma NothingRegisteredPasses<M>(m: M, register: Registration<M>)
    requires |register(New()).storage| == 0
    ensures Validate(m, register) == None
  {
  }

  /** The `Pet` model of the library's tests, with the name check reduced to
      its count part (`count(5...)`), registered with a custom message, and the
      age checked by `range(3...)` at the path `age`. */
  datatype Pet = Pet(name: string, age: int)

  /** Accessors and checks of the `Pet` registry, named so that every
      statement about it refers to the same closures. */
  function PetName(p: Pet): string { p.name }
  function PetAge(p: Pet): int { p.age }
  function PetNameCheck(): Validators.Validator<string> { RangeValidators.CountCharacters(RangeValidators.From(5), "") }
  function PetAgeCheck(): Validators.Validator<int> { RangeValidators.Range(RangeValidators.From(3), "") }

  /** `Pet.validations(_:)`, with the reduced name check. */
  function PetValidations(vs: Validations<Pet>): Validations<Pet>
  {
    AddAt(AddWithMessage(vs, PetName, PetNameCheck(), "some error"), PetAge, "age", PetAgeCheck())
  }

  /** The two entries of the `Pet` registry: the name count under a custom
      message, then the age range at the path `age`. */
  lemma PetEntries(p: Pet)
    ensures |BuildValidations(PetValidations).storage| == 2
    ensures BuildValidations(PetValidations).storage[0].run(p) == PetNameCheck().validate(p.name)
    ensures BuildValidations(PetValidations).storage[1].run(p) == PetAgeCheck().validate(p.age)
    ensures BuildValidations(PetValidations).storage[0].customValidationError == None
    ensures BuildValidations(PetValidations).storage[0].customFailureDescription == Some("some error")
    ensures BuildValidations(PetValidations).storage[1].customValidationError == None
    ensures BuildValidations(PetValidations).storage[1].customFailureDescription == None
    ensures BuildValidations(PetValidations).storage[1].path == "age"
  {
    var named := AddWithMessage(New(), PetName, PetNameCheck(), "some error");
    var vs := AddAt(named, PetAge, "age", PetAgeCheck());
    assert BuildValidations(PetValidations) == vs;
    assert vs.storage[0] == named.storage[0];
  }

  /** What the two checks decide, and how the age check reports a young pet. */
  lemma PetChecks(p: Pet)
    ensures PetNameCheck().validate(p.name).IsFailure() <==> |p.name| < 5
    ensures PetAgeCheck().validate(p.age).IsFailure() <==> p.age < 3
    ensures p.age < 3 ==>
      PetAgeCheck().validate(p.age).FailureDescription()
        == Some(ValidatorResults.RangeDescription(RangeResults.BelowMin(3), None))
  {
  }

  /** What each entry of the `Pet` registry decides, and how it is reported. */
  lemma PetRuns(p: Pet)
    ensures |BuildValidations(PetValidations).storage| == 2
    ensures BuildValidations(PetValidations).storage[0].run(p).IsFailure() <==> |p.name| < 5
    ensures BuildValidations(PetValidations).storage[1].run(p).IsFailure() <==> p.age < 3
    ensures BuildValidations(PetValidations).storage[0].customValidationError == None
    ensures BuildValidations(PetValidations).storage[0].customFailureDescription == Some("some error")
    ensures BuildValidations(PetValidations).storage[1].customValidationError == None
    ensures BuildValidations(PetValidations).storage[1].customFailureDescription == None
    ensures BuildValidations(PetValidations).storage[1].path == "age"
    ensures p.age < 3 ==>
      BuildValidations(PetValidations).storage[1].run(p).FailureDescription()
        == Some(ValidatorResults.RangeDescription(RangeResults.BelowMin(3), None))
  {
    PetEntries(p);
    PetChecks(p);
  }

  /** A pet whose name passes `count(5...)` and whose age passes `range(3...)`
      passes the registry (the `characterSet` conjunct is not modelled). */
  lemma ValidPetPasses(p: Pet)
    requires |p.name| >= 5 && p.age >= 3
    ensures Validate(p, PetValidations) == None
  {
    PetEntriesPass(p);
  }

  /** Both entries pass for a valid pet; a step of `ValidPetPasses`. */
  lemma PetEntriesPass(p: Pet)
    requires |p.name| >= 5 && p.age >= 3
    ensures forall j :: 0 <= j < |BuildValidations(PetValidations).storage| ==>
      !BuildValidations(PetValidations).storage[j].run(p).IsFailure()
  {
    var entries := BuildValidations(PetValidations).storage;
    PetRuns(p);
    forall j | 0 <= j < |entries|
      ensures !entries[j].run(p).IsFailure()
    {
      if j != 0 {
        assert j == 1;
      }
    }
  }

  /** A pet failing both checks is reported only for the first one registered,
      through its custom message. */
  lemma FirstFailureReported(p: Pet)
    requires |p.name| < 5
    ensures Validate(p, PetValidations) == Some(Basic("some error"))
  {
    PetRuns(p);
    assert FirstFailureAt(BuildValidations(PetValidations).storage, p, 0, 0);
  }

  /** A pet passing the name count but too young is reported by path and
      description: `age is less than minimum of 3`. */
  lemma PathReported(p: Pet)
    requires |p.name| >= 5 && p.age < 3
    ensures Validate(p, PetValidations)
         == Some(Basic("age " + ValidatorResults.RangeDescription(RangeResults.BelowMin(3), None)))
    ensures Validate(p, PetValidations) == Some(Basic("age is less than minimum of 3"))
  {
    var vs := BuildValidations(PetValidations);
    var d := ValidatorResults.RangeDescription(RangeResults.BelowMin(3), None);
    PetAgeFailsFirst(p);
    assert ValidateOn(vs, p) == Some(ReportedError(vs.storage[1], vs.storage[1].run(p)));
    ReportedPathAndDescription(vs.storage[1], vs.storage[1].run(p), d);
    AgePrefix(d);
    AgeMessage();
  }

  /** For a pet passing the name count but too young, the age entry is the
      first failure, reported by path; a step of `PathReported`. */
  lemma PetAgeFailsFirst(p: Pet)
    requires |p.name| >= 5 && p.age < 3
    ensures FirstFailureAt(BuildValidations(PetValidations).storage, p, 0, 1)
    ensures BuildValidations(PetValidations).storage[1].path == "age"
    ensures BuildValidations(PetValidations).storage[1].customValidationError == None
    ensures BuildValidations(PetValidations).storage[1].customFailureDescription == None
    ensures BuildValidations(PetValidations).storage[1].run(p).FailureDescription()
         == Some(ValidatorResults.RangeDescription(RangeResults.BelowMin(3), None))
  {
    PetRuns(p);
  }

  /** The age entry's path and a description joined by one space, as a
      single literal prefix; a step of `PathReported`. */
  lemma AgePrefix(d: string)
    ensures "age" + " " + d == "age " + d
  {
    assert "age" + " " == "age ";
  }

  /** The full text reported for a pet younger than 3; a step of `PathReported`. */
  lemma AgeMessage()
    ensures "age " + ValidatorResults.RangeDescription(RangeResults.BelowMin(3), None)
         == "age is less than minimum of 3"
  {
    RangeValidators.BelowMinMessage(3, None);
    assert Text.IntToString(3) == "3";
    assert "is less than minimum of " + "3" + "" == "is less than minimum of 3";
  }

  /** The pets of the library's tests: a valid one, and a short name reported
      through the custom message whether or not the age also fails. */
  lemma PetExamples()
    ensures Validate(Pet("Zizek Pulaski", 4), PetValidations) == None
    ensures Validate(Pet("Nina", 4), PetValidations) == Some(Basic("some error"))
    ensures Validate(Pet("Nina", 2), PetValidations) == Some(Basic("some error"))
  {
    assert |"Zizek Pulaski"| == 13;
    assert |"Nina"| == 4;
    ValidPetPasses(Pet("Zizek Pulaski", 4));
    FirstFailureReported(Pet("Nina", 4));
    FirstFailureReported(Pet("Nina", 2));
  }
}
