# Validation combinator engine — Dafny model

This project models the core of a Swift validation library. A model type
registers property-level checks in a `Validations` registry. `validate()` then
evaluates them in registration order and reports the first failure as a single
`ValidationError`.

The model covers these parts:

- **Results** (`ValidatorResults`). A `ValidatorResult` is a closed datatype with
  the kinds `Invalid`, `Range`, `Case`, `Empty`, `Nil`, `Pattern` and `Not`.
  Each result has one decision field, `IsFailure`, and two optional
  descriptions. An absent description (`None`, Swift's `nil`) is never the
  empty string.
- **Validators** (`Validators`). A `Validator<T>` wraps a total function from `T`
  to a result.
- **Negation** (`NotOperator`). `!v` inverts the outcome and swaps the two
  descriptions.
- **Primitive validators**: `range` over the five Swift range forms, and
  `count` as `range` on a length with the unit `character` or `item`
  (`RangeValidators`); `case(of:)` (`CaseValidator`); `empty`
  (`EmptyValidator`); `nil` (`NilValidator`); `pattern` (`PatternValidator`).
  `RangeResults` holds the classification of a value against optional bounds.
  `OptionalType` holds `Optional`, with `wrapped` and `makeOptionalType`.
- **Registry**. `ValidationErrors` holds the error type. `ValidationEntry` holds
  one registered `Validation` entry. `ValidationRegistry` holds `Validations`,
  its three `add` overloads and the fail-fast `validate(on:)`. It gives
  `validate(on:)` both as a recursive function and as the source's loop.
  `ValidatableModel` holds `validations()` and `validate()`.

Some things are replaced by plain Dafny values:

- Key paths become accessor functions `M -> T`.
- Throwing becomes a returned `Option<ValidationError>`.
- The regular-expression engine becomes a parameter `firstMatch`. It gives
  the `(start, end)` character offsets of the first match, or `None`.
- `RangeResult` is not among the modelled files, so its description of a value
  *within* range is not modelled. It is the parameter `withinText`, one fixed
  string per validator: the model assumes `RangeResult` describes every value
  within range by the same text. Its two
  out-of-range descriptions, `less than minimum of <m>` and
  `greater than maximum of <M>`, are the ones the library's tests pin.
- String interpolation of an enum's raw value becomes the parameter
  `describe`.

Two details of the rendered texts:

- With three or more cases the list is `A, B or C`, with no comma before `or`
  (Sources/Validators/Case.swift:52-55).
- With both bounds absent, `RangeResults.Classify` gives `Within`. None of the
  five `range(...)` forms produces that case.

## Model

| member | source | states |
|---|---|---|
| `Text.IntToString` | Sources/Validators/Range.swift:103-105 | decimal rendering of a bound: a leading `-` exactly for negative numbers, no leading zero (0 renders as `0`), and the digits read back as the magnitude |
| `Text.Join` | Sources/Validators/Case.swift:53 | `joined(separator:)`; `JoinMentionsEveryItem` shows every item appears in the joined text |
| `Text.JoinMentionsEveryItem` | Sources/Validators/Case.swift:53 | every item of a joined list appears verbatim in the joined text |
| `OptionalType.Wrapped` | Sources/OptionalType.swift:48-53 | `wrapped` of `nil` is `nil`; of `.some(w)` it is `w` |
| `OptionalType.MakeOptionalType` | Sources/OptionalType.swift:56-58 | `makeOptionalType` returns its argument unchanged |
| `OptionalType.WrappedRoundTrip` | Sources/OptionalType.swift:48-58 | `wrapped(makeOptionalType(x)) == x` and the converse, for every optional |
| `RangeResults.RangeResult.IsWithinRange` | Sources/Validators/Range.swift:86-89 | the only position read by the range result's outcome; `Classify` makes it hold exactly when the value lies within the present bounds |
| `RangeResults.RangeResult.Description` | Sources/Validators/Range.swift:101-107 | the position text interpolated into the range message; `BelowMinMessage` and `AboveMaxMessage` pin the two out-of-range texts |
| `RangeResults.Classify` | Sources/Validators/Range.swift:48 | for ordered bounds: below-minimum exactly when under a present lower bound, above-maximum exactly when over a present upper bound; within range exactly when inside every present bound; the reported bound is the crossed one |
| `ValidatorResults.ValidatorResult.IsFailure` | Sources/ValidatorResult.swift:20-23 | the outcome of each result kind: `Invalid` always fails, `Empty`/`Nil`/`Pattern`/`Case`/`Range` fail when their flag or position says so, `Not` inverts (Sources/Validators/Not.swift:23-25, Empty.swift:27-29, Nil.swift:27-29, Pattern.swift:33-35, Range.swift:87-89, Case.swift:30-32); `InvalidResult`, `Negate`, `Empty`, `Nil`, `Pattern`, `RangeOn` and `CaseOf` state it per kind |
| `ValidatorResults.ValidatorResult.SuccessDescription` | Sources/ValidatorResult.swift:25-27 | the success text of each kind (Not.swift:28-30, Empty.swift:32-34, Nil.swift:32-37, Pattern.swift:38-40, Range.swift:92-94, Case.swift:35-37); it is absent only for `Invalid` and for a negation whose inner result has no failure description |
| `ValidatorResults.ValidatorResult.FailureDescription` | Sources/ValidatorResult.swift:29-31 | the failure text of each kind (Not.swift:33-35, Empty.swift:37-39, Nil.swift:40-45, Pattern.swift:43-45, Range.swift:97-99, Case.swift:40-42); every primitive kind has one, and it is absent only for a negation of a result with no success description; the `Case` kind carries the corrected `is not <list>` of "## Findings", not the program's `isnot <list>` |
| `ValidatorResults.RangeDescription` | Sources/Validators/Range.swift:101-107 | `is <position>`, followed by ` <unit>(s)` when a unit is given; `MessageShape`, `BelowMinMessage`, `AboveMaxMessage` and `WithinMessage` state the resulting texts |
| `ValidatorResults.CaseList` | Sources/Validators/Case.swift:44-56 | the case list for one, two and more cases; `CaseListUniform` shows the two-case branch agrees with the general rule and `CaseListMentionsEveryCase` that every case is named |
| `ValidatorResults.CaseDescription` | Sources/Validators/Case.swift:57 | `is <list>`, and the corrected `is not <list>` when negated (see Findings); `CorrectedDescriptionSpacesNot` states it |
| `ValidatorResults.InvalidResult` | Sources/ValidatorResult.swift:20-31 | an `Invalid` result always fails; its success description is `nil` (not `""`); its failure description is `is invalid: <reason>` |
| `ValidatorResults.DescriptionsIndependentOfOutcome` | Sources/ValidatorResult.swift:8-12 | results with opposite outcomes can carry identical descriptions, and two passing results different ones: the descriptions do not encode the decision |
| `ValidatorResults.CaseListUniform` | Sources/Validators/Case.swift:47-55 | for two or more cases the list is the leading cases joined by `, `, then ` or ` and the last case; the two-case branch agrees with this rule |
| `ValidatorResults.CaseListMentionsEveryCase` | Sources/Validators/Case.swift:44-56 | every case's raw value appears in the rendered list |
| `Validators.Init` | Sources/Validator.swift:37-39 | validating `x` with a validator built from closure `f` returns exactly `f(x)` |
| `Validators.CustomValidatorReturnsItsResult` | Sources/Validator.swift:17-23 | a validator built as `.init { Invalid(reason) }` returns that result unchanged for every input and so always fails |
| `NotOperator.Negate` | Sources/Validators/Not.swift:9-35 | `!v` fails exactly when `v` passes on the same input; its success description is `v`'s failure description and vice versa |
| `NotOperator.DoubleNegation` | Sources/Validators/Not.swift:21-35 | `!!v` agrees with `v` on the outcome and on both descriptions for every input |
| `NotOperator.NegationKeepsAbsentDescriptions` | Sources/Validators/Not.swift:27-35 | a `nil` description of `v` stays `nil` on the swapped side of `!v` |
| `NotOperator.NegatedInvalid` | Sources/Validators/Not.swift:21-35 | `!` of an `Invalid` result passes, has no failure description, and reports `is invalid: <reason>` as its success description |
| `EmptyValidator.Empty` | Sources/Validators/Empty.swift:10-39 | fails exactly on non-empty collections; success description always `is empty`, failure description always `is not empty` |
| `EmptyValidator.NotEmpty` | Sources/Validators/Empty.swift:9 | `!empty` fails exactly on the empty collection and then reports `is empty` |
| `EmptyValidator.EmptyExamples` | Tests/ValidationTests/ValidationTests.swift:39-44 | `""` and `[]` pass; `"something"` and `[1, 2]` fail |
| `NilValidator.Nil` | Sources/Validators/Nil.swift:10-45 | fails exactly when the optional holds a value; for `nil` the descriptions are `is not null` / `is null`, for a value `is null` / `is not null` |
| `NilValidator.NilDescriptionsDistinct` | Sources/Validators/Nil.swift:31-45 | the two descriptions are always the two distinct texts `is null` and `is not null` |
| `NilValidator.NotNil` | Sources/Validators/Nil.swift:9 | `!nil` fails exactly on `nil`, and then reports `is not null` |
| `RangeValidators.RangeExpr.Contains` | Sources/Validators/Range.swift:10-40 | membership in each of the five Swift range forms, the reference `Bounds` is proved against |
| `RangeValidators.Bounds` | Sources/Validators/Range.swift:10-40 | the stored inclusive bounds admit exactly the values the Swift range form contains: `a..<b` and `..<b` step the upper bound down by one; partial forms leave the other side open |
| `RangeValidators.FromClassification` | Sources/Validators/Range.swift:48-55 | with no classification the result is `Invalid("Value in Range is not comparable")`: it fails with no success description; otherwise it fails exactly when not within range and both descriptions are the same string |
| `RangeValidators.RangeOn` | Sources/Validators/Range.swift:45-57 | fails exactly when the projected value is outside the present bounds; both descriptions are equal; the message reports the crossed bound, or the within-range text, with the unit suffix |
| `RangeValidators.Range` | Sources/Validators/Range.swift:8-41 | `range(e)` fails exactly when the value is not in the Swift range `e`; a rejected value is reported against the lower or the upper stored bound it crosses |
| `RangeValidators.CountCharacters` | Sources/Validators/Range.swift:45 | the count of a string fails exactly when its length is outside the range; messages carry the unit `character` |
| `RangeValidators.CountItems` | Sources/Validators/Range.swift:45 | the count of a collection fails exactly when its size is outside the range; messages carry the unit `item` |
| `RangeValidators.BelowMinMessage` | Sources/Validators/Range.swift:101-107 | below the minimum the message is `is less than minimum of <min>`, plus ` <unit>(s)` when a unit is given |
| `RangeValidators.AboveMaxMessage` | Sources/Validators/Range.swift:101-107 | above the maximum the message is `is greater than maximum of <max>`, plus ` <unit>(s)` when a unit is given |
| `RangeValidators.WithinMessage` | Sources/Validators/Range.swift:101-107 | within range the message is `is <within text>`, plus ` <unit>(s)` when a unit is given |
| `RangeValidators.CountMessages` | Tests/ValidationTests/ValidationTests.swift:77-87 | the exact count messages `is less than minimum of 1 character(s)`, `is greater than maximum of 6 item(s)` and the two others |
| `RangeValidators.ClosedRangeExamples` | Tests/ValidationTests/ValidationTests.swift:56-61 | `range(-5...5)` passes -5, 4 and 5; 6 gives `is greater than maximum of 5`, -6 gives `is less than minimum of -5` |
| `RangeValidators.OpenRangeExamples` | Tests/ValidationTests/ValidationTests.swift:63-69 | `range(-5..<6)` passes -5, -4 and 5 and rejects -6 and 6; `range(5...)` passes every value from 5 up |
| `RangeValidators.CountCharactersExamples` | Tests/ValidationTests/ValidationTests.swift:72-79 | `count(1...6)` on strings: lengths 1, 3 and 6 pass; `""` and a 7-character string fail with the test's messages |
| `RangeValidators.CountItemsExamples` | Tests/ValidationTests/ValidationTests.swift:81-88 | `count(1...6)` on arrays: sizes 1, 3 and 6 pass; `[]` and a 7-element array fail with the test's messages |
| `CaseValidator.CaseWithRawValue` | Sources/Validators/Case.swift:31 | `init(rawValue:)` finds a case holding the raw value, and finds none exactly when no case has it |
| `CaseValidator.Items` | Sources/Validators/Case.swift:45 | the rendered list has one entry per case, in declaration order |
| `CaseValidator.CaseOf` | Sources/Validators/Case.swift:10-42 | fails exactly when no declared case has the input as raw value; success description `is <list>`, failure description `is not <list>` |
| `CaseValidator.DescriptionsIgnoreInput` | Sources/Validators/Case.swift:44-57 | both descriptions are the same for any two inputs |
| `CaseValidator.DescriptionsNameEveryCase` | Sources/Validators/Case.swift:44-57 | every case's raw value appears in both descriptions |
| `CaseValidator.CaseListExamples` | Sources/Validators/Case.swift:47-55 | one case renders as `A`, two as `A or B`, three as `A, B or C` |
| `CaseValidator.AsWrittenDescription` | Sources/Validators/Case.swift:57 | the description exactly as the source builds it: `is <list>`, or `isnot <list>` when negated |
| `CaseValidator.AsWrittenMissesSpace` | Sources/Validators/Case.swift:57 | as written, the failure text begins `isnot ` and never `is not `, for every enum |
| `CaseValidator.CorrectedDescriptionSpacesNot` | Sources/Validators/Case.swift:57 | the description the model uses inserts `not ` after `is ` of the success text, so the failure text begins `is not ` |
| `PatternValidator.PatternCheck` | Sources/Validators/Pattern.swift:11-19 | for one string: passes exactly when the first match is the whole string; the two texts of the pattern result |
| `PatternValidator.Pattern` | Sources/Validators/Pattern.swift:10-45 | passes exactly when the first match spans the whole string; success description `is a valid pattern`, failure description `is not a valid pattern <pattern>` with the pattern verbatim |
| `PatternValidator.PartialMatchFails` | Sources/Validators/Pattern.swift:12-16 | no match, or a first match not starting at the start or not ending at the end, fails |
| `PatternValidator.PrefixMatchExample` | Sources/Validators/Pattern.swift:12-16 | a match covering only a prefix of `abc` is a failure, reported with the pattern |
| `ValidationErrors.ValidationError.Identifier` | Sources/ValidationError.swift:18-24 | a basic error is identified as `validation failed`, a `String`-backed error case by its raw value; `Basic` and `RawValueIdentifier` state both |
| `ValidationErrors.Basic` | Sources/ValidationError.swift:23-30 | a basic error is identified as `validation failed` and carries the given reason |
| `ValidationErrors.RawValueIdentifier` | Sources/ValidationError.swift:18-20 | a `String`-backed error case is identified by its raw value, e.g. `email` |
| `ValidationEntry.WithError` | Sources/Validation.swift:14-19 | path `data`, custom error present, custom message absent, the check stored unchanged; never both overrides |
| `ValidationEntry.WithMessage` | Sources/Validation.swift:21-26 | path `data`, custom error absent, custom message present, the check stored unchanged; never both overrides |
| `ValidationEntry.AtPath` | Sources/Validation.swift:28-33 | the given path, no override, the check stored unchanged |
| `ValidationRegistry.New` | Sources/Validations.swift:14-16 | a new registry has no entry |
| `ValidationRegistry.AddWithError` | Sources/Validations.swift:27-29 | appends exactly one entry (custom error, path `data`) that runs the validator on the accessed property; earlier entries unchanged |
| `ValidationRegistry.AddWithMessage` | Sources/Validations.swift:42-44 | appends exactly one entry (custom message, path `data`) that runs the validator on the accessed property; earlier entries unchanged |
| `ValidationRegistry.AddAt` | Sources/Validations.swift:55-57 | appends exactly one entry (given path, no override) that runs the validator on the accessed property; earlier entries unchanged |
| `ValidationRegistry.ReportedError` | Sources/Validations.swift:66-72 | priority: the custom error as is; else a basic error with the custom message; else a basic error `<path> <failure description>`, `nil` rendering as nothing |
| `ValidationRegistry.ValidateFrom` | Sources/Validations.swift:62-75 | from a position on, no error exactly when every later entry passes; otherwise the error of the first failing entry |
| `ValidationRegistry.ValidateOn` | Sources/Validations.swift:62-75 | no error exactly when every entry passes; otherwise the error of the first failing entry in registration order |
| `ValidationRegistry.Validate` | Sources/Validations.swift:62-75 | the loop over the storage returning at the first failure gives the same outcome as the recursive evaluation |
| `ValidationRegistry.LaterEntriesIgnored` | Sources/Validations.swift:63-73 | once an entry fails, appending further entries changes nothing: later entries are never consulted |
| `ValidationRegistry.EmptyRegistryPasses` | Sources/Validations.swift:62-75 | an empty registry reports no error |
| `ValidationRegistry.OverridesHidePath` | Sources/Validations.swift:66-69 | with a custom error or message the reported error does not depend on the path, so `data` never shows |
| `ValidationRegistry.ReportedPathAndDescription` | Sources/Validations.swift:71 | without overrides the error is the basic error `<path> <failure description>` |
| `ValidationRegistry.AbsentDescriptionLeavesTrailingSpace` | Sources/Validations.swift:71 | a `nil` failure description is reported as `<path> ` with a trailing space |
| `ValidatableModel.BuildValidations` | Sources/Validatable.swift:55-59 | `validations()` is the registration routine applied once to a new, empty registry |
| `ValidatableModel.Validate` | Sources/Validatable.swift:47-49 | `validate()` gives the outcome of `validations().validate(on: self)`: no error exactly when every registered entry passes |
| `ValidatableModel.NothingRegisteredPasses` | Sources/Validatable.swift:47-49 | a model whose routine registers nothing never fails |
| `ValidatableModel.ValidPetPasses` | Tests/ValidationTests/ValidationTests.swift:164-175 | in the `Pet` registry with the name check reduced to `count(5...)`, a pet whose name passes that count and whose age is 3 or more passes |
| `ValidatableModel.FirstFailureReported` | Tests/ValidationTests/ValidationTests.swift:172-174 | a short name is reported through its custom message, whether or not the age also fails |
| `ValidatableModel.PathReported` | Tests/ValidationTests/ValidationTests.swift:172-174 | in the reduced `Pet` registry, a pet whose name passes `count(5...)` and whose age is under 3 is reported as `age is less than minimum of 3` |
| `ValidatableModel.PetExamples` | Tests/ValidationTests/ValidationTests.swift:13-19 | the pets the test builds: `Zizek Pulaski` (age 4) passes; `Nina` (age 4, and likewise age 2) would be reported with `some error`; the test itself validates only the first pet |

## Left out

- The `&&` and `||` combinators: their source is not part of this model.
- The `ascii`, `alphanumeric`, `email`, `url`, `in` and `characterSet` validators: their source is not part of this model.
- `count`: its source is not part of this model either. It is modelled as `range` applied to the length with the unit `character` (strings) or `item` (other collections), as the library's tests show.
- `RangeResult`: its source is not part of this model. Only the three positions are modelled; the within-range text is the parameter `withinText`.
- RangeResults.Classify: the classification is stated only for ordered bounds. `range(a..<a)` gives `min = a`, `max = a - 1`, and how `RangeResult` treats such bounds is not modelled (the model rejects every value there).
- RangeValidators.FromClassification: with integer bounds the comparison always succeeds, so the `Invalid("Value in Range is not comparable")` branch is stated for an absent classification, but no integer range reaches it.
- Ranges over types other than integers (floating point, strings): all range and count validators are modelled on `int`.
- Integer width: Swift `Int` is 64-bit. `advanced(by: -1)` at `Int.min` would trap; the model's unbounded integers do not.
- String length: Swift `String.count` counts grapheme clusters; the model counts `char`s.
- ValidatorResults.ValidatorResult.FailureDescription: for the `Case` kind it gives the corrected `is not <list>` (see Findings), where Sources/Validators/Case.swift:57 gives `isnot <list>`.
- CaseValidator.CaseOf: the model reports the corrected failure text `is not <list>` where the program reports `isnot <list>` (Sources/Validators/Case.swift:57; see Findings), so a path-based registry entry reports `<path> is not A or B` where the program reports `<path> isnot A or B`. The as-written text is `CaseValidator.AsWrittenDescription`.
- CaseValidator.CaseOf: an enum with no case traps when its description is rendered; the model requires at least one case up front, even on paths that would only read the outcome.
- The regular-expression engine (Foundation's `range(of:options:)`): a parameter.
- `UnsafeMutableTransferBox` and its `Sendable` conformance: they only serve concurrency.
- Swift key paths: replaced by accessor functions.
- `AnyOptionalType` and its `Any` type erasure: no counterpart in Dafny.
- Throwing: `validate` returns `Option<ValidationError>`.
- `Package.swift`, the `User` fixture and `print(validations)`.
- ValidatableModel.ValidPetPasses: the `Pet` name check drops the `&& .characterSet(.alphanumerics + .whitespaces)` conjunct (Tests/ValidationTests/ValidationTests.swift:173), whose source is not part of this model; a name such as `a-b-c` passes here but is rejected with `some error` by the program.
- ValidatableModel.PathReported: for the same reason its premise is only that the name passes `count(5...)`; a name such as `a-b-c` with age 2 is reported as `age …` here but as `some error` by the program.

## Findings

| source | as written | input that shows it | evidently intended | confidence | as-written member | corrected member |
|---|---|---|---|---|---|---|
| Sources/Validators/Case.swift:57 | the negated description is `"is" + "not" + " " + list`, i.e. `isnot A or B` | any enum, failure description; e.g. cases `A`, `B` give `isnot A or B` | `is not A or B`, as for `is not empty` and `is not null` | high; not executed | `CaseValidator.AsWrittenMissesSpace` | `CaseValidator.CorrectedDescriptionSpacesNot` |

The rest of the model (`ValidatorResults.CaseDescription`, and through it
`CaseValidator.CaseOf`) uses the corrected text `is not <list>`.
