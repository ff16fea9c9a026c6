/** The `range(...)` validators over integers and the `count(...)` validators
    built on them. Each of Swift's five range forms is translated into an
    inclusive pair of optional bounds before classification. */
module RangeValidators {
  import opened OptionalType
  import opened Text
  import opened RangeResults
  import ValidatorResults
  import opened Validators

  /** The five Swift range forms: `a...b`, `a..<b`, `...b`, `a...`, `..<b`. */
  datatype RangeExpr =
    | Closed(lower: int, upper: int)
    | HalfOpen(lower: int, upper: int)
    | Through(upper: int)
    | From(lower: int)
    | UpTo(upper: int)
  {
    /** Swift refuses to build `a...b` or `a..<b` with `a > b`. */
    predicate Valid()
    {
      (Closed? || HalfOpen?) ==> lower <= upper
    }

    /** Swift's membership test `~=` for the range form. */
    predicate Contains(v: int)
    {
      match this
      case Closed(a, b) => a <= v <= b
      case HalfOpen(a, b) => a <= v < b
      case Through(b) => v <= b
      case From(a) => a <= v
      case UpTo(b) => v < b
    }
  }

  /** The inclusive bounds each `range(...)` overload passes on: exclusive
      upper bounds are stepped down by one (`advanced(by: -1)`). */
  function Bounds(e: RangeExpr): (b: (Option<int>, Option<int>))
    ensures forall v :: InBounds(b.0, b.1, v) <==> e.Contains(v)
    ensures e.Valid() && !e.HalfOpen? ==> Ordered(b.0, b.1)
  {
    match e
    case Closed(a, b) => (Some(a), Some(b))
    case HalfOpen(a, b) => (Some(a), Some(b - 1))
    case Through(b) => (None, Some(b))
    case From(a) => (Some(a), None)
    case UpTo(b) => (None, Some(b - 1))
  }

  /** The result built from a classification, or `Invalid` when the
      classification could not be made. */
  function FromClassification(c: Option<RangeResult>, suffix: Option<string>): (r: ValidatorResults.ValidatorResult)
    ensures c.None? ==> r.IsFailure() && r.SuccessDescription() == None
    ensures c.None? ==> r.FailureDescription() == Some("is invalid: Value in Range is not comparable")
    ensures c.Some? ==> (r.IsFailure() <==> !c.value.IsWithinRange())
    ensures c.Some? ==> r.SuccessDescription() == r.FailureDescription()
  {
    match c
    case Some(rr) => ValidatorResults.Range(rr, suffix)
    case None =>
      assert "is invalid: " + "Value in Range is not comparable" == "is invalid: Value in Range is not comparable";
      ValidatorResults.Invalid("Value in Range is not comparable")
  }

  /** The internal `range(min:max:_:_:)`: classifies the projected value against
      the bounds and reports the classification, with the unit suffix when one
      is given: under the lower bound it reports that bound, over the upper bound
      (and not under the lower) it reports that bound. The literal messages are
      given by `BelowMinMessage` and `AboveMaxMessage`. */
  function RangeOn<T(!new)>(min: Option<int>, max: Option<int>, key: T -> int,
                            suffix: Option<string>, withinText: string): (v: Validator<T>)
    ensures forall x :: v.validate(x).IsFailure() <==> !InBounds(min, max, key(x))
    ensures forall x :: v.validate(x).SuccessDescription() == v.validate(x).FailureDescription()
    ensures forall x :: min.Some? && key(x) < min.value ==>
      v.validate(x).FailureDescription() == Some(ValidatorResults.RangeDescription(BelowMin(min.value), suffix))
    ensures forall x :: InBounds(min, None, key(x)) && max.Some? && max.value < key(x) ==>
      v.validate(x).FailureDescription() == Some(ValidatorResults.RangeDescription(AboveMax(max.value), suffix))
    ensures forall x :: InBounds(min, max, key(x)) ==>
      v.validate(x).FailureDescription() == Some(ValidatorResults.RangeDescription(Within(withinText), suffix))
  {
    Init((x: T) => FromClassification(Some(Classify(min, max, key(x), withinText)), suffix))
  }

  /** `range(_:)` on an integer value, for any of the five range forms; a
      rejected value is reported against the bound it crosses. */
  function Range(e: RangeExpr, withinText: string): (v: Validator<int>)
    requires e.Valid()
    ensures forall x :: v.validate(x).IsFailure() <==> !e.Contains(x)
    ensures forall x :: Bounds(e).0.Some? && x < Bounds(e).0.value ==>
      v.validate(x).FailureDescription() == Some(ValidatorResults.RangeDescription(BelowMin(Bounds(e).0.value), None))
    ensures forall x :: Bounds(e).1.Some? && Bounds(e).1.value < x ==>
      v.validate(x).FailureDescription() == Some(ValidatorResults.RangeDescription(AboveMax(Bounds(e).1.value), None))
  {
    RangeOn(Bounds(e).0, Bounds(e).1, (x: int) => x, None, withinText)
  }

  /** `count(_:)` on a string: the range applied to its length, with the unit
      `character`. */
  function CountCharacters(e: RangeExpr, withinText: string): (v: Validator<string>)
    requires e.Valid()
    ensures forall s :: v.validate(s).IsFailure() <==> !e.Contains(|s|)
    ensures forall s :: Bounds(e).0.Some? && |s| < Bounds(e).0.value ==>
      v.validate(s).FailureDescription()
        == Some(ValidatorResults.RangeDescription(BelowMin(Bounds(e).0.value), Some("character")))
    ensures forall s :: Bounds(e).1.Some? && Bounds(e).1.value < |s| ==>
      v.validate(s).FailureDescription()
        == Some(ValidatorResults.RangeDescription(AboveMax(Bounds(e).1.value), Some("character")))
  {
    RangeOn(Bounds(e).0, Bounds(e).1, (s: string) => |s|, Some("character"), withinText)
  }

  /** `count(_:)` on any other collection: the range applied to its size, with
      the unit `item`. */
  function CountItems<E(!new)>(e: RangeExpr, withinText: string): (v: Validator<seq<E>>)
    requires e.Valid()
    ensures forall s :: v.validate(s).IsFailure() <==> !e.Contains(|s|)
    ensures forall s :: Bounds(e).0.Some? && |s| < Bounds(e).0.value ==>
      v.validate(s).FailureDescription()
        == Some(ValidatorResults.RangeDescription(BelowMin(Bounds(e).0.value), Some("item")))
    ensures forall s :: Bounds(e).1.Some? && Bounds(e).1.value < |s| ==>
      v.validate(s).FailureDescription()
        == Some(ValidatorResults.RangeDescription(AboveMax(Bounds(e).1.value), Some("item")))
  {
    RangeOn(Bounds(e).0, Bounds(e).1, (s: seq<E>) => |s|, Some("item"), withinText)
  }

  /** The message for a value within range is the classification's own text. */
  lemma WithinMessage(withinText: string, suffix: Option<string>)
    ensures ValidatorResults.RangeDescription(Within(withinText), suffix) == "is " + withinText + Unit(suffix)
  {
    match suffix
    case None =>
    case Some(u) =>
      assert "is " + withinText + " " + u + "(s)" == "is " + withinText + (" " + u + "(s)");
  }

  /** Every range message is `is `, the classification's text and the unit. */
  lemma MessageShape(rr: RangeResult, suffix: Option<string>)
    ensures ValidatorResults.RangeDescription(rr, suffix) == "is " + rr.Description() + Unit(suffix)
  {
    match suffix
    case None =>
    case Some(u) =>
      assert "is " + rr.Description() + " " + u + "(s)" == "is " + rr.Description() + (" " + u + "(s)");
  }

  /** Moves a literal prefix `head` in front of the rendered number `n`, so
      that the message can be compared with a single literal. */
  lemma Regroup(head: string, n: string, unit: string)
    ensures "is " + (head + n) + unit == ("is " + head) + n + unit
  {
  }

  /** The literal message for a value below the minimum. */
  lemma BelowMinMessage(m: int, suffix: Option<string>)
    ensures ValidatorResults.RangeDescription(BelowMin(m), suffix)
         == "is less than minimum of " + IntToString(m) + Unit(suffix)
  {
    MessageShape(BelowMin(m), suffix);
    BelowMinText(IntToString(m), Unit(suffix));
  }

  /** The literal step of `BelowMinMessage`, for any rendered number. */
  lemma BelowMinText(n: string, unit: string)
    ensures "is " + ("less than minimum of " + n) + unit == "is less than minimum of " + n + unit
  {
    Regroup("less than minimum of ", n, unit);
    assert "is " + "less than minimum of " == "is less than minimum of ";
  }

  /** The literal message for a value above the maximum. */
  lemma AboveMaxMessage(m: int, suffix: Option<string>)
    ensures ValidatorResults.RangeDescription(AboveMax(m), suffix)
         == "is greater than maximum of " + IntToString(m) + Unit(suffix)
  {
    MessageShape(AboveMax(m), suffix);
    AboveMaxText(IntToString(m), Unit(suffix));
  }

  /** The literal step of `AboveMaxMessage`, for any rendered number. */
  lemma AboveMaxText(n: string, unit: string)
    ensures "is " + ("greater than maximum of " + n) + unit == "is greater than maximum of " + n + unit
  {
    Regroup("greater than maximum of ", n, unit);
    assert "is " + "greater than maximum of " == "is greater than maximum of ";
  }

  /** The text appended to a range message for a unit suffix. */
  function Unit(suffix: Option<string>): string
  {
    match suffix
    case Some(u) => " " + u + "(s)"
    case None => ""
  }

  /** `range(-5...5)`: `-5`, `4` and `5` pass; `6` and `-6` fail with their bound. */
  lemma ClosedRangeExamples(w: string)
    ensures !Range(Closed(-5, 5), w).validate(-5).IsFailure()
    ensures !Range(Closed(-5, 5), w).validate(4).IsFailure()
    ensures !Range(Closed(-5, 5), w).validate(5).IsFailure()
    ensures Range(Closed(-5, 5), w).validate(6).FailureDescription() == Some("is greater than maximum of 5")
    ensures Range(Closed(-5, 5), w).validate(-6).FailureDescription() == Some("is less than minimum of -5")
  {
    AboveMaxMessage(5, None);
    BelowMinMessage(-5, None);
    assert IntToString(5) == "5";
    assert IntToString(-5) == "-5";
    assert "is greater than maximum of " + "5" + "" == "is greater than maximum of 5";
    assert "is less than minimum of " + "-5" + "" == "is less than minimum of -5";
  }

  /** `range(-5..<6)` keeps `-5`, `-4` and `5` and rejects `-6` and `6`;
      `range(5...)` accepts every value from 5 upwards. */
  lemma OpenRangeExamples(w: string, big: int)
    requires big >= 5
    ensures !Range(HalfOpen(-5, 6), w).validate(-5).IsFailure()
    ensures !Range(HalfOpen(-5, 6), w).validate(-4).IsFailure()
    ensures !Range(HalfOpen(-5, 6), w).validate(5).IsFailure()
    ensures Range(HalfOpen(-5, 6), w).validate(-6).IsFailure()
    ensures Range(HalfOpen(-5, 6), w).validate(6).IsFailure()
    ensures !Range(From(5), w).validate(big).IsFailure()
  {
  }

  /** The two count messages of the library's tests, for each unit. */
  lemma CountMessages()
    ensures ValidatorResults.RangeDescription(BelowMin(1), Some("character"))
         == "is less than minimum of 1 character(s)"
    ensures ValidatorResults.RangeDescription(AboveMax(6), Some("character"))
         == "is greater than maximum of 6 character(s)"
    ensures ValidatorResults.RangeDescription(BelowMin(1), Some("item"))
         == "is less than minimum of 1 item(s)"
    ensures ValidatorResults.RangeDescription(AboveMax(6), Some("item"))
         == "is greater than maximum of 6 item(s)"
  {
    BelowMinMessage(1, Some("character"));
    AboveMaxMessage(6, Some("character"));
    BelowMinMessage(1, Some("item"));
    AboveMaxMessage(6, Some("item"));
    assert IntToString(1) == "1";
    assert IntToString(6) == "6";
  }

  /** `count(1...6)` on text: the lengths 1, 3 and 6 pass; 0 and 7 fail with
      their bound and the unit `character(s)`. */
  lemma CountCharactersExamples(w: string)
    ensures !CountCharacters(Closed(1, 6), w).validate("1").IsFailure()
    ensures !CountCharacters(Closed(1, 6), w).validate("123").IsFailure()
    ensures !CountCharacters(Closed(1, 6), w).validate("123456").IsFailure()
    ensures CountCharacters(Closed(1, 6), w).validate("").FailureDescription()
         == Some("is less than minimum of 1 character(s)")
    ensures CountCharacters(Closed(1, 6), w).validate("1234567").FailureDescription()
         == Some("is greater than maximum of 6 character(s)")
  {
    CountMessages();
    assert |"1234567"| == 7;
  }

  /** `count(1...6)` on arrays: the sizes 1, 3 and 6 pass; 0 and 7 fail with
      their bound and the unit `item(s)`. */
  lemma CountItemsExamples(w: string)
    ensures !CountItems<int>(Closed(1, 6), w).validate([1]).IsFailure()
    ensures !CountItems<int>(Closed(1, 6), w).validate([1, 2, 3]).IsFailure()
    ensures !CountItems<int>(Closed(1, 6), w).validate([1, 2, 3, 4, 5, 6]).IsFailure()
    ensures CountItems<int>(Closed(1, 6), w).validate([]).FailureDescription()
         == Some("is less than minimum of 1 item(s)")
    ensures CountItems<int>(Closed(1, 6), w).validate([1, 2, 3, 4, 5, 6, 7]).FailureDescription()
         == Some("is greater than maximum of 6 item(s)")
  {
    CountMessages();
    assert |[1, 2, 3, 4, 5, 6, 7]| == 7;
  }
}
