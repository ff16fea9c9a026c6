/** The classification of a value against optional lower and upper bounds
    (`RangeResult`), reduced to the three positions the range validator reads.
    Only the two out-of-range descriptions are fixed; the text for a value
    within range is carried as given. */
module RangeResults {
  import opened OptionalType
  import opened Text

  datatype RangeResult =
    | BelowMin(min: int)
    | AboveMax(max: int)
    | Within(text: string)
  {
    /** `isWithinRange`. */
    predicate IsWithinRange()
    {
      Within?
    }

    /** `description`, as interpolated into the range validator's message. */
    function Description(): string
    {
      match this
      case BelowMin(m) => "less than minimum of " + IntToString(m)
      case AboveMax(m) => "greater than maximum of " + IntToString(m)
      case Within(t) => t
    }
  }

  /** The bounds describe a non-empty interval (or leave one side open). */
  predicate Ordered(min: Option<int>, max: Option<int>)
  {
    min.Some? && max.Some? ==> min.value <= max.value
  }

  /** The value lies between the bounds that are present, inclusively. */
  predicate InBounds(min: Option<int>, max: Option<int>, value: int)
  {
    (min.None? || min.value <= value) && (max.None? || value <= max.value)
  }

  /** `RangeResult(min:max:value:)`: where `value` lies relative to the bounds;
      `withinText` is the description the classification gives a value in range. */
  function Classify(min: Option<int>, max: Option<int>, value: int, withinText: string): (r: RangeResult)
    ensures Ordered(min, max) ==> (r.BelowMin? <==> min.Some? && value < min.value)
    ensures Ordered(min, max) ==> (r.AboveMax? <==> max.Some? && max.value < value)
    ensures r.IsWithinRange() <==> InBounds(min, max, value)
    ensures r.BelowMin? ==> r.min == min.value
    ensures r.AboveMax? ==> r.max == max.value
    ensures r.Within? ==> r.text == withinText
  {
    if min.Some? && value < min.value then BelowMin(min.value)
    else if max.Some? && max.value < value then AboveMax(max.value)
    else Within(withinText)
  }

  /** With no bound at all, every value is within range. */
  lemma UnboundedIsWithin(value: int, withinText: string)
    ensures Classify(None, None, value, withinText) == Within(withinText)
  {
  }
}
