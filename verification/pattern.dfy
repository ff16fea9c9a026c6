/** The `pattern(_:)` validator: the first match of a regular expression must
    cover the whole string. The regular-expression engine is not modelled; it
    is passed in as `firstMatch`, giving the range of the first match. */
module PatternValidator {
  import opened OptionalType
  import ValidatorResults
  import opened Validators

  /** `range(of: pattern, options: .regularExpression)`: the first match of the
      pattern in the text, as the character offsets `(start, end)`, or `nil`. */
  type Matcher = (string, string) -> Option<(nat, nat)>

  /** The result `pattern(_:)` gives for one string. */
  function PatternCheck(pattern: string, firstMatch: Matcher, s: string): (r: ValidatorResults.ValidatorResult)
    ensures !r.IsFailure() <==> firstMatch(s, pattern) == Some((0, |s|))
    ensures r.SuccessDescription() == Some("is a valid pattern")
    ensures r.FailureDescription() == Some("is not a valid pattern " + pattern)
  {
    match firstMatch(s, pattern)
    case Some(r) => ValidatorResults.Pattern(r.0 == 0 && r.1 == |s|, pattern)
    case None => ValidatorResults.Pattern(false, pattern)
  }

  /** `pattern(_:)`: passes exactly when the first match starts at the start of
      the string and ends at its end. */
  function Pattern(pattern: string, firstMatch: Matcher): (v: Validator<string>)
    ensures forall s :: !v.validate(s).IsFailure() <==> firstMatch(s, pattern) == Some((0, |s|))
    ensures forall s :: v.validate(s).SuccessDescription() == Some("is a valid pattern")
    ensures forall s :: v.validate(s).FailureDescription() == Some("is not a valid pattern " + pattern)
  {
    Init((s: string) => PatternCheck(pattern, firstMatch, s))
  }

  /** No match, or a first match that leaves characters on either side, fails. */
  lemma PartialMatchFails(pattern: string, firstMatch: Matcher, s: string)
    requires firstMatch(s, pattern).None?
          || firstMatch(s, pattern).value.0 != 0
          || firstMatch(s, pattern).value.1 != |s|
    ensures Pattern(pattern, firstMatch).validate(s).IsFailure()
  {
  }

  /** A pattern that matches only a prefix of `abc` is rejected even though it
      matches, and the pattern text is reported verbatim. */
  lemma PrefixMatchExample(pattern: string, firstMatch: Matcher)
    requires firstMatch("abc", pattern) == Some((0, 2))
    ensures Pattern(pattern, firstMatch).validate("abc").IsFailure()
    ensures Pattern(pattern, firstMatch).validate("abc").FailureDescription()
         == Some("is not a valid pattern " + pattern)
  {
  }
}
