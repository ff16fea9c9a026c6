/** `ValidatorResult` and the concrete result kinds of `ValidatorResults`.
    A result has one decision field, `IsFailure`, and two descriptions that
    are computed independently of it (negation swaps them). */
module ValidatorResults {
  import opened OptionalType
  import opened Text
  import RangeResults

  /** The rendered raw values of an enum's cases; an enum with no case is refused
      because rendering its list traps. */
  type CaseItems = s: seq<string> | |s| >= 1 witness [""]

  datatype ValidatorResult =
    | Invalid(reason: string)
    | Range(rangeResult: RangeResults.RangeResult, suffix: Option<string>)
    | Case(items: CaseItems, isMember: bool)
    | Empty(isEmpty: bool)
    | Nil(isNil: bool)
    | Pattern(isValidPattern: bool, pattern: string)
    | Not(result: ValidatorResult)
  {
    /** `isFailure`: the only field decisions are taken on. */
    predicate IsFailure()
    {
      match this
      case Invalid(_) => true
      case Range(rr, _) => !rr.IsWithinRange()
      case Case(_, member) => !member
      case Empty(empty) => !empty
      case Nil(isNil) => !isNil
      case Pattern(valid, _) => !valid
      case Not(r) => !r.IsFailure()
    }

    /** `successDescription`: absent only for `Invalid` and for a negation
        whose inner result has no failure description. */
    function SuccessDescription(): (r: Option<string>)
      ensures r.None? ==> Invalid? || (Not? && result.FailureDescription().None?)
    {
      match this
      case Invalid(_) => None
      case Range(rr, suffix) => Some(RangeDescription(rr, suffix))
      case Case(items, _) => Some(CaseDescription(items, false))
      case Empty(_) => Some("is empty")
      case Nil(isNil) => Some(if isNil then "is not null" else "is null")
      case Pattern(_, _) => Some("is a valid pattern")
      case Not(r) => r.FailureDescription()
    }

    /** `failureDescription`: every primitive kind describes its failure; it
        is absent only for a negation of a result with no success description. */
    function FailureDescription(): (r: Option<string>)
      ensures r.None? ==> Not? && result.SuccessDescription().None?
    {
      match this
      case Invalid(reason) => Some("is invalid: " + reason)
      case Range(rr, suffix) => Some(RangeDescription(rr, suffix))
      case Case(items, _) => Some(CaseDescription(items, true))
      case Empty(_) => Some("is not empty")
      case Nil(isNil) => Some(if isNil then "is null" else "is not null")
      case Pattern(_, p) => Some("is not a valid pattern " + p)
      case Not(r) => r.SuccessDescription()
    }
  }

  /** Two results are indistinguishable: same outcome and same two descriptions. */
  predicate Agree(a: ValidatorResult, b: ValidatorResult)
  {
    && a.IsFailure() == b.IsFailure()
    && a.SuccessDescription() == b.SuccessDescription()
    && a.FailureDescription() == b.FailureDescription()
  }

  /** The range message: `is <position>`, followed by ` <unit>(s)` for counts. */
  function RangeDescription(rr: RangeResults.RangeResult, suffix: Option<string>): string
  {
    match suffix
    case Some(unit) => "is " + rr.Description() + " " + unit + "(s)"
    case None => "is " + rr.Description()
  }

  /** The natural-language list of an enum's cases: `A`, `A or B`, `A, B or C`. */
  function CaseList(items: CaseItems): string
  {
    if |items| == 1 then items[0]
    else if |items| == 2 then items[0] + " or " + items[1]
    else Join(items[..|items| - 1], ", ") + " or " + items[|items| - 1]
  }

  /** `is <list>`, or `is not <list>` for the failure branch (see the Findings
      section of the README for the text as written in the source). */
  function CaseDescription(items: CaseItems, negated: bool): string
  {
    if negated then "is not " + CaseList(items) else "is " + CaseList(items)
  }

  /** An `Invalid` result always fails, describes no success (nil, not the empty
      string) and reports its reason after `is invalid: `. */
  lemma InvalidResult(reason: string)
    ensures Invalid(reason).IsFailure()
    ensures Invalid(reason).SuccessDescription() == None
    ensures Invalid(reason).SuccessDescription() != Some("")
    ensures Invalid(reason).FailureDescription() == Some("is invalid: " + reason)
  {
  }

  /** The descriptions are independent of the outcome: two results with opposite
      outcomes may carry identical descriptions, and two passing results may
      carry different ones. */
  lemma DescriptionsIndependentOfOutcome()
    ensures Empty(true).IsFailure() != Empty(false).IsFailure()
    ensures Empty(true).SuccessDescription() == Empty(false).SuccessDescription()
    ensures Empty(true).FailureDescription() == Empty(false).FailureDescription()
    ensures !Nil(true).IsFailure() && !Empty(true).IsFailure()
    ensures Nil(true).SuccessDescription() != Empty(true).SuccessDescription()
  {
  }

  /** Two or more cases always render as the comma-joined leading cases, ` or `,
      and the last case: the two-case branch is the general rule specialised. */
  lemma CaseListUniform(items: CaseItems)
    requires |items| >= 2
    ensures CaseList(items) == Join(items[..|items| - 1], ", ") + " or " + items[|items| - 1]
  {
    if |items| == 2 {
      assert items[..1] == [items[0]];
    }
  }

  /** Every declared case is named in the rendered list. */
  lemma CaseListMentionsEveryCase(items: CaseItems)
    ensures forall i :: 0 <= i < |items| ==> IsInfix(items[i], CaseList(items))
  {
    var n := |items|;
    if n == 1 {
      InfixOfSelf(items[0]);
    } else {
      CaseListUniform(items);
      var init := items[..n - 1];
      JoinMentionsEveryItem(init, ", ");
      forall i | 0 <= i < n
        ensures IsInfix(items[i], CaseList(items))
      {
        if i < n - 1 {
          assert items[i] == init[i];
          InfixOfLeft(items[i], Join(init, ", "), " or " + items[n - 1]);
          assert Join(init, ", ") + " or " + items[n - 1] == Join(init, ", ") + (" or " + items[n - 1]);
        } else {
          InfixOfSelf(items[i]);
          InfixOfRight(items[i], Join(init, ", ") + " or ", items[i]);
        }
      }
    }
  }
}
