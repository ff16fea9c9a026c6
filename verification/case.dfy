/** The `case(of:)` validator: the value must be the raw value of one of an
    enum's declared cases. */
module CaseValidator {
  import opened OptionalType
  import opened Text
  import ValidatorResults
  import opened Validators

  /** An enum with raw values of type `T`, seen through `allCases`: the raw
      value of each case, in declaration order. */
  datatype EnumType<T> = EnumType(rawValues: seq<T>)

  /** The first position at or after `from` holding `x`, if any. */
  function IndexFrom<T(==)>(s: seq<T>, x: T, from: nat): (r: Option<nat>)
    requires from <= |s|
    ensures r.Some? ==> from <= r.value < |s| && s[r.value] == x
    ensures r.None? ==> forall j :: from <= j < |s| ==> s[j] != x
    decreases |s| - from
  {
    if from == |s| then None
    else if s[from] == x then Some(from)
    else IndexFrom(s, x, from + 1)
  }

  /** `init(rawValue:)`: the declared case whose raw value is `raw`, or `nil`. */
  function CaseWithRawValue<T(==)>(e: EnumType<T>, raw: T): (r: Option<nat>)
    ensures r.Some? ==> r.value < |e.rawValues| && e.rawValues[r.value] == raw
    ensures r.None? <==> forall j :: 0 <= j < |e.rawValues| ==> e.rawValues[j] != raw
  {
    IndexFrom(e.rawValues, raw, 0)
  }

  /** The cases' raw values rendered by string interpolation, in order. */
  function Items<T>(e: EnumType<T>, describe: T -> string): (items: ValidatorResults.CaseItems)
    requires |e.rawValues| >= 1
    ensures |items| == |e.rawValues|
    ensures forall i :: 0 <= i < |items| ==> items[i] == describe(e.rawValues[i])
  {
    seq(|e.rawValues|, i requires 0 <= i < |e.rawValues| => describe(e.rawValues[i]))
  }

  /** `case(of:)`: fails exactly when no declared case has the input as its raw
      value. Both descriptions list every case and do not depend on the input. */
  function CaseOf<T(==,!new)>(e: EnumType<T>, describe: T -> string): (v: Validator<T>)
    requires |e.rawValues| >= 1
    ensures forall x :: v.validate(x).IsFailure() <==> (forall j :: 0 <= j < |e.rawValues| ==> e.rawValues[j] != x)
    ensures forall x :: v.validate(x).SuccessDescription()
                     == Some(ValidatorResults.CaseDescription(Items(e, describe), false))
    ensures forall x :: v.validate(x).FailureDescription()
                     == Some(ValidatorResults.CaseDescription(Items(e, describe), true))
  {
    Init((x: T) => ValidatorResults.Case(Items(e, describe), CaseWithRawValue(e, x).Some?))
  }

  /** The descriptions of two evaluations agree, whatever the two inputs. */
  lemma DescriptionsIgnoreInput<T(!new)>(e: EnumType<T>, describe: T -> string, x: T, y: T)
    requires |e.rawValues| >= 1
    ensures CaseOf(e, describe).validate(x).SuccessDescription() == CaseOf(e, describe).validate(y).SuccessDescription()
    ensures CaseOf(e, describe).validate(x).FailureDescription() == CaseOf(e, describe).validate(y).FailureDescription()
  {
  }

  /** Every case's rendered raw value is named in both descriptions. */
  lemma DescriptionsNameEveryCase<T(!new)>(e: EnumType<T>, describe: T -> string, x: T)
    requires |e.rawValues| >= 1
    ensures forall i :: 0 <= i < |e.rawValues| ==>
      IsInfix(describe(e.rawValues[i]), CaseOf(e, describe).validate(x).SuccessDescription().value)
    ensures forall i :: 0 <= i < |e.rawValues| ==>
      IsInfix(describe(e.rawValues[i]), CaseOf(e, describe).validate(x).FailureDescription().value)
  {
    var items := Items(e, describe);
    ValidatorResults.CaseListMentionsEveryCase(items);
    forall i | 0 <= i < |e.rawValues|
      ensures IsInfix(items[i], "is " + ValidatorResults.CaseList(items))
      ensures IsInfix(items[i], "is not " + ValidatorResults.CaseList(items))
    {
      InfixOfRight(items[i], "is ", ValidatorResults.CaseList(items));
      InfixOfRight(items[i], "is not ", ValidatorResults.CaseList(items));
    }
  }

  /** One case renders as itself, two as `A or B`, three as `A, B or C` (no
      comma before `or`). */
  lemma CaseListExamples()
    ensures ValidatorResults.CaseList(["A"]) == "A"
    ensures ValidatorResults.CaseList(["A", "B"]) == "A or B"
    ensures ValidatorResults.CaseList(["A", "B", "C"]) == "A, B or C"
  {
    assert ["A", "B", "C"][..2] == ["A", "B"];
    assert Join(["A", "B"], ", ") == "A" + ", " + "B";
  }

  /** The description text exactly as the source builds it: `is`, then `not`
      when negated, then a space and the list. */
  function AsWrittenDescription(items: ValidatorResults.CaseItems, not: bool): (d: string)
    ensures d == (if not then "isnot " else "is ") + ValidatorResults.CaseList(items)
  {
    var d := "is" + (if not then "not" else "") + " " + ValidatorResults.CaseList(items);
    assert not ==> "is" + "not" + " " == "isnot ";
    d
  }

  /** As written, the failure description glues `is` and `not` together: it
      never starts with `is not `, for any list of cases. */
  lemma AsWrittenMissesSpace(items: ValidatorResults.CaseItems)
    ensures AsWrittenDescription(items, true)[..6] == "isnot "
    ensures !("is not " <= AsWrittenDescription(items, true))
  {
    var d := AsWrittenDescription(items, true);
    assert d[2] == 'n';
  }

  /** The description the model uses reads `is not <list>` when negated: the
      success text with `not ` inserted after `is `, as for `is not empty` and
      `is not null`. */
  lemma CorrectedDescriptionSpacesNot(items: ValidatorResults.CaseItems)
    ensures ValidatorResults.CaseDescription(items, true)
         == "is " + "not " + ValidatorResults.CaseDescription(items, false)[3..]
    ensures "is not " <= ValidatorResults.CaseDescription(items, true)
  {
    var l := ValidatorResults.CaseList(items);
    assert ValidatorResults.CaseDescription(items, false)[3..] == l;
    assert "is " + "not " + l == "is not " + l;
  }
}
