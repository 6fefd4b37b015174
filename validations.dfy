/**
 * The IsSmallerThan constraint: a property is to be smaller than the property of the same
 * object that the decorator names.
 */
module IsSmallerThanValidation {
  import Js

  /** `args.object[relatedPropertyName]`; with no constraint the key is `undefined`, read as "undefined". */
  function RelatedValue(argsObject: map<string, Js.Value>, constraints: seq<string>): (r: Js.Value)
    ensures |constraints| > 0 && constraints[0] in argsObject ==> r == argsObject[constraints[0]]
    ensures |constraints| > 0 && constraints[0] !in argsObject ==> r == Js.UndefinedValue
  {
    var relatedPropertyName := if |constraints| > 0 then constraints[0] else "undefined";
    if relatedPropertyName in argsObject then argsObject[relatedPropertyName] else Js.UndefinedValue
  }

  /** validate, as written: the comparison, or-ed with "either side is a number". */
  function Validate(value: Js.Value, argsObject: map<string, Js.Value>, constraints: seq<string>): (r: bool)
    ensures var related := RelatedValue(argsObject, constraints);
      r <==> Js.IsNumber(value) || Js.IsNumber(related)
  {
    var related := RelatedValue(argsObject, constraints);
    (Js.IsNumber(value) && Js.IsNumber(related) && value.n < related.n)
      || (Js.IsNumber(value) || Js.IsNumber(related))
  }

  /** Two numbers always pass, in whichever order they stand. */
  lemma ValidateIgnoresOrder(value: real, related: real, argsObject: map<string, Js.Value>, property: string)
    requires property in argsObject && argsObject[property] == Js.Number(related)
    ensures Validate(Js.Number(value), argsObject, [property])
  {
  }

  /** A concrete case: 5 is accepted as smaller than 3. */
  lemma ValidateAcceptsLarger()
    ensures Validate(Js.Number(5.0), map["max" := Js.Number(3.0)], ["max"])
  {
  }

  /**
   * The evidently intended check: two numbers pass only when the value is smaller; the
   * other cases keep the as-written outcome.
   */
  function ValidateCorrected(value: Js.Value, argsObject: map<string, Js.Value>, constraints: seq<string>): (r: bool)
    ensures var related := RelatedValue(argsObject, constraints);
      Js.IsNumber(value) && Js.IsNumber(related) ==> (r <==> value.n < related.n)
    ensures var related := RelatedValue(argsObject, constraints);
      !(Js.IsNumber(value) && Js.IsNumber(related)) ==> r == Validate(value, argsObject, constraints)
  {
    var related := RelatedValue(argsObject, constraints);
    if Js.IsNumber(value) && Js.IsNumber(related) then value.n < related.n
    else Validate(value, argsObject, constraints)
  }

  /** The corrected check rejects the concrete case above. */
  lemma ValidateCorrectedRejectsLarger()
    ensures !ValidateCorrected(Js.Number(5.0), map["max" := Js.Number(3.0)], ["max"])
  {
  }
}

/**
 * The IsBiggerThan constraint: a property is to be bigger than the property of the same object
 * that the decorator names.
 */
module IsBiggerThanValidation {
  import Js

  /** `args.object[relatedPropertyName]`; with no constraint the key is `undefined`, read as "undefined". */
  function RelatedValue(argsObject: map<string, Js.Value>, constraints: seq<string>): (r: Js.Value)
    ensures |constraints| > 0 && constraints[0] in argsObject ==> r == argsObject[constraints[0]]
    ensures |constraints| > 0 && constraints[0] !in argsObject ==> r == Js.UndefinedValue
  {
    var relatedPropertyName := if |constraints| > 0 then constraints[0] else "undefined";
    if relatedPropertyName in argsObject then argsObject[relatedPropertyName] else Js.UndefinedValue
  }

  /** validate, as written: the comparison, or-ed with "either side is a number". */
  function Validate(value: Js.Value, argsObject: map<string, Js.Value>, constraints: seq<string>): (r: bool)
    ensures var related := RelatedValue(argsObject, constraints);
      r <==> Js.IsNumber(value) || Js.IsNumber(related)
  {
    var related := RelatedValue(argsObject, constraints);
    (Js.IsNumber(value) && Js.IsNumber(related) && value.n > related.n)
      || (Js.IsNumber(value) || Js.IsNumber(related))
  }

  /** Two numbers always pass, in whichever order they stand. */
  lemma ValidateIgnoresOrder(value: real, related: real, argsObject: map<string, Js.Value>, property: string)
    requires property in argsObject && argsObject[property] == Js.Number(related)
    ensures Validate(Js.Number(value), argsObject, [property])
  {
  }

  /** A concrete case: 3 is accepted as bigger than 5. */
  lemma ValidateAcceptsSmaller()
    ensures Validate(Js.Number(3.0), map["min" := Js.Number(5.0)], ["min"])
  {
  }

  /**
   * The evidently intended check: two numbers pass only when the value is bigger; the
   * other cases keep the as-written outcome.
   */
  function ValidateCorrected(value: Js.Value, argsObject: map<string, Js.Value>, constraints: seq<string>): (r: bool)
    ensures var related := RelatedValue(argsObject, constraints);
      Js.IsNumber(value) && Js.IsNumber(related) ==> (r <==> value.n > related.n)
    ensures var related := RelatedValue(argsObject, constraints);
      !(Js.IsNumber(value) && Js.IsNumber(related)) ==> r == Validate(value, argsObject, constraints)
  {
    var related := RelatedValue(argsObject, constraints);
    if Js.IsNumber(value) && Js.IsNumber(related) then value.n > related.n
    else Validate(value, argsObject, constraints)
  }

  /** The corrected check rejects the concrete case above. */
  lemma ValidateCorrectedRejectsSmaller()
    ensures !ValidateCorrected(Js.Number(3.0), map["min" := Js.Number(5.0)], ["min"])
  {
  }
}
