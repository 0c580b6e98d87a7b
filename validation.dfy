/**
 * The field validator: one value (text or number) checked against the optional flags
 * `required`, `minLength`, `maxLength`, `min` and `max`, with every verdict AND-combined.
 */
module Validation {
  import opened Wrappers
  import opened StringOps

  /** A field value: `string | number`. Numbers are integers in this model. */
  datatype Value = Text(s: string) | Num(n: int)

  /** The `Validatable` record. An absent `required` flag is `false`. */
  datatype Validatable = Validatable(
    value: Value,
    required: bool,
    minLength: Option<int>,
    maxLength: Option<int>,
    min: Option<int>,
    max: Option<int>)

  /** `value.toString()`: a text is itself; a number's text is never blank and reads back as the number. */
  function ToText(v: Value): (r: string)
    ensures v.Text? ==> r == v.s
    ensures v.Num? ==> !AllWhitespace(r) && ParseInteger(r) == Some(v.n)
  {
    match v
    case Text(s) => s
    case Num(n) =>
      ParseIntegerRoundTrip(n);
      var r := IntToString(n);
      assert !IsWhitespace(r[0]);
      r
  }

  /** One rule a flag switches on. */
  datatype Rule =
    | NonBlank                // required: some non-whitespace character
    | LongerThan(bound: int)  // minLength: length strictly greater
    | ShorterThan(bound: int) // maxLength: length strictly less
    | AtLeast(bound: int)     // min: inclusive lower bound
    | AtMost(bound: int)      // max: inclusive upper bound

  /** What a rule asks of a value; a length rule says nothing of a number, a range rule nothing of a text. */
  predicate Satisfies(v: Value, rule: Rule) {
    match rule
    case NonBlank => !AllWhitespace(ToText(v))
    case LongerThan(m) => v.Text? ==> |v.s| > m
    case ShorterThan(m) => v.Text? ==> |v.s| < m
    case AtLeast(m) => v.Num? ==> v.n >= m
    case AtMost(m) => v.Num? ==> v.n <= m
  }

  /** The rules that apply: a flag's rule is in force when the flag is present and the value has the flag's type. */
  function Constraints(c: Validatable): seq<Rule> {
    (if c.required then [NonBlank] else [])
    + (match (c.minLength, c.value) case (Some(m), Text(_)) => [LongerThan(m)] case _ => [])
    + (match (c.maxLength, c.value) case (Some(m), Text(_)) => [ShorterThan(m)] case _ => [])
    + (match (c.min, c.value) case (Some(m), Num(_)) => [AtLeast(m)] case _ => [])
    + (match (c.max, c.value) case (Some(m), Num(_)) => [AtMost(m)] case _ => [])
  }

  /** `validate`: the flag checks applied one after the other to a running verdict. */
  function Validate(c: Validatable): (isValid: bool)
    ensures isValid <==> forall rule :: rule in Constraints(c) ==> Satisfies(c.value, rule)
  {
    var v0 := true;
    var v1 := if c.required then v0 && |Trim(ToText(c.value))| != 0 else v0;
    var v2 := if c.minLength.Some? && c.value.Text? then v1 && |c.value.s| > c.minLength.value else v1;
    var v3 := if c.maxLength.Some? && c.value.Text? then v2 && |c.value.s| < c.maxLength.value else v2;
    var v4 := if c.min.Some? && c.value.Num? then v3 && c.value.n >= c.min.value else v3;
    var v5 := if c.max.Some? && c.value.Num? then v4 && c.value.n <= c.max.value else v4;
    ConstraintsHoldFlagByFlag(c);
    v5
  }

  /** All rules in force hold exactly when each present, type-matching flag's rule holds. */
  lemma ConstraintsHoldFlagByFlag(c: Validatable)
    ensures (forall rule :: rule in Constraints(c) ==> Satisfies(c.value, rule)) <==>
      && (c.required ==> !AllWhitespace(ToText(c.value)))
      && (c.minLength.Some? && c.value.Text? ==> |c.value.s| > c.minLength.value)
      && (c.maxLength.Some? && c.value.Text? ==> |c.value.s| < c.maxLength.value)
      && (c.min.Some? && c.value.Num? ==> c.value.n >= c.min.value)
      && (c.max.Some? && c.value.Num? ==> c.value.n <= c.max.value)
  {
    ConstraintsAreTheFlags(c);
  }

  /** The members of `Constraints(c)`, flag by flag. */
  lemma ConstraintsAreTheFlags(c: Validatable)
    ensures forall rule :: rule in Constraints(c) <==>
      (rule == NonBlank && c.required)
      || (c.minLength.Some? && c.value.Text? && rule == LongerThan(c.minLength.value))
      || (c.maxLength.Some? && c.value.Text? && rule == ShorterThan(c.maxLength.value))
      || (c.min.Some? && c.value.Num? && rule == AtLeast(c.min.value))
      || (c.max.Some? && c.value.Num? && rule == AtMost(c.max.value))
    ensures c.required ==> NonBlank in Constraints(c)
    ensures c.minLength.Some? && c.value.Text? ==> LongerThan(c.minLength.value) in Constraints(c)
    ensures c.maxLength.Some? && c.value.Text? ==> ShorterThan(c.maxLength.value) in Constraints(c)
    ensures c.min.Some? && c.value.Num? ==> AtLeast(c.min.value) in Constraints(c)
    ensures c.max.Some? && c.value.Num? ==> AtMost(c.max.value) in Constraints(c)
  {
  }

  /** `required` on a text: accepted exactly when some character is not whitespace. */
  lemma RequiredTextIff(s: string)
    ensures Validate(Validatable(Text(s), true, None, None, None, None)) <==> !AllWhitespace(s)
  {
  }

  /** `required` rejects an empty or whitespace-only text whatever the other flags say. */
  lemma RequiredRejectsBlankText(c: Validatable)
    requires c.required && c.value.Text? && AllWhitespace(c.value.s)
    ensures !Validate(c)
  {
  }

  /** A number's text form is never blank, so `required` never rejects a number. */
  lemma RequiredIgnoresNumbers(c: Validatable)
    requires c.value.Num?
    ensures Validate(c) == Validate(c.(required := false))
  {
    assert Satisfies(c.value, NonBlank);
    ConstraintsAreTheFlags(c);
    ConstraintsAreTheFlags(c.(required := false));
  }

  /** `minLength` is a strict bound: only a text longer than it passes. */
  lemma MinLengthIsStrict(s: string, m: int)
    ensures Validate(Validatable(Text(s), false, Some(m), None, None, None)) <==> |s| > m
  {
  }

  /** A text whose length equals `minLength` is rejected, whatever the other flags say. */
  lemma MinLengthRejectsEqual(c: Validatable)
    requires c.value.Text? && c.minLength == Some(|c.value.s|)
    ensures !Validate(c)
  {
  }

  /** `maxLength` is a strict bound: only a text shorter than it passes. */
  lemma MaxLengthIsStrict(s: string, m: int)
    ensures Validate(Validatable(Text(s), false, None, Some(m), None, None)) <==> |s| < m
  {
  }

  /** A text whose length equals `maxLength` is rejected, whatever the other flags say. */
  lemma MaxLengthRejectsEqual(c: Validatable)
    requires c.value.Text? && c.maxLength == Some(|c.value.s|)
    ensures !Validate(c)
  {
  }

  /** `min` and `max` are inclusive bounds. */
  lemma RangeIsInclusive(n: int, lo: int, hi: int)
    ensures Validate(Validatable(Num(n), false, None, None, Some(lo), Some(hi))) <==> lo <= n <= hi
  {
  }

  /**
   * A number equal to a present `min` or `max` passes when it also meets the other range
   * bound (if that one is present), whatever the other flags say.
   */
  lemma RangeEndsPass(c: Validatable)
    requires c.value.Num?
    requires || (c.min == Some(c.value.n) && (c.max.None? || c.value.n <= c.max.value))
             || (c.max == Some(c.value.n) && (c.min.None? || c.min.value <= c.value.n))
    ensures Validate(c)
  {
    RequiredIgnoresNumbers(c);
  }

  /** The length flags have no effect on a number. */
  lemma LengthFlagsIgnoreNumbers(c: Validatable, minLength: Option<int>, maxLength: Option<int>)
    requires c.value.Num?
    ensures Validate(c.(minLength := minLength, maxLength := maxLength)) == Validate(c)
  {
  }

  /** The range flags have no effect on a text. */
  lemma RangeFlagsIgnoreText(c: Validatable, min: Option<int>, max: Option<int>)
    requires c.value.Text?
    ensures Validate(c.(min := min, max := max)) == Validate(c)
  {
  }

  /** A constraint set without flags accepts every value. */
  lemma NoFlagsAcceptAll(v: Value)
    ensures Validate(Validatable(v, false, None, None, None, None))
  {
  }

  /**
   * `strong` checks the same value under at least the flags of `weak`, each with a bound
   * at least as tight.
   */
  predicate Tightens(strong: Validatable, weak: Validatable) {
    && strong.value == weak.value
    && (weak.required ==> strong.required)
    && (weak.minLength.Some? ==> strong.minLength.Some? && strong.minLength.value >= weak.minLength.value)
    && (weak.maxLength.Some? ==> strong.maxLength.Some? && strong.maxLength.value <= weak.maxLength.value)
    && (weak.min.Some? ==> strong.min.Some? && strong.min.value >= weak.min.value)
    && (weak.max.Some? ==> strong.max.Some? && strong.max.value <= weak.max.value)
  }

  /** Adding or tightening a constraint can turn an acceptance into a rejection, never the reverse. */
  lemma TighteningOnlyRejects(strong: Validatable, weak: Validatable)
    requires Tightens(strong, weak)
    ensures Validate(strong) ==> Validate(weak)
  {
    ConstraintsAreTheFlags(strong);
    ConstraintsAreTheFlags(weak);
  }
}
