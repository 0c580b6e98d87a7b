/**
 * The acceptance rule of the project form's submit handler: three constraint sets over the
 * entered title, description and people count, and the triple returned only when all pass.
 * Reading the three input elements is replaced by the three texts passed in.
 */
module ProjectInput {
  import opened Wrappers
  import opened StringOps
  import opened Validation

  /** The title set: filled in and between 3 and 30 characters long, both bounds strict. */
  function TitleConstraints(enteredTitle: string): (c: Validatable)
    ensures c.value == Text(enteredTitle)
    ensures Validate(c) <==> !AllWhitespace(enteredTitle) && 3 < |enteredTitle| < 30
  {
    var c := Validatable(Text(enteredTitle), true, Some(3), Some(30), None, None);
    ConstraintsAreTheFlags(c);
    c
  }

  /** The description set: filled in and longer than 5 characters. */
  function DescriptionConstraints(enteredDesc: string): (c: Validatable)
    ensures c.value == Text(enteredDesc)
    ensures Validate(c) <==> !AllWhitespace(enteredDesc) && 5 < |enteredDesc|
  {
    var c := Validatable(Text(enteredDesc), true, Some(5), None, None, None);
    ConstraintsAreTheFlags(c);
    c
  }

  /** The people set: filled in and between 1 and 5, both bounds inclusive. */
  function PeopleConstraints(people: int): (c: Validatable)
    ensures c.value == Num(people)
    ensures Validate(c) <==> 1 <= people <= 5
  {
    var c := Validatable(Num(people), true, None, None, Some(1), Some(5));
    RequiredIgnoresNumbers(c);
    RangeIsInclusive(people, 1, 5);
    c
  }

  /**
   * `gatherUserInput`: the entered triple when all three constraint sets validate, nothing
   * otherwise. A people text that does not read as an integer is rejected.
   */
  function GatherUserInput(enteredTitle: string, enteredDesc: string, enteredPeople: string)
    : (r: Option<(string, string, int)>)
    ensures r.Some? <==>
      && !AllWhitespace(enteredTitle) && 3 < |enteredTitle| < 30
      && !AllWhitespace(enteredDesc) && 5 < |enteredDesc|
      && ParseInteger(enteredPeople).Some? && 1 <= ParseInteger(enteredPeople).value <= 5
    ensures r.Some? ==> r.value == (enteredTitle, enteredDesc, ParseInteger(enteredPeople).value)
  {
    match ParseInteger(enteredPeople)
    case None => None
    case Some(people) =>
      if !Validate(TitleConstraints(enteredTitle))
         || !Validate(DescriptionConstraints(enteredDesc))
         || !Validate(PeopleConstraints(people))
      then None
      else Some((enteredTitle, enteredDesc, people))
  }

  /** A title of exactly 3 characters is rejected: the minimum length is strict. */
  lemma TitleOfMinimumLengthRejected(enteredTitle: string, enteredDesc: string, enteredPeople: string)
    requires |enteredTitle| == 3
    ensures GatherUserInput(enteredTitle, enteredDesc, enteredPeople) == None
  {
  }

  /** A title of exactly 30 characters is rejected: the maximum length is strict. */
  lemma TitleOfMaximumLengthRejected(enteredTitle: string, enteredDesc: string, enteredPeople: string)
    requires |enteredTitle| == 30
    ensures GatherUserInput(enteredTitle, enteredDesc, enteredPeople) == None
  {
  }

  /** A description of exactly 5 characters is rejected. */
  lemma DescriptionOfMinimumLengthRejected(enteredTitle: string, enteredDesc: string, enteredPeople: string)
    requires |enteredDesc| == 5
    ensures GatherUserInput(enteredTitle, enteredDesc, enteredPeople) == None
  {
  }

  /** A blank people field reads as 0 and is rejected by the lower bound. */
  lemma BlankPeopleRejected(enteredTitle: string, enteredDesc: string, enteredPeople: string)
    requires AllWhitespace(enteredPeople)
    ensures GatherUserInput(enteredTitle, enteredDesc, enteredPeople) == None
  {
  }

  /** Every people count from 1 to 5, written as `toString` writes it, is accepted beside a valid title and description. */
  lemma PeopleRangeInclusive(enteredTitle: string, enteredDesc: string, people: int)
    requires !AllWhitespace(enteredTitle) && 3 < |enteredTitle| < 30
    requires !AllWhitespace(enteredDesc) && 5 < |enteredDesc|
    requires 1 <= people <= 5
    ensures GatherUserInput(enteredTitle, enteredDesc, IntToString(people)) == Some((enteredTitle, enteredDesc, people))
  {
    ParseIntegerRoundTrip(people);
  }

  /** A two-character title is rejected. */
  lemma ShortTitleExample()
    ensures GatherUserInput("Hi", "A valid description", "3") == None
  {
  }

  /** A five-character title with a long description and 3 people is accepted as entered. */
  lemma AcceptedExample()
    ensures GatherUserInput("Build", "A longer description", "3") == Some(("Build", "A longer description", 3))
  {
    assert !IsWhitespace("Build"[0]);
    assert !IsWhitespace("A longer description"[0]);
    assert IntToString(3) == "3";
    PeopleRangeInclusive("Build", "A longer description", 3);
  }
}
