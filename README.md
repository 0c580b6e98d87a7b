# Project form validation: a Dafny model

This project models the validation core of a small browser project-tracker form
(`src/app.ts`): the `validate` function, which checks one field value (text or number)
against the optional flags `required`, `minLength`, `maxLength`, `min` and `max`, and the
acceptance rule of `gatherUserInput`, which builds three fixed constraint sets and
returns the `(title, description, people)` triple only when all three validate.

Layout:

- `wrappers.dfy`: module `Wrappers`. An `Option` type that stands for a TypeScript `T | void` result.
- `string_ops.dfy`: module `StringOps`. The JavaScript built-ins the validator relies on:
  - `trim`, over the ECMAScript whitespace and line-terminator characters;
  - `toString` on integer numbers;
  - the unary `+` that reads the people field, with a round trip against `toString`.
- `validation.dfy`: module `Validation`. The `Validatable` record (src/app.ts:3-10; an absent
  `required` is `false`, an absent bound is `None`) and `Validate`.
  `Validate` is written as the same sequence of running-verdict updates as the source.
  It is proved equal to an independent reading: the conjunction of the rules (`Constraints`)
  that the present, type-matching flags switch on. The lemmas pin down:
  - the strict length bounds and the inclusive numeric bounds;
  - the type gating of the flags;
  - monotonicity: tightening the constraints can only reject more.
- `project_input.dfy`: module `ProjectInput`. The three constraint sets and `GatherUserInput`.
  Its contract states the acceptance condition in terms of the entered texts themselves.

The source's length bounds are strict: a title must have 4 to 29 characters and a
description at least 6. The model keeps this behaviour as written and proves it
(`MinLengthRejectsEqual`, `TitleOfMinimumLengthRejected`, ...).

`src/app.ts` has no project store, listener registry or list view: on success its submit
handler logs the triple and clears the inputs. The model therefore ends at the accepted triple.

## Model

| member | source | states |
|---|---|---|
| `StringOps.IsWhitespace` | src/app.ts:15 | the characters `trim` strips (the ECMAScript whitespace and line terminators) include no digit and no sign |
| `StringOps.TrimStart` | src/app.ts:15 | the result is a suffix of the input, everything dropped is whitespace, and it does not start with whitespace |
| `StringOps.TrimEnd` | src/app.ts:15 | the result is a prefix of the input, everything dropped is whitespace, and it does not end with whitespace |
| `StringOps.Trim` | src/app.ts:15 | `trim` gives the empty string exactly when the text is blank (empty or whitespace only); a non-empty result has non-whitespace ends; a text with non-whitespace ends is unchanged |
| `StringOps.TrimStartOfPadded` | src/app.ts:15 | stripping the start of whitespace followed by a text that starts with a non-whitespace character leaves exactly that text |
| `StringOps.TrimEndOfPadded` | src/app.ts:15 | stripping the end of a text that ends with a non-whitespace character followed by whitespace leaves exactly that text |
| `StringOps.IntToString` | src/app.ts:15 | a number's text form is non-empty, contains no whitespace, and is digits with an optional leading minus |
| `StringOps.DecimalRoundTrip` | src/app.ts:92 | reading back the decimal digits written for a natural number gives that number |
| `StringOps.ParseInteger` | src/app.ts:92 | the unary `+` reads a blank text as 0 and a string of digits as its decimal value |
| `StringOps.ParseSignedDecimal` | src/app.ts:92 | a trimmed text reads as a number exactly when it is digits, or one `+`/`-` followed by digits; digits read as their decimal value, and a sign applies to the value of the digits after it |
| `StringOps.ParseIntegerIgnoresPadding` | src/app.ts:92 | whitespace before and after a text does not change how `+` reads it |
| `StringOps.ParseIntegerRoundTrip` | src/app.ts:92 | `+` applied to the text `toString` gives for an integer yields that integer |
| `Validation.ToText` | src/app.ts:15 | `toString` leaves a text unchanged; a number's text is never blank and reads back as the number |
| `Validation.Validate` | src/app.ts:12-30 | the verdict is true exactly when the value satisfies every rule that a present flag of the matching type switches on |
| `Validation.ConstraintsHoldFlagByFlag` | src/app.ts:13-29 | all rules in force hold exactly when: a required value is non-blank; a text is longer than a present `minLength` and shorter than a present `maxLength`; a number is at least a present `min` and at most a present `max` |
| `Validation.ConstraintsAreTheFlags` | src/app.ts:13-28 | the rules in force are exactly: non-blank if required; longer-than/shorter-than if the length flags are set and the value is text; at-least/at-most if the range flags are set and the value is a number |
| `Validation.RequiredTextIff` | src/app.ts:14-16 | `required` alone accepts a text exactly when it has a non-whitespace character |
| `Validation.RequiredRejectsBlankText` | src/app.ts:14-16 | `required` rejects an empty or whitespace-only text whatever the other flags |
| `Validation.RequiredIgnoresNumbers` | src/app.ts:14-16 | `required` never changes the verdict on a number |
| `Validation.MinLengthIsStrict` | src/app.ts:17-19 | `minLength` alone accepts a text exactly when it is strictly longer than the bound |
| `Validation.MinLengthRejectsEqual` | src/app.ts:17-19 | a text whose length equals `minLength` is rejected whatever the other flags |
| `Validation.MaxLengthIsStrict` | src/app.ts:20-22 | `maxLength` alone accepts a text exactly when it is strictly shorter than the bound |
| `Validation.MaxLengthRejectsEqual` | src/app.ts:20-22 | a text whose length equals `maxLength` is rejected whatever the other flags |
| `Validation.RangeIsInclusive` | src/app.ts:23-28 | `min` and `max` alone accept a number exactly when it lies between them, ends included |
| `Validation.RangeEndsPass` | src/app.ts:23-28 | a number equal to a present `min` or `max` is accepted when it meets the other range bound (if present), whatever the other flags |
| `Validation.LengthFlagsIgnoreNumbers` | src/app.ts:17-22 | changing `minLength` or `maxLength` never changes the verdict on a number |
| `Validation.RangeFlagsIgnoreText` | src/app.ts:23-28 | changing `min` or `max` never changes the verdict on a text |
| `Validation.NoFlagsAcceptAll` | src/app.ts:13-29 | a constraint set with no flags accepts every value |
| `Validation.TighteningOnlyRejects` | src/app.ts:13-29 | adding a flag or tightening a bound can turn acceptance into rejection, never the reverse |
| `ProjectInput.TitleConstraints` | src/app.ts:79-84 | the title set checks the entered title and accepts exactly the non-blank titles with 3 < length < 30 |
| `ProjectInput.DescriptionConstraints` | src/app.ts:86-90 | the description set checks the entered description and accepts exactly the non-blank descriptions with length > 5 |
| `ProjectInput.PeopleConstraints` | src/app.ts:91-96 | the people set checks the people count and accepts exactly the counts 1 to 5 |
| `ProjectInput.GatherUserInput` | src/app.ts:74-107 | the triple is returned exactly when the title is non-blank with 3 < length < 30, the description is non-blank with length > 5, and the people text reads as an integer in 1..5; the returned title and description are the entered texts, unchanged |
| `ProjectInput.TitleOfMinimumLengthRejected` | src/app.ts:79-84 | a title of exactly 3 characters is rejected |
| `ProjectInput.TitleOfMaximumLengthRejected` | src/app.ts:79-84 | a title of exactly 30 characters is rejected |
| `ProjectInput.DescriptionOfMinimumLengthRejected` | src/app.ts:86-90 | a description of exactly 5 characters is rejected |
| `ProjectInput.BlankPeopleRejected` | src/app.ts:91-96 | a blank people field reads as 0 and is rejected |
| `ProjectInput.PeopleRangeInclusive` | src/app.ts:91-105 | with a valid title and description, each people count from 1 to 5 is accepted and returned as entered |
| `ProjectInput.ShortTitleExample` | src/app.ts:99-103 | the two-character title "Hi" is rejected |
| `ProjectInput.AcceptedExample` | src/app.ts:99-105 | ("Build", "A longer description", "3") is accepted and returned with people count 3 |

## Left out

- The DOM wiring of `ProjectInput` is not modelled: the constructor, `attach`, `configure`, `clearInputs`, `querySelector`, `importNode` and the submit event with `preventDefault` (src/app.ts:32-72, 109-114). It is browser glue.
- `alert` and `console.log` are not modelled. They are output only; a rejection is the `None` result.
- Reading the three input elements is replaced by the three texts passed to `GatherUserInput`.
- ParseInteger: reads only optional surrounding whitespace, an optional sign and decimal digits; every other text gives `None`. JavaScript's unary `+` also reads decimal points and fractions ("3.0", "3.", "2.5"), exponents ("3e0" is 3), hexadecimal, binary and octal literals ("0x3", "0b11" are 3) and "Infinity"; only the remaining texts give NaN. Numbers are unbounded integers here, without IEEE-754 rounding.
- GatherUserInput: rejects every people text that is not optional whitespace, an optional sign and decimal digits. That includes texts the source accepts, both integer-valued forms such as "3.0", "3e0" and "0x3" (which the source reads as 3) and fractions in range such as "2.5". Blank texts and texts of sign and digits are decided as in the source.
- IntToString: gives plain decimal digits for every integer. JavaScript switches to exponent notation from 1e21 upwards. Only the non-blankness of this text matters to the validator, and both forms are non-blank.
- String length is the number of characters, not UTF-16 code units, so a character outside the Basic Multilingual Plane counts once rather than twice.
- The flags are integers (the source allows any number), and an absent `required` is `false`, which is how the source's truthiness test treats it.
- A project store, listener registry and list views do not exist in `src/app.ts` and are not modelled.
