# Accumulating record validation, modelled in Dafny

This project models the core of a small Java demonstration of functional
result types:

- **The record validator.** Three independent rules check the fields of a
  `BasicModel` record:
  - the string may hold only ASCII letters (`a`–`z`, `A`–`Z`) and spaces;
  - the integer must be positive;
  - the list must be neither `null` nor empty.
- **How the rules combine.** The three outcomes are merged applicatively.
  Every rule is always checked. If all pass, the record is rebuilt from the
  checked values in declared order. Otherwise the messages of exactly the
  failing rules are reported together, in field order.
- **The record.** It has Lombok-generated constructors, getters and setters,
  a `toString`, and a three-string concatenation helper.
- **Three integer divisions.** The plain operator, a `Try` variant and an
  `Either` variant. The last two return a zero divisor as a failure value
  instead of throwing.

Files and modules:

- `java_lang.dfy`, module `JavaLang`. The Java semantics the core relies on:
  - `null`, as `Option`;
  - 32-bit `int` with two's-complement wrap-around;
  - division that truncates toward zero (Dafny's own `/` is Euclidean);
  - the decimal text that string concatenation gives numbers and `null`.
- `validation.dfy`, module `Validation`.
  - The two-variant `Outcome` (`Valid(value)` or `Invalid(errors)`).
  - The invariant `WellFormed`: a failure carries at least one message.
  - A generic `Merge` over a sequence of outcomes, proved against an
    independent reference definition of the merged report (`AllErrors`).
  - The `Valid(...)` / `Invalid(List(...))` text form.
- `basic_model.dfy`, module `BasicModels`.
  - The record's field values as a datatype.
  - The mutable `BasicModel` class, with constructors, getters and setters.
  - `ToString`, proved against the rendering function `RenderModel`, and
    lemmas on the shape of that text.
- `basic_model_validator.dfy`, module `BasicModelValidator`.
  - The three checks and the error-message constants.
  - The character filter behind `replaceAll("[a-zA-Z ]", "")`.
  - `ValidateBasicModel`, built as the merge followed by reconstruction.
  - `ValidateBasicModelInstance`, the entry point on objects.
- `basic_model_validator.dfy`, module `ValidatorScenarios`. The literal
  scenarios of the test file.
- `vavr_demo.dfy`, module `VavrDemo`. `Either`, `Try`, and the three
  division functions.

The checks take differently typed fields. Their outcomes are tagged with
`FieldValue` so that one generic merge handles all three. The merge itself
does not depend on there being three fields.

## Model

| member | source | states |
|---|---|---|
| JavaLang.Wrap32 | src/main/java/it/bitrock/function/VavrDemoClass.java:13 | A value already in the `int` range is unchanged. Any other value moves by a multiple of 2^32 (two's-complement overflow). |
| JavaLang.TruncDiv | src/main/java/it/bitrock/function/VavrDemoClass.java:13 | Java's `/`. The remainder `a - q*b` is smaller than the divisor in magnitude. It is zero or has the dividend's sign. `|q| = |a| / |b|`, so the quotient rounds toward zero. |
| JavaLang.JavaDiv | src/main/java/it/bitrock/function/VavrDemoClass.java:13 | `int` division is the truncated quotient. The one exception is `Integer.MIN_VALUE / -1`, which wraps back to `Integer.MIN_VALUE`. |
| JavaLang.NatToDecimal | src/main/java/it/bitrock/model/BasicModel.java:30 | The decimal text of a size is a non-empty string of digits. It starts with `0` exactly for zero, and zero is the single digit `0`. |
| JavaLang.DecimalRoundTrip | src/main/java/it/bitrock/model/BasicModel.java:30 | Reading the decimal text back yields the original number. |
| JavaLang.IntToDecimal | src/main/java/it/bitrock/model/BasicModel.java:27 | The text of an integer is non-empty. It starts with `-` exactly when the integer is negative. It is canonical: zero is `0`, no other value has a leading zero, and a minus sign is followed by a non-zero digit. |
| JavaLang.DecimalTextUnique | src/main/java/it/bitrock/model/BasicModel.java:27-30 | Two digit strings without leading zeros that denote the same number are equal, so the canonical text of a number is unique. |
| JavaLang.CanonicalDecimalIsIntToDecimal | src/main/java/it/bitrock/model/BasicModel.java:27 | Every canonical signed decimal text is exactly the text `IntToDecimal` writes for the number it denotes. |
| JavaLang.IntDecimalRoundTrip | src/main/java/it/bitrock/model/BasicModel.java:27 | Reading the signed decimal text back yields the original integer. |
| JavaLang.IntegerValueOf | src/main/java/it/bitrock/model/BasicModel.java:27 | A `null` `Integer` concatenates as `null`. Otherwise the text is canonical and reads back as the integer's value, which by `CanonicalDecimalIsIntToDecimal` fixes it as Java's digits. |
| JavaLang.StringValueOf | src/main/java/it/bitrock/model/BasicModel.java:22-27 | A `null` `String` concatenates and appends as `null`. Any other string contributes itself. |
| Validation.Merge | src/main/java/it/bitrock/model/BasicModelValidator.java:15-17 | The merge is valid exactly when every outcome is valid. It then holds each outcome's value at that outcome's position. Its messages are always the reference concatenation of every outcome's messages, in order. |
| Validation.MergeAppend | src/main/java/it/bitrock/model/BasicModelValidator.java:15-17 | Merging is order-preserving and associative. The report for `a + b` is the report for `a` followed by the report for `b`. The merge of `a + b` is valid exactly when both parts are. |
| Validation.MergeWellFormed | src/main/java/it/bitrock/model/BasicModelValidator.java:15-17 | If every input keeps the invariant (a failure has at least one message), so does the merge. |
| Validation.JoinSingle | src/test/java/it/bitrock/test/VavrDemoClassTest.java:164-166 | A one-message list renders its message alone, with no separator. |
| Validation.JoinAppend | src/test/java/it/bitrock/test/VavrDemoClassTest.java:168-170 | Adding one more message appends `, ` and that message to the joined text, so messages appear in order, separated by `, `. |
| Validation.RenderOutcome | src/test/java/it/bitrock/test/VavrDemoClassTest.java:160-170 | A valid outcome renders as `Valid(`, the value's text, `)`. A failure renders as `Invalid(List(`, its messages joined by `, `, `))`. |
| Validation.ErrorCountSingleMessages | src/main/java/it/bitrock/model/BasicModelValidator.java:15-17 | When each failure carries one message, the report has exactly one message per failed outcome. |
| BasicModels.RenderShape | src/main/java/it/bitrock/model/BasicModel.java:26-32 | `toString` begins with the string field, a space, the integer field and a space. Nothing follows exactly when the list is `null`. Otherwise what follows is the canonical decimal text (digits, no leading zero) of `List.size()`, and it reads back as that size. |
| BasicModels.ListSize | src/main/java/it/bitrock/model/BasicModel.java:30 | `List.size()` is the number of elements when that fits in an `int`. Otherwise it saturates at `Integer.MAX_VALUE`. |
| BasicModels.RenderEnding | src/main/java/it/bitrock/model/BasicModel.java:27-32 | The text ends in the trailing space exactly when the list is `null`. Otherwise it ends in a digit. |
| BasicModels.BasicModel.Empty | src/main/java/it/bitrock/model/BasicModel.java:13 | The no-argument constructor leaves every field `null`. |
| BasicModels.BasicModel.constructor | src/main/java/it/bitrock/model/BasicModel.java:14-19 | The all-arguments constructor stores its three arguments. The getters return exactly them. |
| BasicModels.BasicModel.GetStringParameter | src/main/java/it/bitrock/model/BasicModel.java:11 | The getter returns the current string field. |
| BasicModels.BasicModel.GetIntegerParameter | src/main/java/it/bitrock/model/BasicModel.java:11 | The getter returns the current integer field. |
| BasicModels.BasicModel.GetListParameter | src/main/java/it/bitrock/model/BasicModel.java:11 | The getter returns the current list field. |
| BasicModels.BasicModel.SetStringParameter | src/main/java/it/bitrock/model/BasicModel.java:12 | After the setter, the getter returns the new string. The integer and list fields are unchanged. |
| BasicModels.BasicModel.SetIntegerParameter | src/main/java/it/bitrock/model/BasicModel.java:12 | After the setter, the getter returns the new integer. The other two fields are unchanged. |
| BasicModels.BasicModel.SetListParameter | src/main/java/it/bitrock/model/BasicModel.java:12 | After the setter, the getter returns the new list. The other two fields are unchanged. |
| BasicModels.BasicModel.MethodWhichAccepts3Parameters | src/main/java/it/bitrock/model/BasicModel.java:21-23 | The result's length is the sum of the three lengths. The result consists of the three arguments in order, with `null` appended as `null`. |
| BasicModels.BasicModel.ToString | src/main/java/it/bitrock/model/BasicModel.java:25-33 | The text built step by step equals `RenderModel` of the object's current fields. |
| BasicModels.ConcatenateAndStore | src/test/java/it/bitrock/test/VavrDemoClassTest.java:179-187 | After concatenating `come, `, `as you are, ` and `as you were` and storing the result, the string getter returns their concatenation. The integer stays `0` and the list stays `null`. |
| BasicModelValidator.RemoveAllowed | src/main/java/it/bitrock/model/BasicModelValidator.java:21 | No character of the result is in `[a-zA-Z ]`. The result is empty exactly when every character of the input is in the class. |
| BasicModelValidator.RemoveAllowedCounts | src/main/java/it/bitrock/model/BasicModelValidator.java:21 | Every character outside the class is kept as many times as it occurs. |
| BasicModelValidator.RemoveAllowedAppend | src/main/java/it/bitrock/model/BasicModelValidator.java:21 | The filter distributes over concatenation, so the kept characters stay in their original order. |
| BasicModelValidator.ValidateString | src/main/java/it/bitrock/model/BasicModelValidator.java:20-25 | The check is `Valid(s)` exactly when every character is an ASCII letter (`a`–`z`, `A`–`Z`) or a space. Otherwise the single message is `Invalid characters in stringParameter: ` followed by the filtered characters. |
| BasicModelValidator.ValidateInteger | src/main/java/it/bitrock/model/BasicModelValidator.java:27-30 | The check is valid, with the value unchanged, exactly when the integer is greater than 0. Otherwise the single message is `Integer must be greater than 0`. |
| BasicModelValidator.ValidateList | src/main/java/it/bitrock/model/BasicModelValidator.java:32-35 | The check is valid, holding the list, exactly when the list is non-null and non-empty. Otherwise the single message is `List must be not empty`. |
| BasicModelValidator.AllErrorsOfChecks | src/main/java/it/bitrock/model/BasicModelValidator.java:15-17 | The merged messages of the three checks are the failing fields' messages in the order string, integer, list. Their number is the number of failing fields. |
| BasicModelValidator.ValidateBasicModel | src/main/java/it/bitrock/model/BasicModelValidator.java:13-18 | The result keeps the invariant. It is valid exactly when all three rules hold, and the rebuilt record then equals the input. Otherwise it holds exactly the failing fields' messages in field order, between one and three of them. |
| BasicModelValidator.ValidateBasicModelInstance | src/main/java/it/bitrock/model/BasicModelValidator.java:13-18 | Validating an object gives the same verdict and messages as validating its fields. The object is left unchanged. On success the result is a newly allocated record holding the same field values. |
| ValidatorScenarios.ListAloneReported | src/main/java/it/bitrock/model/BasicModelValidator.java:15-17 | A valid string, a positive integer and a `null` or empty list give `Invalid([List must be not empty])`. |
| ValidatorScenarios.IntegerAndListReported | src/main/java/it/bitrock/model/BasicModelValidator.java:15-17 | A valid string, a non-positive integer and a `null` or empty list give both messages, integer first. |
| ValidatorScenarios.AllFieldsValid | src/test/java/it/bitrock/test/VavrDemoClassTest.java:160-162 | The record `("The Number of the Beast", 666, [one item])` is valid and rebuilt unchanged. It renders as `Valid(The Number of the Beast 666 1)`. |
| ValidatorScenarios.OnlyListInvalid | src/test/java/it/bitrock/test/VavrDemoClassTest.java:164-166 | The record `("invallid basic model", 1, null)` renders as `Invalid(List(List must be not empty))`. |
| ValidatorScenarios.IntegerAndListInvalid | src/test/java/it/bitrock/test/VavrDemoClassTest.java:168-170 | The record `("invallid basic model", 0, null)` renders as `Invalid(List(Integer must be greater than 0, List must be not empty))`. |
| ValidatorScenarios.OffendingCharactersListed | src/main/java/it/bitrock/model/BasicModelValidator.java:21-24 | A name containing digits and punctuation is reported with exactly those characters, in order of appearance. |
| VavrDemo.Divide | src/main/java/it/bitrock/function/VavrDemoClass.java:11-14 | For a non-zero divisor the result is the quotient truncated toward zero. `Integer.MIN_VALUE / -1` is the one exception: it wraps to `Integer.MIN_VALUE`. |
| VavrDemo.DivideVavr | src/main/java/it/bitrock/function/VavrDemoClass.java:17-19 | For non-null arguments, the result is a failure exactly when the divisor is 0, with the JVM's `ArithmeticException("/ by zero")`. Otherwise it is a success holding Java's quotient. |
| VavrDemo.DivideEither | src/main/java/it/bitrock/function/VavrDemoClass.java:21-27 | The result is `Left` of a message-less `ArithmeticException` exactly when the divisor is 0. Otherwise it is `Right` of Java's quotient. |
| VavrDemo.DivisionVariantsAgree | src/main/java/it/bitrock/function/VavrDemoClass.java:11-25 | For every non-zero divisor, the `Try` and `Either` variants hold exactly the quotient that plain division returns. |
| VavrDemo.DivideRoundsTowardZero | src/main/java/it/bitrock/function/VavrDemoClass.java:11-14 | Outside the overflow case, the quotient's remainder is smaller than the divisor in magnitude and has the dividend's sign. The quotient is no larger in magnitude than the dividend. |
| VavrDemo.DivideOverflowWraps | src/main/java/it/bitrock/function/VavrDemoClass.java:13 | `Integer.MIN_VALUE / -1` is `Integer.MIN_VALUE`. |
| VavrDemo.DivisionExamples | src/test/java/it/bitrock/test/VavrDemoClassTest.java:228-242 | `12 / 2` gives `Right(6)` and `-7 / 2` gives `Right(-3)`, not the Euclidean `-4`. A zero divisor gives `Left`. The `Try` variant with a zero divisor is a failure, as VavrDemoClassTest.java:28-32 asserts. |

## Left out

- Java's regex engine. Only the fixed class `[a-zA-Z ]` is used, and it is modelled as a character filter.
- `null` string or `Integer` fields in the validator. These throw `NullPointerException`, so `ValidateBasicModel` requires both fields to be non-null. A `null` list is modelled, because the list check handles it.
- `null` `Integer` arguments to the division functions. The parameters are plain `int` values. `divide` throws `NullPointerException` on any `null` argument. `divideEither` throws it for a `null` divisor, or for a `null` dividend with a non-zero divisor. `divideEither(null, 0)` returns `Left(ArithmeticException)`, since only the divisor is unboxed before that branch. `divideVavr` unboxes inside the lambda it passes to `Try.of`, so it returns `Failure(NullPointerException)` instead. `DivideVavr`'s clause that it fails exactly for a zero divisor therefore holds only for non-null arguments.
- `Divide`: it requires a non-zero divisor. `VavrDemoClass.divide` lets the `ArithmeticException` escape to its caller.
- The internals of the Vavr library's `Validation.combine(...).ap(...)` are not modelled. Only its observable behaviour is, through `Merge`: every check runs, and the messages of the failing ones are concatenated in order.
- How `Validation` renders a value beyond `Valid(<value>)` and `Invalid(List(<m1>, <m2>, ...))`.
- `Try` capturing arbitrary exceptions. For `int` arguments only division by zero can throw, and it is modelled directly as a failure. The `NullPointerException` that `divideVavr` captures for a `null` argument is not modelled, as the line on `null` arguments above says.
- Sharing of the list object and a `null` record. The list field is an immutable `seq`. In Java, `BasicModel::new` gives the rebuilt record the caller's own `List` object, so both records share it, and mutating that list through `getListParameter()` changes `toString` without any setter being called. The model does not capture this aliasing. `ValidateBasicModelInstance` takes a non-null object, whereas `validateBasicModel(null)` throws a `NullPointerException`.
- `AnotherBasicModel` is not part of this model. It is an abstract element type, since only the list's nullness and length matter.
- `ValidateBasicModel` works on field values, not object references. `ValidateBasicModelInstance` carries the object-level behaviour: a fresh object and an unchanged input. Dafny's functions are deterministic by construction, so repeated validation trivially gives identical results.
- The test file's demonstrations of library containers are not part of this model: `Option`, tuples, `Lazy`, memoisation over `Math.random`, pattern matching that prints, function lifting, `List`, `Stream`, `Queue` and `Future`. They involve randomness, console output, concurrency or library internals.
