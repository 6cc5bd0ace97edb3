/** The record validator: three independent field checks whose outcomes are
    merged so that every violated rule is reported, in field order, and the
    record is rebuilt from the checked values when none is violated. */
module BasicModelValidator {
  import opened JavaLang
  import opened Validation
  import opened BasicModels

  const STRING_ERR: string := "Invalid characters in stringParameter: "
  const INTEGER_ERR: string := "Integer must be greater than 0"
  const LIST_ERR: string := "List must be not empty"

  /** The character class `[a-zA-Z ]`. */
  predicate IsAllowedChar(c: char)
  {
    'a' <= c <= 'z' || 'A' <= c <= 'Z' || c == ' '
  }

  predicate OnlyAllowedChars(s: string)
  {
    forall i :: 0 <= i < |s| ==> IsAllowedChar(s[i])
  }

  /** `s.replaceAll("[a-zA-Z ]", "")`: the characters outside the class, kept
      in order, each as often as it occurs in `s`. */
  function RemoveAllowed(s: string): (r: string)
    ensures forall i :: 0 <= i < |r| ==> !IsAllowedChar(r[i])
    ensures r == [] <==> OnlyAllowedChars(s)
  {
    if s == [] then []
    else
      var head := if IsAllowedChar(s[0]) then [] else [s[0]];
      var rest := RemoveAllowed(s[1..]);
      assert OnlyAllowedChars(s) <==> IsAllowedChar(s[0]) && OnlyAllowedChars(s[1..]) by {
        if IsAllowedChar(s[0]) && OnlyAllowedChars(s[1..]) {
          forall i | 0 <= i < |s| ensures IsAllowedChar(s[i]) {
            if i > 0 { assert s[i] == s[1..][i - 1]; }
          }
        }
      }
      head + rest
  }

  /** Every character outside the class is kept as often as it occurs. */
  lemma {:induction false} RemoveAllowedCounts(s: string, c: char)
    requires !IsAllowedChar(c)
    ensures multiset(RemoveAllowed(s))[c] == multiset(s)[c]
    decreases |s|
  {
    if s != [] {
      RemoveAllowedCounts(s[1..], c);
      var head := if IsAllowedChar(s[0]) then [] else [s[0]];
      assert s == [s[0]] + s[1..];
      assert multiset(s) == multiset([s[0]]) + multiset(s[1..]);
      assert multiset(RemoveAllowed(s)) == multiset(head) + multiset(RemoveAllowed(s[1..]));
    }
  }

  /** Filtering distributes over concatenation, so the kept characters appear
      in the order they had in `s`. */
  lemma {:induction false} RemoveAllowedAppend(a: string, b: string)
    ensures RemoveAllowed(a + b) == RemoveAllowed(a) + RemoveAllowed(b)
    decreases |a|
  {
    if a == [] {
      assert a + b == b;
    } else {
      var ab := a + b;
      var head := if IsAllowedChar(a[0]) then [] else [a[0]];
      assert ab[0] == a[0] && ab[1..] == a[1..] + b;
      calc {
        RemoveAllowed(ab);
        head + RemoveAllowed(a[1..] + b);
        { RemoveAllowedAppend(a[1..], b); }
        head + (RemoveAllowed(a[1..]) + RemoveAllowed(b));
        (head + RemoveAllowed(a[1..])) + RemoveAllowed(b);
      }
    }
  }

  /** The string check: valid exactly when every character is in the class;
      otherwise one message naming the offending characters. */
  function ValidateString(s: string): (r: Outcome<string, string>)
    ensures WellFormed(r)
    ensures r.Valid? <==> OnlyAllowedChars(s)
    ensures r.Valid? ==> r.value == s
    ensures r.Invalid? ==>
      |r.errors| == 1 && |r.errors[0]| > |STRING_ERR| &&
      r.errors[0][..|STRING_ERR|] == STRING_ERR && r.errors[0][|STRING_ERR|..] == RemoveAllowed(s)
  {
    var invalidChars := RemoveAllowed(s);
    if |invalidChars| == 0 then Valid(s) else Invalid([STRING_ERR + invalidChars])
  }

  /** The integer check: valid exactly when the value is positive. */
  function ValidateInteger(i: int32): (r: Outcome<string, int32>)
    ensures WellFormed(r)
    ensures r.Valid? <==> i > 0
    ensures r.Valid? ==> r.value == i
    ensures r.Invalid? ==> r.errors == [INTEGER_ERR]
  {
    if i <= 0 then Invalid([INTEGER_ERR]) else Valid(i)
  }

  predicate IsNonEmptyList(l: Option<seq<AnotherBasicModel>>)
  {
    l.Some? && |l.value| > 0
  }

  /** The list check: valid exactly when the list is neither `null` nor empty. */
  function ValidateList(l: Option<seq<AnotherBasicModel>>): (r: Outcome<string, seq<AnotherBasicModel>>)
    ensures WellFormed(r)
    ensures r.Valid? <==> IsNonEmptyList(l)
    ensures r.Valid? ==> l == Some(r.value)
    ensures r.Invalid? ==> r.errors == [LIST_ERR]
  {
    if l.None? || |l.value| == 0 then Invalid([LIST_ERR]) else Valid(l.value)
  }

  /** A checked field value, tagged by field, so that outcomes of differently
      typed checks can be merged as one sequence. */
  datatype FieldValue =
    | StringField(s: string)
    | IntegerField(i: int32)
    | ListField(items: seq<AnotherBasicModel>)

  /** The validator requires the string and the integer to be non-null. */
  predicate Checkable(m: BasicModelValue)
  {
    m.stringParameter.Some? && m.integerParameter.Some?
  }

  /** The three checks, in declared field order. */
  function FieldChecks(m: BasicModelValue): seq<Outcome<string, FieldValue>>
    requires Checkable(m)
  {
    [ ValidateString(m.stringParameter.value).Map(s => StringField(s)),
      ValidateInteger(m.integerParameter.value).Map(i => IntegerField(i)),
      ValidateList(m.listParameter).Map(l => ListField(l)) ]
  }

  /** The all-arguments constructor applied to checked values in declared order. */
  function Reconstruct(vs: seq<FieldValue>): BasicModelValue
    requires |vs| == 3 && vs[0].StringField? && vs[1].IntegerField? && vs[2].ListField?
  {
    BasicModelValue(Some(vs[0].s), Some(vs[1].i), Some(vs[2].items))
  }

  /** Whether each field passes its rule, in the terms of the rules themselves. */
  predicate StringPasses(m: BasicModelValue)
    requires Checkable(m)
  {
    OnlyAllowedChars(m.stringParameter.value)
  }

  predicate IntegerPasses(m: BasicModelValue)
    requires Checkable(m)
  {
    m.integerParameter.value > 0
  }

  /** Reference definition of the report: one message per failing field, in
      the order string, integer, list; passing fields add nothing. */
  function ExpectedErrors(m: BasicModelValue): seq<string>
    requires Checkable(m)
  {
    (if StringPasses(m) then [] else [STRING_ERR + RemoveAllowed(m.stringParameter.value)]) +
    (if IntegerPasses(m) then [] else [INTEGER_ERR]) +
    (if IsNonEmptyList(m.listParameter) then [] else [LIST_ERR])
  }

  function FailingFields(m: BasicModelValue): nat
    requires Checkable(m)
  {
    (if StringPasses(m) then 0 else 1) + (if IntegerPasses(m) then 0 else 1) +
    (if IsNonEmptyList(m.listParameter) then 0 else 1)
  }

  lemma AllErrorsOfChecks(m: BasicModelValue)
    requires Checkable(m)
    ensures AllErrors(FieldChecks(m)) == ExpectedErrors(m)
    ensures CountInvalid(FieldChecks(m)) == FailingFields(m)
  {
    var os := FieldChecks(m);
    assert os[1..][1..][1..] == [];
    assert AllErrors(os[1..][1..]) == ErrorsOf(os[2]);
    assert AllErrors(os[1..]) == ErrorsOf(os[1]) + ErrorsOf(os[2]);
    assert CountInvalid(os[1..][1..]) == (if os[2].Invalid? then 1 else 0);
    assert CountInvalid(os[1..]) == (if os[1].Invalid? then 1 else 0) + (if os[2].Invalid? then 1 else 0);
    assert ErrorsOf(os[0]) == (if StringPasses(m) then [] else [STRING_ERR + RemoveAllowed(m.stringParameter.value)]);
  }

  /** Runs all three checks. The record is valid exactly when every field
      passes, and is then rebuilt equal to the input; otherwise the report
      lists the messages of exactly the failing fields, in field order. */
  function ValidateBasicModel(m: BasicModelValue): (r: Outcome<string, BasicModelValue>)
    requires Checkable(m)
    ensures WellFormed(r)
    ensures r.Valid? <==> StringPasses(m) && IntegerPasses(m) && IsNonEmptyList(m.listParameter)
    ensures r.Valid? ==> r.value == m
    ensures r.Invalid? ==> r.errors == ExpectedErrors(m)
    ensures r.Invalid? ==> 1 <= |r.errors| == FailingFields(m) <= 3
  {
    var os := FieldChecks(m);
    MergeWellFormed(os);
    ErrorCountSingleMessages(os);
    AllErrorsOfChecks(m);
    match Merge(os)
    case Invalid(errs) => Invalid(errs)
    case Valid(vs) => Valid(Reconstruct(vs))
  }

  /** `BasicModelValidator.validateBasicModel` on an object: reads the fields through the
      getters, leaves the object as it was, and on success returns a newly
      allocated record holding the checked values. */
  method ValidateBasicModelInstance(basicModel: BasicModel) returns (r: Outcome<string, BasicModel>)
    requires Checkable(basicModel.Value())
    ensures r.Invalid? <==> ValidateBasicModel(basicModel.Value()).Invalid?
    ensures r.Invalid? ==> r.errors == ValidateBasicModel(basicModel.Value()).errors
    ensures r.Valid? ==> fresh(r.value) && r.value.Value() == basicModel.Value()
    ensures basicModel.Value() == old(basicModel.Value())
  {
    var checked := ValidateBasicModel(BasicModelValue(
      basicModel.GetStringParameter(), basicModel.GetIntegerParameter(), basicModel.GetListParameter()));
    match checked
    case Invalid(errs) =>
      r := Invalid(errs);
    case Valid(v) =>
      var rebuilt := new BasicModel(v.stringParameter, v.integerParameter, v.listParameter);
      r := Valid(rebuilt);
  }
}

/** The validator's literal scenarios: a record that passes every check, one
    that fails only the list check, one that fails the integer and the list
    checks, and a name with characters outside the class. */
module ValidatorScenarios {
  import opened JavaLang
  import opened Validation
  import opened BasicModels
  import opened BasicModelValidator

  lemma NamesInClass()
    ensures OnlyAllowedChars("The Number of the Beast")
    ensures OnlyAllowedChars("invallid basic model")
    ensures OnlyAllowedChars("Senjutsu ")
  {
  }

  /** A valid name with a positive count and a `null` or empty list fails the
      list check alone. */
  lemma ListAloneReported(m: BasicModelValue)
    requires Checkable(m) && StringPasses(m) && IntegerPasses(m) && !IsNonEmptyList(m.listParameter)
    ensures ValidateBasicModel(m) == Invalid([LIST_ERR])
  {
    assert ExpectedErrors(m) == [] + [] + [LIST_ERR];
  }

  /** A valid name with a non-positive count and a `null` or empty list fails
      two checks, reported integer first. */
  lemma IntegerAndListReported(m: BasicModelValue)
    requires Checkable(m) && StringPasses(m) && !IntegerPasses(m) && !IsNonEmptyList(m.listParameter)
    ensures ValidateBasicModel(m) == Invalid([INTEGER_ERR, LIST_ERR])
  {
    assert ExpectedErrors(m) == [] + [INTEGER_ERR] + [LIST_ERR];
  }

  lemma TwoMessageRendering()
    ensures RenderOutcome<BasicModelValue>(Invalid([INTEGER_ERR, LIST_ERR]), RenderModel)
      == "Invalid(List(" + (INTEGER_ERR + ", " + LIST_ERR) + "))"
  {
    assert [INTEGER_ERR, LIST_ERR][1..] == [LIST_ERR];
    JoinSingle(LIST_ERR, ", ");
  }

  lemma BeastRendering(m: BasicModelValue, item: AnotherBasicModel)
    requires m == BasicModelValue(Some("The Number of the Beast"), Some(666), Some([item]))
    ensures RenderModel(m) == "The Number of the Beast" + " " + "666" + " " + "1"
  {
    assert IntToDecimal(666) == "666";
    assert NatToDecimal(1) == "1";
  }

  /** A record that passes every check is rebuilt unchanged and renders as
      `Valid(The Number of the Beast 666 1)`. */
  lemma AllFieldsValid(m: BasicModelValue, item: AnotherBasicModel)
    requires m == BasicModelValue(Some("The Number of the Beast"), Some(666), Some([item]))
    ensures ValidateBasicModel(m) == Valid(m)
    ensures RenderOutcome(ValidateBasicModel(m), RenderModel)
      == "Valid(" + ("The Number of the Beast" + " " + "666" + " " + "1") + ")"
  {
    NamesInClass();
    BeastRendering(m, item);
  }

  /** Only the list check fails: `Invalid(List(List must be not empty))`. */
  lemma OnlyListInvalid(m: BasicModelValue)
    requires m == BasicModelValue(Some("invallid basic model"), Some(1), None)
    ensures ValidateBasicModel(m) == Invalid([LIST_ERR])
    ensures RenderOutcome(ValidateBasicModel(m), RenderModel) == "Invalid(List(" + LIST_ERR + "))"
  {
    NamesInClass();
    ListAloneReported(m);
  }

  /** The integer and the list checks fail: both messages, integer first. */
  lemma IntegerAndListInvalid(m: BasicModelValue)
    requires m == BasicModelValue(Some("invallid basic model"), Some(0), None)
    ensures ValidateBasicModel(m) == Invalid([INTEGER_ERR, LIST_ERR])
    ensures RenderOutcome(ValidateBasicModel(m), RenderModel)
      == "Invalid(List(" + (INTEGER_ERR + ", " + LIST_ERR) + "))"
  {
    NamesInClass();
    IntegerAndListReported(m);
    TwoMessageRendering();
  }

  lemma OffendingCharacters(s: string)
    requires s == "Senjutsu 2021!"
    ensures RemoveAllowed(s) == "2021!"
  {
    assert s == "Senjutsu " + "2021!";
    NamesInClass();
    assert RemoveAllowed("2021!") == "2021!";
    RemoveAllowedAppend("Senjutsu ", "2021!");
  }

  /** Digits and punctuation are reported in the order they appear. */
  lemma OffendingCharactersListed(s: string)
    requires s == "Senjutsu 2021!"
    ensures ValidateString(s) == Invalid([STRING_ERR + "2021!"])
  {
    OffendingCharacters(s);
  }
}
