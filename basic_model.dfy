/** The three-field record that the validator checks and rebuilds: a
    mutable object with Lombok-generated constructors, getters and setters,
    a `toString` and a three-string concatenation helper. */
module BasicModels {
  import opened JavaLang

  /** The element type of the record's list. Only the list's nullness and
      length matter to this core, so its elements stay abstract. */
  type AnotherBasicModel

  /** The field values of a record at one moment; every field may be `null`. */
  datatype BasicModelValue = BasicModelValue(
    stringParameter: Option<string>,
    integerParameter: Option<int32>,
    listParameter: Option<seq<AnotherBasicModel>>)

  /** `List.size()`: the number of elements, or `Integer.MAX_VALUE` when the
      list holds more than that. */
  function ListSize(l: seq<AnotherBasicModel>): (n: nat)
    ensures n <= INT_MAX
    ensures n == |l| <==> |l| <= INT_MAX
    ensures |l| > INT_MAX ==> n == INT_MAX
  {
    if |l| > INT_MAX then INT_MAX else |l|
  }

  /** The text `toString` produces: the string field, a space, the integer
      field, a space, then the list's size when the list is not `null`. */
  function RenderModel(m: BasicModelValue): string
  {
    var result := StringValueOf(m.stringParameter) + " " + IntegerValueOf(m.integerParameter) + " ";
    if m.listParameter.Some? then result + NatToDecimal(ListSize(m.listParameter.value)) else result
  }

  /** The rendering starts with the string field and the integer field, each
      followed by one space; what follows is empty exactly when the list is
      `null`, and otherwise is the list's size written in canonical decimal. */
  lemma RenderShape(m: BasicModelValue)
    ensures var head := StringValueOf(m.stringParameter) + " " + IntegerValueOf(m.integerParameter) + " ";
      |RenderModel(m)| >= |head| && RenderModel(m)[..|head|] == head &&
      (m.listParameter.None? <==> |RenderModel(m)| == |head|) &&
      (m.listParameter.Some? ==>
         AllDigits(RenderModel(m)[|head|..]) && IsCanonicalDecimal(RenderModel(m)[|head|..]) &&
         DecimalValue(RenderModel(m)[|head|..]) == ListSize(m.listParameter.value))
  {
    var head := StringValueOf(m.stringParameter) + " " + IntegerValueOf(m.integerParameter) + " ";
    if m.listParameter.Some? {
      var size := ListSize(m.listParameter.value);
      assert RenderModel(m)[|head|..] == NatToDecimal(size);
      DecimalRoundTrip(size);
    }
  }

  /** The rendering ends with the trailing space exactly when the list is
      `null`; otherwise it ends with the last digit of the list's size. */
  lemma RenderEnding(m: BasicModelValue)
    ensures |RenderModel(m)| > 0
    ensures RenderModel(m)[|RenderModel(m)| - 1] == ' ' <==> m.listParameter.None?
    ensures m.listParameter.Some? ==> IsDigit(RenderModel(m)[|RenderModel(m)| - 1])
  {
    if m.listParameter.Some? {
      var head := StringValueOf(m.stringParameter) + " " + IntegerValueOf(m.integerParameter) + " ";
      var digits := NatToDecimal(ListSize(m.listParameter.value));
      assert RenderModel(m) == head + digits;
      assert RenderModel(m)[|RenderModel(m)| - 1] == digits[|digits| - 1];
    }
  }

  class BasicModel {
    var stringParameter: Option<string>
    var integerParameter: Option<int32>
    var listParameter: Option<seq<AnotherBasicModel>>

    /** The object's current field values. */
    function Value(): BasicModelValue
      reads this
    {
      BasicModelValue(stringParameter, integerParameter, listParameter)
    }

    /** The no-argument constructor: every field is `null`. */
    constructor Empty()
      ensures Value() == BasicModelValue(None, None, None)
    {
      stringParameter, integerParameter, listParameter := None, None, None;
    }

    /** The all-arguments constructor, in declared field order. */
    constructor (stringParameter: Option<string>, integerParameter: Option<int32>,
                 listParameter: Option<seq<AnotherBasicModel>>)
      ensures GetStringParameter() == stringParameter
      ensures GetIntegerParameter() == integerParameter
      ensures GetListParameter() == listParameter
    {
      this.stringParameter := stringParameter;
      this.integerParameter := integerParameter;
      this.listParameter := listParameter;
    }

    /** The Lombok getters: each returns its field of the current state. */
    function GetStringParameter(): (r: Option<string>)
      reads this
      ensures r == Value().stringParameter
    {
      stringParameter
    }

    function GetIntegerParameter(): (r: Option<int32>)
      reads this
      ensures r == Value().integerParameter
    {
      integerParameter
    }

    function GetListParameter(): (r: Option<seq<AnotherBasicModel>>)
      reads this
      ensures r == Value().listParameter
    {
      listParameter
    }

    method SetStringParameter(stringParameter: Option<string>)
      modifies this
      ensures GetStringParameter() == stringParameter
      ensures GetIntegerParameter() == old(GetIntegerParameter())
      ensures GetListParameter() == old(GetListParameter())
    {
      this.stringParameter := stringParameter;
    }

    method SetIntegerParameter(integerParameter: Option<int32>)
      modifies this
      ensures GetIntegerParameter() == integerParameter
      ensures GetStringParameter() == old(GetStringParameter())
      ensures GetListParameter() == old(GetListParameter())
    {
      this.integerParameter := integerParameter;
    }

    method SetListParameter(listParameter: Option<seq<AnotherBasicModel>>)
      modifies this
      ensures GetListParameter() == listParameter
      ensures GetStringParameter() == old(GetStringParameter())
      ensures GetIntegerParameter() == old(GetIntegerParameter())
    {
      this.listParameter := listParameter;
    }

    /** Appends three strings in order; as with `StringBuilder.append`, a
        `null` argument contributes the text "null". The fields are not read. */
    function MethodWhichAccepts3Parameters(s1: Option<string>, s2: Option<string>, s3: Option<string>): (r: string)
      ensures var t1, t2, t3 := StringValueOf(s1), StringValueOf(s2), StringValueOf(s3);
        |r| == |t1| + |t2| + |t3| &&
        r[..|t1|] == t1 && r[|t1|..|t1| + |t2|] == t2 && r[|t1| + |t2|..] == t3
    {
      StringValueOf(s1) + StringValueOf(s2) + StringValueOf(s3)
    }

    /** `BasicModel.toString`: builds the text step by step, appending the
        list's size only when the list is not `null`. */
    method ToString() returns (result: string)
      ensures result == RenderModel(Value())
    {
      result := StringValueOf(stringParameter) + " " + IntegerValueOf(integerParameter) + " ";
      if listParameter.Some? {
        result := result + NatToDecimal(ListSize(listParameter.value));
      }
    }
  }

  /** The steps of the JUnit test `function3TestThenCorrect`: build a record,
      concatenate three strings with `methodWhichAccepts3Parameters` and store
      the result through the string setter; the other fields keep the values
      the constructor gave them. */
  method ConcatenateAndStore() returns (m: BasicModel)
    ensures fresh(m)
    ensures m.GetStringParameter() == Some("come, " + "as you are, " + "as you were")
    ensures m.GetIntegerParameter() == Some(0) && m.GetListParameter().None?
  {
    m := new BasicModel(Some(""), Some(0), None);
    var joined := m.MethodWhichAccepts3Parameters(Some("come, "), Some("as you are, "), Some("as you were"));
    m.SetStringParameter(Some(joined));
  }
}
