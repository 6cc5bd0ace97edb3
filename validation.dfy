/** The accumulating validation result: an outcome is either a checked value
    or the ordered list of every rule it violated. Unlike a short-circuiting
    result type, merging outcomes inspects all of them and concatenates the
    failures of all of them, in order. */
module Validation {

  datatype Outcome<+E, +T> = Valid(value: T) | Invalid(errors: seq<E>)
  {
    /** Applies `f` to a valid value; failures pass through unchanged. */
    function Map<U>(f: T -> U): (r: Outcome<E, U>)
      ensures r.Valid? <==> Valid?
      ensures r.Valid? ==> r.value == f(value)
      ensures r.Invalid? ==> r.errors == errors
    {
      match this
      case Valid(v) => Valid(f(v))
      case Invalid(es) => Invalid(es)
    }
  }

  /** The invariant every outcome keeps: a failure carries at least one message. */
  predicate WellFormed<E, T>(o: Outcome<E, T>)
  {
    o.Invalid? ==> |o.errors| > 0
  }

  /** The messages an outcome contributes to a merged report: none when valid. */
  function ErrorsOf<E, T>(o: Outcome<E, T>): seq<E>
  {
    if o.Invalid? then o.errors else []
  }

  predicate AllValid<E, T>(os: seq<Outcome<E, T>>)
  {
    forall i :: 0 <= i < |os| ==> os[i].Valid?
  }

  /** Reference definition of the merged report: each outcome's messages, in
      the order the outcomes are given. */
  function AllErrors<E, T>(os: seq<Outcome<E, T>>): seq<E>
  {
    if os == [] then [] else ErrorsOf(os[0]) + AllErrors(os[1..])
  }

  /** The number of outcomes that failed. */
  function CountInvalid<E, T>(os: seq<Outcome<E, T>>): nat
  {
    if os == [] then 0 else (if os[0].Invalid? then 1 else 0) + CountInvalid(os[1..])
  }

  /** One applicative step: extend the values checked so far with one more
      outcome, or extend the failures found so far with its messages. */
  function Combine<E, T>(acc: Outcome<E, seq<T>>, o: Outcome<E, T>): Outcome<E, seq<T>>
  {
    match (acc, o)
    case (Valid(vs), Valid(v)) => Valid(vs + [v])
    case (Valid(_), Invalid(es)) => Invalid(es)
    case (Invalid(es), Valid(_)) => Invalid(es)
    case (Invalid(es1), Invalid(es2)) => Invalid(es1 + es2)
  }

  /** Merges outcomes left to right. All of them are valid exactly when the
      merge is; then it holds their values in order, otherwise the messages of
      every failed outcome in order. */
  function Merge<E, T>(os: seq<Outcome<E, T>>): (r: Outcome<E, seq<T>>)
    ensures r.Valid? <==> AllValid(os)
    ensures r.Valid? ==> |r.value| == |os| && forall i :: 0 <= i < |os| ==> r.value[i] == os[i].value
    ensures ErrorsOf(r) == AllErrors(os)
  {
    if os == [] then Valid([])
    else
      var init, last := os[..|os| - 1], os[|os| - 1];
      assert os == init + [last];
      AllErrorsAppend(init, [last]);
      AllValidAppend(init, [last]);
      assert AllErrors([last]) == ErrorsOf(last) by {
        assert [last][1..] == [];
      }
      var acc := Merge(init);
      assert acc.Valid? ==> forall i :: 0 <= i < |init| ==> acc.value[i] == os[i].value;
      Combine(acc, last)
  }

  lemma {:induction false} AllErrorsAppend<E, T>(a: seq<Outcome<E, T>>, b: seq<Outcome<E, T>>)
    ensures AllErrors(a + b) == AllErrors(a) + AllErrors(b)
    decreases |a|
  {
    if a == [] {
      assert a + b == b;
    } else {
      var ab := a + b;
      assert ab[0] == a[0] && ab[1..] == a[1..] + b;
      calc {
        AllErrors(ab);
        ErrorsOf(a[0]) + AllErrors(a[1..] + b);
        { AllErrorsAppend(a[1..], b); }
        ErrorsOf(a[0]) + (AllErrors(a[1..]) + AllErrors(b));
        (ErrorsOf(a[0]) + AllErrors(a[1..])) + AllErrors(b);
      }
    }
  }

  lemma AllValidAppend<E, T>(a: seq<Outcome<E, T>>, b: seq<Outcome<E, T>>)
    ensures AllValid(a + b) <==> AllValid(a) && AllValid(b)
  {
    if AllValid(a + b) {
      forall i | 0 <= i < |b| ensures b[i].Valid? {
        assert b[i] == (a + b)[|a| + i];
      }
      forall i | 0 <= i < |a| ensures a[i].Valid? {
        assert a[i] == (a + b)[i];
      }
    }
  }

  /** Merging is order-preserving and associative: the report for `a + b` is
      the report for `a` followed by the report for `b`. */
  lemma MergeAppend<E, T>(a: seq<Outcome<E, T>>, b: seq<Outcome<E, T>>)
    ensures ErrorsOf(Merge(a + b)) == ErrorsOf(Merge(a)) + ErrorsOf(Merge(b))
    ensures Merge(a + b).Valid? <==> Merge(a).Valid? && Merge(b).Valid?
  {
    AllErrorsAppend(a, b);
    AllValidAppend(a, b);
  }

  /** A failed outcome among well-formed ones makes the report non-empty. */
  lemma {:induction false} AllErrorsNonEmpty<E, T>(os: seq<Outcome<E, T>>, k: nat)
    requires k < |os| && os[k].Invalid? && WellFormed(os[k])
    ensures |AllErrors(os)| >= |os[k].errors| > 0
  {
    if k > 0 {
      AllErrorsNonEmpty(os[1..], k - 1);
    }
  }

  /** Merging keeps the invariant: a failed merge reports at least one message. */
  lemma MergeWellFormed<E, T>(os: seq<Outcome<E, T>>)
    requires forall i :: 0 <= i < |os| ==> WellFormed(os[i])
    ensures WellFormed(Merge(os))
  {
    if Merge(os).Invalid? {
      var k :| 0 <= k < |os| && os[k].Invalid?;
      AllErrorsNonEmpty(os, k);
    }
  }

  /** When every failed outcome carries exactly one message, as a single rule
      check does, the merged report has one message per failed outcome. */
  lemma {:induction false} ErrorCountSingleMessages<E, T>(os: seq<Outcome<E, T>>)
    requires forall i :: 0 <= i < |os| ==> os[i].Invalid? ==> |os[i].errors| == 1
    ensures |AllErrors(os)| == CountInvalid(os)
  {
    if os != [] {
      ErrorCountSingleMessages(os[1..]);
    }
  }

  /** `String.join(", ", ss)`. */
  function Join(ss: seq<string>, sep: string): (r: string)
  {
    if |ss| == 0 then "" else if |ss| == 1 then ss[0] else ss[0] + sep + Join(ss[1..], sep)
  }

  /** Joining a single string gives that string. */
  lemma JoinSingle(s: string, sep: string)
    ensures Join([s], sep) == s
  {
  }

  /** Joining one more string appends the separator and that string. */
  lemma {:induction false} JoinAppend(ss: seq<string>, s: string, sep: string)
    requires |ss| > 0
    ensures Join(ss + [s], sep) == Join(ss, sep) + sep + s
    decreases |ss|
  {
    var t := ss + [s];
    if |ss| == 1 {
      assert t == [ss[0], s] && t[1..] == [s];
    } else {
      assert t[0] == ss[0] && t[1..] == ss[1..] + [s];
      JoinAppend(ss[1..], s, sep);
    }
  }

  /** The textual form of an outcome: `Valid(<value>)` or
      `Invalid(List(<m1>, <m2>, ...))`. */
  function RenderOutcome<T>(o: Outcome<string, T>, show: T -> string): (r: string)
    ensures o.Valid? ==>
      |r| == 7 + |show(o.value)| && r[..6] == "Valid(" && r[6..|r| - 1] == show(o.value) && r[|r| - 1] == ')'
    ensures o.Invalid? ==>
      |r| == 15 + |Join(o.errors, ", ")| && r[..13] == "Invalid(List(" &&
      r[13..|r| - 2] == Join(o.errors, ", ") && r[|r| - 2..] == "))"
  {
    match o
    case Valid(v) => "Valid(" + show(v) + ")"
    case Invalid(es) => "Invalid(List(" + Join(es, ", ") + "))"
  }
}
