/** Shaping the classifier's answer into the backend's response: the
    decision normalised to "Y"/"N", the confidence, and the message. */
module Response {
  import opened Wrappers
  import opened Strings

  /** Upper-cased labels that count as an approval. */
  const ApprovedLabels: set<string> := {"Y", "YES", "1", "APPROVED"}

  /** The decision for the classifier's label, as a string. */
  function NormaliseStatus(predicted: string): (status: string)
    ensures status == "Y" || status == "N"
    ensures status == "Y" <==> ToUpper(predicted) in ApprovedLabels
  {
    if ToUpper(predicted) in ApprovedLabels then "Y" else "N"
  }

  /** Normalising an already normalised status gives it back. */
  lemma NormaliseStatusIdempotent(predicted: string)
    ensures NormaliseStatus(NormaliseStatus(predicted)) == NormaliseStatus(predicted)
  {
    var s := NormaliseStatus(predicted);
    ToUpperFixesUpper(s);
  }

  /** Labels are compared case-insensitively: lower- and mixed-case
      spellings of the approved labels approve. */
  lemma ApprovedSpellings(predicted: string)
    requires predicted in {"yes", "Yes", "y", "approved"}
    ensures NormaliseStatus(predicted) == "Y"
  {
    if predicted == "yes" {
      NormaliseSpelling(predicted, "YES");
    } else if predicted == "Yes" {
      NormaliseSpelling(predicted, "YES");
    } else if predicted == "y" {
      NormaliseSpelling(predicted, "Y");
    } else {
      NormaliseSpelling(predicted, "APPROVED");
    }
  }

  /** "N", "no" and "0" are not approved labels in any case. */
  lemma RejectedSpellings(predicted: string)
    requires predicted in {"N", "no", "0"}
    ensures NormaliseStatus(predicted) == "N"
  {
    if predicted == "N" {
      NormaliseSpelling(predicted, "N");
    } else if predicted == "no" {
      NormaliseSpelling(predicted, "NO");
    } else {
      NormaliseSpelling(predicted, "0");
    }
  }

  /** The status of a label whose upper case is `upper`. */
  lemma NormaliseSpelling(predicted: string, upper: string)
    requires |predicted| == |upper|
    requires forall i :: 0 <= i < |predicted| ==> UpperChar(predicted[i]) == upper[i]
    ensures NormaliseStatus(predicted) == if upper in ApprovedLabels then "Y" else "N"
  {
    ToUpperByChar(predicted);
    assert ToUpper(predicted) == upper;
  }

  /** The largest entry of a non-empty vector, scanning left to right and
      keeping the earlier entry on ties. */
  function MaxOf(xs: seq<real>): (m: real)
    requires |xs| > 0
    ensures m in xs
    ensures forall i :: 0 <= i < |xs| ==> xs[i] <= m
  {
    if |xs| == 1 then xs[0]
    else
      var m := MaxOf(xs[..|xs| - 1]);
      assert xs[..|xs| - 1] + [xs[|xs| - 1]] == xs;
      if xs[|xs| - 1] > m then xs[|xs| - 1] else m
  }

  /** The confidence reported when the classifier offers no probabilities. */
  const DefaultConfidence: real := 0.8

  /** Why the response could not be shaped: Python's `max` raises on an
      empty probability vector. */
  datatype Error = EmptyProbabilities

  /** The confidence: the default when there are no probabilities, the
      largest probability otherwise. */
  function Confidence(proba: Option<seq<real>>): (r: Result<real, Error>)
    ensures proba.None? ==> r == Success(DefaultConfidence)
    ensures r.Failure? <==> proba.Some? && |proba.value| == 0
    ensures proba.Some? && r.Success? ==>
              r.value in proba.value && forall p :: p in proba.value ==> p <= r.value
  {
    match proba
    case None => Success(DefaultConfidence)
    case Some(ps) => if |ps| == 0 then Failure(EmptyProbabilities) else Success(MaxOf(ps))
  }

  /** A confidence drawn from probabilities in [0, 1] lies in [0, 1]. */
  lemma ConfidenceInUnitInterval(proba: Option<seq<real>>)
    requires proba.Some? ==> forall p :: p in proba.value ==> 0.0 <= p <= 1.0
    requires Confidence(proba).Success?
    ensures 0.0 <= Confidence(proba).value <= 1.0
  {
  }

  const ApprovedMessage: string :=
    "Congratulations! Based on the provided details, your loan is likely to be sanctioned."
  const RejectedMessage: string :=
    "Unfortunately, based on the provided details, the loan is likely to be rejected."

  /** The message for a status: the approval text for "Y", the rejection text otherwise. */
  function Message(status: string): (m: string)
    ensures m == ApprovedMessage || m == RejectedMessage
    ensures m == ApprovedMessage <==> status == "Y"
  {
    if status == "Y" then ApprovedMessage else RejectedMessage
  }

  /** The message depends on the status only and tells the two statuses
      apart: two normalised statuses share a message exactly when equal. */
  lemma MessageDistinguishesStatus(s1: string, s2: string)
    requires s1 in {"Y", "N"} && s2 in {"Y", "N"}
    ensures Message(s1) == Message(s2) <==> s1 == s2
  {
  }
}
