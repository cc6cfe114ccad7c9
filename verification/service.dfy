/** The prediction endpoint end to end: feature frame, classifier, and
    response, with the classifier passed in as uninterpreted functions. */
module Service {
  import opened Wrappers
  import Types
  import opened Features
  import opened Response

  /** The loaded model as far as the endpoint sees it: the feature names it
      was fitted on (if it exposes them), the label it predicts for a
      one-row frame, and, if it has one, its probability vector for that row. */
  datatype Classifier = Classifier(
    featureNames: Option<seq<string>>,
    predict: DataFrame -> string,
    predictProba: Option<DataFrame -> seq<real>>)

  /** The response body. */
  datatype PredictionResponse = PredictionResponse(status: string, confidence: real, message: string)

  /** The response as the client's `PredictionResult` type reads it: defined
      exactly when the status is one of the two the type allows, and then
      carrying the same status, confidence and message. */
  function ClientView(resp: PredictionResponse): (r: Option<Types.PredictionResult>)
    ensures r.Some? <==> resp.status == "Y" || resp.status == "N"
    ensures r.Some? ==> r.value.status.Wire() == resp.status
    ensures r.Some? ==> r.value.confidence == resp.confidence && r.value.message == resp.message
  {
    match Types.ParseStatus(resp.status)
    case None => None
    case Some(st) => Some(Types.PredictionResult(st, resp.confidence, resp.message))
  }

  /** The probability vector the model gives for a frame, if it has a
      `predict_proba`: present exactly when the model has one. */
  function Probabilities(model: Classifier, df: DataFrame): (p: Option<seq<real>>)
    ensures p.Some? <==> model.predictProba.Some?
    ensures p.Some? ==> p.value == model.predictProba.value(df)
  {
    match model.predictProba
    case None => None
    case Some(proba) => Some(proba(df))
  }

  /** One request: build the frame, ask the model, shape the answer. The
      request fails only when the probability vector is empty. */
  method PredictLoanSanction(rule: CategoryRule, model: Classifier, a: LoanApplication)
    returns (r: Result<PredictionResponse, Error>)
    ensures var df := ReferenceFrame(rule, model.featureNames, a);
            r.Failure? <==> Probabilities(model, df).Some? && |Probabilities(model, df).value| == 0
    ensures var df := ReferenceFrame(rule, model.featureNames, a);
            r.Success? ==>
              && (r.value.status == "Y" <==> Strings.ToUpper(model.predict(df)) in ApprovedLabels)
              && (r.value.status == "Y" || r.value.status == "N")
              && ClientView(r.value).Some?
              && (ClientView(r.value).value.status == Types.Approved <==> r.value.status == "Y")
              && (r.value.message == ApprovedMessage <==> r.value.status == "Y")
              && (r.value.message == ApprovedMessage || r.value.message == RejectedMessage)
    ensures var df := ReferenceFrame(rule, model.featureNames, a);
            r.Success? && model.predictProba.None? ==> r.value.confidence == DefaultConfidence
    ensures var df := ReferenceFrame(rule, model.featureNames, a);
            r.Success? && model.predictProba.Some? ==>
              r.value.confidence in Probabilities(model, df).value
              && forall p :: p in Probabilities(model, df).value ==> p <= r.value.confidence
  {
    var df := BuildFrame(rule, model.featureNames, a);
    var status := NormaliseStatus(model.predict(df));
    match Confidence(Probabilities(model, df))
    case Failure(e) =>
      r := Failure(e);
    case Success(confidence) =>
      r := Success(PredictionResponse(status, confidence, Message(status)));
  }

  /** The request body the client sends for a typed applicant record: every
      enum travels as its wire string, every number as itself. */
  function Submit(d: Types.LoanApplicationData): (a: LoanApplication)
    ensures Types.ParseGender(a.gender) == Some(d.gender)
    ensures Types.ParseMarried(a.married) == Some(d.married)
    ensures Types.ParseEducation(a.education) == Some(d.education)
    ensures Types.ParseSelfEmployed(a.selfEmployed) == Some(d.selfEmployed)
    ensures Types.ParsePropertyArea(a.propertyArea) == Some(d.propertyArea)
    ensures a.dependents == d.dependents
    ensures a.applicantIncome == d.applicantIncome && a.coapplicantIncome == d.coapplicantIncome
    ensures a.loanAmount == d.loanAmount && a.loanAmountTerm == d.loanAmountTerm
    ensures a.creditHistory == d.creditHistory
  {
    LoanApplication(
      d.gender.Wire(), d.married.Wire(), d.dependents, d.education.Wire(), d.selfEmployed.Wire(),
      d.applicantIncome, d.coapplicantIncome, d.loanAmount, d.loanAmountTerm, d.creditHistory,
      d.propertyArea.Wire())
  }

  /** As written, for every request the client can send, each
      `Self_Employed_*` and `Property_Area_*` column is 0.0. */
  lemma SubmittedUnderscoreFieldsNeverHot(d: Types.LoanApplicationData, g: CategoricalField, fname: string)
    requires g in {SelfEmployedField, PropertyAreaField}
    requires g.Prefix() <= fname
    ensures FeatureValue(FirstUnderscore, fname, Submit(d)) == 0.0
  {
    var a := Submit(d);
    assert !(g.Inner() <= g.RawValue(a)) by {
      if g == SelfEmployedField {
        assert |g.RawValue(a)| < |g.Inner()|;
      } else {
        assert g.RawValue(a)[0] != g.Inner()[0];
      }
    }
    UnderscoreFieldsNeverHot(g, fname, a);
  }

  /** With the intended rule, the `Self_Employed_*` column of each member is
      1.0 exactly for the member the client chose. */
  lemma SubmittedSelfEmployedIntended(d: Types.LoanApplicationData, s: Types.SelfEmployed)
    ensures FeatureValue(AfterPrefix, SelfEmployedField.Prefix() + s.Wire(), Submit(d))
         == if s == d.selfEmployed then 1.0 else 0.0
  {
    Types.WireStringsDistinct();
    OneHotColumns(SelfEmployedField, s.Wire(), Submit(d));
  }

  /** With the intended rule, the `Property_Area_*` column of each member is
      1.0 exactly for the member the client chose. */
  lemma SubmittedPropertyAreaIntended(d: Types.LoanApplicationData, p: Types.PropertyArea)
    ensures FeatureValue(AfterPrefix, PropertyAreaField.Prefix() + p.Wire(), Submit(d))
         == if p == d.propertyArea then 1.0 else 0.0
  {
    Types.WireStringsDistinct();
    OneHotColumns(PropertyAreaField, p.Wire(), Submit(d));
  }
}
