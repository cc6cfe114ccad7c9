/** The backend's feature-row builder: it turns one loan application into a
    row whose columns are the names the trained classifier was fitted on. */
module Features {
  import opened Wrappers
  import opened Strings

  /** The request body after the backend's schema has typed it: the
      categorical fields are free strings, the numeric ones numbers. */
  datatype LoanApplication = LoanApplication(
    gender: string,
    married: string,
    dependents: string,
    education: string,
    selfEmployed: string,
    applicantIncome: real,
    coapplicantIncome: real,
    loanAmount: real,
    loanAmountTerm: real,
    creditHistory: real,
    propertyArea: string)

  /** The loan term used in every derived feature: Python's `term or 1.0`
      replaces a zero term by one and keeps any other term. */
  function EffectiveTerm(term: real): (t: real)
    ensures t != 0.0
    ensures term != 0.0 ==> t == term
    ensures term == 0.0 ==> t == 1.0
  {
    if term == 0.0 then 1.0 else term
  }

  /** The engineered quantities computed once per request. */
  datatype Derived = Derived(totalIncome: real, emi: real, balanceIncome: real)

  /** Total income, the monthly instalment (loan amount over the effective
      term) and the income left after paying 1000 instalments' worth. */
  function Derive(a: LoanApplication): (d: Derived)
    ensures d.totalIncome == a.applicantIncome + a.coapplicantIncome
    ensures d.emi * EffectiveTerm(a.loanAmountTerm) == a.loanAmount
    ensures a.loanAmountTerm == 0.0 ==> d.emi == a.loanAmount
    ensures d.balanceIncome == d.totalIncome - 1000.0 * d.emi
  {
    var total := a.applicantIncome + a.coapplicantIncome;
    var emi := a.loanAmount / EffectiveTerm(a.loanAmountTerm);
    Derived(total, emi, total - emi * 1000.0)
  }

  /** The columns the builder fills from a number, by exact name. */
  datatype NumericFeature =
    | ApplicantIncome | CoapplicantIncome | LoanAmount | LoanAmountTerm | CreditHistory
    | TotalIncome | Emi | BalanceIncome
  {
    function Name(): string {
      match this
      case ApplicantIncome => "ApplicantIncome"
      case CoapplicantIncome => "CoapplicantIncome"
      case LoanAmount => "LoanAmount"
      case LoanAmountTerm => "Loan_Amount_Term"
      case CreditHistory => "Credit_History"
      case TotalIncome => "TotalIncome"
      case Emi => "EMI"
      case BalanceIncome => "Balance_Income"
    }
  }

  /** The categorical fields, each one-hot encoded under a column prefix. */
  datatype CategoricalField =
    | GenderField | MarriedField | EducationField | SelfEmployedField
    | PropertyAreaField | DependentsField
  {
    /** The prefix a column name starts with to be a one-hot column of this field. */
    function Prefix(): (p: string)
      ensures p == Head() + "_" + Inner()
    {
      match this
      case GenderField => "Gender_"
      case MarriedField => "Married_"
      case EducationField => "Education_"
      case SelfEmployedField => "Self_Employed_"
      case PropertyAreaField => "Property_Area_"
      case DependentsField => "Dependents_"
    }

    /** The text of the prefix before its first underscore. */
    function Head(): (h: string)
      ensures '_' !in h
    {
      match this
      case GenderField => "Gender"
      case MarriedField => "Married"
      case EducationField => "Education"
      case SelfEmployedField => "Self"
      case PropertyAreaField => "Property"
      case DependentsField => "Dependents"
    }

    /** The text of the prefix after its first underscore: empty unless the
        field name itself holds an underscore. */
    function Inner(): (t: string)
      ensures t == "" <==> this !in {SelfEmployedField, PropertyAreaField}
    {
      match this
      case SelfEmployedField => "Employed_"
      case PropertyAreaField => "Area_"
      case _ => ""
    }

    /** The raw request value the field's one-hot columns are compared with. */
    function RawValue(a: LoanApplication): string {
      match this
      case GenderField => a.gender
      case MarriedField => a.married
      case EducationField => a.education
      case SelfEmployedField => a.selfEmployed
      case PropertyAreaField => a.propertyArea
      case DependentsField => a.dependents
    }
  }

  /** How a column name is served: from a number, as a one-hot column of a
      categorical field, or by no rule at all. */
  datatype Column = Numeric(feature: NumericFeature) | OneHot(field: CategoricalField) | Unmapped

  ghost predicate IsExactName(fname: string) {
    exists f: NumericFeature :: f.Name() == fname
  }

  /** No two one-hot prefixes can start the same name: their first letters differ. */
  lemma PrefixesExclusive(fname: string, g: CategoricalField, h: CategoricalField)
    requires g.Prefix() <= fname && h.Prefix() <= fname
    ensures g == h
  {
    assert g.Prefix()[0] == fname[0] == h.Prefix()[0];
  }

  /** A name that starts with a one-hot prefix is never one of the exact names. */
  lemma PrefixedNameNotExact(fname: string, g: CategoricalField)
    requires g.Prefix() <= fname
    ensures !IsExactName(fname)
  {
    assert fname[0] == g.Prefix()[0] && fname[1] == g.Prefix()[1];
    forall f: NumericFeature
      ensures f.Name() != fname
    {
      assert f.Name()[0] != g.Prefix()[0] || f.Name()[1] != g.Prefix()[1];
    }
  }

  /** The dispatch of the builder's `if`/`elif` chain, in its order: exact
      names first, then the one-hot prefixes, then everything else. */
  function Classify(fname: string): (c: Column)
    ensures c.Numeric? ==> c.feature.Name() == fname
    ensures c.OneHot? ==> c.field.Prefix() <= fname
  {
    if fname == ApplicantIncome.Name() then Numeric(ApplicantIncome)
    else if fname == CoapplicantIncome.Name() then Numeric(CoapplicantIncome)
    else if fname == LoanAmount.Name() then Numeric(LoanAmount)
    else if fname == LoanAmountTerm.Name() then Numeric(LoanAmountTerm)
    else if fname == CreditHistory.Name() then Numeric(CreditHistory)
    else if fname == TotalIncome.Name() then Numeric(TotalIncome)
    else if fname == Emi.Name() then Numeric(Emi)
    else if fname == BalanceIncome.Name() then Numeric(BalanceIncome)
    else if GenderField.Prefix() <= fname then OneHot(GenderField)
    else if MarriedField.Prefix() <= fname then OneHot(MarriedField)
    else if EducationField.Prefix() <= fname then OneHot(EducationField)
    else if SelfEmployedField.Prefix() <= fname then OneHot(SelfEmployedField)
    else if PropertyAreaField.Prefix() <= fname then OneHot(PropertyAreaField)
    else if DependentsField.Prefix() <= fname then OneHot(DependentsField)
    else Unmapped
  }

  /** A name that starts with a field's prefix is a one-hot column of that field. */
  lemma ClassifyPrefixed(fname: string, g: CategoricalField)
    requires g.Prefix() <= fname
    ensures Classify(fname) == OneHot(g)
  {
    PrefixedNameNotExact(fname, g);
    var c := Classify(fname);
    assert !c.Numeric?;
    if c.OneHot? {
      PrefixesExclusive(fname, g, c.field);
    }
  }

  /** Each exact name is served from its number. */
  lemma ClassifyExact(f: NumericFeature)
    ensures Classify(f.Name()) == Numeric(f)
  {
  }

  /** The dispatch is exhaustive and exclusive: a name is served from a
      number exactly when it is one of the exact names, as a one-hot column
      of a field exactly when it starts with that field's prefix, and by no
      rule exactly when neither holds. */
  lemma ClassifyComplete(fname: string)
    ensures forall f: NumericFeature :: Classify(fname) == Numeric(f) <==> f.Name() == fname
    ensures forall g: CategoricalField :: Classify(fname) == OneHot(g) <==> g.Prefix() <= fname
    ensures Classify(fname) == Unmapped <==> !IsExactName(fname) && forall g: CategoricalField :: !(g.Prefix() <= fname)
  {
    forall f: NumericFeature | f.Name() == fname
      ensures Classify(fname) == Numeric(f)
    {
      ClassifyExact(f);
    }
    forall g: CategoricalField | g.Prefix() <= fname
      ensures Classify(fname) == OneHot(g)
    {
      ClassifyPrefixed(fname, g);
    }
  }

  /** The value of an exact-name column: a request number, the effective
      term, or one of the derived quantities. */
  function NumericValue(f: NumericFeature, a: LoanApplication): (v: real)
    ensures f == ApplicantIncome ==> v == a.applicantIncome
    ensures f == CoapplicantIncome ==> v == a.coapplicantIncome
    ensures f == LoanAmount ==> v == a.loanAmount
    ensures f == LoanAmountTerm ==> v != 0.0 && (a.loanAmountTerm != 0.0 ==> v == a.loanAmountTerm)
    ensures f == LoanAmountTerm && a.loanAmountTerm == 0.0 ==> v == 1.0
    ensures f == CreditHistory ==> v == a.creditHistory
    ensures f == TotalIncome ==> v == a.applicantIncome + a.coapplicantIncome
    ensures f == Emi ==> v * EffectiveTerm(a.loanAmountTerm) == a.loanAmount
    ensures f == BalanceIncome ==>
              v == a.applicantIncome + a.coapplicantIncome - 1000.0 * Derive(a).emi
  {
    var d := Derive(a);
    match f
    case ApplicantIncome => a.applicantIncome
    case CoapplicantIncome => a.coapplicantIncome
    case LoanAmount => a.loanAmount
    case LoanAmountTerm => EffectiveTerm(a.loanAmountTerm)
    case CreditHistory => a.creditHistory
    case TotalIncome => d.totalIncome
    case Emi => d.emi
    case BalanceIncome => d.balanceIncome
  }

  /** How the category is cut out of a one-hot column name. The code takes the
      text after the FIRST underscore of the name; the evident intent is the
      text after the field's prefix. The two differ only for fields whose
      name holds an underscore. */
  datatype CategoryRule = FirstUnderscore | AfterPrefix

  /** The category a one-hot column stands for, under either rule. */
  function Category(rule: CategoryRule, g: CategoricalField, fname: string): (cat: string)
    requires g.Prefix() <= fname
    ensures rule == AfterPrefix ==> fname == g.Prefix() + cat
    ensures rule == FirstUnderscore ==> cat == g.Inner() + fname[|g.Prefix()|..]
  {
    match rule
    case AfterPrefix =>
      assert fname == g.Prefix() + fname[|g.Prefix()|..];
      fname[|g.Prefix()|..]
    case FirstUnderscore =>
      var rest := g.Inner() + fname[|g.Prefix()|..];
      assert fname == g.Head() + ['_'] + rest;
      SplitOnceUnique(fname, '_', g.Head(), rest);
      SplitOnce(fname, '_')[1]
  }

  /** Concatenation with a common prefix is injective. */
  lemma ConcatCancel(p: string, x: string, y: string)
    ensures p + x == p + y <==> x == y
  {
    if p + x == p + y {
      assert x == (p + x)[|p|..];
      assert y == (p + y)[|p|..];
    }
  }

  /** With `p == h + inner`, the name `p + rest` equals `h + raw` exactly
      when `raw` is `inner + rest`. */
  lemma SpelledAfterHead(h: string, inner: string, rest: string, raw: string)
    ensures (h + inner) + rest == h + raw <==> raw == inner + rest
  {
    assert (h + inner) + rest == h + (inner + rest);
    ConcatCancel(h, raw, inner + rest);
  }

  /** A value is the category of a prefixed name exactly when the name spells
      it after the prefix (intended rule), or after the head and one
      underscore (as written). */
  lemma SpelledCategory(rule: CategoryRule, g: CategoricalField, fname: string, raw: string)
    requires g.Prefix() <= fname
    ensures rule == AfterPrefix ==> (raw == Category(rule, g, fname) <==> fname == g.Prefix() + raw)
    ensures rule == FirstUnderscore ==> (raw == Category(rule, g, fname) <==> fname == g.Head() + "_" + raw)
  {
    var rest := fname[|g.Prefix()|..];
    assert fname == g.Prefix() + rest;
    match rule
    case AfterPrefix =>
      ConcatCancel(g.Prefix(), raw, rest);
    case FirstUnderscore =>
      SpelledAfterHead(g.Head() + "_", g.Inner(), rest, raw);
  }

  /** The value the builder puts in the column `fname`: the number of an
      exact name, an indicator for a prefixed name, 0.0 for any other name.
      A one-hot column is hot exactly when its name spells the raw value
      after the field's prefix (intended rule) or after the field's head and
      one underscore (as written). */
  function FeatureValue(rule: CategoryRule, fname: string, a: LoanApplication): (v: real)
    ensures Classify(fname).Numeric? ==> v == NumericValue(Classify(fname).feature, a)
    ensures Classify(fname).Unmapped? ==> v == 0.0
    ensures Classify(fname).OneHot? ==> v == 0.0 || v == 1.0
    ensures Classify(fname).OneHot? && rule == AfterPrefix ==>
              (v == 1.0 <==> fname == Classify(fname).field.Prefix() + Classify(fname).field.RawValue(a))
    ensures Classify(fname).OneHot? && rule == FirstUnderscore ==>
              (v == 1.0 <==> fname == Classify(fname).field.Head() + "_" + Classify(fname).field.RawValue(a))
  {
    match Classify(fname)
    case Numeric(f) => NumericValue(f, a)
    case OneHot(g) =>
      SpelledCategory(rule, g, fname, g.RawValue(a));
      if g.RawValue(a) == Category(rule, g, fname) then 1.0 else 0.0
    case Unmapped => 0.0
  }

  /** Exact-name columns carry the request's numbers; `Loan_Amount_Term`
      carries the effective term; the derived columns satisfy their defining
      equations with a divisor that is never zero. */
  lemma ExactColumns(rule: CategoryRule, a: LoanApplication)
    ensures FeatureValue(rule, "ApplicantIncome", a) == a.applicantIncome
    ensures FeatureValue(rule, "CoapplicantIncome", a) == a.coapplicantIncome
    ensures FeatureValue(rule, "LoanAmount", a) == a.loanAmount
    ensures FeatureValue(rule, "Loan_Amount_Term", a) == EffectiveTerm(a.loanAmountTerm) != 0.0
    ensures a.loanAmountTerm != 0.0 ==> FeatureValue(rule, "Loan_Amount_Term", a) == a.loanAmountTerm
    ensures a.loanAmountTerm == 0.0 ==> FeatureValue(rule, "Loan_Amount_Term", a) == 1.0
    ensures FeatureValue(rule, "Credit_History", a) == a.creditHistory
    ensures FeatureValue(rule, "TotalIncome", a) == a.applicantIncome + a.coapplicantIncome
    ensures FeatureValue(rule, "EMI", a) * FeatureValue(rule, "Loan_Amount_Term", a) == a.loanAmount
    ensures FeatureValue(rule, "Balance_Income", a)
         == FeatureValue(rule, "TotalIncome", a) - 1000.0 * FeatureValue(rule, "EMI", a)
  {
    ClassifyExact(ApplicantIncome);
    ClassifyExact(CoapplicantIncome);
    ClassifyExact(LoanAmount);
    ClassifyExact(LoanAmountTerm);
    ClassifyExact(CreditHistory);
    ClassifyExact(TotalIncome);
    ClassifyExact(Emi);
    ClassifyExact(BalanceIncome);
  }

  /** The one-hot column `prefix + c` of a field. With the intended rule it is
      1.0 exactly when the raw field equals `c`; as written it is 1.0 exactly
      when the raw field equals `c` preceded by the prefix's inner text. */
  lemma OneHotColumns(g: CategoricalField, c: string, a: LoanApplication)
    ensures FeatureValue(AfterPrefix, g.Prefix() + c, a) == if g.RawValue(a) == c then 1.0 else 0.0
    ensures FeatureValue(FirstUnderscore, g.Prefix() + c, a)
         == if g.RawValue(a) == g.Inner() + c then 1.0 else 0.0
  {
    var fname := g.Prefix() + c;
    assert g.Prefix() <= fname;
    ClassifyPrefixed(fname, g);
    assert fname[|g.Prefix()|..] == c;
  }

  /** Every one-hot and every unmapped column holds 0.0 or 1.0, and a name
      that no rule serves holds 0.0. */
  lemma IndicatorColumns(rule: CategoryRule, fname: string, a: LoanApplication)
    requires !IsExactName(fname)
    ensures FeatureValue(rule, fname, a) == 0.0 || FeatureValue(rule, fname, a) == 1.0
    ensures (forall g: CategoricalField :: !(g.Prefix() <= fname)) ==> FeatureValue(rule, fname, a) == 0.0
  {
    ClassifyComplete(fname);
  }

  /** Two one-hot columns of the same field that are both 1.0 are the same
      column, under either rule. */
  lemma AtMostOneHot(rule: CategoryRule, g: CategoricalField, n1: string, n2: string, a: LoanApplication)
    requires g.Prefix() <= n1 && g.Prefix() <= n2
    requires FeatureValue(rule, n1, a) == 1.0 && FeatureValue(rule, n2, a) == 1.0
    ensures n1 == n2
  {
    var c1 := HotColumnCategory(rule, g, n1, a);
    var c2 := HotColumnCategory(rule, g, n2, a);
    NameFromCategory(rule, g, n1);
    NameFromCategory(rule, g, n2);
  }

  /** A one-hot column's name is recovered from its field and category. */
  lemma NameFromCategory(rule: CategoryRule, g: CategoricalField, fname: string)
    requires g.Prefix() <= fname
    ensures rule == AfterPrefix ==> fname == g.Prefix() + Category(rule, g, fname)
    ensures rule == FirstUnderscore ==>
      fname == g.Prefix() + Category(rule, g, fname)[|g.Inner()|..]
  {
    var r := fname[|g.Prefix()|..];
    assert fname == g.Prefix() + r;
    if rule == FirstUnderscore {
      assert Category(rule, g, fname)[|g.Inner()|..] == r;
    }
  }

  /** A one-hot column holding 1.0 names the raw field's value as its category. */
  lemma HotColumnCategory(rule: CategoryRule, g: CategoricalField, fname: string, a: LoanApplication)
    returns (cat: string)
    requires g.Prefix() <= fname
    requires FeatureValue(rule, fname, a) == 1.0
    ensures cat == Category(rule, g, fname) == g.RawValue(a)
  {
    ClassifyPrefixed(fname, g);
    cat := Category(rule, g, fname);
  }

  /** For fields without an underscore in their name the two rules agree. */
  lemma RulesAgreeOnPlainFields(g: CategoricalField, fname: string, a: LoanApplication)
    requires g in {GenderField, MarriedField, EducationField, DependentsField}
    requires g.Prefix() <= fname
    ensures FeatureValue(FirstUnderscore, fname, a) == FeatureValue(AfterPrefix, fname, a)
  {
    ClassifyPrefixed(fname, g);
    assert Category(FirstUnderscore, g, fname) == Category(AfterPrefix, g, fname);
  }

  /** As written, a `Self_Employed_*` or `Property_Area_*` column compares the
      raw field with a category starting "Employed_" or "Area_"; a raw value
      that does not start so leaves every such column at 0.0. */
  lemma UnderscoreFieldsNeverHot(g: CategoricalField, fname: string, a: LoanApplication)
    requires g in {SelfEmployedField, PropertyAreaField}
    requires g.Prefix() <= fname
    requires !(g.Inner() <= g.RawValue(a))
    ensures FeatureValue(FirstUnderscore, fname, a) == 0.0
  {
    ClassifyPrefixed(fname, g);
    var cat := Category(FirstUnderscore, g, fname);
    assert g.Inner() <= cat;
  }

  /** The column `Self_Employed_Yes` for a self-employed applicant: 0.0 as
      written, 1.0 under the intended rule. */
  lemma SelfEmployedYesMissed(a: LoanApplication)
    requires a.selfEmployed == "Yes"
    ensures FeatureValue(FirstUnderscore, "Self_Employed_Yes", a) == 0.0
    ensures FeatureValue(AfterPrefix, "Self_Employed_Yes", a) == 1.0
  {
    assert SelfEmployedField.Prefix() + "Yes" == "Self_Employed_Yes";
    assert |SelfEmployedField.Inner() + "Yes"| != |a.selfEmployed|;
    OneHotColumns(SelfEmployedField, "Yes", a);
  }

  /** The column `Property_Area_Urban` for an urban property: 0.0 as written,
      1.0 under the intended rule. */
  lemma PropertyAreaUrbanMissed(a: LoanApplication)
    requires a.propertyArea == "Urban"
    ensures FeatureValue(FirstUnderscore, "Property_Area_Urban", a) == 0.0
    ensures FeatureValue(AfterPrefix, "Property_Area_Urban", a) == 1.0
  {
    assert PropertyAreaField.Prefix() + "Urban" == "Property_Area_Urban";
    assert |PropertyAreaField.Inner() + "Urban"| != |a.propertyArea|;
    OneHotColumns(PropertyAreaField, "Urban", a);
  }

  /** What the classifier is handed: a row aligned with its feature names, or,
      when it exposes no names, the raw request as it stands. */
  datatype DataFrame = Aligned(columns: seq<(string, real)>) | RawRecord(record: LoanApplication)

  /** The frame the builder produces, one column per feature name in order. */
  function ReferenceFrame(rule: CategoryRule, featureNames: Option<seq<string>>, a: LoanApplication): (df: DataFrame)
    ensures featureNames.None? <==> df.RawRecord?
    ensures df.RawRecord? ==> df.record == a
    ensures featureNames.Some? ==>
              |df.columns| == |featureNames.value|
              && forall i :: 0 <= i < |df.columns| ==>
                   df.columns[i].0 == featureNames.value[i] && df.columns[i].1 == FeatureValue(rule, df.columns[i].0, a)
  {
    match featureNames
    case None => RawRecord(a)
    case Some(names) =>
      Aligned(seq(|names|, i requires 0 <= i < |names| => (names[i], FeatureValue(rule, names[i], a))))
  }

  /** The dictionary after storing the values of `names` in order: it holds
      exactly the names given, each with its column value. */
  function RowOf(rule: CategoryRule, names: seq<string>, a: LoanApplication): (row: map<string, real>)
    ensures forall n :: n in row <==> n in names
    ensures forall n :: n in row ==> row[n] == FeatureValue(rule, n, a)
  {
    if |names| == 0 then map[]
    else
      var last := names[|names| - 1];
      assert names == names[..|names| - 1] + [last];
      RowOf(rule, names[..|names| - 1], a)[last := FeatureValue(rule, last, a)]
  }

  /** Storing one more name extends the dictionary by that name's value. */
  lemma RowOfExtend(rule: CategoryRule, names: seq<string>, i: nat, a: LoanApplication)
    requires i < |names|
    ensures RowOf(rule, names[..i + 1], a) == RowOf(rule, names[..i], a)[names[i] := FeatureValue(rule, names[i], a)]
  {
    assert names[..i + 1][..i] == names[..i];
  }

  /** The loop over the feature names, filling a dictionary. An unmapped name
      takes the value already stored under it, or 0.0 the first time; a
      repeated name is stored once. */
  method EngineerRow(rule: CategoryRule, names: seq<string>, a: LoanApplication)
    returns (row: map<string, real>)
    ensures forall n :: n in row <==> n in names
    ensures forall n :: n in row ==> row[n] == FeatureValue(rule, n, a)
  {
    row := map[];
    var i := 0;
    while i < |names|
      invariant 0 <= i <= |names|
      invariant row == RowOf(rule, names[..i], a)
    {
      var fname := names[i];
      var v;
      if Classify(fname).Unmapped? {
        v := if fname in row then row[fname] else 0.0;
        assert v == FeatureValue(rule, fname, a);
      } else {
        v := FeatureValue(rule, fname, a);
      }
      RowOfExtend(rule, names, i, a);
      row := row[fname := v];
      i := i + 1;
    }
    assert names[..i] == names;
  }

  /** The frame handed to the classifier: the dictionary row laid out in the
      order of the feature names, or the raw request when there are none. */
  method BuildFrame(rule: CategoryRule, featureNames: Option<seq<string>>, a: LoanApplication)
    returns (df: DataFrame)
    ensures featureNames.None? ==> df == RawRecord(a)
    ensures featureNames.Some? ==> df.Aligned? && |df.columns| == |featureNames.value|
    ensures featureNames.Some? ==> forall i :: 0 <= i < |featureNames.value| ==>
              df.columns[i].0 == featureNames.value[i]
              && df.columns[i].1 == FeatureValue(rule, featureNames.value[i], a)
    ensures df == ReferenceFrame(rule, featureNames, a)
  {
    match featureNames
    case None =>
      df := RawRecord(a);
    case Some(names) =>
      var row := EngineerRow(rule, names, a);
      var columns := LayOut(rule, names, row, a);
      df := Aligned(columns);
      ReferenceFrameUnique(rule, names, a, columns);
  }

  /** `pd.DataFrame([row], columns=names)`: the values of
      the filled dictionary laid out in the order of the feature names. */
  method LayOut(rule: CategoryRule, names: seq<string>, row: map<string, real>, a: LoanApplication)
    returns (columns: seq<(string, real)>)
    requires forall n :: n in row <==> n in names
    requires forall n :: n in row ==> row[n] == FeatureValue(rule, n, a)
    ensures |columns| == |names|
    ensures forall j :: 0 <= j < |names| ==> columns[j] == (names[j], FeatureValue(rule, names[j], a))
  {
    columns := [];
    var i := 0;
    while i < |names|
      invariant 0 <= i <= |names|
      invariant |columns| == i
      invariant forall j :: 0 <= j < i ==> columns[j] == (names[j], FeatureValue(rule, names[j], a))
    {
      assert names[i] in row;
      columns := columns + [(names[i], row[names[i]])];
      i := i + 1;
    }
  }

  /** The reference frame is the only aligned frame holding each name's value
      at its position. */
  lemma ReferenceFrameUnique(rule: CategoryRule, names: seq<string>, a: LoanApplication,
                             columns: seq<(string, real)>)
    requires |columns| == |names|
    requires forall j :: 0 <= j < |names| ==> columns[j] == (names[j], FeatureValue(rule, names[j], a))
    ensures Aligned(columns) == ReferenceFrame(rule, Some(names), a)
  {
    var ref := ReferenceFrame(rule, Some(names), a).columns;
    assert forall j :: 0 <= j < |names| ==> ref[j] == columns[j];
  }

  /** In a frame aligned with distinct feature names, at most one column of
      each categorical field holds 1.0, under either rule. */
  lemma FrameAtMostOneHotPerField(rule: CategoryRule, names: seq<string>, a: LoanApplication,
                                  g: CategoricalField, i: int, j: int)
    requires forall k, l :: 0 <= k < l < |names| ==> names[k] != names[l]
    requires 0 <= i < |names| && 0 <= j < |names|
    requires g.Prefix() <= names[i] && g.Prefix() <= names[j]
    requires ReferenceFrame(rule, Some(names), a).columns[i].1 == 1.0
    requires ReferenceFrame(rule, Some(names), a).columns[j].1 == 1.0
    ensures i == j
  {
    AtMostOneHot(rule, g, names[i], names[j], a);
  }
}
