/** The client's applicant form: its initial data, its select options, and
    the change handler that writes an input's value into the form state. */
module Form {
  import opened Wrappers
  import opened Types
  import Features
  import Service

  /** A value held by the form state at run time: a string or a number. */
  datatype FieldValue = Str(text: string) | Num(number: real)

  /** The form state as the JavaScript object it is: field name to value.
      The static type promises enum members, but nothing checks it. */
  type FormData = map<string, FieldValue>

  /** The fields the handler stores as numbers. */
  const NumericFields: set<string> :=
    {"ApplicantIncome", "CoapplicantIncome", "LoanAmount", "Loan_Amount_Term", "Credit_History"}

  /** The eleven fields of the applicant record. */
  const FieldNames: set<string> :=
    {"Gender", "Married", "Dependents", "Education", "Self_Employed", "ApplicantIncome",
     "CoapplicantIncome", "LoanAmount", "Loan_Amount_Term", "Credit_History", "Property_Area"}

  /** The change handler: the field named by the event takes the event's
      value, converted by `toNumber` (JavaScript's `Number`) for the numeric
      fields and kept as a string otherwise; no range or domain check. */
  function HandleInputChange(prev: FormData, name: string, value: string, toNumber: string -> real): (next: FormData)
    ensures next.Keys == prev.Keys + {name}
    ensures forall k :: k in prev && k != name ==> next[k] == prev[k]
    ensures name in NumericFields ==> next[name] == Num(toNumber(value))
    ensures name !in NumericFields ==> next[name] == Str(value)
  {
    prev[name := if name in NumericFields then Num(toNumber(value)) else Str(value)]
  }

  /** Applying the same change twice leaves the state of applying it once. */
  lemma HandleInputChangeIdempotent(prev: FormData, name: string, value: string, toNumber: string -> real)
    ensures var once := HandleInputChange(prev, name, value, toNumber);
            HandleInputChange(once, name, value, toNumber) == once
  {
  }

  /** The value a typed record holds under a field name. */
  function FieldOf(d: LoanApplicationData, k: string): FieldValue {
    match k
    case "Gender" => Str(d.gender.Wire())
    case "Married" => Str(d.married.Wire())
    case "Dependents" => Str(d.dependents)
    case "Education" => Str(d.education.Wire())
    case "Self_Employed" => Str(d.selfEmployed.Wire())
    case "ApplicantIncome" => Num(d.applicantIncome)
    case "CoapplicantIncome" => Num(d.coapplicantIncome)
    case "LoanAmount" => Num(d.loanAmount)
    case "Loan_Amount_Term" => Num(d.loanAmountTerm)
    case "Credit_History" => Num(d.creditHistory)
    case "Property_Area" => Str(d.propertyArea.Wire())
    case _ => Str("")
  }

  /** A typed record laid out as the form state. */
  function ToRecord(d: LoanApplicationData): (m: FormData)
    ensures m.Keys == FieldNames
    ensures forall k :: k in m ==> Fits(k, m[k])
  {
    map k | k in FieldNames :: FieldOf(d, k)
  }

  /** Whether the static type of the record allows `v` under field `k`:
      a number for the numeric fields, a wire string of the enum for the
      enum-typed fields, any string for `Dependents`. */
  predicate Fits(k: string, v: FieldValue) {
    match k
    case "ApplicantIncome" | "CoapplicantIncome" | "LoanAmount" | "Loan_Amount_Term" | "Credit_History" => v.Num?
    case "Gender" => v.Str? && ParseGender(v.text).Some?
    case "Married" => v.Str? && ParseMarried(v.text).Some?
    case "Education" => v.Str? && ParseEducation(v.text).Some?
    case "Self_Employed" => v.Str? && ParseSelfEmployed(v.text).Some?
    case "Property_Area" => v.Str? && ParsePropertyArea(v.text).Some?
    case _ => v.Str?
  }

  function StrAt(m: FormData, k: string): string {
    if k in m && m[k].Str? then m[k].text else ""
  }

  function NumAt(m: FormData, k: string): real {
    if k in m && m[k].Num? then m[k].number else 0.0
  }

  /** Whether the form state is what its static type claims: every field
      present and holding a value its type allows. Extra keys are ignored. */
  predicate WellTyped(m: FormData) {
    && FieldNames <= m.Keys
    && forall k :: k in FieldNames ==> Fits(k, m[k])
  }

  /** The typed record a form state stands for, when it is well typed. */
  function FromRecord(m: FormData): (r: Option<LoanApplicationData>)
    ensures r.Some? <==> WellTyped(m)
  {
    if WellTyped(m) then
      var d := LoanApplicationData(
        ParseGender(StrAt(m, "Gender")).value,
        ParseMarried(StrAt(m, "Married")).value,
        StrAt(m, "Dependents"),
        ParseEducation(StrAt(m, "Education")).value,
        ParseSelfEmployed(StrAt(m, "Self_Employed")).value,
        NumAt(m, "ApplicantIncome"),
        NumAt(m, "CoapplicantIncome"),
        NumAt(m, "LoanAmount"),
        NumAt(m, "Loan_Amount_Term"),
        NumAt(m, "Credit_History"),
        ParsePropertyArea(StrAt(m, "Property_Area")).value);
      Some(d)
    else None
  }

  /** Reading a well-typed form state as a typed record and laying it out
      again reproduces every field of the state. */
  lemma FromRecordInverse(m: FormData)
    requires WellTyped(m)
    ensures forall k :: k in FieldNames ==> ToRecord(FromRecord(m).value)[k] == m[k]
  {
    var d := FromRecord(m).value;
    forall k | k in FieldNames
      ensures FieldOf(d, k) == m[k]
    {
      FieldInverse(m, d, k);
    }
  }

  /** One field of a well-typed state is the value the record read from it
      would lay out again. */
  lemma FieldInverse(m: FormData, d: LoanApplicationData, k: string)
    requires WellTyped(m) && FromRecord(m) == Some(d)
    requires k in FieldNames
    ensures FieldOf(d, k) == m[k]
  {
    assert Fits(k, m[k]);
    if k in NumericFields {
      assert m[k] == Num(NumAt(m, k));
      NumericFieldInverse(m, d, k);
    } else if k == "Dependents" {
      assert m[k] == Str(StrAt(m, k));
    } else {
      assert m[k] == Str(StrAt(m, k));
      EnumFieldInverse(m, d, k);
    }
  }

  /** A numeric field of a well-typed state is the number the record read
      from it. */
  lemma NumericFieldInverse(m: FormData, d: LoanApplicationData, k: string)
    requires WellTyped(m) && FromRecord(m) == Some(d)
    requires k in NumericFields
    ensures FieldOf(d, k) == Num(NumAt(m, k))
  {
    if k == "ApplicantIncome" {
      assert d.applicantIncome == NumAt(m, k);
    } else if k == "CoapplicantIncome" {
      assert d.coapplicantIncome == NumAt(m, k);
    } else if k == "LoanAmount" {
      assert d.loanAmount == NumAt(m, k);
    } else if k == "Loan_Amount_Term" {
      assert d.loanAmountTerm == NumAt(m, k);
    } else {
      assert d.creditHistory == NumAt(m, k);
    }
  }

  /** An enum-typed field of a well-typed state is the wire string of the
      member the record read from it. */
  lemma EnumFieldInverse(m: FormData, d: LoanApplicationData, k: string)
    requires WellTyped(m) && FromRecord(m) == Some(d)
    requires k in FieldNames - NumericFields - {"Dependents"}
    ensures FieldOf(d, k) == Str(StrAt(m, k))
  {
    assert Fits(k, m[k]);
    if k == "Gender" {
      assert d.gender == ParseGender(StrAt(m, k)).value;
    } else if k == "Married" {
      assert d.married == ParseMarried(StrAt(m, k)).value;
    } else if k == "Education" {
      assert d.education == ParseEducation(StrAt(m, k)).value;
    } else if k == "Self_Employed" {
      assert d.selfEmployed == ParseSelfEmployed(StrAt(m, k)).value;
    } else {
      assert d.propertyArea == ParsePropertyArea(StrAt(m, k)).value;
    }
  }

  /** Laying a typed record out as form state loses nothing. */
  lemma RecordRoundTrip(d: LoanApplicationData)
    ensures FromRecord(ToRecord(d)) == Some(d)
  {
    var m := ToRecord(d);
    assert WellTyped(m);
    assert StrAt(m, "Gender") == d.gender.Wire();
    assert StrAt(m, "Married") == d.married.Wire();
    assert StrAt(m, "Education") == d.education.Wire();
    assert StrAt(m, "Self_Employed") == d.selfEmployed.Wire();
    assert StrAt(m, "Property_Area") == d.propertyArea.Wire();
  }

  /** One entry of a select: the text shown and the value it stands for. */
  datatype SelectOption = SelectOption(caption: string, value: FieldValue)

  const GenderOptions: seq<SelectOption> :=
    [SelectOption("Male", Str("Male")), SelectOption("Female", Str("Female"))]
  const MarriedOptions: seq<SelectOption> :=
    [SelectOption("Married", Str("Yes")), SelectOption("Not Married", Str("No"))]
  const DependentsOptions: seq<SelectOption> :=
    [SelectOption("0", Str("0")), SelectOption("1", Str("1")),
     SelectOption("2", Str("2")), SelectOption("3+", Str("3+"))]
  const EducationOptions: seq<SelectOption> :=
    [SelectOption("Graduate", Str("Graduate")), SelectOption("Not Graduate", Str("Not Graduate"))]
  const SelfEmployedOptions: seq<SelectOption> :=
    [SelectOption("No", Str("No")), SelectOption("Yes", Str("Yes"))]
  const CreditHistoryOptions: seq<SelectOption> :=
    [SelectOption("Yes (Good History)", Num(1.0)), SelectOption("No (Bad History)", Num(0.0))]
  const PropertyAreaOptions: seq<SelectOption> :=
    [SelectOption("Urban", Str("Urban")), SelectOption("Semiurban", Str("Semiurban")),
     SelectOption("Rural", Str("Rural"))]

  /** The options of the select for a field; empty for the text inputs. */
  function SelectOptions(name: string): seq<SelectOption> {
    match name
    case "Gender" => GenderOptions
    case "Married" => MarriedOptions
    case "Dependents" => DependentsOptions
    case "Education" => EducationOptions
    case "Self_Employed" => SelfEmployedOptions
    case "Credit_History" => CreditHistoryOptions
    case "Property_Area" => PropertyAreaOptions
    case _ => []
  }

  /** Whether `v` is the value of one of the options. */
  predicate IsOptionValue(options: seq<SelectOption>, v: FieldValue) {
    exists i :: 0 <= i < |options| && options[i].value == v
  }

  /** Each enum-typed select offers exactly the enum's wire strings. */
  lemma GenderSelectMatchesEnum(s: string)
    ensures IsOptionValue(GenderOptions, Str(s)) <==> ParseGender(s).Some?
  {
    if ParseGender(s).Some? {
      assert GenderOptions[if s == "Male" then 0 else 1].value == Str(s);
    }
  }

  lemma MarriedSelectMatchesEnum(s: string)
    ensures IsOptionValue(MarriedOptions, Str(s)) <==> ParseMarried(s).Some?
  {
    if ParseMarried(s).Some? {
      assert MarriedOptions[if s == "Yes" then 0 else 1].value == Str(s);
    }
  }

  lemma EducationSelectMatchesEnum(s: string)
    ensures IsOptionValue(EducationOptions, Str(s)) <==> ParseEducation(s).Some?
  {
    if ParseEducation(s).Some? {
      assert EducationOptions[if s == "Graduate" then 0 else 1].value == Str(s);
    }
  }

  lemma SelfEmployedSelectMatchesEnum(s: string)
    ensures IsOptionValue(SelfEmployedOptions, Str(s)) <==> ParseSelfEmployed(s).Some?
  {
    if ParseSelfEmployed(s).Some? {
      assert SelfEmployedOptions[if s == "No" then 0 else 1].value == Str(s);
    }
  }

  lemma PropertyAreaSelectMatchesEnum(s: string)
    ensures IsOptionValue(PropertyAreaOptions, Str(s)) <==> ParsePropertyArea(s).Some?
  {
    if ParsePropertyArea(s).Some? {
      assert PropertyAreaOptions[if s == "Urban" then 0 else if s == "Semiurban" then 1 else 2].value == Str(s);
    }
  }

  /** The credit-history select offers exactly the numbers 1 and 0; no
      value of the `CreditHistory` enum (the strings "1" and "0") is among
      them. */
  lemma CreditHistorySelectIsNumeric(v: FieldValue)
    ensures IsOptionValue(CreditHistoryOptions, v) <==> v == Num(1.0) || v == Num(0.0)
    ensures forall c: CreditHistory :: !IsOptionValue(CreditHistoryOptions, Str(c.Wire()))
  {
    if v == Num(1.0) || v == Num(0.0) {
      assert CreditHistoryOptions[if v == Num(1.0) then 0 else 1].value == v;
    }
  }

  /** The form's starting state. */
  const InitialData: LoanApplicationData :=
    LoanApplicationData(Male, MarriedNo, "0", Graduate, SelfEmployedNo,
                        5000.0, 0.0, 150.0, 360.0, 1.0, Urban)

  /** Every select starts on one of its own options, and the initial record
      is sent as the request Male, No, "0", Graduate, No, 5000, 0, 150, 360,
      1, Urban. */
  lemma InitialDataDefaults()
    ensures forall k :: k in FieldNames && |SelectOptions(k)| > 0 ==>
              IsOptionValue(SelectOptions(k), ToRecord(InitialData)[k])
    ensures Service.Submit(InitialData)
         == Features.LoanApplication("Male", "No", "0", "Graduate", "No",
                                     5000.0, 0.0, 150.0, 360.0, 1.0, "Urban")
  {
    var m := ToRecord(InitialData);
    assert GenderOptions[0].value == m["Gender"];
    assert MarriedOptions[1].value == m["Married"];
    assert DependentsOptions[0].value == m["Dependents"];
    assert EducationOptions[0].value == m["Education"];
    assert SelfEmployedOptions[0].value == m["Self_Employed"];
    assert CreditHistoryOptions[0].value == m["Credit_History"];
    assert PropertyAreaOptions[0].value == m["Property_Area"];
  }

  /** Storing a value its type allows keeps the form state well typed and
      changes only that field of the typed record; a key outside the record
      is ignored by it. */
  lemma UpdateStaysTyped(d: LoanApplicationData, name: string, v: FieldValue)
    requires name in FieldNames ==> Fits(name, v)
    ensures var next := ToRecord(d)[name := v];
            && FromRecord(next).Some?
            && (name in FieldNames ==> ToRecord(FromRecord(next).value)[name] == v)
            && forall k :: k in FieldNames && k != name ==> ToRecord(FromRecord(next).value)[k] == ToRecord(d)[k]
  {
    var next := ToRecord(d)[name := v];
    assert WellTyped(next);
    FromRecordInverse(next);
  }

  /** Every option of a field's select is a value its type allows. */
  lemma OptionsFit(name: string, v: FieldValue)
    requires name in FieldNames
    requires IsOptionValue(SelectOptions(name), v)
    ensures Fits(name, v)
  {
    match name
    case "Gender" => GenderSelectMatchesEnum(v.text);
    case "Married" => MarriedSelectMatchesEnum(v.text);
    case "Education" => EducationSelectMatchesEnum(v.text);
    case "Self_Employed" => SelfEmployedSelectMatchesEnum(v.text);
    case "Property_Area" => PropertyAreaSelectMatchesEnum(v.text);
    case "Credit_History" => CreditHistorySelectIsNumeric(v);
    case _ =>
  }

  /** A change that sets a numeric field to any number keeps the form state
      well typed and changes only that field of the typed record. */
  lemma NumericChangeStaysTyped(d: LoanApplicationData, name: string, value: string, toNumber: string -> real)
    requires name in NumericFields
    ensures var next := HandleInputChange(ToRecord(d), name, value, toNumber);
            && FromRecord(next).Some?
            && ToRecord(FromRecord(next).value)[name] == Num(toNumber(value))
            && forall k :: k in FieldNames && k != name ==> ToRecord(FromRecord(next).value)[k] == ToRecord(d)[k]
  {
    UpdateStaysTyped(d, name, Num(toNumber(value)));
  }

  /** Choosing an option of the Credit_History select: the event carries the
      option's text, and when `Number` reads that text as the option's number,
      the form state holds that number and stays well typed. */
  lemma CreditHistorySelectStoresNumber(d: LoanApplicationData, i: nat, value: string, toNumber: string -> real)
    requires i < |CreditHistoryOptions|
    requires Num(toNumber(value)) == CreditHistoryOptions[i].value
    ensures var next := HandleInputChange(ToRecord(d), "Credit_History", value, toNumber);
            && next["Credit_History"] == CreditHistoryOptions[i].value
            && FromRecord(next).Some?
            && FromRecord(next).value.creditHistory == CreditHistoryOptions[i].value.number
  {
    NumericChangeStaysTyped(d, "Credit_History", value, toNumber);
  }

  /** A change that sets a string field to one of its select's options keeps
      the form state well typed and changes only that field of the typed
      record. */
  lemma SelectChangeStaysTyped(d: LoanApplicationData, name: string, value: string, toNumber: string -> real)
    requires name in FieldNames - NumericFields
    requires IsOptionValue(SelectOptions(name), Str(value))
    ensures var next := HandleInputChange(ToRecord(d), name, value, toNumber);
            && FromRecord(next).Some?
            && ToRecord(FromRecord(next).value)[name] == Str(value)
            && forall k :: k in FieldNames && k != name ==> ToRecord(FromRecord(next).value)[k] == ToRecord(d)[k]
  {
    OptionsFit(name, Str(value));
    UpdateStaysTyped(d, name, Str(value));
  }

  /** No range check: a negative number typed into a numeric input is stored,
      and the record still counts as well typed. */
  lemma NegativeNumberStored(d: LoanApplicationData, name: string, value: string, toNumber: string -> real)
    requires name in NumericFields
    requires toNumber(value) < 0.0
    ensures var next := HandleInputChange(ToRecord(d), name, value, toNumber);
            next[name].number < 0.0 && FromRecord(next).Some?
  {
    NumericChangeStaysTyped(d, name, value, toNumber);
  }

  /** No domain check either: a string outside an enum's wire strings is
      stored, and the form state no longer has the type it claims. */
  lemma OutOfDomainStringStored(d: LoanApplicationData, toNumber: string -> real)
    ensures var next := HandleInputChange(ToRecord(d), "Gender", "Other", toNumber);
            next["Gender"] == Str("Other") && FromRecord(next).None?
  {
  }
}
