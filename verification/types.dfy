/** The client's domain types: the string enums of the applicant form, the
    applicant record and the prediction result the backend answers with. */
module Types {
  import opened Wrappers

  datatype Gender = Male | Female {
    /** The string the enum member stands for on the wire. */
    function Wire(): string {
      match this
      case Male => "Male"
      case Female => "Female"
    }
  }

  datatype Married = MarriedYes | MarriedNo {
    function Wire(): string {
      match this
      case MarriedYes => "Yes"
      case MarriedNo => "No"
    }
  }

  datatype Education = Graduate | NotGraduate {
    function Wire(): string {
      match this
      case Graduate => "Graduate"
      case NotGraduate => "Not Graduate"
    }
  }

  datatype SelfEmployed = SelfEmployedYes | SelfEmployedNo {
    function Wire(): string {
      match this
      case SelfEmployedYes => "Yes"
      case SelfEmployedNo => "No"
    }
  }

  datatype PropertyArea = Urban | Semiurban | Rural {
    function Wire(): string {
      match this
      case Urban => "Urban"
      case Semiurban => "Semiurban"
      case Rural => "Rural"
    }
  }

  datatype CreditHistory = CreditYes | CreditNo {
    function Wire(): string {
      match this
      case CreditYes => "1"
      case CreditNo => "0"
    }
  }

  /** The member whose wire string is `s`; the wire strings of distinct
      members differ, so there is at most one. */
  function ParseGender(s: string): (r: Option<Gender>)
    ensures forall g: Gender :: r == Some(g) <==> g.Wire() == s
  {
    if s == "Male" then Some(Male) else if s == "Female" then Some(Female) else None
  }

  function ParseMarried(s: string): (r: Option<Married>)
    ensures forall m: Married :: r == Some(m) <==> m.Wire() == s
  {
    if s == "Yes" then Some(MarriedYes) else if s == "No" then Some(MarriedNo) else None
  }

  /** Note the space in "Not Graduate", which the identifier `NotGraduate` lacks. */
  function ParseEducation(s: string): (r: Option<Education>)
    ensures forall e: Education :: r == Some(e) <==> e.Wire() == s
    ensures r == Some(NotGraduate) ==> ' ' in s
  {
    if s == "Graduate" then Some(Graduate)
    else if s == "Not Graduate" then Some(NotGraduate)
    else None
  }

  function ParseSelfEmployed(s: string): (r: Option<SelfEmployed>)
    ensures forall e: SelfEmployed :: r == Some(e) <==> e.Wire() == s
  {
    if s == "Yes" then Some(SelfEmployedYes) else if s == "No" then Some(SelfEmployedNo) else None
  }

  function ParsePropertyArea(s: string): (r: Option<PropertyArea>)
    ensures forall p: PropertyArea :: r == Some(p) <==> p.Wire() == s
  {
    if s == "Urban" then Some(Urban)
    else if s == "Semiurban" then Some(Semiurban)
    else if s == "Rural" then Some(Rural)
    else None
  }

  function ParseCreditHistory(s: string): (r: Option<CreditHistory>)
    ensures forall c: CreditHistory :: r == Some(c) <==> c.Wire() == s
  {
    if s == "1" then Some(CreditYes) else if s == "0" then Some(CreditNo) else None
  }

  /** Within every enum, two members with the same wire string are the same
      member, so decoding a wire string is unambiguous. */
  lemma WireStringsDistinct()
    ensures forall a: Gender, b: Gender :: a.Wire() == b.Wire() ==> a == b
    ensures forall a: Married, b: Married :: a.Wire() == b.Wire() ==> a == b
    ensures forall a: Education, b: Education :: a.Wire() == b.Wire() ==> a == b
    ensures forall a: SelfEmployed, b: SelfEmployed :: a.Wire() == b.Wire() ==> a == b
    ensures forall a: PropertyArea, b: PropertyArea :: a.Wire() == b.Wire() ==> a == b
    ensures forall a: CreditHistory, b: CreditHistory :: a.Wire() == b.Wire() ==> a == b
  {
    forall a: Gender, b: Gender | a.Wire() == b.Wire() ensures a == b {
      assert ParseGender(a.Wire()) == Some(a);
    }
    forall a: Married, b: Married | a.Wire() == b.Wire() ensures a == b {
      assert ParseMarried(a.Wire()) == Some(a);
    }
    forall a: Education, b: Education | a.Wire() == b.Wire() ensures a == b {
      assert ParseEducation(a.Wire()) == Some(a);
    }
    forall a: SelfEmployed, b: SelfEmployed | a.Wire() == b.Wire() ensures a == b {
      assert ParseSelfEmployed(a.Wire()) == Some(a);
    }
    forall a: PropertyArea, b: PropertyArea | a.Wire() == b.Wire() ensures a == b {
      assert ParsePropertyArea(a.Wire()) == Some(a);
    }
    forall a: CreditHistory, b: CreditHistory | a.Wire() == b.Wire() ensures a == b {
      assert ParseCreditHistory(a.Wire()) == Some(a);
    }
  }

  /** The applicant record of the client. `dependents` is a free string, not
      an enum, and `creditHistory` is a number although an enum `CreditHistory`
      of the strings "1"/"0" exists beside it. */
  datatype LoanApplicationData = LoanApplicationData(
    gender: Gender,
    married: Married,
    dependents: string,
    education: Education,
    selfEmployed: SelfEmployed,
    applicantIncome: real,
    coapplicantIncome: real,
    loanAmount: real,
    loanAmountTerm: real,
    creditHistory: real,
    propertyArea: PropertyArea)

  /** The decision as the client types it: exactly "Y" or "N". */
  datatype Status = Approved | Rejected {
    function Wire(): string {
      match this
      case Approved => "Y"
      case Rejected => "N"
    }
  }

  function ParseStatus(s: string): (r: Option<Status>)
    ensures forall st: Status :: r == Some(st) <==> st.Wire() == s
    ensures r.Some? <==> s == "Y" || s == "N"
  {
    if s == "Y" then Some(Approved) else if s == "N" then Some(Rejected) else None
  }

  /** The prediction result as the client receives it. */
  datatype PredictionResult = PredictionResult(status: Status, confidence: real, message: string)
}
