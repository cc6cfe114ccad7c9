# Loan sanction predictor: a Dafny model of its core

The repository is a loan-application form, written in React and TypeScript, with a small FastAPI backend. The form collects an applicant record and posts it to the backend. The backend feeds the record to a trained random-forest classifier and answers with a decision, a confidence and a message.

This project models the parts of that system that hold logic:

- **Feature row** (`features.dfy`, module `Features`). This is `predict_loan_sanction` in `backend/main.py`, from reading the numbers to the data frame. It computes the derived quantities `TotalIncome`, `EMI` and `Balance_Income`, with a zero loan term replaced by one. It then walks the classifier's feature names in order and fills each column. Exact names take numbers. Names with a categorical prefix become one-hot indicators. Every other name gets 0.0. When the classifier exposes no feature names, the raw request is passed on unchanged.
- **Response** (`response.dfy`, module `Response`). The label is normalised to "Y"/"N" by an upper-cased lookup. The confidence is the largest class probability, or the default 0.8. The message is chosen by the status.
- **Endpoint** (`service.dfy`, module `Service`). This is the whole request as one method. The classifier's `predict` and `predict_proba` are uninterpreted functions inside a `Classifier` value. `Submit` is the request body the client sends for a typed record.
- **Client types** (`types.dfy`, module `Types`). These are the string enums of `types.ts`, decoders from wire strings, the typed applicant record and the prediction result.
- **Client form** (`form.dfy`, module `Form`). This covers the `handleInputChange` record update on an untyped JavaScript object (`map<string, FieldValue>`), `INITIAL_DATA` and the option lists of the selects.
- **Helpers** (`strings.dfy`, `wrappers.dfy`). These hold Python's `split(sep, 1)`, ASCII upper-casing, `Option` and `Result`.

Numbers are Dafny `real`, an exact idealisation of the floats in the source.

The one-hot category is cut out of the column name in two ways, selected by `Features.CategoryRule`:

- `FirstUnderscore` is the code as written: the text after the first `_` of the name.
- `AfterPrefix` is the evident intent: the text after the field's prefix.

Every operation whose result depends on the rule takes it as a parameter, `Service.PredictLoanSanction` included. Each lemma about a column states which rule it covers. See "## Findings".

Behaviour of the code worth knowing, all of it modelled:

- No request field is validated beyond the schema's types. A zero loan term is replaced by 1 (`EffectiveTerm`), and a negative term is used as it stands.
- The status is sent as "Y"/"N".
- The confidence is `max(predict_proba(...)[0])`, or 0.8 when the model has no `predict_proba`. It lies in [0, 1] when the probabilities do (`Response.ConfidenceInUnitInterval`).

## Model

| member | source | states |
|---|---|---|
| Strings.SplitOnce | backend/main.py:106 | `split("_", 1)` gives one part exactly when there is no separator. Otherwise it gives a separator-free head and a tail, with head + sep + tail = the input. |
| Strings.SplitOnceUnique | backend/main.py:106 | Any decomposition head + sep + tail with a separator-free head is the one `split(sep, 1)` returns. |
| Strings.ToUpper | backend/main.py:145 | The upper case has the same length and no lower-case ASCII letter. Each lower-case letter is mapped to its capital and every other character is kept. |
| Types.ParseGender | types.ts:1-4 | Decoding a wire string yields member g exactly when g's wire string is that string. |
| Types.ParseMarried | types.ts:6-9 | Same as for Gender, for the values "Yes"/"No". |
| Types.ParseEducation | types.ts:11-14 | Same as for Gender. `NotGraduate` decodes from "Not Graduate", with a space. |
| Types.ParseSelfEmployed | types.ts:16-19 | Same as for Gender, for the values "Yes"/"No". |
| Types.ParsePropertyArea | types.ts:21-25 | Same as for Gender, for Urban/Semiurban/Rural. |
| Types.ParseCreditHistory | types.ts:27-30 | Same as for Gender, for the strings "1"/"0". |
| Types.WireStringsDistinct | types.ts:1-30 | Within every enum, distinct members have distinct wire strings, so decoding is unambiguous. |
| Types.ParseStatus | types.ts:46-50 | A result status decodes exactly when it is "Y" or "N". |
| Features.EffectiveTerm | backend/main.py:77 | The term used is never zero. A non-zero term is kept and a zero term becomes exactly 1.0. |
| Features.Derive | backend/main.py:79-83 | TotalIncome is the sum of the incomes. EMI times the effective term is the loan amount, and EMI is the loan amount when the term is zero. Balance_Income is TotalIncome − 1000·EMI. |
| Features.Classify | backend/main.py:85-133 | A name served from a number is that number's exact name. A name served as a one-hot column starts with that field's prefix. |
| Features.ClassifyComplete | backend/main.py:85-133 | The dispatch is exhaustive and exclusive. A name is numeric iff it is an exact name, one-hot for a field iff it starts with that field's prefix, and unmapped iff neither holds. |
| Features.ClassifyPrefixed | backend/main.py:105-130 | A name starting with a field's prefix is always that field's one-hot column. No two prefixes and no exact name compete. |
| Features.Category | backend/main.py:106-127 | After the prefix, the category is the rest of the name. After the first underscore, it is the prefix's inner text ("Employed_", "Area_" or empty) followed by that rest. |
| Features.NumericValue | backend/main.py:87-102 | Each exact-name column's value is the request's number, or TotalIncome = the sum of the incomes. The term column is the given non-zero term, or 1.0 for a zero term. EMI times the effective term is the loan amount, and Balance_Income is the total income less 1000·EMI. |
| Features.ExactColumns | backend/main.py:87-102 | Exact-name columns carry the request's numbers. `Loan_Amount_Term` carries the term when it is non-zero and 1.0 when it is zero. EMI times that column is the loan amount, and Balance_Income = TotalIncome − 1000·EMI. |
| Features.SpelledCategory | backend/main.py:105-127 | A raw value matches a prefixed name's category exactly when the name is the prefix followed by that value (intended rule). As written, the match needs the name to be the field's head, one underscore, then the value. |
| Features.FeatureValue | backend/main.py:86-133 | An exact name holds its number and an unmatched name holds 0.0. A prefixed name holds 0.0 or 1.0, and 1.0 exactly when the name spells the raw value after the prefix (intended rule). As written, it spells the value after the field's head and one underscore. |
| Features.OneHotColumns | backend/main.py:105-130 | Column prefix+c is 1.0 iff the raw field equals c (intended rule), or iff it equals inner text + c (as written). Otherwise it is 0.0. |
| Features.IndicatorColumns | backend/main.py:104-133 | Every non-exact column is 0.0 or 1.0. A name no rule serves is 0.0. |
| Features.AtMostOneHot | backend/main.py:105-130 | Under either rule, two columns of the same field that are both 1.0 are the same column. |
| Features.RulesAgreeOnPlainFields | backend/main.py:105-115 | For Gender, Married, Education and Dependents, splitting at the first underscore gives the intended category. |
| Features.UnderscoreFieldsNeverHot | backend/main.py:116-125 | As written, a Self_Employed_* or Property_Area_* column is 0.0 whenever the raw value does not start with "Employed_" or "Area_". |
| Features.SelfEmployedYesMissed | backend/main.py:116-120 | For a self-employed applicant, `Self_Employed_Yes` is 0.0 as written and 1.0 under the intended rule. |
| Features.PropertyAreaUrbanMissed | backend/main.py:121-125 | For an urban property, `Property_Area_Urban` is 0.0 as written and 1.0 under the intended rule. |
| Features.RowOf | backend/main.py:85-133 | The dictionary after storing a list of names holds exactly those names, each with its column value. |
| Features.EngineerRow | backend/main.py:71-133 | The loop fills the dictionary. An unmapped name keeps its stored value or defaults to 0.0. The dictionary holds exactly the feature names, each with its column value. |
| Features.ReferenceFrame | backend/main.py:135-138 | The frame is the raw request exactly when the model has no feature names. Otherwise it has one column per feature name, in order, each holding that name's value. |
| Features.LayOut | backend/main.py:135-138 | Given a dictionary holding exactly the feature names with their values, the frame row has one column per name, in order, with that name's value. |
| Features.BuildFrame | backend/main.py:67-138 | With feature names, the frame has one column per name, in the same order, holding that name's value. Without them, it is the raw request unchanged. |
| Features.FrameAtMostOneHotPerField | backend/main.py:105-135 | In a frame over distinct names, at most one column of each categorical field is 1.0. |
| Response.NormaliseStatus | backend/main.py:143-148 | The status is always "Y" or "N", and it is "Y" iff the upper-cased label is one of Y, YES, 1, APPROVED. |
| Response.NormaliseStatusIdempotent | backend/main.py:143-148 | Normalising a normalised status returns it unchanged. |
| Response.ApprovedSpellings | backend/main.py:145 | "yes", "Yes", "y" and "approved" normalise to "Y". |
| Response.RejectedSpellings | backend/main.py:145 | "N", "no" and "0" normalise to "N". |
| Response.MaxOf | backend/main.py:154 | The maximum is an entry of the vector and is at least every entry. |
| Response.Confidence | backend/main.py:150-154 | With no probabilities the confidence is 0.8. An empty vector fails, as `max` raises. Otherwise the confidence is an entry of the vector and at least every entry. |
| Response.ConfidenceInUnitInterval | backend/main.py:150-154 | When all probabilities lie in [0, 1], so does the confidence. |
| Response.Message | backend/main.py:156-163 | The message is the approval text exactly for status "Y", and the rejection text otherwise. |
| Response.MessageDistinguishesStatus | backend/main.py:156-163 | Two normalised statuses get the same message exactly when they are equal. |
| Service.Probabilities | backend/main.py:151-153 | A probability vector exists exactly when the model has `predict_proba`, and it is that function's answer for the frame. |
| Service.ClientView | types.ts:46-50 | The client's `PredictionResult` reads a response exactly when its status is "Y" or "N". It keeps the status's wire form, the confidence and the message. |
| Service.PredictLoanSanction | backend/main.py:57-169 | Fails only on an empty probability vector. Otherwise the status is "Y"/"N" as the label dictates, and the client reads it as Approved exactly for "Y". The message matches the status, and the confidence is 0.8 or the largest probability. |
| Service.Submit | backend/main.py:14-25 | The request for a typed record carries each enum as its wire string, which decodes back to the same member. Numbers are carried unchanged. |
| Service.SubmittedUnderscoreFieldsNeverHot | backend/main.py:116-125 | For every request the client can send, every Self_Employed_* and Property_Area_* column is 0.0 as written. |
| Service.SubmittedSelfEmployedIntended | backend/main.py:116-120 | Under the intended rule, column Self_Employed_<s> is 1.0 exactly for the member the client chose. |
| Service.SubmittedPropertyAreaIntended | backend/main.py:121-125 | Under the intended rule, column Property_Area_<p> is 1.0 exactly for the member the client chose. |
| Form.HandleInputChange | App.tsx:49-58 | The named field takes `Number(value)` for the five numeric names and the raw string for any other name. The keys gain only that name, and every other field keeps its value. |
| Form.HandleInputChangeIdempotent | App.tsx:52-57 | Applying the same change twice gives the state of applying it once. |
| Form.ToRecord | types.ts:32-44 | A typed record as form state has exactly the eleven fields, each holding a value its type allows. |
| Form.FromRecord | types.ts:32-44 | A form state reads as a typed record exactly when it is well typed. |
| Form.FromRecordInverse | types.ts:32-44 | Reading a well-typed state and laying it out again reproduces every field. |
| Form.RecordRoundTrip | types.ts:32-44 | Laying a typed record out as form state and reading it back returns it. |
| Form.GenderSelectMatchesEnum | App.tsx:121-124 | The Gender select's values are exactly the Gender enum's wire strings. |
| Form.MarriedSelectMatchesEnum | App.tsx:133-136 | The Married select's values are exactly the Married enum's wire strings. |
| Form.EducationSelectMatchesEnum | App.tsx:159-162 | The Education select's values are exactly the Education enum's wire strings. |
| Form.SelfEmployedSelectMatchesEnum | App.tsx:171-174 | The Self_Employed select's values are exactly the SelfEmployed enum's wire strings. |
| Form.PropertyAreaSelectMatchesEnum | App.tsx:247-251 | The Property_Area select's values are exactly the PropertyArea enum's wire strings. |
| Form.CreditHistorySelectIsNumeric | App.tsx:235-238 | The Credit_History options are exactly the numbers 1 and 0. None of them is a value of the CreditHistory enum ("1"/"0"). |
| Form.InitialDataDefaults | App.tsx:29-41 | Every select starts on one of its options. The initial record is sent as Male, No, "0", Graduate, No, 5000, 0, 150, 360, 1, Urban. |
| Form.UpdateStaysTyped | App.tsx:52-57 | Storing an allowed value keeps the state well typed and changes only that field of the typed record. |
| Form.OptionsFit | App.tsx:121-251 | Every option of every select is a value its field's type allows. |
| Form.NumericChangeStaysTyped | App.tsx:54-56 | Any change to a numeric field keeps the record typed, stores `Number(value)` and changes nothing else. |
| Form.CreditHistorySelectStoresNumber | App.tsx:54-56 | Choosing a Credit_History option stores the option's number, 1 or 0, provided `Number` reads the option's text as that number. The record stays typed with that credit history. |
| Form.SelectChangeStaysTyped | App.tsx:52-57 | Choosing an option of a string-valued select keeps the record typed and changes only that field. |
| Form.NegativeNumberStored | App.tsx:54-56 | There is no range check: a negative number is stored in a numeric field, despite `min={0}` on the inputs. |
| Form.OutOfDomainStringStored | App.tsx:52-57 | There is no domain check: storing "Other" under Gender leaves a state that is no longer a typed record. |

## Findings

| source | as written | input that shows it | evidently intended | confidence | as-written member | corrected member |
|---|---|---|---|---|---|---|
| backend/main.py:116-125 | The category of a `Self_Employed_*` or `Property_Area_*` column is `fname.split("_", 1)[1]`, the text after the first underscore: `Employed_Yes`, `Area_Urban`. | Self_Employed = "Yes" with column `Self_Employed_Yes`, or Property_Area = "Urban" with column `Property_Area_Urban`. Both columns come out 0.0, as they do for every value the client can send. | The text after the field's prefix (`Yes`, `Urban`), so the column is 1.0 exactly for the chosen value. | high (not executed) | Features.UnderscoreFieldsNeverHot | Features.OneHotColumns |

The as-written behaviour is `CategoryRule.FirstUnderscore`. `Features.SelfEmployedYesMissed`, `Features.PropertyAreaUrbanMissed` and `Service.SubmittedUnderscoreFieldsNeverHot` show the columns stuck at 0.0. The corrected behaviour is `CategoryRule.AfterPrefix`. Under it, `Features.OneHotColumns`, `Service.SubmittedSelfEmployedIntended` and `Service.SubmittedPropertyAreaIntended` prove that each column is 1.0 exactly for the chosen value. `Features.AtMostOneHot` and `Features.FrameAtMostOneHotPerField` hold under both rules.

## Left out

- The FastAPI app, CORS middleware, uvicorn entry point and startup model loading (backend/main.py:34-54, 172-175) are framework wiring and file I/O. A missing model file is not modelled.
- `model.predict` and `model.predict_proba` are foreign library calls. They are the uninterpreted functions of `Service.Classifier`. Each takes the one-row frame and returns that row's label or probability vector, so `[0]` is folded in. `str(raw_pred)` is folded into the label being a string.
- `getattr(model, "feature_names_in_", None)` and `hasattr(model, "predict_proba")` become `Option` fields of `Classifier`.
- The pandas `DataFrame` is a sequence of (name, value) pairs, or the raw request when there are no feature names.
- Pydantic's parsing and coercion of the JSON body is not modelled. The backend request is the typed `LoanApplication`.
- Service.PredictLoanSanction: `round(confidence, 2)` is not applied. Python's `round` acts on the binary float value and breaks ties to even, both float-specific behaviours outside the real-number idealisation. The contract states the unrounded confidence.
- Floating point is not modelled: NaN, infinities and rounding of `+`, `-`, `*`, `/` are out of scope. This includes the truthiness of NaN in `or 1.0`, since `EffectiveTerm` treats only 0 as falsy.
- Strings.ToUpper: upper-cases ASCII letters only, because Python's full Unicode case mapping is out of scope. For example, Python maps "yeſ" to "YES", which this model does not.
- JavaScript's `Number(value)` is the parameter `toNumber` of `Form.HandleInputChange`, because its coercion of arbitrary strings is out of scope.
- services/mlService.ts (an HTTPS `fetch` and an unchecked JSON cast) is not part of this model. `Service.Submit` stands for the request body it sends.
- components/ResultModal.tsx, components/InputGroup.tsx, and the JSX, loading and modal state and `handleSubmit` in App.tsx are UI rendering and asynchronous event handling.
