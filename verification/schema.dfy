/**
 The validation schema of the swap form: three fields, each with its own
 ordered list of rules, and a validator that either accepts the values
 unchanged or reports, per failing field, the message of its first failing rule.
 */
module Schema {
  import opened Results
  import Catalog

  /** The form's field names. */
  datatype Field = SwapToken | SwapAmount | ReturnToken

  /** The values the form collects; the amount is the already-parsed number. */
  datatype FormValues = FormValues(swapToken: string, swapAmount: real, returnToken: string)

  /** Per failing field, the message shown beside it. */
  type FieldErrors = map<Field, string>

  const SwapTokenEmpty := "Please select a token to swap"
  const ReturnTokenEmpty := "Please select a token to receive"
  const InvalidToken := "Please select a valid token"
  const AmountTooSmall := "Amount must be greater than 0"

  /** The amount's lower bound, 0.000000000000000001, as an exact rational. */
  const MinAmount: real := 1.0 / 1000000000000000000.0

  /** The form's initial values. */
  const DefaultValues := FormValues("", 0.0, "")

  /** Reference meaning of a field being acceptable, read directly off the schema's rules. */
  ghost predicate FieldOk(f: Field, v: FormValues) {
    match f
    case SwapToken => |v.swapToken| >= 1 && Catalog.IsCoin(v.swapToken)
    case SwapAmount => v.swapAmount >= MinAmount
    case ReturnToken => |v.returnToken| >= 1 && Catalog.IsCoin(v.returnToken)
  }

  /** Reference meaning of the whole form being acceptable: no rule relates two fields. */
  ghost predicate FormOk(v: FormValues) {
    FieldOk(SwapToken, v) && FieldOk(SwapAmount, v) && FieldOk(ReturnToken, v)
  }

  /**
   The messages of a token field's failing rules, in schema order: the length
   check (with the field's own message), then the catalog refinement.
   */
  function TokenIssues(value: string, emptyMessage: string): (issues: seq<string>)
    ensures issues == [] <==> |value| >= 1 && Catalog.IsCoin(value)
    ensures value == "" ==> issues == [emptyMessage, InvalidToken]
    ensures value != "" && !Catalog.IsCoin(value) ==> issues == [InvalidToken]
  {
    Catalog.CatalogNonEmpty();
    (if |value| < 1 then [emptyMessage] else [])
      + (if Catalog.IsCoin(value) then [] else [InvalidToken])
  }

  /** The messages of the amount's failing rules: the inclusive lower bound. */
  function AmountIssues(amount: real): (issues: seq<string>)
    ensures issues == [] <==> amount >= MinAmount
    ensures issues != [] ==> issues == [AmountTooSmall]
  {
    if amount < MinAmount then [AmountTooSmall] else []
  }

  /** The failing rules of one field; each depends on that field's value only. */
  function Issues(f: Field, v: FormValues): (issues: seq<string>)
    ensures issues == [] <==> FieldOk(f, v)
  {
    match f
    case SwapToken => TokenIssues(v.swapToken, SwapTokenEmpty)
    case SwapAmount => AmountIssues(v.swapAmount)
    case ReturnToken => TokenIssues(v.returnToken, ReturnTokenEmpty)
  }

  /** Adds `f`'s first failing rule to `errors`, if it has one. */
  function Record(errors: FieldErrors, f: Field, v: FormValues): FieldErrors {
    var issues := Issues(f, v);
    if issues == [] then errors else errors[f := issues[0]]
  }

  /** Records every field in schema order. */
  function Collect(v: FormValues): FieldErrors {
    Record(Record(Record(map[], SwapToken, v), SwapAmount, v), ReturnToken, v)
  }

  /** The collected errors name exactly the failing fields, each with its first failing rule. */
  lemma CollectNamesFailingFields(v: FormValues)
    ensures forall f :: f in Collect(v) <==> !FieldOk(f, v)
    ensures forall f :: f in Collect(v) ==> Collect(v)[f] == ExpectedMessage(f, v)
  {
    forall f ensures f in Collect(v) <==> !FieldOk(f, v) {
      match f
      case SwapToken =>
      case SwapAmount =>
      case ReturnToken =>
    }
  }

  /** The message a failing field reports: its first failing rule. */
  function ExpectedMessage(f: Field, v: FormValues): string {
    match f
    case SwapToken => if v.swapToken == "" then SwapTokenEmpty else InvalidToken
    case SwapAmount => AmountTooSmall
    case ReturnToken => if v.returnToken == "" then ReturnTokenEmpty else InvalidToken
  }

  /**
   Runs every field's rules. Accepts exactly the values every rule accepts, and
   returns them unchanged; otherwise names exactly the failing fields, each with
   the message of its first failing rule.
   */
  function Validate(v: FormValues): (r: Result<FormValues, FieldErrors>)
    ensures r.Ok? <==> FormOk(v)
    ensures r.Ok? ==> r.value == v
    ensures r.Err? ==> forall f :: f in r.error <==> !FieldOk(f, v)
    ensures r.Err? ==> forall f :: f in r.error ==> r.error[f] == ExpectedMessage(f, v)
  {
    var errors := Collect(v);
    CollectNamesFailingFields(v);
    if errors == map[] then
      assert !(SwapToken in errors) && !(SwapAmount in errors) && !(ReturnToken in errors);
      Ok(v)
    else Err(errors)
  }

  /** The errors a validation reports, empty when it accepts. */
  function Errors(v: FormValues): FieldErrors {
    match Validate(v)
    case Ok(_) => map[]
    case Err(e) => e
  }

  /** The part of the values a field's rules read. */
  datatype FieldValue = Token(symbol: string) | Amount(amount: real)

  function Project(f: Field, v: FormValues): FieldValue {
    match f
    case SwapToken => Token(v.swapToken)
    case SwapAmount => Amount(v.swapAmount)
    case ReturnToken => Token(v.returnToken)
  }

  /** Reference error set of one field: empty when it passes, otherwise its first rule's message. */
  ghost function FieldError(f: Field, v: FormValues): FieldErrors {
    if FieldOk(f, v) then map[] else map[f := ExpectedMessage(f, v)]
  }

  /** Reference error set of the whole form: the union of the three fields' own error sets. */
  ghost function ReferenceErrors(v: FormValues): FieldErrors {
    FieldError(SwapToken, v) + FieldError(SwapAmount, v) + FieldError(ReturnToken, v)
  }

  /** The validator reports exactly the reference errors, and accepts exactly when there are none. */
  lemma ValidateMatchesReference(v: FormValues)
    ensures Errors(v) == ReferenceErrors(v)
    ensures Validate(v).Ok? <==> ReferenceErrors(v) == map[]
  {
    var r := Validate(v);
    var e, x := Errors(v), ReferenceErrors(v);
    assert forall f :: f in e <==> !FieldOk(f, v);
    assert forall f :: f in e ==> e[f] == ExpectedMessage(f, v);
    forall f ensures (f in e <==> f in x) && (f in e ==> e[f] == x[f]) {
      match f
      case SwapToken =>
      case SwapAmount =>
      case ReturnToken =>
    }
    assert e.Keys == x.Keys;
  }

  /** A lower-case spelling of a catalog symbol fails the membership rule. */
  lemma TokenRuleIsCaseSensitive()
    ensures Errors(FormValues("eth", 1.0, "ETH")) == map[SwapToken := InvalidToken]
  {
    Catalog.CatalogIsCaseSensitive();
    ValidateMatchesReference(FormValues("eth", 1.0, "ETH"));
  }

  /** An empty send token reports the send field's own message. */
  lemma EmptySwapTokenMessage(v: FormValues)
    requires v.swapToken == ""
    ensures SwapToken in Errors(v) && Errors(v)[SwapToken] == SwapTokenEmpty
  {
    assert !FieldOk(SwapToken, v);
  }

  /** An empty receive token reports the receive field's own message. */
  lemma EmptyReturnTokenMessage(v: FormValues)
    requires v.returnToken == ""
    ensures ReturnToken in Errors(v) && Errors(v)[ReturnToken] == ReturnTokenEmpty
  {
    assert !FieldOk(ReturnToken, v);
  }

  /** The amount passes exactly when it is at least 1/10^18, the bound included; otherwise it reports its one message. */
  lemma AmountAcceptedIff(v: FormValues)
    ensures SwapAmount !in Errors(v) <==> v.swapAmount >= MinAmount
    ensures SwapAmount in Errors(v) ==> Errors(v)[SwapAmount] == AmountTooSmall
  {
  }

  /** Zero, negatives and positive amounts below the bound fail; the bound itself passes. */
  lemma AmountBoundary(s: string, r: string)
    ensures SwapAmount in Errors(FormValues(s, 0.0, r))
    ensures SwapAmount in Errors(FormValues(s, -1.0, r))
    ensures SwapAmount in Errors(FormValues(s, MinAmount / 2.0, r))
    ensures SwapAmount !in Errors(FormValues(s, MinAmount, r))
  {
    AmountAcceptedIff(FormValues(s, 0.0, r));
    AmountAcceptedIff(FormValues(s, -1.0, r));
    AmountAcceptedIff(FormValues(s, MinAmount / 2.0, r));
    AmountAcceptedIff(FormValues(s, MinAmount, r));
  }

  /** No rule relates the two token fields: sending and receiving the same catalog symbol is accepted. */
  lemma SameTokenAccepted(symbol: string, amount: real)
    requires Catalog.IsCoin(symbol)
    requires amount >= MinAmount
    ensures Validate(FormValues(symbol, amount, symbol)) == Ok(FormValues(symbol, amount, symbol))
  {
    Catalog.CatalogNonEmpty();
  }

  /** A field's verdict and message depend on that field's value alone. */
  lemma FieldLocality(f: Field, v: FormValues, w: FormValues)
    requires Project(f, v) == Project(f, w)
    ensures f in Errors(v) <==> f in Errors(w)
    ensures f in Errors(v) ==> Errors(v)[f] == Errors(w)[f]
  {
    assert FieldOk(f, v) <==> FieldOk(f, w) by {
      match f
      case SwapToken =>
      case SwapAmount =>
      case ReturnToken =>
    }
  }

  /** When every field fails, each one reports the message of its first failing rule. */
  lemma AllFieldsFail(v: FormValues)
    requires !FieldOk(SwapToken, v) && !FieldOk(SwapAmount, v) && !FieldOk(ReturnToken, v)
    ensures Errors(v) == map[SwapToken := ExpectedMessage(SwapToken, v),
                             SwapAmount := AmountTooSmall,
                             ReturnToken := ExpectedMessage(ReturnToken, v)]
  {
    ValidateMatchesReference(v);
  }

  /** The initial values fail on all three fields at once, each with its first rule's message. */
  lemma DefaultFailsAll()
    ensures Errors(DefaultValues)
      == map[SwapToken := SwapTokenEmpty, SwapAmount := AmountTooSmall, ReturnToken := ReturnTokenEmpty]
  {
    AllFieldsFail(DefaultValues);
  }

  /** An empty send token, a negative amount and an unknown receive token give three errors together. */
  lemma ThreeErrorsTogether()
    ensures Errors(FormValues("", -3.0, "XYZ"))
      == map[SwapToken := SwapTokenEmpty, SwapAmount := AmountTooSmall, ReturnToken := InvalidToken]
  {
    assert !Catalog.IsCoin("XYZ");
    AllFieldsFail(FormValues("", -3.0, "XYZ"));
  }

  /** Two catalog tokens and an amount above the bound are accepted unchanged. */
  lemma WellFormedRequestAccepted()
    ensures Validate(FormValues("ETH", 0.5, "USDC")) == Ok(FormValues("ETH", 0.5, "USDC"))
  {
    assert FormOk(FormValues("ETH", 0.5, "USDC"));
  }
}
