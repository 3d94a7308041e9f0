/**
 The swap form's interactive state: the three field values and the two
 selector popovers' open flags, the transitions user events cause, and the
 submit handler, which passes the values to the success handler (a toast)
 only when the schema accepts them.
 */
module SwapForm {
  import opened Results
  import Catalog
  import Schema

  /** The form values and whether each selector's popover is open. */
  datatype UiState = UiState(values: Schema.FormValues, swapTokenOpen: bool, returnTokenOpen: bool)

  /** The state at mount: default values, both popovers closed. */
  const Initial := UiState(Schema.DefaultValues, false, false)

  /** The send popover's `onOpenChange`. */
  function SetSendOpen(s: UiState, open: bool): (t: UiState)
    ensures t.swapTokenOpen == open
    ensures t.returnTokenOpen == s.returnTokenOpen && t.values == s.values
  {
    s.(swapTokenOpen := open)
  }

  /** The receive popover's `onOpenChange`. */
  function SetReceiveOpen(s: UiState, open: bool): (t: UiState)
    ensures t.returnTokenOpen == open
    ensures t.swapTokenOpen == s.swapTokenOpen && t.values == s.values
  {
    s.(returnTokenOpen := open)
  }

  /** Committing a symbol in the send popover: writes the send field and closes that popover only. */
  function SelectSend(s: UiState, symbol: string): (t: UiState)
    ensures t.values.swapToken == symbol && !t.swapTokenOpen
    ensures t.values.swapAmount == s.values.swapAmount && t.values.returnToken == s.values.returnToken
    ensures t.returnTokenOpen == s.returnTokenOpen
  {
    UiState(s.values.(swapToken := symbol), false, s.returnTokenOpen)
  }

  /** Committing a symbol in the receive popover: writes the receive field and closes that popover only. */
  function SelectReceive(s: UiState, symbol: string): (t: UiState)
    ensures t.values.returnToken == symbol && !t.returnTokenOpen
    ensures t.values.swapAmount == s.values.swapAmount && t.values.swapToken == s.values.swapToken
    ensures t.swapTokenOpen == s.swapTokenOpen
  {
    UiState(s.values.(returnToken := symbol), s.swapTokenOpen, false)
  }

  /** The amount input's change handler, given the already-parsed number. */
  function SetAmount(s: UiState, amount: real): (t: UiState)
    ensures t.values.swapAmount == amount
    ensures t.values.swapToken == s.values.swapToken && t.values.returnToken == s.values.returnToken
    ensures t.swapTokenOpen == s.swapTokenOpen && t.returnTokenOpen == s.returnTokenOpen
  {
    s.(values := s.values.(swapAmount := amount))
  }

  const ToastTitle := "Swap Details:"

  /** What a submit does: call the success handler with the values, or show the field errors. */
  datatype Outcome =
    | Notified(title: string, payload: Schema.FormValues)
    | Rejected(errors: Schema.FieldErrors)

  /**
   Submitting: the success handler runs exactly when every field passes, and it
   receives exactly the current values; otherwise the failing fields' messages
   are reported and the handler does not run.
   */
  function Submit(s: UiState): (o: Outcome)
    ensures o.Notified? <==> Schema.FormOk(s.values)
    ensures o.Notified? ==> o.title == ToastTitle && o.payload == s.values
    ensures o.Rejected? ==> o.errors != map[] && o.errors == Schema.Errors(s.values)
  {
    match Schema.Validate(s.values)
    case Ok(data) => Notified(ToastTitle, data)
    case Err(errors) =>
      assert errors.Keys != {} by {
        if Schema.FieldOk(Schema.SwapToken, s.values) {
          if Schema.FieldOk(Schema.SwapAmount, s.values) {
            assert Schema.ReturnToken in errors;
          } else {
            assert Schema.SwapAmount in errors;
          }
        } else {
          assert Schema.SwapToken in errors;
        }
      }
      Rejected(errors)
  }

  /** One user interaction. A pick names the position of the clicked item in the selector list. */
  datatype Event =
    | SendOpenChange(open: bool)
    | ReceiveOpenChange(open: bool)
    | PickSend(item: nat)
    | PickReceive(item: nat)
    | EnterAmount(amount: real)
    | SubmitForm

  /** The list shows every catalog entry and nothing else, so only those items can be clicked. */
  predicate Clickable(e: Event) {
    match e
    case PickSend(i) => i < |Catalog.Coins|
    case PickReceive(i) => i < |Catalog.Coins|
    case _ => true
  }

  /** The payload handed to the success handler by one event, if any, and the next state. */
  function Step(s: UiState, e: Event): (r: (UiState, Option<Schema.FormValues>))
    requires Clickable(e)
    ensures r.1.Some? ==> e == SubmitForm && Schema.FormOk(r.1.value) && r.1.value == s.values
    ensures e == SubmitForm ==> r.0 == s && (r.1.Some? <==> Schema.FormOk(s.values))
  {
    match e
    case SendOpenChange(open) => (SetSendOpen(s, open), None)
    case ReceiveOpenChange(open) => (SetReceiveOpen(s, open), None)
    case PickSend(i) => (SelectSend(s, Catalog.Coins[i].value), None)
    case PickReceive(i) => (SelectReceive(s, Catalog.Coins[i].value), None)
    case EnterAmount(a) => (SetAmount(s, a), None)
    case SubmitForm =>
      match Submit(s)
      case Notified(_, data) => (s, Some(data))
      case Rejected(_) => (s, None)
  }

  /** Every event of the sequence can happen. */
  predicate AllClickable(events: seq<Event>) {
    forall i :: 0 <= i < |events| ==> Clickable(events[i])
  }

  /** The number of submits in a sequence of events. */
  function Submits(events: seq<Event>): nat {
    if |events| == 0 then 0
    else (if events[0] == SubmitForm then 1 else 0) + Submits(events[1..])
  }

  /**
   Runs a sequence of events from `s`, returning the final state and the
   payloads handed to the success handler, in order. Every payload passed the
   schema, and there is at most one per submit.
   */
  function Run(s: UiState, events: seq<Event>): (r: (UiState, seq<Schema.FormValues>))
    requires AllClickable(events)
    ensures forall k :: 0 <= k < |r.1| ==> Schema.FormOk(r.1[k])
    ensures |r.1| <= Submits(events)
    decreases |events|
  {
    if |events| == 0 then (s, [])
    else
      var (next, out) := Step(s, events[0]);
      var (last, rest) := Run(next, events[1..]);
      (last, (if out.Some? then [out.value] else []) + rest)
  }

  /** Each token field is empty or holds a catalog symbol. */
  ghost predicate TokensFromCatalog(s: UiState) {
    && (s.values.swapToken == "" || Catalog.IsCoin(s.values.swapToken))
    && (s.values.returnToken == "" || Catalog.IsCoin(s.values.returnToken))
  }

  /** Every event keeps the token fields inside the catalog. */
  lemma StepKeepsTokensFromCatalog(s: UiState, e: Event)
    requires Clickable(e) && TokensFromCatalog(s)
    ensures TokensFromCatalog(Step(s, e).0)
  {
    match e
    case PickSend(i) => Catalog.ItemListed(i);
    case PickReceive(i) => Catalog.ItemListed(i);
    case _ =>
  }

  /** So does every run. */
  lemma {:induction false} RunKeepsTokensFromCatalog(s: UiState, events: seq<Event>)
    requires AllClickable(events) && TokensFromCatalog(s)
    ensures TokensFromCatalog(Run(s, events).0)
    decreases |events|
  {
    if |events| > 0 {
      StepKeepsTokensFromCatalog(s, events[0]);
      assert AllClickable(events[1..]) by {
        forall k | 0 <= k < |events[1..]| ensures Clickable(events[1..][k]) {
          assert events[1..][k] == events[k + 1];
        }
      }
      RunKeepsTokensFromCatalog(Step(s, events[0]).0, events[1..]);
    }
  }

  /** While the token fields come from the catalog, a token field fails only by being empty. */
  lemma TokenFailsOnlyWhenEmpty(s: UiState)
    requires TokensFromCatalog(s)
    ensures Schema.SwapToken in Schema.Errors(s.values) ==> Schema.Errors(s.values)[Schema.SwapToken] == Schema.SwapTokenEmpty
    ensures Schema.ReturnToken in Schema.Errors(s.values) ==> Schema.Errors(s.values)[Schema.ReturnToken] == Schema.ReturnTokenEmpty
  {
  }

  /** The initial state's token fields are empty, hence trivially from the catalog. */
  lemma InitialTokensFromCatalog()
    ensures Initial.values.swapToken == "" && Initial.values.returnToken == ""
    ensures TokensFromCatalog(Initial)
  {
  }

  /**
   From the initial state, no sequence of interactions leads to the
   "Please select a valid token" message: the selectors only offer catalog
   symbols, so a token field can fail only by being empty.
   */
  lemma InvalidTokenUnreachable(events: seq<Event>)
    requires AllClickable(events)
    ensures var v := Run(Initial, events).0.values;
      && (Schema.SwapToken in Schema.Errors(v) ==> Schema.Errors(v)[Schema.SwapToken] == Schema.SwapTokenEmpty)
      && (Schema.ReturnToken in Schema.Errors(v) ==> Schema.Errors(v)[Schema.ReturnToken] == Schema.ReturnTokenEmpty)
  {
    InitialTokensFromCatalog();
    RunKeepsTokensFromCatalog(Initial, events);
    TokenFailsOnlyWhenEmpty(Run(Initial, events).0);
  }

  /** At mount both popovers are closed and a submit is rejected on all three fields. */
  lemma InitialState()
    ensures !Initial.swapTokenOpen && !Initial.returnTokenOpen
    ensures Submit(Initial)
      == Rejected(map[Schema.SwapToken := Schema.SwapTokenEmpty,
                      Schema.SwapAmount := Schema.AmountTooSmall,
                      Schema.ReturnToken := Schema.ReturnTokenEmpty])
  {
    Schema.DefaultFailsAll();
  }

  /**
   Picking item `i` in the send selector makes the send field pass and leaves
   the other fields' verdicts as they were.
   */
  lemma PickSendEffect(s: UiState, i: nat)
    requires i < |Catalog.Coins|
    ensures var t := Step(s, PickSend(i)).0;
      && Schema.SwapToken !in Schema.Errors(t.values)
      && (forall f :: f != Schema.SwapToken ==>
            (f in Schema.Errors(t.values) <==> f in Schema.Errors(s.values)))
  {
    var t := Step(s, PickSend(i)).0;
    Catalog.ItemListed(i);
    forall f | f != Schema.SwapToken
      ensures f in Schema.Errors(t.values) <==> f in Schema.Errors(s.values)
    {
      Schema.FieldLocality(f, t.values, s.values);
    }
  }

  /** The receive selector behaves symmetrically. */
  lemma PickReceiveEffect(s: UiState, i: nat)
    requires i < |Catalog.Coins|
    ensures var t := Step(s, PickReceive(i)).0;
      && Schema.ReturnToken !in Schema.Errors(t.values)
      && (forall f :: f != Schema.ReturnToken ==>
            (f in Schema.Errors(t.values) <==> f in Schema.Errors(s.values)))
  {
    var t := Step(s, PickReceive(i)).0;
    Catalog.ItemListed(i);
    forall f | f != Schema.ReturnToken
      ensures f in Schema.Errors(t.values) <==> f in Schema.Errors(s.values)
    {
      Schema.FieldLocality(f, t.values, s.values);
    }
  }

  /** Submitting twice in a row from the same state has the same outcome both times. */
  lemma SubmitRepeatable(s: UiState)
    ensures Step(Step(s, SubmitForm).0, SubmitForm) == Step(s, SubmitForm)
  {
  }

  /** Running a non-empty sequence is one step followed by the run of the rest. */
  lemma RunUnfold(s: UiState, events: seq<Event>)
    requires |events| > 0 && AllClickable(events)
    ensures var (next, out) := Step(s, events[0]);
      Run(s, events) == (Run(next, events[1..]).0, (if out.Some? then [out.value] else []) + Run(next, events[1..]).1)
  {
  }

  /** A submit from a state the schema accepts hands exactly its values to the success handler. */
  lemma SubmitAcceptedRun(s: UiState)
    requires Schema.FormOk(s.values)
    ensures Run(s, [SubmitForm]).1 == [s.values]
  {
    RunUnfold(s, [SubmitForm]);
  }

  /** Two list items and an amount at or above the bound form an accepted request. */
  lemma PickedValuesAccepted(i: nat, amount: real, j: nat)
    requires i < |Catalog.Coins| && j < |Catalog.Coins|
    requires amount >= Schema.MinAmount
    ensures Schema.FormOk(Schema.FormValues(Catalog.Coins[i].value, amount, Catalog.Coins[j].value))
  {
    Catalog.ItemListed(i);
    Catalog.ItemListed(j);
  }

  /**
   Picking a send token, entering an amount at or above the bound, picking a
   receive token and submitting hands exactly those three values to the
   success handler, once.
   */
  lemma PickEnterPickSubmit(s: UiState, i: nat, amount: real, j: nat)
    requires i < |Catalog.Coins| && j < |Catalog.Coins|
    requires amount >= Schema.MinAmount
    ensures Run(s, [PickSend(i), EnterAmount(amount), PickReceive(j), SubmitForm]).1
      == [Schema.FormValues(Catalog.Coins[i].value, amount, Catalog.Coins[j].value)]
  {
    var events := [PickSend(i), EnterAmount(amount), PickReceive(j), SubmitForm];
    PickedValuesAccepted(i, amount, j);
    var s1 := Step(s, events[0]).0;
    var s2 := Step(s1, events[1]).0;
    var s3 := Step(s2, events[2]).0;
    SubmitAcceptedRun(s3);
    assert events[3..] == [SubmitForm];
    RunUnfold(s2, events[2..]);
    RunUnfold(s1, events[1..]);
    RunUnfold(s, events);
  }
}
