# Swap form: validation schema and selection state

This project models the core of a client-side token-swap form, which lives in `src/app/_components/swap.tsx`. The form collects three values: the token to send, an amount, and the token to receive. It validates them against a schema and, on success, echoes them in a toast notification. The model covers:

- **The token catalog** (module `Catalog`, `catalog.dfy`). This is the fixed list of twenty symbols, ETH … ALGO, in display order. The module covers the case-sensitive membership test the schema runs, the `find` behind each selector's trigger label, and the check mark beside each list entry.
- **The validation schema** (module `Schema`, `schema.dfy`). Each of the three fields has its ordered rules:
  - A token field must be non-empty, with a field-specific message, and must then be a catalog member.
  - The amount must be at least 0.000000000000000001, bound included.

  `Validate` either returns the values unchanged or maps each failing field to the message of its first failing rule. No rule relates two fields.
- **The interactive state** (module `SwapForm`, `swap_form.dfy`). This is the three values plus the two selector popovers' open flags, both closed at mount. It covers the transitions caused by opening and closing a popover, picking a list item (which writes the field and closes that popover only) and entering an amount. It also covers the submit handler, which passes the values to the success handler exactly when the schema accepts them. `Run` replays a sequence of events. Every payload it hands to the success handler passed the schema. Picks can only name listed items, so the "Please select a valid token" message can never appear from the initial state.
- Module `Results` (`results.dfy`) holds the `Option` and `Result` types.

The amount is an exact `real`, and the bound is the rational 1/10^18. The schema's rule `z.number().min(0.000000000000000001)` is inclusive. So the bound itself is accepted, and positive amounts below it fail with the message "Amount must be greater than 0".

On an empty token field, both of that field's rules fail. The empty string is also not a catalog member. `Schema.TokenIssues` lists both failures in schema order. The field reports the first one, which is its own "Please select a token to …" message.

## Model

| member | source | states |
|---|---|---|
| Catalog.CatalogSize | src/app/_components/swap.tsx:57-118 | the catalog holds exactly twenty entries |
| Catalog.CatalogNonEmpty | src/app/_components/swap.tsx:57-118 | no catalog symbol is the empty string, so `""` is not a member |
| Catalog.CatalogDistinct | src/app/_components/swap.tsx:57-118 | no two catalog entries carry the same symbol |
| Catalog.UpperCaseOnly | src/app/_components/swap.tsx:57-118 | every catalog symbol starts with an upper-case letter |
| Catalog.AnyMatches | src/app/_components/swap.tsx:41 | the scan `coins.some(coin => coin.value === val)` is true exactly when some entry carries exactly that symbol |
| Catalog.ContainsCoin | src/app/_components/swap.tsx:50 | the membership scan, written as a loop over the catalog, finds the symbol exactly when it is a catalog member |
| Catalog.CatalogIsCaseSensitive | src/app/_components/swap.tsx:41 | membership is exact, case-sensitive equality: `"ETH"` is a member and `"eth"` is not |
| Catalog.Find | src/app/_components/swap.tsx:161 | `coins.find` returns an entry exactly when the symbol is listed, and that entry carries the symbol |
| Catalog.TriggerLabel | src/app/_components/swap.tsx:160-162 | the trigger shows the placeholder exactly for the empty value, the symbol itself exactly for a catalog member, and nothing for any other non-empty value |
| Catalog.Marks | src/app/_components/swap.tsx:186-190 | one check-mark flag per list entry, set exactly where the entry equals the field value |
| Catalog.MarkedCount | src/app/_components/swap.tsx:189 | over a list without repeats, one entry is marked if the value is listed and none otherwise |
| Catalog.CheckMarkUnique | src/app/_components/swap.tsx:175-190 | at most one selector entry shows the check mark, and exactly one does exactly when the field holds a catalog symbol |
| Catalog.ItemListed | src/app/_components/swap.tsx:175-178 | every symbol a list item can commit is a catalog member |
| Catalog.ListedSymbolDisplay | src/app/_components/swap.tsx:160-190 | a field holding a catalog symbol shows that symbol on the trigger and exactly one check mark |
| Catalog.ItemDisplay | src/app/_components/swap.tsx:175-190 | after item i is committed, the trigger shows item i's symbol and only item i is checked |
| Schema.TokenIssues | src/app/_components/swap.tsx:38-43 | a token field fails no rule exactly when it is non-empty and a catalog member; `""` fails both rules, emptiness first; any other non-member fails only membership |
| Schema.AmountIssues | src/app/_components/swap.tsx:44-46 | the amount fails no rule exactly when it is at least 1/10^18; otherwise it fails with "Amount must be greater than 0" |
| Schema.Issues | src/app/_components/swap.tsx:37-53 | a field's rule list is empty exactly when the field meets the schema's rules |
| Schema.CollectNamesFailingFields | src/app/_components/swap.tsx:37-53 | the collected errors name exactly the failing fields, each with its first failing rule's message |
| Schema.Validate | src/app/_components/swap.tsx:37-53 | accepts exactly when all three fields pass and then returns the values unchanged; otherwise names exactly the failing fields with their first messages |
| Schema.ValidateMatchesReference | src/app/_components/swap.tsx:37-53 | the reported errors equal the union of the three fields' independent error sets |
| Schema.TokenRuleIsCaseSensitive | src/app/_components/swap.tsx:41-42 | the form ("eth", 1, "ETH") fails on the send field alone, with "Please select a valid token" |
| Schema.EmptySwapTokenMessage | src/app/_components/swap.tsx:38-40 | an empty send token fails with "Please select a token to swap" |
| Schema.EmptyReturnTokenMessage | src/app/_components/swap.tsx:47-49 | an empty receive token fails with "Please select a token to receive" |
| Schema.AmountAcceptedIff | src/app/_components/swap.tsx:44-46 | the amount field is error-free exactly when the amount is at least 1/10^18; otherwise its message is "Amount must be greater than 0" |
| Schema.AmountBoundary | src/app/_components/swap.tsx:44 | 0, -1 and half the bound are rejected; the bound itself is accepted |
| Schema.SameTokenAccepted | src/app/_components/swap.tsx:37-53 | sending and receiving the same catalog symbol, with an amount at or above the bound, is accepted unchanged |
| Schema.FieldLocality | src/app/_components/swap.tsx:37-53 | a field's verdict and message depend only on that field's value |
| Schema.AllFieldsFail | src/app/_components/swap.tsx:37-53 | when every field fails, all three are reported together, each with its first rule's message |
| Schema.DefaultFailsAll | src/app/_components/swap.tsx:123-127 | the initial values ("", 0, "") fail on all three fields at once, with the two empty-token messages and the amount message |
| Schema.ThreeErrorsTogether | src/app/_components/swap.tsx:37-53 | ("", -3, "XYZ") yields three errors: the empty-send message, the amount message and the invalid-token message |
| Schema.WellFormedRequestAccepted | src/app/_components/swap.tsx:37-53 | ("ETH", 0.5, "USDC") is accepted unchanged |
| SwapForm.SetSendOpen | src/app/_components/swap.tsx:153 | the send popover's open change sets only its own flag |
| SwapForm.SetReceiveOpen | src/app/_components/swap.tsx:241 | the receive popover's open change sets only its own flag |
| SwapForm.SelectSend | src/app/_components/swap.tsx:179-182 | committing in the send popover writes the send token and closes that popover; the amount, receive token and receive flag are unchanged |
| SwapForm.SelectReceive | src/app/_components/swap.tsx:267-270 | committing in the receive popover writes the receive token and closes that popover; the amount, send token and send flag are unchanged |
| SwapForm.SetAmount | src/app/_components/swap.tsx:223 | the amount input's change writes only the amount |
| SwapForm.Submit | src/app/_components/swap.tsx:133-145 | the success handler runs exactly when the schema accepts, with the title "Swap Details:" and exactly the current values; otherwise the non-empty error map of the schema is reported |
| SwapForm.Step | src/app/_components/swap.tsx:145-270 | only a submit can hand a payload to the success handler, that payload passed the schema, and a submit leaves the state unchanged |
| SwapForm.Run | src/app/_components/swap.tsx:145-295 | every payload handed to the success handler during a run passed the schema, and there is at most one per submit |
| SwapForm.StepKeepsTokensFromCatalog | src/app/_components/swap.tsx:175-182 | every interaction keeps each token field empty or a catalog symbol |
| SwapForm.RunKeepsTokensFromCatalog | src/app/_components/swap.tsx:263-270 | every run of interactions keeps each token field empty or a catalog symbol |
| SwapForm.TokenFailsOnlyWhenEmpty | src/app/_components/swap.tsx:38-52 | while the token fields come from the catalog, a failing token field reports its empty-field message |
| SwapForm.InitialTokensFromCatalog | src/app/_components/swap.tsx:123-127 | the initial token fields are empty, so the initial state satisfies the token-field invariant (each token field empty or a catalog symbol) |
| SwapForm.InvalidTokenUnreachable | src/app/_components/swap.tsx:175-182 | from the initial state, no run of interactions produces the "Please select a valid token" message |
| SwapForm.InitialState | src/app/_components/swap.tsx:130-131 | both popovers start closed, and submitting at once is rejected on all three fields |
| SwapForm.PickSendEffect | src/app/_components/swap.tsx:179-182 | picking a send item makes the send field pass and leaves the other fields' verdicts unchanged |
| SwapForm.PickReceiveEffect | src/app/_components/swap.tsx:267-270 | picking a receive item makes the receive field pass and leaves the other fields' verdicts unchanged |
| SwapForm.SubmitRepeatable | src/app/_components/swap.tsx:145 | a second submit with unchanged inputs has the same outcome as the first |
| SwapForm.SubmitAcceptedRun | src/app/_components/swap.tsx:133-141 | a submit from an accepted state hands exactly its values to the success handler, once |
| SwapForm.PickedValuesAccepted | src/app/_components/swap.tsx:37-53 | two list items and an amount at or above the bound form an accepted request |
| SwapForm.PickEnterPickSubmit | src/app/_components/swap.tsx:133-145 | picking a send item, entering an amount at or above the bound, picking a receive item and submitting toasts exactly those three values, once |

## Left out

- Markup, class names, icons and the toast's rendering are presentation only. The toast is modelled as the title plus the payload it receives.
- Search filtering inside the selector's command list is done by an external command-palette library. Its matching rules are not visible here, so no filter is modelled, and the list always shows the whole catalog.
- Parsing the amount input text with `parseFloat`, and NaN, are floating-point parsing. NaN rejection comes from the schema library's number type check, which is not visible here. The amount enters the model as an already-parsed `real`.
- Schema.MinAmount: this is the exact rational 1/10^18, not the nearest IEEE double of the literal 0.000000000000000001. The two bounds agree on every double. The nearest double to the literal lies just above 1/10^18, and the next double below it lies below 1/10^18. So for a double amount, the run-time comparison and the model's comparison give the same verdict.
- The form library's touched/dirty lifecycle and its re-validation while typing are third-party behaviour and are not modelled. The same holds for how the resolver picks one of several messages for a field: the model assumes the first failing rule is the message shown.
- `src/app/page.tsx` only mounts the form. `next.config.mjs` is build configuration. Neither contains logic.
- The popover's filter text and highlighted item are kept by the external command-palette widget, not by this code, so neither is modelled.
