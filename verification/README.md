# Currency converter: alert lifecycle, rate table and locale preference

A Dafny model of the client-side logic of a small currency-conversion page.
The page loads the National Bank of Poland's daily table of mid rates, appends
the Polish zloty at parity, and converts an amount between two selected codes.
Three parts of that logic are modelled as immutable records and pure
transition functions:

- `Alert` (`alert.dfy`, from `src/app/useAlert.ts`): the `useAlert` hook. It
  holds one visible message and one auto-clear timer slot. Timers are abstract
  ids. `live` holds the timers that are scheduled and neither fired nor
  cancelled. A timer's callback runs only through the explicit `FireEv(id)`
  event, which does nothing for an id that is not live. `Trigger`, `Clear`,
  `Fire` and `Teardown` are the hook's operations, and `Run` replays a
  sequence of events. The invariant `Inv` says that only the timer in the slot
  can be live (single flight).
- `RateTable` and `Converter` (`rate_table.dfy`, `converter.dfy`, from
  `src/app/page.tsx`). `Normalise` appends the `{Polish Zloty, PLN, 1}` entry.
  `FindMid` is the first-match lookup by code. `HandleConvert` applies the
  truthiness guard: both rates must be present and non-zero. It then stores
  `amount * from / to`, and otherwise leaves the form as it was. The form also
  has its initial state, its field setters and the loading of the rates.
- `Locale` (`locale.dfy`, from `src/app/useLocale.ts`): the locale, which
  defaults to `pl`, and the stored copy of it, an `Option<string>`. It covers
  the restore on mount, `Toggle` and the `labels` selection.
- `Options` (`options.dfy`): the `Option` type used for `null` and `undefined`.

Behaviour of the page that the model keeps as written:

- `handleConvert` has no error path. When either rate is missing or zero, the form is left unchanged.
- The page fetches the current rate table once, on mount. The appended home entry is always named "Polish Zloty".
- The restore on mount does not validate the stored value: any non-empty string becomes the locale. For a string other than `en` or `pl`, `Labels` returns `None`, modelling `labels[locale]` as a lookup of the object's own keys.
- A conversion result is never cleared when the rates reload or a field changes (`OnlyConvertChangesResult`).

## Model

| member | source | states |
|---|---|---|
| Alert.Init | src/app/useAlert.ts:10-12 | the initial message is the argument and no timer is pending |
| Alert.InitDefault | src/app/useAlert.ts:10-11 | without an argument the initial message is empty |
| Alert.CancelSlot | src/app/useAlert.ts:15 | cancelling the slot's handle removes exactly that timer from the pending ones; in a reachable state nothing is left pending |
| Alert.Trigger | src/app/useAlert.ts:14-21 | the message becomes the given one and the previous timer is no longer pending; in a reachable state exactly one timer is pending, the new one with the given duration, and the invariant holds again |
| Alert.TriggerDefault | src/app/useAlert.ts:14 | with no duration the single pending timer has the 3000 ms default |
| Alert.Clear | src/app/useAlert.ts:23-26 | the message is empty at once, and in a reachable state no timer is pending |
| Alert.Fire | src/app/useAlert.ts:17-19 | a pending timer's callback empties the message and the timer stops being pending; a cancelled or unknown timer changes nothing |
| Alert.Teardown | src/app/useAlert.ts:28-33 | unmount cancels the slot's timer, so in a reachable state nothing is pending, and leaves the message as it is |
| Alert.Step | src/app/useAlert.ts:14-33 | every event keeps the single-flight invariant; only a trigger sets a non-empty new message, and other events either empty it or keep it |
| Alert.AtMostOneLive | src/app/useAlert.ts:15-20 | in a reachable state at most one timer is pending, and it is the one in the slot |
| Alert.RunPreservesInv | src/app/useAlert.ts:12-33 | any sequence of events keeps the invariant and never reuses a timer id |
| Alert.ReachableSingleFlight | src/app/useAlert.ts:10-33 | every state reachable from the hook's start has at most one pending timer |
| Alert.DeadTimerStaysDead | src/app/useAlert.ts:15-20 | a timer once cancelled or fired never becomes pending again, whatever events follow |
| Alert.SupersededTimerNeverFires | src/app/useAlert.ts:15-20 | after a trigger replaces a timer, firing the replaced timer at any later point changes nothing |
| Alert.OwnTimerClears | src/app/useAlert.ts:17-19 | firing the timer a trigger scheduled empties the message and leaves nothing pending |
| Alert.NewerMessageSurvivesStaleTimers | src/app/useAlert.ts:15-19 | while only timers other than the slot's fire, the state and therefore the message do not change |
| Alert.MessageSurvivesUntilOwnTimer | src/app/useAlert.ts:15-33 | in a reachable state the message survives any events other than a trigger, a clear or the slot's own timer firing, teardown and older timers included |
| Alert.TriggeredMessageSurvivesOtherTimers | src/app/useAlert.ts:14-20 | after a trigger, the triggered message stays visible until its own timer fires or a newer trigger or clear replaces it; older timers and teardown cannot blank it |
| Alert.ClearIdempotent | src/app/useAlert.ts:23-26 | clearing twice is the same as clearing once |
| Alert.TeardownQuiesces | src/app/useAlert.ts:29-33 | after teardown nothing is pending and no timer event changes the state |
| Alert.MessageIsEmptyOrLatest | src/app/useAlert.ts:14-26 | after any events the visible message is empty or the most recently triggered one (the initial one if nothing was triggered) |
| RateTable.Normalise | src/app/page.tsx:21-23 | the table is the fetched entries in their order followed by one PLN entry with mid 1; its length is one more |
| RateTable.FindMid | src/app/page.tsx:30-31 | the lookup finds nothing exactly when no entry has the code, and otherwise returns the mid of an entry with that code before which no entry has it |
| RateTable.FindMidAtFirstIndex | src/app/page.tsx:30 | the first index that carries a code decides its lookup |
| RateTable.FindMidAppendFound | src/app/page.tsx:22-31 | appending entries never changes a lookup that already succeeds |
| RateTable.FindMidAppendMissing | src/app/page.tsx:22-31 | for a code the table lacks, a lookup after appending sees only the appended entries |
| RateTable.HomeRateIsParity | src/app/page.tsx:22-31 | when the fetched rates have no PLN entry, PLN looks up to exactly 1 after normalisation |
| RateTable.NormalisePreservesLookup | src/app/page.tsx:21-31 | normalisation keeps every fetched code's first rate, a fetched PLN shadowing the appended one, and leaves other missing codes missing |
| Converter.InitialForm | src/app/page.tsx:12-16 | the form starts with no rates, empty amount text, USD to EUR and no result |
| Converter.ConvertAmount | src/app/page.tsx:34 | the converted amount valued at the target rate equals the amount valued at the source rate |
| Converter.HandleConvert | src/app/page.tsx:29-36 | only the result can change; with both rates truthy the result is stored and satisfies the rate equation, otherwise the form is unchanged |
| Converter.RatesLoaded | src/app/page.tsx:18-27 | loading replaces only the table, which holds the fetched entries in order followed by the entry {Polish Zloty, PLN, 1}; a result already shown stays |
| Converter.SetAmount | src/app/page.tsx:47 | editing the amount changes only the amount text |
| Converter.SetFrom | src/app/page.tsx:55 | selecting the source code changes only that code |
| Converter.SetTo | src/app/page.tsx:69 | selecting the target code changes only that code |
| Converter.Step | src/app/page.tsx:26-80 | no handler but Convert changes the result; each field handler sets its own field, only the mount effect changes the table, and it keeps the fetched entries as its prefix |
| Converter.OnlyConvertChangesResult | src/app/page.tsx:12-36 | no sequence of edits, selections or rate loads changes the stored result |
| Converter.NoResultBeforeConvert | src/app/page.tsx:16-36 | from the initial form no result exists until Convert is pressed |
| Converter.StoredConversion | src/app/page.tsx:30-34 | with both rates present and non-zero the stored result is the formula's value |
| Converter.ConvertAtParity | src/app/page.tsx:34 | converting into a currency with rate 1 multiplies by the source rate |
| Converter.ConvertIntoParity | src/app/page.tsx:30-34 | when the target looks up to 1, the stored result is the amount times the source rate |
| Converter.SameCurrencyIsIdentity | src/app/page.tsx:30-35 | converting a code to itself stores the amount unchanged |
| Converter.ConvertRoundTrip | src/app/page.tsx:34 | converting there and back with non-zero rates returns the original amount |
| Converter.ToHomeCurrency | src/app/page.tsx:22-34 | after loading rates without a PLN entry, converting into PLN stores the amount times the source's mid |
| Converter.ConvertBeforeRatesIsNoop | src/app/page.tsx:29-35 | before any rates arrive Convert leaves the form unchanged |
| Locale.Init | src/app/useLocale.ts:4 | the first locale is pl and storage is as found |
| Locale.Restore | src/app/useLocale.ts:6-11 | a present non-empty stored value becomes the locale verbatim; an absent or empty one changes nothing; storage is not written |
| Locale.Mount | src/app/useLocale.ts:4-11 | after mounting the locale is the stored value if it is non-empty, and pl otherwise |
| Locale.Toggle | src/app/useLocale.ts:13-17 | the new locale is en or pl, always differs from the old one, and is what storage now holds |
| Locale.Labels | src/app/useLocale.ts:19-51 | labels exist exactly for en and pl (as own keys of the object), are the table of that locale, and have the same key set |
| Locale.SameLabelKeys | src/app/useLocale.ts:19-46 | the en and pl tables define the same keys |
| Locale.ToggleMapping | src/app/useLocale.ts:14 | en toggles to pl and every other locale toggles to en |
| Locale.ToggleTwice | src/app/useLocale.ts:14-16 | toggling twice from en or pl returns to it, with storage holding it |
| Locale.ToggleTwiceUnsupported | src/app/useLocale.ts:14 | toggling twice from any other restored locale lands on pl |
| Locale.ToggleThenRemount | src/app/useLocale.ts:7-16 | after a toggle labels are defined, and a later mount restores the toggled locale |
| Locale.MountedLabelsDefined | src/app/useLocale.ts:4-51 | after mounting, labels are defined (as an own-key lookup) exactly when storage was absent, empty, en or pl |

## Left out

- The HTTP request with axios and the shape of its JSON response (`src/app/page.tsx:20-21`). The fetched rate sequence is an input of `RatesLoaded`, and a failed request is not modelled.
- `parseFloat`, IEEE-754 arithmetic, `NaN` and `toFixed(2)` (`src/app/page.tsx:34, 88`). Rates and amounts are exact reals. `ConvertPressed` and `HandleConvert` take the number the amount text parses to as a parameter. So an empty amount text is not modelled as a `NaN` result.
- React's render and effect scheduling: stale closures within one render, and the cleanup that runs when the effect re-runs on a change of `timer`. Each call is one event, and state settles between events. The re-run cleanup cancels a timer the new trigger has already cancelled, so omitting it changes nothing in this model.
- Real `setTimeout` and `clearTimeout` timing. It is replaced by timer ids and the explicit `FireEv` event.
- `localStorage` as a browser API. It appears only as the optional stored string in `LocaleState`.
- The rendering of the alert (`src/app/alertComponent.tsx`), the page's markup, and the styling configuration (`tailwind.config.ts`).
- Locale.Labels: models `labels[locale]` as a lookup of the object's own keys `en` and `pl`. A restored locale naming an inherited `Object.prototype` member (`toString`, `constructor`, `__proto__`, …) yields that member in JavaScript, not `undefined`; property lookup through the prototype chain is not modelled.
- Locale.MountedLabelsDefined: states definedness for the own-key lookup only, so it does not cover a stored value naming an inherited `Object.prototype` member.
