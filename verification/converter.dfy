/** The converter page's form: its state, the field setters, the one-time
    loading of the rate table, and `handleConvert`, which looks both codes up
    and stores `amount * from / to` only when both rates are truthy. */
module Converter {
  import opened Options
  import opened RateTable

  /** The page's state. `amount` is the input's text; `converted` is `null`
      until a conversion is stored. */
  datatype FormState = FormState(
    rates: seq<ExchangeRate>,
    amount: string,
    from: string,
    to: string,
    converted: Option<real>)

  /** What the user and the page's mount effect can do to the form.
      `amountValue` of `ConvertPressed` is the number the amount text parses to. */
  datatype FormEvent =
    | AmountEdited(text: string)
    | FromSelected(code: string)
    | ToSelected(code: string)
    | RatesFetched(fetched: seq<ExchangeRate>)
    | ConvertPressed(amountValue: real)

  function InitialForm(): (s: FormState)
    ensures s.rates == [] && s.amount == ""
    ensures s.from == "USD" && s.to == "EUR"
    ensures s.converted == None
  {
    FormState([], "", "USD", "EUR", None)
  }

  /** JavaScript truthiness of a looked-up rate: `undefined` and `0` are falsy. */
  predicate Truthy(rate: Option<real>) {
    rate.Some? && rate.value != 0.0
  }

  /** The conversion formula: the amount in the target currency is the one
      whose value at the target's rate equals the source value at its rate. */
  function ConvertAmount(amount: real, fromRate: real, toRate: real): (r: real)
    requires toRate != 0.0
    ensures r * toRate == amount * fromRate
  {
    amount * fromRate / toRate
  }

  /** Both rates the form's codes look up to are truthy. */
  predicate CanConvert(s: FormState) {
    Truthy(FindMid(s.rates, s.from)) && Truthy(FindMid(s.rates, s.to))
  }

  /** `handleConvert`: store the converted amount when both rates are
      truthy; otherwise leave the form exactly as it was. */
  function HandleConvert(s: FormState, amountValue: real): (r: FormState)
    ensures r.(converted := s.converted) == s
    ensures !CanConvert(s) ==> r == s
    ensures CanConvert(s) ==> r.converted.Some?
                              && r.converted.value * FindMid(s.rates, s.to).value
                                 == amountValue * FindMid(s.rates, s.from).value
  {
    var fromRate := FindMid(s.rates, s.from);
    var toRate := FindMid(s.rates, s.to);
    if Truthy(fromRate) && Truthy(toRate) then
      s.(converted := Some(ConvertAmount(amountValue, fromRate.value, toRate.value)))
    else
      s
  }

  /** The mount effect's result: the fetched rates, normalised, become the
      table. A conversion already shown is not cleared. */
  function RatesLoaded(s: FormState, fetched: seq<ExchangeRate>): (r: FormState)
    ensures r.(rates := s.rates) == s
    ensures |r.rates| == |fetched| + 1 && r.rates[..|fetched|] == fetched
    ensures r.rates[|fetched|] == ExchangeRate("Polish Zloty", "PLN", 1.0)
    ensures FindMid(r.rates, HomeCode).Some?
  {
    s.(rates := Normalise(fetched))
  }

  function SetAmount(s: FormState, text: string): (r: FormState)
    ensures r.amount == text && r.(amount := s.amount) == s
  {
    s.(amount := text)
  }

  function SetFrom(s: FormState, code: string): (r: FormState)
    ensures r.from == code && r.(from := s.from) == s
  {
    s.(from := code)
  }

  function SetTo(s: FormState, code: string): (r: FormState)
    ensures r.to == code && r.(to := s.to) == s
  {
    s.(to := code)
  }

  /** The page's handlers: the mount effect loads the rates, the inputs'
      change handlers set their field, and the button converts. */
  function Step(s: FormState, e: FormEvent): (r: FormState)
    ensures !e.ConvertPressed? ==> r.converted == s.converted
    ensures e.AmountEdited? ==> r.amount == e.text
    ensures e.FromSelected? ==> r.from == e.code
    ensures e.ToSelected? ==> r.to == e.code
    ensures !e.RatesFetched? ==> r.rates == s.rates
    ensures e.RatesFetched? ==> |r.rates| == |e.fetched| + 1 && r.rates[..|e.fetched|] == e.fetched
  {
    match e
    case AmountEdited(text) => SetAmount(s, text)
    case FromSelected(code) => SetFrom(s, code)
    case ToSelected(code) => SetTo(s, code)
    case RatesFetched(fetched) => RatesLoaded(s, fetched)
    case ConvertPressed(v) => HandleConvert(s, v)
  }

  function Run(s: FormState, evs: seq<FormEvent>): FormState
    decreases |evs|
  {
    if evs == [] then s else Run(Step(s, evs[0]), evs[1..])
  }

  // ---------------------------------------------------------------------
  // Properties

  /** Only pressing Convert ever changes the stored conversion: editing a
      field or reloading the rates leaves it as it was, so it can go stale. */
  lemma {:induction false} OnlyConvertChangesResult(s: FormState, evs: seq<FormEvent>)
    requires forall i :: 0 <= i < |evs| ==> !evs[i].ConvertPressed?
    ensures Run(s, evs).converted == s.converted
    decreases |evs|
  {
    if evs != [] {
      OnlyConvertChangesResult(Step(s, evs[0]), evs[1..]);
    }
  }

  /** From the page's initial state, no result is shown until Convert is
      pressed. */
  lemma NoResultBeforeConvert(evs: seq<FormEvent>)
    requires forall i :: 0 <= i < |evs| ==> !evs[i].ConvertPressed?
    ensures Run(InitialForm(), evs).converted == None
  {
    OnlyConvertChangesResult(InitialForm(), evs);
  }

  /** Converting a currency to itself returns the amount unchanged. */
  lemma SameCurrencyIsIdentity(s: FormState, amountValue: real)
    requires s.from == s.to && CanConvert(s)
    ensures HandleConvert(s, amountValue).converted == Some(amountValue)
  {
    var rate := FindMid(s.rates, s.from).value;
    var r := HandleConvert(s, amountValue).converted.value;
    assert r * rate == amountValue * rate;
    assert (r - amountValue) * rate == 0.0;
  }

  /** Converting there and back returns the original amount. */
  lemma ConvertRoundTrip(amount: real, fromRate: real, toRate: real)
    requires fromRate != 0.0 && toRate != 0.0
    ensures ConvertAmount(ConvertAmount(amount, fromRate, toRate), toRate, fromRate) == amount
  {
    var there := ConvertAmount(amount, fromRate, toRate);
    var back := ConvertAmount(there, toRate, fromRate);
    assert back * fromRate == there * toRate == amount * fromRate;
    assert (back - amount) * fromRate == 0.0;
  }

  /** With freshly loaded rates that carry no PLN entry, converting into PLN
      multiplies the amount by the source currency's mid rate. */
  lemma ToHomeCurrency(s: FormState, fetched: seq<ExchangeRate>, amountValue: real, fromRate: real)
    requires !HasCode(fetched, HomeCode)
    requires s.to == HomeCode && FindMid(fetched, s.from) == Some(fromRate) && fromRate != 0.0
    ensures HandleConvert(RatesLoaded(s, fetched), amountValue).converted == Some(amountValue * fromRate)
  {
    var loaded := RatesLoaded(s, fetched);
    HomeRateIsParity(fetched);
    NormalisePreservesLookup(fetched, s.from);
    assert FindMid(loaded.rates, s.to) == Some(1.0);
    assert FindMid(loaded.rates, s.from) == Some(fromRate);
    ConvertIntoParity(loaded, amountValue, fromRate);
  }

  /** Into a currency whose rate is 1, the stored conversion is the amount
      times the source rate. */
  lemma ConvertIntoParity(s: FormState, amountValue: real, fromRate: real)
    requires FindMid(s.rates, s.from) == Some(fromRate) && fromRate != 0.0
    requires FindMid(s.rates, s.to) == Some(1.0)
    ensures HandleConvert(s, amountValue).converted == Some(amountValue * fromRate)
  {
    StoredConversion(s, amountValue, fromRate, 1.0);
    ConvertAtParity(amountValue, fromRate);
  }

  /** With both rates known, the stored conversion is the formula's value. */
  lemma StoredConversion(s: FormState, amountValue: real, fromRate: real, toRate: real)
    requires FindMid(s.rates, s.from) == Some(fromRate) && fromRate != 0.0
    requires FindMid(s.rates, s.to) == Some(toRate) && toRate != 0.0
    ensures HandleConvert(s, amountValue).converted == Some(ConvertAmount(amountValue, fromRate, toRate))
  {
  }

  /** Converting into a currency at parity multiplies by the source rate. */
  lemma ConvertAtParity(amount: real, fromRate: real)
    ensures ConvertAmount(amount, fromRate, 1.0) == amount * fromRate
  {
  }

  /** With an empty table (before the rates arrive) Convert does nothing. */
  lemma ConvertBeforeRatesIsNoop(s: FormState, amountValue: real)
    requires s.rates == []
    ensures HandleConvert(s, amountValue) == s
  {
  }
}
