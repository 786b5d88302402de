/** The locale preference of `useLocale`: the current locale, `'pl'` until
    something else is restored, plus the value kept in local storage under
    the key `locale`. A stored value is restored verbatim, so the locale is
    any string; only toggling brings it back into {en, pl}. */
module Locale {
  import opened Options

  const English: string := "en"
  const Polish: string := "pl"
  const DefaultLocale: string := Polish

  /** `stored` is the storage entry for the key `locale`; `None` when absent. */
  datatype LocaleState = LocaleState(locale: string, stored: Option<string>)

  predicate Supported(locale: string) {
    locale == English || locale == Polish
  }

  /** The hook's first render: the default locale, storage as found. */
  function Init(stored: Option<string>): (s: LocaleState)
    ensures s.locale == DefaultLocale && s.stored == stored
  {
    LocaleState(DefaultLocale, stored)
  }

  /** The mount effect: a truthy stored value (present and not empty)
      replaces the locale; otherwise the locale stays. Storage is not written. */
  function Restore(s: LocaleState): (r: LocaleState)
    ensures r.stored == s.stored
    ensures s.stored.Some? && s.stored.value != "" ==> r.locale == s.stored.value
    ensures s.stored == None || s.stored == Some("") ==> r == s
  {
    if s.stored.Some? && s.stored.value != "" then s.(locale := s.stored.value) else s
  }

  /** The state after mounting with a given storage entry. */
  function Mount(stored: Option<string>): (s: LocaleState)
    ensures s.stored == stored
    ensures stored == None || stored == Some("") ==> s.locale == DefaultLocale
    ensures stored.Some? && stored.value != "" ==> s.locale == stored.value
  {
    Restore(Init(stored))
  }

  /** `toggleLocale`: `'en'` becomes `'pl'`, anything else becomes `'en'`, and
      the new locale is written to storage. */
  function Toggle(s: LocaleState): (r: LocaleState)
    ensures Supported(r.locale)
    ensures r.locale != s.locale
    ensures r.stored == Some(r.locale)
  {
    var next := if s.locale == English then Polish else English;
    LocaleState(next, Some(next))
  }

  // ---------------------------------------------------------------------
  // Label tables

  /** The keys both label tables define. */
  const LabelKeys: set<string> := {
    "title", "amount", "date", "fromCurrency", "toCurrency", "convert",
    "convertedAmount", "exchangeRatesOn", "todayUnavailable", "apiUnavailable",
    "emptyAmount"
  }

  const EnglishLabels: map<string, string> := map[
    "title" := "Currency Converter",
    "amount" := "Amount",
    "date" := "Date",
    "fromCurrency" := "From Currency",
    "toCurrency" := "To Currency",
    "convert" := "Convert",
    "convertedAmount" := "Converted Amount",
    "exchangeRatesOn" := "Exchange Rates on",
    "todayUnavailable" := "Exchange rates for today are not available yet, fetching rates for the previous date.",
    "apiUnavailable" := "API is not available. Please try again later or select a different date.",
    "emptyAmount" := "Please enter an amount to convert."
  ]

  const PolishLabels: map<string, string> := map[
    "title" := "Przelicznik Walut",
    "amount" := "Kwota",
    "date" := "Data",
    "fromCurrency" := "Z Waluty",
    "toCurrency" := "Na Walutę",
    "convert" := "Przelicz",
    "convertedAmount" := "Przeliczona Kwota",
    "exchangeRatesOn" := "Kursy Walut na",
    "todayUnavailable" := "Kursy walut na dzisiaj nie są jeszcze dostępne, pobieranie kursów na poprzednią datę.",
    "apiUnavailable" := "API jest niedostępne. Spróbuj ponownie później lub wybierz inną datę.",
    "emptyAmount" := "Proszę wprowadzić kwotę do przeliczenia."
  ]

  /** `labels[locale]`, as a lookup of the object's own keys: the table for
      a supported locale, and `None` for any other string a restored locale
      may hold. Names inherited from `Object.prototype` are not modelled. */
  function Labels(locale: string): (r: Option<map<string, string>>)
    ensures r.Some? <==> Supported(locale)
    ensures r.Some? ==> r.value.Keys == LabelKeys
    ensures locale == English ==> r == Some(EnglishLabels)
    ensures locale == Polish ==> r == Some(PolishLabels)
  {
    if locale == English then Some(EnglishLabels)
    else if locale == Polish then Some(PolishLabels)
    else None
  }

  // ---------------------------------------------------------------------
  // Properties

  /** The two label tables define the same keys. */
  lemma SameLabelKeys()
    ensures EnglishLabels.Keys == PolishLabels.Keys == LabelKeys
  {
  }

  /** Toggling maps en to pl and every other locale to en. */
  lemma ToggleMapping(s: LocaleState)
    ensures s.locale == English ==> Toggle(s).locale == Polish
    ensures s.locale != English ==> Toggle(s).locale == English
  {
  }

  /** Toggling twice from a supported locale returns to it, and storage
      then holds that locale. */
  lemma ToggleTwice(s: LocaleState)
    requires Supported(s.locale)
    ensures Toggle(Toggle(s)).locale == s.locale
    ensures Toggle(Toggle(s)) == LocaleState(s.locale, Some(s.locale))
  {
  }

  /** From an unsupported restored locale, two toggles land on pl. */
  lemma ToggleTwiceUnsupported(s: LocaleState)
    requires !Supported(s.locale)
    ensures Toggle(Toggle(s)).locale == Polish
  {
  }

  /** After a toggle the labels are always defined, and the next mount
      restores the toggled locale. */
  lemma ToggleThenRemount(s: LocaleState)
    ensures Labels(Toggle(s).locale).Some?
    ensures Mount(Toggle(s).stored).locale == Toggle(s).locale
  {
  }

  /** Labels are undefined exactly when a restored value is not en/pl. */
  lemma MountedLabelsDefined(stored: Option<string>)
    ensures Labels(Mount(stored).locale).Some?
            <==> stored == None || stored == Some("") || Supported(stored.value)
  {
  }
}
