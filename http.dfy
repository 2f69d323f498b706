// The request as the controllers see it (authentication, query keys,
// cookies), the cookie readers and writers, the action results, the list
// view model every Index renders, and the page-size setting.

module Http {
  import opened Optional
  import opened Text
  import opened Numerals
  import opened SortViewModels
  import opened PageViewModels

  /** Cookie name to (decoded) cookie value. */
  type CookieJar = map<string, string>

  /** `Request.Query.ContainsKey(key)`: query-string keys compare ignoring case. */
  predicate HasKey(queryKeys: set<string>, key: string) {
    exists k | k in queryKeys :: EqualsIgnoreCase(k, key)
  }

  datatype Request = Request(authenticated: bool, queryKeys: set<string>, cookies: CookieJar)
  {
    predicate HasQueryKey(key: string) {
      HasKey(queryKeys, key)
    }
  }

  /** A decimal filter cookie: its parsed value when present and parseable, else `default`. */
  function DecimalCookie(cookies: CookieJar, name: string, default: Decimal): Decimal {
    if name in cookies && TryParseDecimal(cookies[name]).Some? then TryParseDecimal(cookies[name]).value
    else default
  }

  /** A sort-order cookie, parsed with `Enum.TryParse(value, ignoreCase: true)`, else `default`. */
  function SortCookie(cookies: CookieJar, name: string, default: SortState): SortState {
    if name in cookies && TryParse(cookies[name]).Some? then TryParse(cookies[name]).value
    else default
  }

  /** A text filter cookie taken as it is (`value ?? ""`): "" when absent. */
  function StringCookie(cookies: CookieJar, name: string): string {
    if name in cookies then cookies[name] else ""
  }

  /** The browser's cookies after a response that appended `written`. */
  function ApplySetCookies(jar: CookieJar, written: CookieJar): (r: CookieJar)
    ensures forall name :: name in written ==> name in r && r[name] == written[name]
    ensures forall name :: name !in written && name in jar ==> name in r && r[name] == jar[name]
    ensures r.Keys == jar.Keys + written.Keys
  {
    jar + written
  }

  /** The decimal reader: a cookie holding an integer numeral in range gives its value; anything else the default. */
  lemma DecimalCookieSpec(cookies: CookieJar, name: string, default: Decimal)
    ensures name !in cookies ==> DecimalCookie(cookies, name, default) == default
    ensures name in cookies && ParseInteger(cookies[name]).None? ==> DecimalCookie(cookies, name, default) == default
    ensures name in cookies ==> forall n: Decimal ::
      ParseInteger(cookies[name]) == Some(n) ==> DecimalCookie(cookies, name, default) == n
  {
    if name in cookies {
      TryParseDecimalOfParse(cookies[name]);
    }
  }

  /** The sort reader: a cookie naming a state (any letter case, white space around it) gives that state; anything else the default. */
  lemma SortCookieSpec(cookies: CookieJar, name: string, default: SortState)
    ensures name !in cookies ==> SortCookie(cookies, name, default) == default
    ensures name in cookies ==> forall s ::
      EqualsIgnoreCase(Trim(cookies[name]), Name(s)) ==> SortCookie(cookies, name, default) == s
    ensures (name in cookies && forall s :: !EqualsIgnoreCase(Trim(cookies[name]), Name(s))) ==>
      SortCookie(cookies, name, default) == default
  {
    if name in cookies {
      var text := cookies[name];
      forall s | EqualsIgnoreCase(Trim(text), Name(s)) ensures SortCookie(cookies, name, default) == s {
        TryParseIff(text, s);
      }
      if TryParse(text).Some? {
        TryParseIff(text, TryParse(text).value);
      }
    }
  }

  /** A decimal written with `ToString()` reads back as itself, whatever the reader's default. */
  lemma DecimalCookieRoundTrip(cookies: CookieJar, name: string, d: Decimal, default: Decimal)
    requires name in cookies && cookies[name] == DecimalToString(d)
    ensures DecimalCookie(cookies, name, default) == d
  {
    DecimalRoundTrip(d);
  }

  /** A sort state written with `ToString()` reads back as itself. */
  lemma SortCookieRoundTrip(cookies: CookieJar, name: string, s: SortState, default: SortState)
    requires name in cookies && cookies[name] == Name(s)
    ensures SortCookie(cookies, name, default) == s
  {
    NameRoundTrip(s);
  }

  /** The outcomes of the CRUD actions. */
  datatype ActionResult<M> =
    | NotFound
    | RedirectToIndex
    | View(model: M)
    /** An exception the action does not catch (the generic error page). */
    | UnhandledException

  /**
   * What an Index renders: the page of rows, paging and sort metadata, the
   * effective filter value, and the ViewBag facts (unfiltered total, the
   * filter's label, whether any non-default filter or sort is active, the
   * sort description).
   */
  datatype ListView<R, F> = ListView(
    items: seq<R>,
    paging: PageViewModel,
    sorting: Option<SortViewModel>,
    filter: F,
    totalAll: nat,
    filterLabel: string,
    hasFilters: bool,
    sortDescription: Option<string>)

  /**
   * Index either redirects an anonymous user home, renders and appends
   * cookies, or throws an exception it does not catch (the error page).
   */
  datatype IndexResult<R, F> =
    | RedirectToHome
    | Rendered(view: ListView<R, F>, setCookies: CookieJar)
    | Throws

  const PageSizeKey: string := "Parameters:PageSize"
  const DefaultPageSize: Int32 := 20

  /**
   * The controllers' page size: the configured `Parameters:PageSize` when a
   * configuration is given and that value parses as a 32-bit integer, else 20.
   */
  function PageSizeSetting(config: Option<map<string, string>>): (r: Int32)
    ensures config.None? ==> r == DefaultPageSize
    ensures config.Some? && PageSizeKey !in config.value ==> r == DefaultPageSize
    ensures config.Some? && PageSizeKey in config.value ==>
      r == match TryParseInt32(config.value[PageSizeKey]) case Some(n) => n case None => DefaultPageSize
  {
    if config.Some? && PageSizeKey in config.value && TryParseInt32(config.value[PageSizeKey]).Some? then
      TryParseInt32(config.value[PageSizeKey]).value
    else DefaultPageSize
  }

  /** A configured numeral is used as it is written. */
  lemma PageSizeFromNumeral(config: map<string, string>, n: Int32)
    requires PageSizeKey in config && config[PageSizeKey] == FormatInteger(n)
    ensures PageSizeSetting(Some(config)) == n
  {
    Int32RoundTrip(n);
  }
}
