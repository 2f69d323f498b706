// RentalHistoriesController: the rental history list (join with clients,
// filter by total amount, paging, the amount remembered in a cookie) and the
// Create / Edit / Delete posts on the RentalHistory table.

module RentalHistoriesController {
  import opened Optional
  import opened Text
  import opened Numerals
  import opened PageViewModels
  import opened QueryPipeline
  import opened Http
  import opened Store

  const TotalAmountCookie: string := "RentalHistoryTotalAmount"
  const TotalAmountQueryKey: string := "totalAmount"

  /** A row of the rental history list. */
  datatype RentalHistoryItem = RentalHistoryItem(
    id: int,
    fullName: Option<string>,
    licenseNumber: Option<string>,
    phoneNumber: Option<string>,
    startDateTime: DateOnly,
    actualEndDateTime: DateOnly,
    totalAmount: Decimal)

  /** The create / edit form; `id` is the hidden key field of the edit form. */
  datatype RentalHistoryForm = RentalHistoryForm(
    id: int,
    clientId: int,
    startDateTime: DateOnly,
    actualEndDateTime: DateOnly,
    totalAmount: Decimal)

  // ---------------------------------------------------------------- list

  /** The join condition `rental.ClientId equals client.ClientId`. */
  predicate OfClient(rental: Entry<RentalHistory>, client: Entry<Client>) {
    rental.row.clientId == client.id
  }

  function ToItem(rental: Entry<RentalHistory>, client: Entry<Client>): RentalHistoryItem {
    RentalHistoryItem(rental.id, client.row.fullName, client.row.licenseNumber, client.row.phoneNumber,
      rental.row.startDateTime, rental.row.actualEndDateTime, rental.row.totalAmount)
  }

  /** Every rental with its client, as list rows, in rental order. */
  function RentalHistoryItems(rentals: seq<Entry<RentalHistory>>, clients: seq<Entry<Client>>): seq<RentalHistoryItem> {
    Join(rentals, clients, OfClient, ToItem)
  }

  function AmountIs(amount: Decimal): RentalHistoryItem -> bool {
    (item: RentalHistoryItem) => item.totalAmount == amount
  }

  /**
   * `Sort_Search`: a positive amount keeps exactly the rows with that total
   * amount, in source order; a non-positive one keeps every row.
   */
  function SortSearch(items: seq<RentalHistoryItem>, amount: Decimal): (r: seq<RentalHistoryItem>)
    ensures amount <= 0 ==> r == items
    ensures |r| <= |items|
    ensures forall i :: 0 <= i < |r| ==> r[i] in items && (amount > 0 ==> r[i].totalAmount == amount)
    ensures forall i :: 0 <= i < |items| && (amount > 0 ==> items[i].totalAmount == amount) ==> items[i] in r
  {
    WhereIf(items, amount > 0, AmountIs(amount))
  }

  function TotalAmountFromCookie(cookies: CookieJar): Decimal {
    DecimalCookie(cookies, TotalAmountCookie, 0)
  }

  /** The cookie Index appends: the effective amount as text. */
  function SetTotalAmountCookie(amount: Decimal): CookieJar {
    map[TotalAmountCookie := DecimalToString(amount)]
  }

  /** The filter label reads "<= n" although the filter keeps rows equal to n. */
  function FilterLabel(amount: Decimal): (r: string)
    ensures amount > 0 ==> |r| > 3 && r[..3] == "<= " && TryParseDecimal(r[3..]) == Some(amount)
    ensures amount <= 0 ==> r == "Все суммы"
  {
    DecimalRoundTrip(amount);
    if amount > 0 then
      var r := "<= " + DecimalToString(amount);
      assert r[3..] == DecimalToString(amount);
      r
    else "Все суммы"
  }

  /** The effective amount: the bound argument when `totalAmount` is in the query string, else the cookie, else 0. */
  function EffectiveTotalAmount(req: Request, totalAmount: Decimal): Decimal {
    if req.HasQueryKey(TotalAmountQueryKey) then totalAmount else TotalAmountFromCookie(req.cookies)
  }

  /** The amount resolution: query value (even 0), else an integer numeral in the cookie, else 0. */
  lemma EffectiveTotalAmountSpec(req: Request, totalAmount: Decimal)
    ensures req.HasQueryKey(TotalAmountQueryKey) ==> EffectiveTotalAmount(req, totalAmount) == totalAmount
    ensures !req.HasQueryKey(TotalAmountQueryKey) && TotalAmountCookie in req.cookies ==>
      forall n: Decimal :: ParseInteger(req.cookies[TotalAmountCookie]) == Some(n) ==> EffectiveTotalAmount(req, totalAmount) == n
    ensures !req.HasQueryKey(TotalAmountQueryKey) && TotalAmountCookie !in req.cookies ==>
      EffectiveTotalAmount(req, totalAmount) == 0
    ensures (&& !req.HasQueryKey(TotalAmountQueryKey) && TotalAmountCookie in req.cookies
             && ParseInteger(req.cookies[TotalAmountCookie]).None?) ==>
      EffectiveTotalAmount(req, totalAmount) == 0
  {
    DecimalCookieSpec(req.cookies, TotalAmountCookie, 0);
  }

  /** The list page for the effective amount `amount`; this list has no sort. */
  function RentalHistoryList(
    rentals: seq<Entry<RentalHistory>>, clients: seq<Entry<Client>>, amount: Decimal,
    page: Int32, pageSize: Int32): ListView<RentalHistoryItem, Decimal>
    requires pageSize > 0
  {
    var all := RentalHistoryItems(rentals, clients);
    var query := SortSearch(all, amount);
    ListView(
      PageSlice(query, page, pageSize),
      NewPageViewModel(|query|, page, pageSize),
      None,
      amount,
      |all|,
      FilterLabel(amount),
      amount > 0,
      None)
  }

  /**
   * The list page: `count` is the filtered length, at most `totalAll`; the
   * page is the filtered rows from (page - 1) * pageSize on, in rental
   * order, every one with the requested amount; HasFilters holds exactly
   * when the amount is positive.
   */
  lemma RentalHistoryListSpec(
    rentals: seq<Entry<RentalHistory>>, clients: seq<Entry<Client>>, amount: Decimal,
    page: Int32, pageSize: Int32)
    requires page >= 1 && pageSize > 0
    ensures var v := RentalHistoryList(rentals, clients, amount, page, pageSize);
      var all := RentalHistoryItems(rentals, clients);
      var query := SortSearch(all, amount);
      var count := v.paging.totalItems;
      && v.filter == amount && v.sorting.None?
      && v.totalAll == |all| && count == |query| && count <= v.totalAll
      && v.paging.page == page && v.paging.pageSize == pageSize
      && |v.items| == Min(pageSize, Max(0, count - (page - 1) * pageSize))
      && v.items == PageSlice(query, page, pageSize)
      && (forall i :: 0 <= i < |v.items| ==> v.items[i] in all && (amount > 0 ==> v.items[i].totalAmount == amount))
      && (v.hasFilters <==> amount > 0)
  {
    var query := SortSearch(RentalHistoryItems(rentals, clients), amount);
    PageSliceSpec(query, page, pageSize);
    PageSliceMembers(query, page, pageSize);
  }

  /**
   * `Index(totalAmount, page)` over the RentalHistory and Clients tables: the
   * argument is what model binding produced, and counts only when its key is
   * in the query string.
   */
  function Index(
    req: Request, totalAmount: Decimal, page: Int32, pageSize: Int32,
    rentals: seq<Entry<RentalHistory>>, clients: seq<Entry<Client>>): (r: IndexResult<RentalHistoryItem, Decimal>)
    requires page >= 1 && pageSize > 0
    ensures r.RedirectToHome? <==> !req.authenticated
    ensures r.Rendered? <==> req.authenticated
  {
    if !req.authenticated then RedirectToHome
    else
      var filterTotalAmount := EffectiveTotalAmount(req, totalAmount);
      Rendered(
        RentalHistoryList(rentals, clients, filterTotalAmount, page, pageSize),
        SetTotalAmountCookie(filterTotalAmount))
  }

  /** What SetTotalAmountCookie appends reads back as the same amount. */
  lemma CookieReadsBack(jar: CookieJar, amount: Decimal)
    ensures TotalAmountFromCookie(ApplySetCookies(jar, SetTotalAmountCookie(amount))) == amount
  {
    DecimalCookieRoundTrip(ApplySetCookies(jar, SetTotalAmountCookie(amount)), TotalAmountCookie, amount, 0);
  }

  /** An authenticated Index renders the list for the effective amount and leaves it in the cookie. */
  lemma IndexPage(
    req: Request, totalAmount: Decimal, page: Int32, pageSize: Int32,
    rentals: seq<Entry<RentalHistory>>, clients: seq<Entry<Client>>)
    requires page >= 1 && pageSize > 0 && req.authenticated
    ensures var r := Index(req, totalAmount, page, pageSize, rentals, clients);
      var filterTotalAmount := EffectiveTotalAmount(req, totalAmount);
      && r.view == RentalHistoryList(rentals, clients, filterTotalAmount, page, pageSize)
      && r.setCookies.Keys == {TotalAmountCookie}
      && TotalAmountFromCookie(ApplySetCookies(req.cookies, r.setCookies)) == filterTotalAmount
  {
    CookieReadsBack(req.cookies, EffectiveTotalAmount(req, totalAmount));
  }

  /** Neither query key nor cookie: amount 0, no active filter, every joined rental listed in order. */
  lemma IndexFirstVisit(
    req: Request, totalAmount: Decimal, page: Int32, pageSize: Int32,
    rentals: seq<Entry<RentalHistory>>, clients: seq<Entry<Client>>)
    requires page >= 1 && pageSize > 0 && req.authenticated
    requires !req.HasQueryKey(TotalAmountQueryKey) && TotalAmountCookie !in req.cookies
    ensures var r := Index(req, totalAmount, page, pageSize, rentals, clients);
      && r.view.filter == 0
      && !r.view.hasFilters
      && r.view.paging.totalItems == r.view.totalAll
      && r.view.items == PageSlice(RentalHistoryItems(rentals, clients), page, pageSize)
      && r.setCookies == map[TotalAmountCookie := "0"]
  {
    assert NatToDigits(0) == "0";
  }

  /**
   * The amount is sticky: coming back without the query key and with the
   * cookie the previous response set renders the same page.
   */
  lemma IndexRemembersFilter(
    req: Request, totalAmount: Decimal, page: Int32, pageSize: Int32,
    rentals: seq<Entry<RentalHistory>>, clients: seq<Entry<Client>>,
    laterKeys: set<string>, laterAmount: Decimal)
    requires page >= 1 && pageSize > 0 && req.authenticated
    requires !HasKey(laterKeys, TotalAmountQueryKey)
    ensures var first := Index(req, totalAmount, page, pageSize, rentals, clients);
      var later := Request(true, laterKeys, ApplySetCookies(req.cookies, first.setCookies));
      Index(later, laterAmount, page, pageSize, rentals, clients) == first
  {
    CookieReadsBack(req.cookies, EffectiveTotalAmount(req, totalAmount));
  }

  // ---------------------------------------------------------------- edits

  /** The entity a form describes (the form's key is not copied). */
  function FormToRentalHistory(rh: RentalHistoryForm): RentalHistory {
    RentalHistory(rh.clientId, rh.startDateTime, rh.actualEndDateTime, rh.totalAmount)
  }

  /** `Create(RentalHistoryEditCreateViewModel)` POST. */
  method CreatePost(db: Db, rh: RentalHistoryForm, modelValid: bool) returns (r: ActionResult<RentalHistoryForm>)
    requires db.Valid()
    modifies db.rentalHistory
    ensures db.Valid()
    ensures !modelValid ==> r == View(rh) && unchanged(db.rentalHistory)
    ensures modelValid ==>
      && r == RedirectToIndex
      && old(db.rentalHistory.nextId) !in old(db.rentalHistory.rows)
      && db.rentalHistory.rows == old(db.rentalHistory.rows)[old(db.rentalHistory.nextId) := FormToRentalHistory(rh)]
      && |db.rentalHistory.rows| == |old(db.rentalHistory.rows)| + 1
  {
    if !modelValid {
      return View(rh);
    }
    var _ := db.rentalHistory.Add(FormToRentalHistory(rh));
    return RedirectToIndex;
  }

  /** `Edit(id, RentalHistoryEditCreateViewModel)` POST: overwrites ClientId, both dates and TotalAmount. */
  method EditPost(db: Db, id: int, rh: RentalHistoryForm, modelValid: bool) returns (r: ActionResult<RentalHistoryForm>)
    requires db.Valid()
    modifies db.rentalHistory
    ensures db.Valid()
    ensures id != rh.id ==> r == NotFound && unchanged(db.rentalHistory)
    ensures id == rh.id && !modelValid ==> r == View(rh) && unchanged(db.rentalHistory)
    ensures id == rh.id && modelValid && id !in old(db.rentalHistory.rows) ==> r == NotFound && unchanged(db.rentalHistory)
    ensures id == rh.id && modelValid && id in old(db.rentalHistory.rows) ==>
      && r == RedirectToIndex
      && db.rentalHistory.rows == old(db.rentalHistory.rows)[id := FormToRentalHistory(rh)]
      && db.rentalHistory.keys == old(db.rentalHistory.keys)
  {
    if id != rh.id {
      return NotFound;
    }
    if !modelValid {
      return View(rh);
    }
    if db.rentalHistory.Find(id).None? {
      return NotFound;
    }
    db.rentalHistory.Update(id, FormToRentalHistory(rh));
    return RedirectToIndex;
  }

  /** `Delete(int? id)` GET: the confirmation page of an existing rental. */
  function DeleteGet(db: Db, id: Option<int>): (r: ActionResult<Entry<RentalHistory>>)
    reads db, db.rentalHistory
    ensures r == NotFound <==> id.None? || id.value !in db.rentalHistory.rows
    ensures r != NotFound ==> r == View(Entry(id.value, db.rentalHistory.rows[id.value]))
  {
    if id.None? then NotFound
    else match db.rentalHistory.Find(id.value)
      case None => NotFound
      case Some(rental) => View(Entry(id.value, rental))
  }

  /**
   * `Delete(int id)` POST, unguarded: `Remove(null)` of a missing id throws
   * before anything is saved.
   */
  method DeletePost(db: Db, id: int) returns (r: ActionResult<RentalHistoryForm>)
    requires db.Valid()
    modifies db.rentalHistory
    ensures db.Valid()
    ensures id in old(db.rentalHistory.rows) ==>
      && r == RedirectToIndex
      && db.rentalHistory.rows == old(db.rentalHistory.rows) - {id}
      && |db.rentalHistory.rows| == |old(db.rentalHistory.rows)| - 1
    ensures id !in old(db.rentalHistory.rows) ==> r == UnhandledException && unchanged(db.rentalHistory)
  {
    if db.rentalHistory.Find(id).None? {
      return UnhandledException;
    }
    db.rentalHistory.Remove(id);
    return RedirectToIndex;
  }
}
