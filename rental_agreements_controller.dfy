// RentalAgreementsController: the rental agreement list (join with clients
// and cars, sort and filter by total amount, paging, sticky filters in
// cookies) and the Create / Edit / Delete posts on the RentalAgreements table.

module RentalAgreementsController {
  import opened Optional
  import opened Text
  import opened Numerals
  import opened SortViewModels
  import opened PageViewModels
  import opened QueryPipeline
  import opened Http
  import opened Store

  const TotalAmountCookie: string := "RentalTotalAmount"
  const SortOrderCookie: string := "RentalSortOrder"
  const TotalAmountQueryKey: string := "TotalAmount"
  const SortOrderQueryKey: string := "sortOrder"
  const DefaultSortOrder: SortState := No

  /** A row of the agreement list. */
  datatype RentalAgreementItem = RentalAgreementItem(
    id: int,
    fullName: Option<string>,
    licenseNumber: Option<string>,
    phoneNumber: Option<string>,
    brand: string,
    model: string,
    startDateTime: DateOnly,
    plannedEndDateTime: DateOnly,
    actualEndDateTime: DateOnly,
    totalAmount: Decimal)

  /** The create / edit form; `id` is the hidden key field of the edit form. */
  datatype RentalAgreementForm = RentalAgreementForm(
    id: int,
    clientId: int,
    carId: int,
    startDateTime: DateOnly,
    plannedEndDateTime: DateOnly,
    actualEndDateTime: DateOnly,
    totalAmount: Decimal)

  // ---------------------------------------------------------------- list

  /** An agreement with its client, the result of the first join. */
  datatype WithClient = WithClient(agreement: Entry<RentalAgreement>, client: Entry<Client>)

  /** The first join condition `agreement.ClientId equals client.ClientId`. */
  predicate OfClient(agreement: Entry<RentalAgreement>, client: Entry<Client>) {
    agreement.row.clientId == client.id
  }

  /** The second join condition `agreement.CarId equals car.CarId`. */
  predicate OfCar(pair: WithClient, car: Entry<Car>) {
    pair.agreement.row.carId == car.id
  }

  function Pair(agreement: Entry<RentalAgreement>, client: Entry<Client>): WithClient {
    WithClient(agreement, client)
  }

  function ToItem(pair: WithClient, car: Entry<Car>): RentalAgreementItem {
    var a := pair.agreement;
    var c := pair.client.row;
    RentalAgreementItem(a.id, c.fullName, c.licenseNumber, c.phoneNumber, car.row.brand, car.row.model,
      a.row.startDateTime, a.row.plannedEndDateTime, a.row.actualEndDateTime, a.row.totalAmount)
  }

  /**
   * Every agreement with its client and car, as list rows: agreements in
   * table order, each once per matching client and car.
   */
  function RentalAgreementItems(
    agreements: seq<Entry<RentalAgreement>>, clients: seq<Entry<Client>>, cars: seq<Entry<Car>>): seq<RentalAgreementItem>
  {
    Join(Join(agreements, clients, OfClient, Pair), cars, OfCar, ToItem)
  }

  function AmountKey(item: RentalAgreementItem): int {
    item.totalAmount
  }

  function AmountIs(amount: Decimal): RentalAgreementItem -> bool {
    (item: RentalAgreementItem) => item.totalAmount == amount
  }

  /** The rows a positive amount filter keeps (all of them for a non-positive one), in source order. */
  function Matching(items: seq<RentalAgreementItem>, amount: Decimal): seq<RentalAgreementItem> {
    WhereIf(items, amount > 0, AmountIs(amount))
  }

  /** The `switch (sortOrder)` of Sort_Search: only the two amount states sort. */
  function SortDirection(sortOrder: SortState): Direction {
    if sortOrder == TotalAmountAsc then Ascending
    else if sortOrder == TotalAmountDesc then Descending
    else SourceOrder
  }

  /** `Sort_Search`: order by total amount when the state names it, then filter by an exact positive amount. */
  function SortSearch(items: seq<RentalAgreementItem>, sortOrder: SortState, amount: Decimal): seq<RentalAgreementItem> {
    WhereIf(OrderByKey(items, AmountKey, IntLe, SortDirection(sortOrder)), amount > 0, AmountIs(amount))
  }

  /**
   * Sort_Search returns exactly the matching rows (as a multiset), ordered
   * non-decreasingly or non-increasingly by total amount for the two amount
   * states, and in source order for every other state.
   */
  lemma SortSearchSpec(items: seq<RentalAgreementItem>, sortOrder: SortState, amount: Decimal)
    ensures var r := SortSearch(items, sortOrder, amount);
      && multiset(r) == multiset(Matching(items, amount))
      && |r| <= |items|
      && (forall i :: 0 <= i < |r| ==> r[i] in items && (amount > 0 ==> r[i].totalAmount == amount))
      && (forall i :: 0 <= i < |items| && (amount > 0 ==> items[i].totalAmount == amount) ==> items[i] in r)
      && (sortOrder == TotalAmountAsc ==> forall i, j :: 0 <= i < j < |r| ==> r[i].totalAmount <= r[j].totalAmount)
      && (sortOrder == TotalAmountDesc ==> forall i, j :: 0 <= i < j < |r| ==> r[i].totalAmount >= r[j].totalAmount)
      && (sortOrder != TotalAmountAsc && sortOrder != TotalAmountDesc ==> r == Matching(items, amount))
  {
    IntLeTotalPreorder();
    OrderByKeyThenWhereIf(items, AmountKey, IntLe, SortDirection(sortOrder), amount > 0, AmountIs(amount));
  }

  function TotalAmountFromCookie(cookies: CookieJar): Decimal {
    DecimalCookie(cookies, TotalAmountCookie, 0)
  }

  function SortOrderFromCookie(cookies: CookieJar): SortState {
    SortCookie(cookies, SortOrderCookie, DefaultSortOrder)
  }

  /** The two cookies Index appends: the effective amount and sort order as text. */
  function SetFilterCookies(amount: Decimal, sortOrder: SortState): CookieJar {
    map[TotalAmountCookie := DecimalToString(amount), SortOrderCookie := Name(sortOrder)]
  }

  function GetSortDescription(sortOrder: SortState): (r: string)
    ensures r == "Без сортировки" <==> sortOrder != TotalAmountAsc && sortOrder != TotalAmountDesc
  {
    match sortOrder
    case TotalAmountAsc => "По сумме (возр.)"
    case TotalAmountDesc => "По сумме (убыв.)"
    case _ => "Без сортировки"
  }

  /** The filter's ViewBag label: a positive filter as a numeral that reads back as it, else "Все суммы". */
  function FilterLabel(amount: Decimal): (r: string)
    ensures amount > 0 ==> TryParseDecimal(r) == Some(amount)
    ensures amount <= 0 ==> r == "Все суммы"
  {
    DecimalRoundTrip(amount);
    if amount > 0 then DecimalToString(amount) else "Все суммы"
  }

  /** The effective amount: the bound argument when `TotalAmount` is in the query string, else the cookie, else 0. */
  function EffectiveTotalAmount(req: Request, totalAmount: Decimal): Decimal {
    if req.HasQueryKey(TotalAmountQueryKey) then totalAmount else TotalAmountFromCookie(req.cookies)
  }

  /** The effective sort order: the bound argument when `sortOrder` is in the query string, else the cookie, else No. */
  function EffectiveSortOrder(req: Request, sortOrder: SortState): SortState {
    if req.HasQueryKey(SortOrderQueryKey) then sortOrder else SortOrderFromCookie(req.cookies)
  }

  /** The amount resolution: query value (even 0), else an integer numeral in the cookie, else 0. */
  lemma EffectiveTotalAmountSpec(req: Request, totalAmount: Decimal)
    ensures req.HasQueryKey(TotalAmountQueryKey) ==> EffectiveTotalAmount(req, totalAmount) == totalAmount
    ensures !req.HasQueryKey(TotalAmountQueryKey) && TotalAmountCookie in req.cookies ==>
      forall n: Decimal :: ParseInteger(req.cookies[TotalAmountCookie]) == Some(n) ==> EffectiveTotalAmount(req, totalAmount) == n
    ensures !req.HasQueryKey(TotalAmountQueryKey) && TotalAmountCookie !in req.cookies ==>
      EffectiveTotalAmount(req, totalAmount) == 0
    ensures (&& !req.HasQueryKey(TotalAmountQueryKey) && TotalAmountCookie in req.cookies
             && ParseInteger(req.cookies[TotalAmountCookie]).None?) ==>
      EffectiveTotalAmount(req, totalAmount) == 0
  {
    DecimalCookieSpec(req.cookies, TotalAmountCookie, 0);
  }

  /** The sort resolution: query value, else a cookie naming a state in any letter case, else No. */
  lemma EffectiveSortOrderSpec(req: Request, sortOrder: SortState)
    ensures req.HasQueryKey(SortOrderQueryKey) ==> EffectiveSortOrder(req, sortOrder) == sortOrder
    ensures !req.HasQueryKey(SortOrderQueryKey) && SortOrderCookie in req.cookies ==>
      forall s :: EqualsIgnoreCase(Trim(req.cookies[SortOrderCookie]), Name(s)) ==> EffectiveSortOrder(req, sortOrder) == s
    ensures (&& !req.HasQueryKey(SortOrderQueryKey) && SortOrderCookie in req.cookies
             && forall s :: !EqualsIgnoreCase(Trim(req.cookies[SortOrderCookie]), Name(s))) ==>
      EffectiveSortOrder(req, sortOrder) == No
    ensures !req.HasQueryKey(SortOrderQueryKey) && SortOrderCookie !in req.cookies ==>
      EffectiveSortOrder(req, sortOrder) == No
  {
    SortCookieSpec(req.cookies, SortOrderCookie, DefaultSortOrder);
  }

  /** The list page for effective amount `amount` and sort order `sort`. */
  function RentalAgreementList(
    agreements: seq<Entry<RentalAgreement>>, clients: seq<Entry<Client>>, cars: seq<Entry<Car>>,
    amount: Decimal, sort: SortState, page: Int32, pageSize: Int32): ListView<RentalAgreementItem, Decimal>
    requires pageSize > 0
  {
    var all := RentalAgreementItems(agreements, clients, cars);
    var query := SortSearch(all, sort, amount);
    ListView(
      PageSlice(query, page, pageSize),
      NewPageViewModel(|query|, page, pageSize),
      Some(NewSortViewModel(sort)),
      amount,
      |all|,
      FilterLabel(amount),
      amount > 0 || sort != DefaultSortOrder,
      Some(GetSortDescription(sort)))
  }

  /**
   * The list page: `count` is the filtered length, at most `totalAll` (the
   * unfiltered join); the page holds the rows from (page - 1) * pageSize on,
   * every one matching the filter and in the requested order; HasFilters
   * holds exactly when the amount is positive or some sort is chosen.
   */
  lemma RentalAgreementListSpec(
    agreements: seq<Entry<RentalAgreement>>, clients: seq<Entry<Client>>, cars: seq<Entry<Car>>,
    amount: Decimal, sort: SortState, page: Int32, pageSize: Int32)
    requires page >= 1 && pageSize > 0
    ensures var v := RentalAgreementList(agreements, clients, cars, amount, sort, page, pageSize);
      var all := RentalAgreementItems(agreements, clients, cars);
      var count := v.paging.totalItems;
      && v.filter == amount && v.sorting == Some(NewSortViewModel(sort))
      && v.totalAll == |all|
      && count == |Matching(all, amount)| && count <= v.totalAll
      && v.paging.page == page && v.paging.pageSize == pageSize
      && |v.items| == Min(pageSize, Max(0, count - (page - 1) * pageSize))
      && (forall i :: 0 <= i < |v.items| ==> v.items[i] in all && (amount > 0 ==> v.items[i].totalAmount == amount))
      && (sort == TotalAmountAsc ==> forall i, j :: 0 <= i < j < |v.items| ==> v.items[i].totalAmount <= v.items[j].totalAmount)
      && (sort == TotalAmountDesc ==> forall i, j :: 0 <= i < j < |v.items| ==> v.items[i].totalAmount >= v.items[j].totalAmount)
      && (sort != TotalAmountAsc && sort != TotalAmountDesc ==> v.items == PageSlice(Matching(all, amount), page, pageSize))
      && (v.hasFilters <==> amount > 0 || sort != No)
  {
    var all := RentalAgreementItems(agreements, clients, cars);
    PageCount(all, sort, amount, page, pageSize);
    PageRowsMatch(all, sort, amount, page, pageSize);
    if sort == TotalAmountAsc {
      PageAscending(all, amount, page, pageSize);
    } else if sort == TotalAmountDesc {
      PageDescending(all, amount, page, pageSize);
    } else {
      assert SortDirection(sort) == SourceOrder;
    }
  }

  /** The size of the page of Sort_Search's result. */
  lemma PageCount(all: seq<RentalAgreementItem>, sort: SortState, amount: Decimal, page: int, pageSize: int)
    requires page >= 1 && pageSize > 0
    ensures var query := SortSearch(all, sort, amount);
      && |query| == |Matching(all, amount)| && |query| <= |all|
      && |PageSlice(query, page, pageSize)| == Min(pageSize, Max(0, |query| - (page - 1) * pageSize))
  {
    var query := SortSearch(all, sort, amount);
    SortSearchSpec(all, sort, amount);
    assert |query| == |multiset(query)| == |multiset(Matching(all, amount))| == |Matching(all, amount)|;
    PageSliceSpec(query, page, pageSize);
  }

  /** Every row of the page of Sort_Search's result is an agreement matching the filter. */
  lemma PageRowsMatch(all: seq<RentalAgreementItem>, sort: SortState, amount: Decimal, page: int, pageSize: int)
    requires page >= 1 && pageSize > 0
    ensures var items := PageSlice(SortSearch(all, sort, amount), page, pageSize);
      forall i :: 0 <= i < |items| ==> items[i] in all && (amount > 0 ==> items[i].totalAmount == amount)
  {
    SortSearchSpec(all, sort, amount);
    PageSliceMembers(SortSearch(all, sort, amount), page, pageSize);
  }

  /** Under TotalAmountAsc the page is non-decreasing in total amount. */
  lemma PageAscending(all: seq<RentalAgreementItem>, amount: Decimal, page: int, pageSize: int)
    requires page >= 1 && pageSize > 0
    ensures var items := PageSlice(SortSearch(all, TotalAmountAsc, amount), page, pageSize);
      forall i, j :: 0 <= i < j < |items| ==> items[i].totalAmount <= items[j].totalAmount
  {
    IntLeTotalPreorder();
    PageAscendingByKey(all, AmountKey, IntLe, amount > 0, AmountIs(amount), page, pageSize);
  }

  /** Under TotalAmountDesc the page is non-increasing in total amount. */
  lemma PageDescending(all: seq<RentalAgreementItem>, amount: Decimal, page: int, pageSize: int)
    requires page >= 1 && pageSize > 0
    ensures var items := PageSlice(SortSearch(all, TotalAmountDesc, amount), page, pageSize);
      forall i, j :: 0 <= i < j < |items| ==> items[i].totalAmount >= items[j].totalAmount
  {
    IntLeTotalPreorder();
    PageDescendingByKey(all, AmountKey, IntLe, amount > 0, AmountIs(amount), page, pageSize);
  }

  /**
   * `Index(TotalAmount, sortOrder, page)` over the RentalAgreements, Clients
   * and Cars tables: the arguments are what model binding produced, and
   * count only when their key is in the query string.
   */
  function Index(
    req: Request, totalAmount: Decimal, sortOrder: SortState, page: Int32, pageSize: Int32,
    agreements: seq<Entry<RentalAgreement>>, clients: seq<Entry<Client>>, cars: seq<Entry<Car>>)
    : (r: IndexResult<RentalAgreementItem, Decimal>)
    requires page >= 1 && pageSize > 0
    ensures r.RedirectToHome? <==> !req.authenticated
    ensures r.Rendered? <==> req.authenticated
  {
    if !req.authenticated then RedirectToHome
    else
      var filterTotalAmount := EffectiveTotalAmount(req, totalAmount);
      var filterSortOrder := EffectiveSortOrder(req, sortOrder);
      Rendered(
        RentalAgreementList(agreements, clients, cars, filterTotalAmount, filterSortOrder, page, pageSize),
        SetFilterCookies(filterTotalAmount, filterSortOrder))
  }

  /** What SetFilterCookies appends reads back as the same amount and sort order. */
  lemma CookiesReadBack(jar: CookieJar, amount: Decimal, sort: SortState)
    ensures TotalAmountFromCookie(ApplySetCookies(jar, SetFilterCookies(amount, sort))) == amount
    ensures SortOrderFromCookie(ApplySetCookies(jar, SetFilterCookies(amount, sort))) == sort
  {
    assert |TotalAmountCookie| != |SortOrderCookie|;
    var next := ApplySetCookies(jar, SetFilterCookies(amount, sort));
    DecimalCookieRoundTrip(next, TotalAmountCookie, amount, 0);
    SortCookieRoundTrip(next, SortOrderCookie, sort, DefaultSortOrder);
  }

  /** An authenticated Index renders the list for the effective values and leaves both in the cookies. */
  lemma IndexPage(
    req: Request, totalAmount: Decimal, sortOrder: SortState, page: Int32, pageSize: Int32,
    agreements: seq<Entry<RentalAgreement>>, clients: seq<Entry<Client>>, cars: seq<Entry<Car>>)
    requires page >= 1 && pageSize > 0 && req.authenticated
    ensures var r := Index(req, totalAmount, sortOrder, page, pageSize, agreements, clients, cars);
      var filterTotalAmount := EffectiveTotalAmount(req, totalAmount);
      var filterSortOrder := EffectiveSortOrder(req, sortOrder);
      && r.view == RentalAgreementList(agreements, clients, cars, filterTotalAmount, filterSortOrder, page, pageSize)
      && r.setCookies == SetFilterCookies(filterTotalAmount, filterSortOrder)
      && TotalAmountFromCookie(ApplySetCookies(req.cookies, r.setCookies)) == filterTotalAmount
      && SortOrderFromCookie(ApplySetCookies(req.cookies, r.setCookies)) == filterSortOrder
  {
    var filterTotalAmount := EffectiveTotalAmount(req, totalAmount);
    var filterSortOrder := EffectiveSortOrder(req, sortOrder);
    assert Index(req, totalAmount, sortOrder, page, pageSize, agreements, clients, cars)
      == Rendered(RentalAgreementList(agreements, clients, cars, filterTotalAmount, filterSortOrder, page, pageSize), SetFilterCookies(filterTotalAmount, filterSortOrder));
    CookiesReadBack(req.cookies, filterTotalAmount, filterSortOrder);
  }


  /** Neither query keys nor cookies: amount 0, no sort, no active filter, the agreements in join order. */
  lemma IndexFirstVisit(
    req: Request, totalAmount: Decimal, sortOrder: SortState, page: Int32, pageSize: Int32,
    agreements: seq<Entry<RentalAgreement>>, clients: seq<Entry<Client>>, cars: seq<Entry<Car>>)
    requires page >= 1 && pageSize > 0 && req.authenticated
    requires !req.HasQueryKey(TotalAmountQueryKey) && !req.HasQueryKey(SortOrderQueryKey)
    requires TotalAmountCookie !in req.cookies && SortOrderCookie !in req.cookies
    ensures var r := Index(req, totalAmount, sortOrder, page, pageSize, agreements, clients, cars);
      && r.view.filter == 0
      && r.view.sorting == Some(NewSortViewModel(No))
      && !r.view.hasFilters
      && r.view.paging.totalItems == r.view.totalAll
      && r.view.items == PageSlice(RentalAgreementItems(agreements, clients, cars), page, pageSize)
      && r.setCookies == map[TotalAmountCookie := "0", SortOrderCookie := "No"]
  {
    RentalAgreementListSpec(agreements, clients, cars, 0, No, page, pageSize);
    assert NatToDigits(0) == "0";
  }

  /**
   * Filters are sticky: coming back with neither query key and the cookies
   * the previous response set renders the same page and sets the same cookies.
   */
  lemma IndexRemembersFilters(
    req: Request, totalAmount: Decimal, sortOrder: SortState, page: Int32, pageSize: Int32,
    agreements: seq<Entry<RentalAgreement>>, clients: seq<Entry<Client>>, cars: seq<Entry<Car>>,
    laterKeys: set<string>, laterAmount: Decimal, laterSort: SortState)
    requires page >= 1 && pageSize > 0 && req.authenticated
    requires !HasKey(laterKeys, TotalAmountQueryKey) && !HasKey(laterKeys, SortOrderQueryKey)
    ensures var first := Index(req, totalAmount, sortOrder, page, pageSize, agreements, clients, cars);
      var later := Request(true, laterKeys, ApplySetCookies(req.cookies, first.setCookies));
      Index(later, laterAmount, laterSort, page, pageSize, agreements, clients, cars) == first
  {
    CookiesReadBack(req.cookies, EffectiveTotalAmount(req, totalAmount), EffectiveSortOrder(req, sortOrder));
  }

  // ---------------------------------------------------------------- edits

  /** The entity a form describes (the form's key is not copied). */
  function FormToRentalAgreement(ra: RentalAgreementForm): RentalAgreement {
    RentalAgreement(ra.clientId, ra.carId, ra.startDateTime, ra.plannedEndDateTime, ra.actualEndDateTime, ra.totalAmount)
  }

  /** `Create(RentalAgreementEditCreateViewModel)` POST. */
  method CreatePost(db: Db, ra: RentalAgreementForm, modelValid: bool) returns (r: ActionResult<RentalAgreementForm>)
    requires db.Valid()
    modifies db.rentalAgreements
    ensures db.Valid()
    ensures !modelValid ==> r == View(ra) && unchanged(db.rentalAgreements)
    ensures modelValid ==>
      && r == RedirectToIndex
      && old(db.rentalAgreements.nextId) !in old(db.rentalAgreements.rows)
      && db.rentalAgreements.rows == old(db.rentalAgreements.rows)[old(db.rentalAgreements.nextId) := FormToRentalAgreement(ra)]
      && |db.rentalAgreements.rows| == |old(db.rentalAgreements.rows)| + 1
  {
    if !modelValid {
      return View(ra);
    }
    var _ := db.rentalAgreements.Add(FormToRentalAgreement(ra));
    return RedirectToIndex;
  }

  /** `Edit(id, RentalAgreementEditCreateViewModel)` POST: overwrites every column but the key. */
  method EditPost(db: Db, id: int, ra: RentalAgreementForm, modelValid: bool) returns (r: ActionResult<RentalAgreementForm>)
    requires db.Valid()
    modifies db.rentalAgreements
    ensures db.Valid()
    ensures id != ra.id ==> r == NotFound && unchanged(db.rentalAgreements)
    ensures id == ra.id && !modelValid ==> r == View(ra) && unchanged(db.rentalAgreements)
    ensures id == ra.id && modelValid && id !in old(db.rentalAgreements.rows) ==>
      r == NotFound && unchanged(db.rentalAgreements)
    ensures id == ra.id && modelValid && id in old(db.rentalAgreements.rows) ==>
      && r == RedirectToIndex
      && db.rentalAgreements.rows == old(db.rentalAgreements.rows)[id := FormToRentalAgreement(ra)]
      && db.rentalAgreements.keys == old(db.rentalAgreements.keys)
  {
    if id != ra.id {
      return NotFound;
    }
    if !modelValid {
      return View(ra);
    }
    if db.rentalAgreements.Find(id).None? {
      return NotFound;
    }
    db.rentalAgreements.Update(id, FormToRentalAgreement(ra));
    return RedirectToIndex;
  }

  /** `Delete(int? id)` GET: the confirmation page of an existing agreement. */
  function DeleteGet(db: Db, id: Option<int>): (r: ActionResult<Entry<RentalAgreement>>)
    reads db, db.rentalAgreements
    ensures r == NotFound <==> id.None? || id.value !in db.rentalAgreements.rows
    ensures r != NotFound ==> r == View(Entry(id.value, db.rentalAgreements.rows[id.value]))
  {
    if id.None? then NotFound
    else match db.rentalAgreements.Find(id.value)
      case None => NotFound
      case Some(agreement) => View(Entry(id.value, agreement))
  }

  /**
   * `Delete(int id)` POST, unguarded: `Remove(null)` of a missing id throws
   * before anything is saved.
   */
  method DeletePost(db: Db, id: int) returns (r: ActionResult<RentalAgreementForm>)
    requires db.Valid()
    modifies db.rentalAgreements
    ensures db.Valid()
    ensures id in old(db.rentalAgreements.rows) ==>
      && r == RedirectToIndex
      && db.rentalAgreements.rows == old(db.rentalAgreements.rows) - {id}
      && |db.rentalAgreements.rows| == |old(db.rentalAgreements.rows)| - 1
    ensures id !in old(db.rentalAgreements.rows) ==> r == UnhandledException && unchanged(db.rentalAgreements)
  {
    if db.rentalAgreements.Find(id).None? {
      return UnhandledException;
    }
    db.rentalAgreements.Remove(id);
    return RedirectToIndex;
  }
}
