// MaintenancesController: the maintenance list (join with cars, sort and
// filter by cost, paging, sticky filters in cookies) and the Create / Edit /
// Delete posts on the Maintenances table.

module MaintenancesController {
  import opened Optional
  import opened Text
  import opened Numerals
  import opened SortViewModels
  import opened PageViewModels
  import opened QueryPipeline
  import opened Http
  import opened Store

  const CostCookie: string := "MaintenanceCost"
  const SortOrderCookie: string := "MaintenanceSortOrder"
  const CostQueryKey: string := "Cost"
  const SortOrderQueryKey: string := "sortOrder"
  const DefaultSortOrder: SortState := CostAsc

  /** A row of the maintenance list. */
  datatype MaintenanceItem = MaintenanceItem(
    id: int,
    brand: string,
    model: string,
    maintenanceDate: DateOnly,
    description: string,
    cost: Decimal)

  /** The create / edit form; `id` is the hidden key field of the edit form. */
  datatype MaintenanceForm = MaintenanceForm(
    id: int,
    carId: int,
    maintenanceDate: DateOnly,
    description: string,
    cost: Decimal)

  // ---------------------------------------------------------------- list

  /** The join condition `maintenance.CarId equals car.CarId`. */
  predicate OfCar(maintenance: Entry<Maintenance>, car: Entry<Car>) {
    maintenance.row.carId == car.id
  }

  function ToItem(maintenance: Entry<Maintenance>, car: Entry<Car>): MaintenanceItem {
    MaintenanceItem(maintenance.id, car.row.brand, car.row.model, maintenance.row.maintenanceDate,
      maintenance.row.description, maintenance.row.cost)
  }

  function JoinedMaintenance(maintenance: Entry<Maintenance>, car: Entry<Car>): Entry<Maintenance> {
    maintenance
  }

  /** Every maintenance with its car, as list rows, in maintenance order. */
  function MaintenanceItems(maintenances: seq<Entry<Maintenance>>, cars: seq<Entry<Car>>): seq<MaintenanceItem> {
    Join(maintenances, cars, OfCar, ToItem)
  }

  function CostKey(item: MaintenanceItem): int {
    item.cost
  }

  function CostIs(cost: Decimal): MaintenanceItem -> bool {
    (item: MaintenanceItem) => item.cost == cost
  }

  /** The rows a positive cost filter keeps (all of them for a non-positive one), in source order. */
  function Matching(items: seq<MaintenanceItem>, cost: Decimal): seq<MaintenanceItem> {
    WhereIf(items, cost > 0, CostIs(cost))
  }

  /** The `switch (sortOrder)` of Sort_Search: only the two cost states sort. */
  function SortDirection(sortOrder: SortState): Direction {
    if sortOrder == CostAsc then Ascending
    else if sortOrder == CostDesc then Descending
    else SourceOrder
  }

  /** `Sort_Search`: order by cost when the state names it, then filter by an exact positive cost. */
  function SortSearch(items: seq<MaintenanceItem>, sortOrder: SortState, cost: Decimal): seq<MaintenanceItem> {
    WhereIf(OrderByKey(items, CostKey, IntLe, SortDirection(sortOrder)), cost > 0, CostIs(cost))
  }

  /**
   * Sort_Search returns exactly the matching rows (as a multiset), ordered
   * non-decreasingly or non-increasingly by cost for the two cost states,
   * and in source order for every other state.
   */
  lemma SortSearchSpec(items: seq<MaintenanceItem>, sortOrder: SortState, cost: Decimal)
    ensures var r := SortSearch(items, sortOrder, cost);
      && multiset(r) == multiset(Matching(items, cost))
      && |r| <= |items|
      && (forall i :: 0 <= i < |r| ==> r[i] in items && (cost > 0 ==> r[i].cost == cost))
      && (forall i :: 0 <= i < |items| && (cost > 0 ==> items[i].cost == cost) ==> items[i] in r)
      && (sortOrder == CostAsc ==> forall i, j :: 0 <= i < j < |r| ==> r[i].cost <= r[j].cost)
      && (sortOrder == CostDesc ==> forall i, j :: 0 <= i < j < |r| ==> r[i].cost >= r[j].cost)
      && (sortOrder != CostAsc && sortOrder != CostDesc ==> r == Matching(items, cost))
  {
    IntLeTotalPreorder();
    OrderByKeyThenWhereIf(items, CostKey, IntLe, SortDirection(sortOrder), cost > 0, CostIs(cost));
  }

  function CostFromCookie(cookies: CookieJar): Decimal {
    DecimalCookie(cookies, CostCookie, 0)
  }

  function SortOrderFromCookie(cookies: CookieJar): SortState {
    SortCookie(cookies, SortOrderCookie, DefaultSortOrder)
  }

  /** The two cookies Index appends: the effective cost and sort order as text. */
  function SetFilterCookies(cost: Decimal, sortOrder: SortState): CookieJar {
    map[CostCookie := DecimalToString(cost), SortOrderCookie := Name(sortOrder)]
  }

  function GetSortDescription(sortOrder: SortState): (r: string)
    ensures r == "Без сортировки" <==> sortOrder != CostAsc && sortOrder != CostDesc
  {
    match sortOrder
    case CostAsc => "По стоимости (возр.)"
    case CostDesc => "По стоимости (убыв.)"
    case _ => "Без сортировки"
  }

  /** The filter's ViewBag label: a positive filter as a numeral that reads back as it, else "Все стоимости". */
  function FilterLabel(cost: Decimal): (r: string)
    ensures cost > 0 ==> TryParseDecimal(r) == Some(cost)
    ensures cost <= 0 ==> r == "Все стоимости"
  {
    DecimalRoundTrip(cost);
    if cost > 0 then DecimalToString(cost) else "Все стоимости"
  }

  /** The effective cost: the bound argument when `Cost` is in the query string, else the cookie, else 0. */
  function EffectiveCost(req: Request, cost: Decimal): Decimal {
    if req.HasQueryKey(CostQueryKey) then cost else CostFromCookie(req.cookies)
  }

  /** The effective sort order: the bound argument when `sortOrder` is in the query string, else the cookie, else the default. */
  function EffectiveSortOrder(req: Request, sortOrder: SortState): SortState {
    if req.HasQueryKey(SortOrderQueryKey) then sortOrder else SortOrderFromCookie(req.cookies)
  }

  /** The cost resolution: query value (even 0), else an integer numeral in the cookie, else 0. */
  lemma EffectiveCostSpec(req: Request, cost: Decimal)
    ensures req.HasQueryKey(CostQueryKey) ==> EffectiveCost(req, cost) == cost
    ensures !req.HasQueryKey(CostQueryKey) && CostCookie in req.cookies ==>
      forall n: Decimal :: ParseInteger(req.cookies[CostCookie]) == Some(n) ==> EffectiveCost(req, cost) == n
    ensures !req.HasQueryKey(CostQueryKey) && CostCookie !in req.cookies ==> EffectiveCost(req, cost) == 0
    ensures !req.HasQueryKey(CostQueryKey) && CostCookie in req.cookies && ParseInteger(req.cookies[CostCookie]).None? ==>
      EffectiveCost(req, cost) == 0
  {
    DecimalCookieSpec(req.cookies, CostCookie, 0);
  }

  /** The sort resolution: query value, else a cookie naming a state in any letter case, else ascending by cost. */
  lemma EffectiveSortOrderSpec(req: Request, sortOrder: SortState)
    ensures req.HasQueryKey(SortOrderQueryKey) ==> EffectiveSortOrder(req, sortOrder) == sortOrder
    ensures !req.HasQueryKey(SortOrderQueryKey) && SortOrderCookie in req.cookies ==>
      forall s :: EqualsIgnoreCase(Trim(req.cookies[SortOrderCookie]), Name(s)) ==> EffectiveSortOrder(req, sortOrder) == s
    ensures (&& !req.HasQueryKey(SortOrderQueryKey) && SortOrderCookie in req.cookies
             && forall s :: !EqualsIgnoreCase(Trim(req.cookies[SortOrderCookie]), Name(s))) ==>
      EffectiveSortOrder(req, sortOrder) == DefaultSortOrder
    ensures !req.HasQueryKey(SortOrderQueryKey) && SortOrderCookie !in req.cookies ==>
      EffectiveSortOrder(req, sortOrder) == DefaultSortOrder
  {
    SortCookieSpec(req.cookies, SortOrderCookie, DefaultSortOrder);
  }

  /** The list page for effective cost `cost` and sort order `sort`. */
  function MaintenanceList(
    maintenances: seq<Entry<Maintenance>>, cars: seq<Entry<Car>>, cost: Decimal, sort: SortState,
    page: Int32, pageSize: Int32): ListView<MaintenanceItem, Decimal>
    requires pageSize > 0
  {
    var query := SortSearch(MaintenanceItems(maintenances, cars), sort, cost);
    ListView(
      PageSlice(query, page, pageSize),
      NewPageViewModel(|query|, page, pageSize),
      Some(NewSortViewModel(sort)),
      cost,
      |Join(maintenances, cars, OfCar, JoinedMaintenance)|,
      FilterLabel(cost),
      cost > 0 || sort != DefaultSortOrder,
      Some(GetSortDescription(sort)))
  }

  /**
   * The list page: `count` is the filtered length, at most `totalAll` (the
   * unfiltered join); the page holds the rows from (page - 1) * pageSize on,
   * every one matching the filter and in the requested order; HasFilters
   * holds exactly when the cost is positive or the sort is not CostAsc.
   */
  lemma MaintenanceListSpec(
    maintenances: seq<Entry<Maintenance>>, cars: seq<Entry<Car>>, cost: Decimal, sort: SortState,
    page: Int32, pageSize: Int32)
    requires page >= 1 && pageSize > 0
    ensures var v := MaintenanceList(maintenances, cars, cost, sort, page, pageSize);
      var all := MaintenanceItems(maintenances, cars);
      var count := v.paging.totalItems;
      && v.filter == cost && v.sorting == Some(NewSortViewModel(sort))
      && v.totalAll == |all|
      && count == |Matching(all, cost)| && count <= v.totalAll
      && v.paging.page == page && v.paging.pageSize == pageSize
      && |v.items| == Min(pageSize, Max(0, count - (page - 1) * pageSize))
      && (forall i :: 0 <= i < |v.items| ==> v.items[i] in all && (cost > 0 ==> v.items[i].cost == cost))
      && (sort == CostAsc ==> forall i, j :: 0 <= i < j < |v.items| ==> v.items[i].cost <= v.items[j].cost)
      && (sort == CostDesc ==> forall i, j :: 0 <= i < j < |v.items| ==> v.items[i].cost >= v.items[j].cost)
      && (sort != CostAsc && sort != CostDesc ==> v.items == PageSlice(Matching(all, cost), page, pageSize))
      && (v.hasFilters <==> cost > 0 || sort != CostAsc)
  {
    var all := MaintenanceItems(maintenances, cars);
    PageCount(all, sort, cost, page, pageSize);
    PageRowsMatch(all, sort, cost, page, pageSize);
    if sort == CostAsc {
      PageAscending(all, cost, page, pageSize);
    } else if sort == CostDesc {
      PageDescending(all, cost, page, pageSize);
    } else {
      assert SortDirection(sort) == SourceOrder;
    }
    JoinCountIndependentOfSelect(maintenances, cars, OfCar, ToItem, JoinedMaintenance);
  }

  /** The size of the page of Sort_Search's result. */
  lemma PageCount(all: seq<MaintenanceItem>, sort: SortState, cost: Decimal, page: int, pageSize: int)
    requires page >= 1 && pageSize > 0
    ensures var query := SortSearch(all, sort, cost);
      && |query| == |Matching(all, cost)| && |query| <= |all|
      && |PageSlice(query, page, pageSize)| == Min(pageSize, Max(0, |query| - (page - 1) * pageSize))
  {
    var query := SortSearch(all, sort, cost);
    SortSearchSpec(all, sort, cost);
    assert |query| == |multiset(query)| == |multiset(Matching(all, cost))| == |Matching(all, cost)|;
    PageSliceSpec(query, page, pageSize);
  }

  /** Every row of the page of Sort_Search's result is a maintenance matching the filter. */
  lemma PageRowsMatch(all: seq<MaintenanceItem>, sort: SortState, cost: Decimal, page: int, pageSize: int)
    requires page >= 1 && pageSize > 0
    ensures var items := PageSlice(SortSearch(all, sort, cost), page, pageSize);
      forall i :: 0 <= i < |items| ==> items[i] in all && (cost > 0 ==> items[i].cost == cost)
  {
    SortSearchSpec(all, sort, cost);
    PageSliceMembers(SortSearch(all, sort, cost), page, pageSize);
  }

  /** Under CostAsc the page is non-decreasing in cost. */
  lemma PageAscending(all: seq<MaintenanceItem>, cost: Decimal, page: int, pageSize: int)
    requires page >= 1 && pageSize > 0
    ensures var items := PageSlice(SortSearch(all, CostAsc, cost), page, pageSize);
      forall i, j :: 0 <= i < j < |items| ==> items[i].cost <= items[j].cost
  {
    IntLeTotalPreorder();
    PageAscendingByKey(all, CostKey, IntLe, cost > 0, CostIs(cost), page, pageSize);
  }

  /** Under CostDesc the page is non-increasing in cost. */
  lemma PageDescending(all: seq<MaintenanceItem>, cost: Decimal, page: int, pageSize: int)
    requires page >= 1 && pageSize > 0
    ensures var items := PageSlice(SortSearch(all, CostDesc, cost), page, pageSize);
      forall i, j :: 0 <= i < j < |items| ==> items[i].cost >= items[j].cost
  {
    IntLeTotalPreorder();
    PageDescendingByKey(all, CostKey, IntLe, cost > 0, CostIs(cost), page, pageSize);
  }

  /**
   * `Index(Cost, sortOrder, page)` over the Maintenances and Cars tables:
   * the arguments are what model binding produced, and count only when
   * their key is in the query string.
   */
  function Index(
    req: Request, cost: Decimal, sortOrder: SortState, page: Int32, pageSize: Int32,
    maintenances: seq<Entry<Maintenance>>, cars: seq<Entry<Car>>): (r: IndexResult<MaintenanceItem, Decimal>)
    requires page >= 1 && pageSize > 0
    ensures r.RedirectToHome? <==> !req.authenticated
    ensures r.Rendered? <==> req.authenticated
  {
    if !req.authenticated then RedirectToHome
    else
      var filterCost := EffectiveCost(req, cost);
      var filterSortOrder := EffectiveSortOrder(req, sortOrder);
      Rendered(
        MaintenanceList(maintenances, cars, filterCost, filterSortOrder, page, pageSize),
        SetFilterCookies(filterCost, filterSortOrder))
  }

  /** What SetFilterCookies appends reads back as the same cost and sort order. */
  lemma CookiesReadBack(jar: CookieJar, cost: Decimal, sort: SortState)
    ensures CostFromCookie(ApplySetCookies(jar, SetFilterCookies(cost, sort))) == cost
    ensures SortOrderFromCookie(ApplySetCookies(jar, SetFilterCookies(cost, sort))) == sort
  {
    assert |CostCookie| != |SortOrderCookie|;
    var next := ApplySetCookies(jar, SetFilterCookies(cost, sort));
    DecimalCookieRoundTrip(next, CostCookie, cost, 0);
    SortCookieRoundTrip(next, SortOrderCookie, sort, DefaultSortOrder);
  }

  /** An authenticated Index renders the list for the effective values and leaves both in the cookies. */
  lemma IndexPage(
    req: Request, cost: Decimal, sortOrder: SortState, page: Int32, pageSize: Int32,
    maintenances: seq<Entry<Maintenance>>, cars: seq<Entry<Car>>)
    requires page >= 1 && pageSize > 0 && req.authenticated
    ensures var r := Index(req, cost, sortOrder, page, pageSize, maintenances, cars);
      var filterCost := EffectiveCost(req, cost);
      var filterSortOrder := EffectiveSortOrder(req, sortOrder);
      && r.view == MaintenanceList(maintenances, cars, filterCost, filterSortOrder, page, pageSize)
      && r.setCookies == SetFilterCookies(filterCost, filterSortOrder)
      && CostFromCookie(ApplySetCookies(req.cookies, r.setCookies)) == filterCost
      && SortOrderFromCookie(ApplySetCookies(req.cookies, r.setCookies)) == filterSortOrder
  {
    var filterCost := EffectiveCost(req, cost);
    var filterSortOrder := EffectiveSortOrder(req, sortOrder);
    assert Index(req, cost, sortOrder, page, pageSize, maintenances, cars)
      == Rendered(MaintenanceList(maintenances, cars, filterCost, filterSortOrder, page, pageSize), SetFilterCookies(filterCost, filterSortOrder));
    CookiesReadBack(req.cookies, filterCost, filterSortOrder);
  }


  /** Neither query keys nor cookies: cost 0, ascending by cost, no active filter, every joined maintenance counted. */
  lemma IndexFirstVisit(
    req: Request, cost: Decimal, sortOrder: SortState, page: Int32, pageSize: Int32,
    maintenances: seq<Entry<Maintenance>>, cars: seq<Entry<Car>>)
    requires page >= 1 && pageSize > 0 && req.authenticated
    requires !req.HasQueryKey(CostQueryKey) && !req.HasQueryKey(SortOrderQueryKey)
    requires CostCookie !in req.cookies && SortOrderCookie !in req.cookies
    ensures var r := Index(req, cost, sortOrder, page, pageSize, maintenances, cars);
      && r.view.filter == 0
      && r.view.sorting == Some(NewSortViewModel(CostAsc))
      && !r.view.hasFilters
      && r.view.paging.totalItems == r.view.totalAll
      && r.setCookies == map[CostCookie := "0", SortOrderCookie := "CostAsc"]
  {
    MaintenanceListSpec(maintenances, cars, 0, CostAsc, page, pageSize);
    assert NatToDigits(0) == "0";
  }

  /**
   * Filters are sticky: coming back with neither query key and the cookies
   * the previous response set renders the same page and sets the same cookies.
   */
  lemma IndexRemembersFilters(
    req: Request, cost: Decimal, sortOrder: SortState, page: Int32, pageSize: Int32,
    maintenances: seq<Entry<Maintenance>>, cars: seq<Entry<Car>>,
    laterKeys: set<string>, laterCost: Decimal, laterSort: SortState)
    requires page >= 1 && pageSize > 0 && req.authenticated
    requires !HasKey(laterKeys, CostQueryKey) && !HasKey(laterKeys, SortOrderQueryKey)
    ensures var first := Index(req, cost, sortOrder, page, pageSize, maintenances, cars);
      var later := Request(true, laterKeys, ApplySetCookies(req.cookies, first.setCookies));
      Index(later, laterCost, laterSort, page, pageSize, maintenances, cars) == first
  {
    CookiesReadBack(req.cookies, EffectiveCost(req, cost), EffectiveSortOrder(req, sortOrder));
  }

  // ---------------------------------------------------------------- edits

  /** The entity a form describes (the form's key is not copied). */
  function FormToMaintenance(mm: MaintenanceForm): Maintenance {
    Maintenance(mm.carId, mm.maintenanceDate, mm.description, mm.cost)
  }

  /** `Create(MaintenanceEditCreateViewModel)` POST. */
  method CreatePost(db: Db, mm: MaintenanceForm, modelValid: bool) returns (r: ActionResult<MaintenanceForm>)
    requires db.Valid()
    modifies db.maintenances
    ensures db.Valid()
    ensures !modelValid ==> r == View(mm) && unchanged(db.maintenances)
    ensures modelValid ==>
      && r == RedirectToIndex
      && old(db.maintenances.nextId) !in old(db.maintenances.rows)
      && db.maintenances.rows == old(db.maintenances.rows)[old(db.maintenances.nextId) := FormToMaintenance(mm)]
      && |db.maintenances.rows| == |old(db.maintenances.rows)| + 1
  {
    if !modelValid {
      return View(mm);
    }
    var _ := db.maintenances.Add(FormToMaintenance(mm));
    return RedirectToIndex;
  }

  /** `Edit(id, MaintenanceEditCreateViewModel)` POST: overwrites CarId, MaintenanceDate, Description and Cost. */
  method EditPost(db: Db, id: int, mm: MaintenanceForm, modelValid: bool) returns (r: ActionResult<MaintenanceForm>)
    requires db.Valid()
    modifies db.maintenances
    ensures db.Valid()
    ensures id != mm.id ==> r == NotFound && unchanged(db.maintenances)
    ensures id == mm.id && !modelValid ==> r == View(mm) && unchanged(db.maintenances)
    ensures id == mm.id && modelValid && id !in old(db.maintenances.rows) ==> r == NotFound && unchanged(db.maintenances)
    ensures id == mm.id && modelValid && id in old(db.maintenances.rows) ==>
      && r == RedirectToIndex
      && db.maintenances.rows == old(db.maintenances.rows)[id := FormToMaintenance(mm)]
      && db.maintenances.keys == old(db.maintenances.keys)
  {
    if id != mm.id {
      return NotFound;
    }
    if !modelValid {
      return View(mm);
    }
    if db.maintenances.Find(id).None? {
      return NotFound;
    }
    db.maintenances.Update(id, FormToMaintenance(mm));
    return RedirectToIndex;
  }

  /** `Delete(int? id)` GET: the confirmation page of an existing maintenance. */
  function DeleteGet(db: Db, id: Option<int>): (r: ActionResult<Entry<Maintenance>>)
    reads db, db.maintenances
    ensures r == NotFound <==> id.None? || id.value !in db.maintenances.rows
    ensures r != NotFound ==> r == View(Entry(id.value, db.maintenances.rows[id.value]))
  {
    if id.None? then NotFound
    else match db.maintenances.Find(id.value)
      case None => NotFound
      case Some(maintenance) => View(Entry(id.value, maintenance))
  }

  /** `Delete(int id)` POST, guarded: a missing id is NotFound. */
  method DeletePost(db: Db, id: int) returns (r: ActionResult<MaintenanceForm>)
    requires db.Valid()
    modifies db.maintenances
    ensures db.Valid()
    ensures id in old(db.maintenances.rows) ==>
      && r == RedirectToIndex
      && db.maintenances.rows == old(db.maintenances.rows) - {id}
      && |db.maintenances.rows| == |old(db.maintenances.rows)| - 1
    ensures id !in old(db.maintenances.rows) ==> r == NotFound && unchanged(db.maintenances)
  {
    if db.maintenances.Find(id).None? {
      return NotFound;
    }
    db.maintenances.Remove(id);
    return RedirectToIndex;
  }
}
