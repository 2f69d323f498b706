// CarsController: the car list (join with car classes, sort and filter by
// daily rate, paging, sticky filters in cookies) and the Create / Edit /
// Delete posts on the Cars table.

module CarsController {
  import opened Optional
  import opened Text
  import opened Numerals
  import opened SortViewModels
  import opened PageViewModels
  import opened QueryPipeline
  import opened Http
  import opened Store

  const RentalCostCookie: string := "CarRentalCostPerDay"
  const SortOrderCookie: string := "CarSortOrder"
  const RentalCostQueryKey: string := "RentalCostPerDay"
  const SortOrderQueryKey: string := "sortOrder"
  const DefaultSortOrder: SortState := RentalCostPerDayAsc

  /** A row of the car list. */
  datatype CarItem = CarItem(
    carId: int,
    className: string,
    brand: string,
    model: string,
    licensePlate: string,
    year: Int32,
    rentalCostPerDay: Decimal,
    status: string)

  /** The create / edit form; `carId` is the hidden key field of the edit form. */
  datatype CarForm = CarForm(
    carId: int,
    carClassId: int,
    brand: string,
    model: string,
    licensePlate: string,
    year: Int32,
    rentalCostPerDay: Decimal,
    status: string)

  // ---------------------------------------------------------------- list

  /** The join condition `car.CarClassId equals carClass.CarClassId`. */
  predicate OfClass(car: Entry<Car>, carClass: Entry<CarClass>) {
    car.row.carClassId == carClass.id
  }

  function ToItem(car: Entry<Car>, carClass: Entry<CarClass>): CarItem {
    CarItem(car.id, carClass.row.name, car.row.brand, car.row.model, car.row.licensePlate,
      car.row.year, car.row.rentalCostPerDay, car.row.status)
  }

  function JoinedCar(car: Entry<Car>, carClass: Entry<CarClass>): Entry<Car> {
    car
  }

  /** Every car with its class, as list rows, in car order. */
  function CarItems(cars: seq<Entry<Car>>, carClasses: seq<Entry<CarClass>>): seq<CarItem> {
    Join(cars, carClasses, OfClass, ToItem)
  }

  function RentalCost(item: CarItem): int {
    item.rentalCostPerDay
  }

  function CostIs(cost: Decimal): CarItem -> bool {
    (item: CarItem) => item.rentalCostPerDay == cost
  }

  /** The cars a positive daily-rate filter keeps (all of them for a non-positive one), in source order. */
  function Matching(items: seq<CarItem>, rentalCostPerDay: Decimal): seq<CarItem> {
    WhereIf(items, rentalCostPerDay > 0, CostIs(rentalCostPerDay))
  }

  /** The `switch (sortOrder)` of Sort_Search: only the two daily-rate states sort. */
  function SortDirection(sortOrder: SortState): Direction {
    if sortOrder == RentalCostPerDayAsc then Ascending
    else if sortOrder == RentalCostPerDayDesc then Descending
    else SourceOrder
  }

  /** `Sort_Search`: order by daily rate when the state names it, then filter by an exact positive rate. */
  function SortSearch(items: seq<CarItem>, sortOrder: SortState, rentalCostPerDay: Decimal): seq<CarItem> {
    WhereIf(OrderByKey(items, RentalCost, IntLe, SortDirection(sortOrder)), rentalCostPerDay > 0, CostIs(rentalCostPerDay))
  }

  /**
   * Sort_Search returns exactly the matching rows (as a multiset), ordered
   * non-decreasingly or non-increasingly by rate for the two rate states,
   * and in source order for every other state.
   */
  lemma SortSearchSpec(items: seq<CarItem>, sortOrder: SortState, rentalCostPerDay: Decimal)
    ensures var r := SortSearch(items, sortOrder, rentalCostPerDay);
      && multiset(r) == multiset(Matching(items, rentalCostPerDay))
      && |r| <= |items|
      && (forall i :: 0 <= i < |r| ==> r[i] in items && (rentalCostPerDay > 0 ==> r[i].rentalCostPerDay == rentalCostPerDay))
      && (forall i :: 0 <= i < |items| && (rentalCostPerDay > 0 ==> items[i].rentalCostPerDay == rentalCostPerDay) ==> items[i] in r)
      && (sortOrder == RentalCostPerDayAsc ==>
            forall i, j :: 0 <= i < j < |r| ==> r[i].rentalCostPerDay <= r[j].rentalCostPerDay)
      && (sortOrder == RentalCostPerDayDesc ==>
            forall i, j :: 0 <= i < j < |r| ==> r[i].rentalCostPerDay >= r[j].rentalCostPerDay)
      && (sortOrder != RentalCostPerDayAsc && sortOrder != RentalCostPerDayDesc ==> r == Matching(items, rentalCostPerDay))
  {
    IntLeTotalPreorder();
    OrderByKeyThenWhereIf(items, RentalCost, IntLe, SortDirection(sortOrder), rentalCostPerDay > 0, CostIs(rentalCostPerDay));
  }

  function RentalCostFromCookie(cookies: CookieJar): Decimal {
    DecimalCookie(cookies, RentalCostCookie, 0)
  }

  function SortOrderFromCookie(cookies: CookieJar): SortState {
    SortCookie(cookies, SortOrderCookie, DefaultSortOrder)
  }

  /** The two cookies Index appends: the effective rate and sort order as text. */
  function SetFilterCookies(rentalCostPerDay: Decimal, sortOrder: SortState): CookieJar {
    map[RentalCostCookie := DecimalToString(rentalCostPerDay), SortOrderCookie := Name(sortOrder)]
  }

  function GetSortDescription(sortOrder: SortState): (r: string)
    ensures r == "Без сортировки" <==> sortOrder != RentalCostPerDayAsc && sortOrder != RentalCostPerDayDesc
  {
    match sortOrder
    case RentalCostPerDayAsc => "По аренде/сутки (возр.)"
    case RentalCostPerDayDesc => "По аренде/сутки (убыв.)"
    case _ => "Без сортировки"
  }

  /** The filter's ViewBag label: a positive filter as a numeral that reads back as it, else "Все стоимости". */
  function FilterLabel(rentalCostPerDay: Decimal): (r: string)
    ensures rentalCostPerDay > 0 ==> TryParseDecimal(r) == Some(rentalCostPerDay)
    ensures rentalCostPerDay <= 0 ==> r == "Все стоимости"
  {
    DecimalRoundTrip(rentalCostPerDay);
    if rentalCostPerDay > 0 then DecimalToString(rentalCostPerDay) else "Все стоимости"
  }

  /** The effective rate: the bound argument when its key is in the query string, else the cookie, else 0. */
  function EffectiveRentalCost(req: Request, rentalCostPerDay: Decimal): Decimal {
    if req.HasQueryKey(RentalCostQueryKey) then rentalCostPerDay else RentalCostFromCookie(req.cookies)
  }

  /** The effective sort order: the bound argument when `sortOrder` is in the query string, else the cookie, else the default. */
  function EffectiveSortOrder(req: Request, sortOrder: SortState): SortState {
    if req.HasQueryKey(SortOrderQueryKey) then sortOrder else SortOrderFromCookie(req.cookies)
  }

  /** The rate resolution: query value (even 0), else an integer numeral in the cookie, else 0. */
  lemma EffectiveRentalCostSpec(req: Request, rentalCostPerDay: Decimal)
    ensures req.HasQueryKey(RentalCostQueryKey) ==> EffectiveRentalCost(req, rentalCostPerDay) == rentalCostPerDay
    ensures !req.HasQueryKey(RentalCostQueryKey) && RentalCostCookie in req.cookies ==>
      forall n: Decimal :: ParseInteger(req.cookies[RentalCostCookie]) == Some(n) ==> EffectiveRentalCost(req, rentalCostPerDay) == n
    ensures !req.HasQueryKey(RentalCostQueryKey) && RentalCostCookie !in req.cookies ==> EffectiveRentalCost(req, rentalCostPerDay) == 0
    ensures !req.HasQueryKey(RentalCostQueryKey) && RentalCostCookie in req.cookies && ParseInteger(req.cookies[RentalCostCookie]).None? ==>
      EffectiveRentalCost(req, rentalCostPerDay) == 0
  {
    DecimalCookieSpec(req.cookies, RentalCostCookie, 0);
  }

  /** The sort resolution: query value, else a cookie naming a state in any letter case, else ascending by rate. */
  lemma EffectiveSortOrderSpec(req: Request, sortOrder: SortState)
    ensures req.HasQueryKey(SortOrderQueryKey) ==> EffectiveSortOrder(req, sortOrder) == sortOrder
    ensures !req.HasQueryKey(SortOrderQueryKey) && SortOrderCookie in req.cookies ==>
      forall s :: EqualsIgnoreCase(Trim(req.cookies[SortOrderCookie]), Name(s)) ==> EffectiveSortOrder(req, sortOrder) == s
    ensures (&& !req.HasQueryKey(SortOrderQueryKey) && SortOrderCookie in req.cookies
             && forall s :: !EqualsIgnoreCase(Trim(req.cookies[SortOrderCookie]), Name(s))) ==>
      EffectiveSortOrder(req, sortOrder) == DefaultSortOrder
    ensures !req.HasQueryKey(SortOrderQueryKey) && SortOrderCookie !in req.cookies ==>
      EffectiveSortOrder(req, sortOrder) == DefaultSortOrder
  {
    SortCookieSpec(req.cookies, SortOrderCookie, DefaultSortOrder);
  }

  /** The list page for effective rate `cost` and sort order `sort`. */
  function CarList(
    cars: seq<Entry<Car>>, carClasses: seq<Entry<CarClass>>, cost: Decimal, sort: SortState,
    page: Int32, pageSize: Int32): ListView<CarItem, Decimal>
    requires pageSize > 0
  {
    var query := SortSearch(CarItems(cars, carClasses), sort, cost);
    ListView(
      PageSlice(query, page, pageSize),
      NewPageViewModel(|query|, page, pageSize),
      Some(NewSortViewModel(sort)),
      cost,
      |Join(cars, carClasses, OfClass, JoinedCar)|,
      FilterLabel(cost),
      cost > 0 || sort != DefaultSortOrder,
      Some(GetSortDescription(sort)))
  }

  /**
   * The list page: `count` is the filtered length, at most `totalAll` (the
   * unfiltered join); the page holds the rows from (page - 1) * pageSize on,
   * every one matching the filter and in the requested order; HasFilters
   * says whether the filter or sort differs from the defaults.
   */
  lemma CarListSpec(
    cars: seq<Entry<Car>>, carClasses: seq<Entry<CarClass>>, cost: Decimal, sort: SortState,
    page: Int32, pageSize: Int32)
    requires page >= 1 && pageSize > 0
    ensures var v := CarList(cars, carClasses, cost, sort, page, pageSize);
      var all := CarItems(cars, carClasses);
      var count := v.paging.totalItems;
      && v.filter == cost && v.sorting == Some(NewSortViewModel(sort))
      && v.totalAll == |all|
      && count == |Matching(all, cost)| && count <= v.totalAll
      && v.paging.page == page && v.paging.pageSize == pageSize
      && |v.items| == Min(pageSize, Max(0, count - (page - 1) * pageSize))
      && (forall i :: 0 <= i < |v.items| ==> v.items[i] in all && (cost > 0 ==> v.items[i].rentalCostPerDay == cost))
      && (sort == RentalCostPerDayAsc ==>
            forall i, j :: 0 <= i < j < |v.items| ==> v.items[i].rentalCostPerDay <= v.items[j].rentalCostPerDay)
      && (sort == RentalCostPerDayDesc ==>
            forall i, j :: 0 <= i < j < |v.items| ==> v.items[i].rentalCostPerDay >= v.items[j].rentalCostPerDay)
      && (sort != RentalCostPerDayAsc && sort != RentalCostPerDayDesc ==>
            v.items == PageSlice(Matching(all, cost), page, pageSize))
      && (v.hasFilters <==> cost > 0 || sort != RentalCostPerDayAsc)
  {
    var all := CarItems(cars, carClasses);
    PageCount(all, sort, cost, page, pageSize);
    PageRowsMatch(all, sort, cost, page, pageSize);
    if sort == RentalCostPerDayAsc {
      PageAscending(all, cost, page, pageSize);
    } else if sort == RentalCostPerDayDesc {
      PageDescending(all, cost, page, pageSize);
    } else {
      assert SortDirection(sort) == SourceOrder;
    }
    JoinCountIndependentOfSelect(cars, carClasses, OfClass, ToItem, JoinedCar);
  }

  /** The size of the page of Sort_Search's result. */
  lemma PageCount(all: seq<CarItem>, sort: SortState, cost: Decimal, page: int, pageSize: int)
    requires page >= 1 && pageSize > 0
    ensures var query := SortSearch(all, sort, cost);
      && |query| == |Matching(all, cost)| && |query| <= |all|
      && |PageSlice(query, page, pageSize)| == Min(pageSize, Max(0, |query| - (page - 1) * pageSize))
  {
    var query := SortSearch(all, sort, cost);
    SortSearchSpec(all, sort, cost);
    assert |query| == |multiset(query)| == |multiset(Matching(all, cost))| == |Matching(all, cost)|;
    PageSliceSpec(query, page, pageSize);
  }

  /** Every row of the page of Sort_Search's result is a car matching the filter. */
  lemma PageRowsMatch(all: seq<CarItem>, sort: SortState, cost: Decimal, page: int, pageSize: int)
    requires page >= 1 && pageSize > 0
    ensures var items := PageSlice(SortSearch(all, sort, cost), page, pageSize);
      forall i :: 0 <= i < |items| ==> items[i] in all && (cost > 0 ==> items[i].rentalCostPerDay == cost)
  {
    SortSearchSpec(all, sort, cost);
    PageSliceMembers(SortSearch(all, sort, cost), page, pageSize);
  }

  /** Under RentalCostPerDayAsc the page is non-decreasing in rate. */
  lemma PageAscending(all: seq<CarItem>, cost: Decimal, page: int, pageSize: int)
    requires page >= 1 && pageSize > 0
    ensures var items := PageSlice(SortSearch(all, RentalCostPerDayAsc, cost), page, pageSize);
      forall i, j :: 0 <= i < j < |items| ==> items[i].rentalCostPerDay <= items[j].rentalCostPerDay
  {
    IntLeTotalPreorder();
    PageAscendingByKey(all, RentalCost, IntLe, cost > 0, CostIs(cost), page, pageSize);
  }

  /** Under RentalCostPerDayDesc the page is non-increasing in rate. */
  lemma PageDescending(all: seq<CarItem>, cost: Decimal, page: int, pageSize: int)
    requires page >= 1 && pageSize > 0
    ensures var items := PageSlice(SortSearch(all, RentalCostPerDayDesc, cost), page, pageSize);
      forall i, j :: 0 <= i < j < |items| ==> items[i].rentalCostPerDay >= items[j].rentalCostPerDay
  {
    IntLeTotalPreorder();
    PageDescendingByKey(all, RentalCost, IntLe, cost > 0, CostIs(cost), page, pageSize);
  }

  /**
   * `Index(rentalCostPerDay, sortOrder, page)` over the Cars and CarClasses
   * tables: the arguments are what model binding produced, and count only
   * when their key is in the query string.
   */
  function Index(
    req: Request, rentalCostPerDay: Decimal, sortOrder: SortState, page: Int32, pageSize: Int32,
    cars: seq<Entry<Car>>, carClasses: seq<Entry<CarClass>>): (r: IndexResult<CarItem, Decimal>)
    requires page >= 1 && pageSize > 0
    ensures r.RedirectToHome? <==> !req.authenticated
    ensures r.Rendered? <==> req.authenticated
  {
    if !req.authenticated then RedirectToHome
    else
      var cost := EffectiveRentalCost(req, rentalCostPerDay);
      var sort := EffectiveSortOrder(req, sortOrder);
      Rendered(CarList(cars, carClasses, cost, sort, page, pageSize), SetFilterCookies(cost, sort))
  }

  /** What SetFilterCookies appends reads back as the same rate and sort order. */
  lemma CookiesReadBack(jar: CookieJar, cost: Decimal, sort: SortState)
    ensures RentalCostFromCookie(ApplySetCookies(jar, SetFilterCookies(cost, sort))) == cost
    ensures SortOrderFromCookie(ApplySetCookies(jar, SetFilterCookies(cost, sort))) == sort
  {
    assert |RentalCostCookie| != |SortOrderCookie|;
    var next := ApplySetCookies(jar, SetFilterCookies(cost, sort));
    DecimalCookieRoundTrip(next, RentalCostCookie, cost, 0);
    SortCookieRoundTrip(next, SortOrderCookie, sort, DefaultSortOrder);
  }

  /** An authenticated Index renders the list for the effective values and leaves both in the cookies. */
  lemma IndexPage(
    req: Request, rentalCostPerDay: Decimal, sortOrder: SortState, page: Int32, pageSize: Int32,
    cars: seq<Entry<Car>>, carClasses: seq<Entry<CarClass>>)
    requires page >= 1 && pageSize > 0 && req.authenticated
    ensures var r := Index(req, rentalCostPerDay, sortOrder, page, pageSize, cars, carClasses);
      var cost := EffectiveRentalCost(req, rentalCostPerDay);
      var sort := EffectiveSortOrder(req, sortOrder);
      && r.view == CarList(cars, carClasses, cost, sort, page, pageSize)
      && r.setCookies == SetFilterCookies(cost, sort)
      && RentalCostFromCookie(ApplySetCookies(req.cookies, r.setCookies)) == cost
      && SortOrderFromCookie(ApplySetCookies(req.cookies, r.setCookies)) == sort
  {
    var cost := EffectiveRentalCost(req, rentalCostPerDay);
    var sort := EffectiveSortOrder(req, sortOrder);
    assert Index(req, rentalCostPerDay, sortOrder, page, pageSize, cars, carClasses)
      == Rendered(CarList(cars, carClasses, cost, sort, page, pageSize), SetFilterCookies(cost, sort));
    CookiesReadBack(req.cookies, cost, sort);
  }

  /** Neither query keys nor cookies: rate 0, ascending by rate, no active filter, every joined car counted. */
  lemma IndexFirstVisit(
    req: Request, rentalCostPerDay: Decimal, sortOrder: SortState, page: Int32, pageSize: Int32,
    cars: seq<Entry<Car>>, carClasses: seq<Entry<CarClass>>)
    requires page >= 1 && pageSize > 0 && req.authenticated
    requires !req.HasQueryKey(RentalCostQueryKey) && !req.HasQueryKey(SortOrderQueryKey)
    requires RentalCostCookie !in req.cookies && SortOrderCookie !in req.cookies
    ensures var r := Index(req, rentalCostPerDay, sortOrder, page, pageSize, cars, carClasses);
      && r.view.filter == 0
      && r.view.sorting == Some(NewSortViewModel(RentalCostPerDayAsc))
      && !r.view.hasFilters
      && r.view.paging.totalItems == r.view.totalAll
      && r.setCookies == map[RentalCostCookie := "0", SortOrderCookie := "RentalCostPerDayAsc"]
  {
    CarListSpec(cars, carClasses, 0, RentalCostPerDayAsc, page, pageSize);
    assert NatToDigits(0) == "0";
  }

  /**
   * Filters are sticky: coming back with neither query key and the cookies
   * the previous response set renders the same page and sets the same cookies.
   */
  lemma IndexRemembersFilters(
    req: Request, rentalCostPerDay: Decimal, sortOrder: SortState, page: Int32, pageSize: Int32,
    cars: seq<Entry<Car>>, carClasses: seq<Entry<CarClass>>,
    laterKeys: set<string>, laterCost: Decimal, laterSort: SortState)
    requires page >= 1 && pageSize > 0 && req.authenticated
    requires !HasKey(laterKeys, RentalCostQueryKey) && !HasKey(laterKeys, SortOrderQueryKey)
    ensures var first := Index(req, rentalCostPerDay, sortOrder, page, pageSize, cars, carClasses);
      var later := Request(true, laterKeys, ApplySetCookies(req.cookies, first.setCookies));
      Index(later, laterCost, laterSort, page, pageSize, cars, carClasses) == first
  {
    CookiesReadBack(req.cookies, EffectiveRentalCost(req, rentalCostPerDay), EffectiveSortOrder(req, sortOrder));
  }

  // ---------------------------------------------------------------- edits

  /** The entity a form describes (the form's key is not copied). */
  function FormToCar(vm: CarForm): Car {
    Car(vm.carClassId, vm.brand, vm.model, vm.licensePlate, vm.year, vm.rentalCostPerDay, vm.status)
  }

  /** `Create(CarEditCreateViewModel)` POST. */
  method CreatePost(db: Db, vm: CarForm, modelValid: bool) returns (r: ActionResult<CarForm>)
    requires db.Valid()
    modifies db.cars
    ensures db.Valid()
    ensures !modelValid ==> r == View(vm) && unchanged(db.cars)
    ensures modelValid ==>
      && r == RedirectToIndex
      && old(db.cars.nextId) !in old(db.cars.rows)
      && db.cars.rows == old(db.cars.rows)[old(db.cars.nextId) := FormToCar(vm)]
  {
    if !modelValid {
      return View(vm);
    }
    var _ := db.cars.Add(FormToCar(vm));
    return RedirectToIndex;
  }

  /** `Edit(id, CarEditCreateViewModel)` POST: overwrites all seven fields of an existing car. */
  method EditPost(db: Db, id: int, vm: CarForm, modelValid: bool) returns (r: ActionResult<CarForm>)
    requires db.Valid()
    modifies db.cars
    ensures db.Valid()
    ensures id != vm.carId ==> r == NotFound && unchanged(db.cars)
    ensures id == vm.carId && !modelValid ==> r == View(vm) && unchanged(db.cars)
    ensures id == vm.carId && modelValid && id !in old(db.cars.rows) ==> r == NotFound && unchanged(db.cars)
    ensures id == vm.carId && modelValid && id in old(db.cars.rows) ==>
      && r == RedirectToIndex
      && db.cars.rows == old(db.cars.rows)[id := FormToCar(vm)]
      && db.cars.keys == old(db.cars.keys)
  {
    if id != vm.carId {
      return NotFound;
    }
    if !modelValid {
      return View(vm);
    }
    if db.cars.Find(id).None? {
      return NotFound;
    }
    db.cars.Update(id, FormToCar(vm));
    return RedirectToIndex;
  }

  /** `Delete(int? id)` GET: the confirmation page of an existing car. */
  function DeleteGet(db: Db, id: Option<int>): (r: ActionResult<Entry<Car>>)
    reads db, db.cars
    ensures r == NotFound <==> id.None? || id.value !in db.cars.rows
    ensures r != NotFound ==> r == View(Entry(id.value, db.cars.rows[id.value]))
  {
    if id.None? then NotFound
    else match db.cars.Find(id.value)
      case None => NotFound
      case Some(car) => View(Entry(id.value, car))
  }

  /**
   * `Delete(int id)` POST. There is no guard: for a missing id `Remove(null)`
   * throws before anything is saved.
   */
  method DeletePost(db: Db, id: int) returns (r: ActionResult<CarForm>)
    requires db.Valid()
    modifies db.cars
    ensures db.Valid()
    ensures id in old(db.cars.rows) ==>
      && r == RedirectToIndex
      && db.cars.rows == old(db.cars.rows) - {id}
      && |db.cars.rows| == |old(db.cars.rows)| - 1
    ensures id !in old(db.cars.rows) ==> r == UnhandledException && unchanged(db.cars)
  {
    if db.cars.Find(id).None? {
      return UnhandledException;
    }
    db.cars.Remove(id);
    return RedirectToIndex;
  }
}
