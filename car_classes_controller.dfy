// CarsClassController: the car class list (substring filter on the class
// name, paging, the search name remembered in a cookie) and the Create /
// Edit / Delete posts on the CarClasses table.

module CarClassesController {
  import opened Optional
  import opened Text
  import opened Numerals
  import opened PageViewModels
  import opened QueryPipeline
  import opened Http
  import opened Store

  const SearchNameCookie: string := "CarClassSearchName"
  const SearchNameQueryKey: string := "SearchName"

  /** The bound `CarClass` of the edit form, key included (`Bind("CarClassId, Name, Description")`). */
  datatype CarClassForm = CarClassForm(id: int, name: string, description: string)

  // ---------------------------------------------------------------- list

  function NameContains(searchName: string): Entry<CarClass> -> bool {
    (carClass: Entry<CarClass>) => Contains(carClass.row.name, searchName)
  }

  /**
   * The inline filter of Index: a non-empty search name keeps exactly the
   * classes whose name contains it, in table order; "" keeps every class.
   */
  function Search(carClasses: seq<Entry<CarClass>>, searchName: string): (r: seq<Entry<CarClass>>)
    ensures searchName == "" ==> r == carClasses
    ensures |r| <= |carClasses|
    ensures forall i :: 0 <= i < |r| ==> r[i] in carClasses && Contains(r[i].row.name, searchName)
    ensures forall i :: 0 <= i < |carClasses| && Contains(carClasses[i].row.name, searchName) ==> carClasses[i] in r
  {
    ContainsEmpty();
    WhereIf(carClasses, searchName != "", NameContains(searchName))
  }

  /** `GetSearchNameFromCookie`: the cookie text, or "" without the cookie. */
  function SearchNameFromCookie(cookies: CookieJar): string {
    StringCookie(cookies, SearchNameCookie)
  }

  /** The cookie Index appends: the effective search name as it is. */
  function SetSearchNameCookie(searchName: string): CookieJar {
    map[SearchNameCookie := searchName]
  }

  /** The filter's ViewBag label: "Все классы" exactly for no filter, else the filter in quotes. */
  function FilterLabel(searchName: string): (r: string)
    ensures r == "Все классы" <==> searchName == ""
    ensures searchName != "" ==> |r| == |searchName| + 2 && r[0] == '"' && r[|r| - 1] == '"' && r[1..|r| - 1] == searchName
  {
    if searchName == "" then "Все классы"
    else
      var r := "\"" + searchName + "\"";
      assert r[1..|r| - 1] == searchName;
      r
  }

  /**
   * The effective search name: the bound argument when `SearchName` is in
   * the query string (a null argument counting as ""), else the cookie.
   */
  function EffectiveSearchName(req: Request, searchName: Option<string>): (r: string)
    ensures req.HasQueryKey(SearchNameQueryKey) && searchName.Some? ==> r == searchName.value
    ensures req.HasQueryKey(SearchNameQueryKey) && searchName.None? ==> r == ""
    ensures !req.HasQueryKey(SearchNameQueryKey) && SearchNameCookie in req.cookies ==> r == req.cookies[SearchNameCookie]
    ensures !req.HasQueryKey(SearchNameQueryKey) && SearchNameCookie !in req.cookies ==> r == ""
  {
    if req.HasQueryKey(SearchNameQueryKey) then
      match searchName case Some(name) => name case None => ""
    else SearchNameFromCookie(req.cookies)
  }

  /** The list page for the effective search name; this list has no sort. */
  function CarClassList(
    carClasses: seq<Entry<CarClass>>, searchName: string, page: Int32, pageSize: Int32): ListView<Entry<CarClass>, string>
    requires pageSize > 0
  {
    var query := Search(carClasses, searchName);
    ListView(
      PageSlice(query, page, pageSize),
      NewPageViewModel(|query|, page, pageSize),
      None,
      searchName,
      |carClasses|,
      FilterLabel(searchName),
      searchName != "",
      None)
  }

  /**
   * The list page: `count` is the number of classes the search keeps, at
   * most `totalAll` (every class); the page is the kept classes from
   * (page - 1) * pageSize on, each one with a name containing the search
   * name; HasFilters holds exactly when the search name is non-empty.
   */
  lemma CarClassListSpec(carClasses: seq<Entry<CarClass>>, searchName: string, page: Int32, pageSize: Int32)
    requires page >= 1 && pageSize > 0
    ensures var v := CarClassList(carClasses, searchName, page, pageSize);
      var query := Search(carClasses, searchName);
      var count := v.paging.totalItems;
      && v.filter == searchName && v.sorting.None?
      && v.totalAll == |carClasses| && count == |query| && count <= v.totalAll
      && v.paging.page == page && v.paging.pageSize == pageSize
      && |v.items| == Min(pageSize, Max(0, count - (page - 1) * pageSize))
      && v.items == PageSlice(query, page, pageSize)
      && (forall i :: 0 <= i < |v.items| ==> v.items[i] in carClasses && Contains(v.items[i].row.name, searchName))
      && (v.hasFilters <==> searchName != "")
  {
    var query := Search(carClasses, searchName);
    PageSliceSpec(query, page, pageSize);
    PageSliceMembers(query, page, pageSize);
  }

  /**
   * `Index(SearchName, page)` over the CarClasses table: the argument is what
   * model binding produced (None for a null string), and counts only when
   * its key is in the query string.
   */
  function Index(
    req: Request, searchName: Option<string>, page: Int32, pageSize: Int32,
    carClasses: seq<Entry<CarClass>>): (r: IndexResult<Entry<CarClass>, string>)
    requires page >= 1 && pageSize > 0
    ensures r.RedirectToHome? <==> !req.authenticated
    ensures r.Rendered? <==> req.authenticated
  {
    if !req.authenticated then RedirectToHome
    else
      var filterSearchName := EffectiveSearchName(req, searchName);
      Rendered(CarClassList(carClasses, filterSearchName, page, pageSize), SetSearchNameCookie(filterSearchName))
  }

  /**
   * Index on the live database: the query enumerates the CarClasses table,
   * so totalAll is its row count and every listed class is a stored row
   * under its own key.
   */
  function IndexOn(db: Db, req: Request, searchName: Option<string>, page: Int32, pageSize: Int32): (r: IndexResult<Entry<CarClass>, string>)
    reads db, db.carClasses
    requires db.carClasses.Valid() && page >= 1 && pageSize > 0
    ensures r.Rendered? <==> req.authenticated
    ensures r.Rendered? ==> r.view.totalAll == |db.carClasses.rows|
    ensures r.Rendered? ==> forall e :: e in r.view.items ==> e.id in db.carClasses.rows && db.carClasses.rows[e.id] == e.row
  {
    var entries := db.carClasses.Entries();
    CarClassListSpec(entries, EffectiveSearchName(req, searchName), page, pageSize);
    Index(req, searchName, page, pageSize, entries)
  }

  /** What SetSearchNameCookie appends reads back as the same search name. */
  lemma CookieReadsBack(jar: CookieJar, searchName: string)
    ensures SearchNameFromCookie(ApplySetCookies(jar, SetSearchNameCookie(searchName))) == searchName
  {
  }

  /** An authenticated Index renders the list for the effective search name and leaves it in the cookie. */
  lemma IndexPage(
    req: Request, searchName: Option<string>, page: Int32, pageSize: Int32, carClasses: seq<Entry<CarClass>>)
    requires page >= 1 && pageSize > 0 && req.authenticated
    ensures var r := Index(req, searchName, page, pageSize, carClasses);
      var filterSearchName := EffectiveSearchName(req, searchName);
      && r.view == CarClassList(carClasses, filterSearchName, page, pageSize)
      && r.setCookies == map[SearchNameCookie := filterSearchName]
      && SearchNameFromCookie(ApplySetCookies(req.cookies, r.setCookies)) == filterSearchName
  {
    CookieReadsBack(req.cookies, EffectiveSearchName(req, searchName));
  }

  /** Neither query key nor cookie: no search, no active filter, every class listed in table order. */
  lemma IndexFirstVisit(
    req: Request, searchName: Option<string>, page: Int32, pageSize: Int32, carClasses: seq<Entry<CarClass>>)
    requires page >= 1 && pageSize > 0 && req.authenticated
    requires !req.HasQueryKey(SearchNameQueryKey) && SearchNameCookie !in req.cookies
    ensures var r := Index(req, searchName, page, pageSize, carClasses);
      && r.view.filter == ""
      && !r.view.hasFilters
      && r.view.paging.totalItems == r.view.totalAll
      && r.view.items == PageSlice(carClasses, page, pageSize)
      && r.setCookies == map[SearchNameCookie := ""]
  {
  }

  /**
   * The search is sticky: coming back without the query key and with the
   * cookie the previous response set renders the same page.
   */
  lemma IndexRemembersFilter(
    req: Request, searchName: Option<string>, page: Int32, pageSize: Int32, carClasses: seq<Entry<CarClass>>,
    laterKeys: set<string>, laterSearchName: Option<string>)
    requires page >= 1 && pageSize > 0 && req.authenticated
    requires !HasKey(laterKeys, SearchNameQueryKey)
    ensures var first := Index(req, searchName, page, pageSize, carClasses);
      var later := Request(true, laterKeys, ApplySetCookies(req.cookies, first.setCookies));
      Index(later, laterSearchName, page, pageSize, carClasses) == first
  {
    CookieReadsBack(req.cookies, EffectiveSearchName(req, searchName));
  }

  // ---------------------------------------------------------------- edits

  function FormToCarClass(carClass: CarClassForm): CarClass {
    CarClass(carClass.name, carClass.description)
  }

  /** `Create([Bind("Name, Description")] CarClass)` POST. */
  method CreatePost(db: Db, carClass: CarClassForm, modelValid: bool) returns (r: ActionResult<CarClassForm>)
    requires db.Valid()
    modifies db.carClasses
    ensures db.Valid()
    ensures !modelValid ==> r == View(carClass) && unchanged(db.carClasses)
    ensures modelValid ==>
      && r == RedirectToIndex
      && old(db.carClasses.nextId) !in old(db.carClasses.rows)
      && db.carClasses.rows == old(db.carClasses.rows)[old(db.carClasses.nextId) := FormToCarClass(carClass)]
      && |db.carClasses.rows| == |old(db.carClasses.rows)| + 1
  {
    if !modelValid {
      return View(carClass);
    }
    var _ := db.carClasses.Add(FormToCarClass(carClass));
    return RedirectToIndex;
  }

  /**
   * `Edit(id, [Bind("CarClassId, Name, Description")] CarClass)` POST
   * through `Update`: a key of 0 (no key) makes `Update` insert a new
   * class; a key with no row fails to save and, the class not existing,
   * answers NotFound; otherwise the whole record is replaced.
   */
  method EditPost(db: Db, id: int, carClass: CarClassForm, modelValid: bool) returns (r: ActionResult<CarClassForm>)
    requires db.Valid()
    modifies db.carClasses
    ensures db.Valid()
    ensures id != carClass.id ==> r == NotFound && unchanged(db.carClasses)
    ensures id == carClass.id && !modelValid ==> r == View(carClass) && unchanged(db.carClasses)
    ensures id == carClass.id && modelValid && id == 0 ==>
      && r == RedirectToIndex
      && old(db.carClasses.nextId) !in old(db.carClasses.rows)
      && db.carClasses.rows == old(db.carClasses.rows)[old(db.carClasses.nextId) := FormToCarClass(carClass)]
    ensures id == carClass.id && modelValid && id != 0 && id !in old(db.carClasses.rows) ==>
      r == NotFound && unchanged(db.carClasses)
    ensures id == carClass.id && modelValid && id in old(db.carClasses.rows) ==>
      && r == RedirectToIndex
      && db.carClasses.rows == old(db.carClasses.rows)[id := FormToCarClass(carClass)]
      && db.carClasses.keys == old(db.carClasses.keys)
  {
    if id != carClass.id {
      return NotFound;
    }
    if !modelValid {
      return View(carClass);
    }
    if id == 0 {
      var _ := db.carClasses.Add(FormToCarClass(carClass));
      return RedirectToIndex;
    }
    if db.carClasses.Find(id).None? {
      return NotFound;
    }
    db.carClasses.Update(id, FormToCarClass(carClass));
    return RedirectToIndex;
  }

  /** `Delete(int? id)` GET: the confirmation page of an existing class. */
  function DeleteGet(db: Db, id: Option<int>): (r: ActionResult<Entry<CarClass>>)
    reads db, db.carClasses
    ensures r == NotFound <==> id.None? || id.value !in db.carClasses.rows
    ensures r != NotFound ==> r == View(Entry(id.value, db.carClasses.rows[id.value]))
  {
    if id.None? then NotFound
    else match db.carClasses.Find(id.value)
      case None => NotFound
      case Some(carClass) => View(Entry(id.value, carClass))
  }

  /**
   * `Delete(int id)` POST, unguarded: `Remove(null)` of a missing id throws
   * before anything is saved.
   */
  method DeletePost(db: Db, id: int) returns (r: ActionResult<CarClassForm>)
    requires db.Valid()
    modifies db.carClasses
    ensures db.Valid()
    ensures id in old(db.carClasses.rows) ==>
      && r == RedirectToIndex
      && db.carClasses.rows == old(db.carClasses.rows) - {id}
      && |db.carClasses.rows| == |old(db.carClasses.rows)| - 1
    ensures id !in old(db.carClasses.rows) ==> r == UnhandledException && unchanged(db.carClasses)
  {
    if db.carClasses.Find(id).None? {
      return UnhandledException;
    }
    db.carClasses.Remove(id);
    return RedirectToIndex;
  }
}
