// ClientsController: the client list (sort by phone number, substring
// filter on the phone number, paging, sticky filters in cookies) and the
// Create / Edit / Delete posts on the Clients table.

module ClientsController {
  import opened Optional
  import opened Text
  import opened Numerals
  import opened SortViewModels
  import opened PageViewModels
  import opened QueryPipeline
  import opened Http
  import opened Store

  const PhoneNumberCookie: string := "ClientPhoneNumber"
  const SortOrderCookie: string := "ClientSortOrder"
  const PhoneNumberQueryKey: string := "PhoneNumber"
  const SortOrderQueryKey: string := "sortOrder"
  const DefaultSortOrder: SortState := PhoneNumberAsc

  /** The bound `Client` of the edit form, key included (`Bind("ClientId, ...")`). */
  datatype ClientForm = ClientForm(
    id: int,
    fullName: Option<string>,
    licenseNumber: Option<string>,
    phoneNumber: Option<string>)

  // ---------------------------------------------------------------- list

  /** `OrderBy(c => c.PhoneNumber)`: a missing phone number first, then ordinal order. */
  predicate PhoneLe(a: Option<string>, b: Option<string>) {
    a.None? || (b.Some? && OrdinalLe(a.value, b.value))
  }

  lemma PhoneLeTotalPreorder()
    ensures TotalPreorder(PhoneLe)
  {
    forall a, b ensures PhoneLe(a, b) || PhoneLe(b, a) {
      if a.Some? && b.Some? {
        OrdinalLeTotal(a.value, b.value);
      }
    }
    forall a, b, c | PhoneLe(a, b) && PhoneLe(b, c) ensures PhoneLe(a, c) {
      if a.Some? {
        OrdinalLeTransitive(a.value, b.value, c.value);
      }
    }
  }

  function PhoneKey(client: Entry<Client>): Option<string> {
    client.row.phoneNumber
  }

  /** The filter of Sort_Search: a phone number that is present and contains `phoneNumber`. */
  function PhoneContains(phoneNumber: string): Entry<Client> -> bool {
    (client: Entry<Client>) => client.row.phoneNumber.Some? && Contains(client.row.phoneNumber.value, phoneNumber)
  }

  /** The clients a non-empty phone filter keeps (all of them for an empty one), in table order. */
  function Matching(clients: seq<Entry<Client>>, phoneNumber: string): seq<Entry<Client>> {
    WhereIf(clients, phoneNumber != "", PhoneContains(phoneNumber))
  }

  /** The `switch (sortOrder)` of Sort_Search: only the two phone states sort. */
  function SortDirection(sortOrder: SortState): Direction {
    if sortOrder == PhoneNumberAsc then Ascending
    else if sortOrder == PhoneNumberDesc then Descending
    else SourceOrder
  }

  /** `Sort_Search`: order by phone number when the state names it, then keep the phones containing a non-empty filter. */
  function SortSearch(clients: seq<Entry<Client>>, sortOrder: SortState, phoneNumber: string): seq<Entry<Client>> {
    WhereIf(OrderByKey(clients, PhoneKey, PhoneLe, SortDirection(sortOrder)), phoneNumber != "", PhoneContains(phoneNumber))
  }

  /**
   * Sort_Search returns exactly the matching clients (as a multiset): with a
   * non-empty filter those whose phone number is present and contains it.
   * They are ordered by phone number (missing first) for PhoneNumberAsc, in
   * the reverse order for PhoneNumberDesc, and in table order otherwise.
   */
  lemma SortSearchSpec(clients: seq<Entry<Client>>, sortOrder: SortState, phoneNumber: string)
    ensures var r := SortSearch(clients, sortOrder, phoneNumber);
      && multiset(r) == multiset(Matching(clients, phoneNumber))
      && |r| <= |clients|
      && (forall i :: 0 <= i < |r| ==> r[i] in clients && (phoneNumber != "" ==> PhoneContains(phoneNumber)(r[i])))
      && (forall i :: 0 <= i < |clients| && (phoneNumber != "" ==> PhoneContains(phoneNumber)(clients[i])) ==> clients[i] in r)
      && (sortOrder == PhoneNumberAsc ==> forall i, j :: 0 <= i < j < |r| ==> PhoneLe(r[i].row.phoneNumber, r[j].row.phoneNumber))
      && (sortOrder == PhoneNumberDesc ==> forall i, j :: 0 <= i < j < |r| ==> PhoneLe(r[j].row.phoneNumber, r[i].row.phoneNumber))
      && (sortOrder != PhoneNumberAsc && sortOrder != PhoneNumberDesc ==> r == Matching(clients, phoneNumber))
  {
    PhoneLeTotalPreorder();
    OrderByKeyThenWhereIf(clients, PhoneKey, PhoneLe, SortDirection(sortOrder), phoneNumber != "", PhoneContains(phoneNumber));
  }

  /** `GetPhoneNumberFromCookie`: the raw cookie text, or "" without the cookie. */
  function PhoneNumberFromCookie(cookies: CookieJar): string {
    StringCookie(cookies, PhoneNumberCookie)
  }

  function SortOrderFromCookie(cookies: CookieJar): SortState {
    SortCookie(cookies, SortOrderCookie, DefaultSortOrder)
  }

  /** The two cookies Index appends: the effective phone filter as it is, and the sort order's name. */
  function SetFilterCookies(phoneNumber: string, sortOrder: SortState): CookieJar {
    map[PhoneNumberCookie := phoneNumber, SortOrderCookie := Name(sortOrder)]
  }

  function GetSortDescription(sortOrder: SortState): (r: string)
    ensures r == "Без сортировки" <==> sortOrder != PhoneNumberAsc && sortOrder != PhoneNumberDesc
  {
    match sortOrder
    case PhoneNumberAsc => "По телефону (возр.)"
    case PhoneNumberDesc => "По телефону (убыв.)"
    case _ => "Без сортировки"
  }

  /** The filter's ViewBag label: "Все телефоны" exactly for no filter, else the filter in quotes. */
  function FilterLabel(phoneNumber: string): (r: string)
    ensures r == "Все телефоны" <==> phoneNumber == ""
    ensures phoneNumber != "" ==> |r| == |phoneNumber| + 2 && r[0] == '"' && r[|r| - 1] == '"' && r[1..|r| - 1] == phoneNumber
  {
    if phoneNumber == "" then "Все телефоны"
    else
      var r := "\"" + phoneNumber + "\"";
      assert r[1..|r| - 1] == phoneNumber;
      r
  }

  /**
   * The effective phone filter: the bound argument when `PhoneNumber` is in
   * the query string, else the cookie. The argument is None when binding
   * produced null (an empty query value); unlike CarsClass, Index does not
   * replace that null by "".
   */
  function EffectivePhoneNumber(req: Request, phoneNumber: Option<string>): Option<string> {
    if req.HasQueryKey(PhoneNumberQueryKey) then phoneNumber else Some(PhoneNumberFromCookie(req.cookies))
  }

  /** The effective sort order: the bound argument when `sortOrder` is in the query string, else the cookie, else PhoneNumberAsc. */
  function EffectiveSortOrder(req: Request, sortOrder: SortState): SortState {
    if req.HasQueryKey(SortOrderQueryKey) then sortOrder else SortOrderFromCookie(req.cookies)
  }

  /**
   * The phone resolution: the query value (even "" or null), else the cookie
   * text unparsed, else ""; only a null query value leaves no filter text.
   */
  lemma EffectivePhoneNumberSpec(req: Request, phoneNumber: Option<string>)
    ensures req.HasQueryKey(PhoneNumberQueryKey) ==> EffectivePhoneNumber(req, phoneNumber) == phoneNumber
    ensures !req.HasQueryKey(PhoneNumberQueryKey) && PhoneNumberCookie in req.cookies ==>
      EffectivePhoneNumber(req, phoneNumber) == Some(req.cookies[PhoneNumberCookie])
    ensures !req.HasQueryKey(PhoneNumberQueryKey) && PhoneNumberCookie !in req.cookies ==>
      EffectivePhoneNumber(req, phoneNumber) == Some("")
    ensures EffectivePhoneNumber(req, phoneNumber).None? <==> req.HasQueryKey(PhoneNumberQueryKey) && phoneNumber.None?
  {
  }

  /** The sort resolution: query value, else a cookie naming a state in any letter case, else PhoneNumberAsc. */
  lemma EffectiveSortOrderSpec(req: Request, sortOrder: SortState)
    ensures req.HasQueryKey(SortOrderQueryKey) ==> EffectiveSortOrder(req, sortOrder) == sortOrder
    ensures !req.HasQueryKey(SortOrderQueryKey) && SortOrderCookie in req.cookies ==>
      forall s :: EqualsIgnoreCase(Trim(req.cookies[SortOrderCookie]), Name(s)) ==> EffectiveSortOrder(req, sortOrder) == s
    ensures (&& !req.HasQueryKey(SortOrderQueryKey) && SortOrderCookie in req.cookies
             && forall s :: !EqualsIgnoreCase(Trim(req.cookies[SortOrderCookie]), Name(s))) ==>
      EffectiveSortOrder(req, sortOrder) == PhoneNumberAsc
    ensures !req.HasQueryKey(SortOrderQueryKey) && SortOrderCookie !in req.cookies ==>
      EffectiveSortOrder(req, sortOrder) == PhoneNumberAsc
  {
    SortCookieSpec(req.cookies, SortOrderCookie, DefaultSortOrder);
  }

  /** The list page for effective phone filter `phoneNumber` and sort order `sort`. */
  function ClientList(
    clients: seq<Entry<Client>>, phoneNumber: string, sort: SortState,
    page: Int32, pageSize: Int32): ListView<Entry<Client>, string>
    requires pageSize > 0
  {
    var query := SortSearch(clients, sort, phoneNumber);
    ListView(
      PageSlice(query, page, pageSize),
      NewPageViewModel(|query|, page, pageSize),
      Some(NewSortViewModel(sort)),
      phoneNumber,
      |clients|,
      FilterLabel(phoneNumber),
      phoneNumber != "" || sort != DefaultSortOrder,
      Some(GetSortDescription(sort)))
  }

  /**
   * The list page: `count` is the filtered length, at most `totalAll` (every
   * client); the page holds the rows from (page - 1) * pageSize on, every
   * one matching the filter and in the requested order; HasFilters holds
   * exactly when the filter is non-empty or the sort is not PhoneNumberAsc.
   */
  lemma ClientListSpec(
    clients: seq<Entry<Client>>, phoneNumber: string, sort: SortState, page: Int32, pageSize: Int32)
    requires page >= 1 && pageSize > 0
    ensures var v := ClientList(clients, phoneNumber, sort, page, pageSize);
      var count := v.paging.totalItems;
      && v.filter == phoneNumber && v.sorting == Some(NewSortViewModel(sort))
      && v.totalAll == |clients|
      && count == |Matching(clients, phoneNumber)| && count <= v.totalAll
      && v.paging.page == page && v.paging.pageSize == pageSize
      && |v.items| == Min(pageSize, Max(0, count - (page - 1) * pageSize))
      && (forall i :: 0 <= i < |v.items| ==> v.items[i] in clients && (phoneNumber != "" ==> PhoneContains(phoneNumber)(v.items[i])))
      && (sort == PhoneNumberAsc ==> forall i, j :: 0 <= i < j < |v.items| ==>
            PhoneLe(v.items[i].row.phoneNumber, v.items[j].row.phoneNumber))
      && (sort == PhoneNumberDesc ==> forall i, j :: 0 <= i < j < |v.items| ==>
            PhoneLe(v.items[j].row.phoneNumber, v.items[i].row.phoneNumber))
      && (sort != PhoneNumberAsc && sort != PhoneNumberDesc ==> v.items == PageSlice(Matching(clients, phoneNumber), page, pageSize))
      && (v.hasFilters <==> phoneNumber != "" || sort != PhoneNumberAsc)
  {
    PageCount(clients, sort, phoneNumber, page, pageSize);
    PageRowsMatch(clients, sort, phoneNumber, page, pageSize);
    if sort == PhoneNumberAsc {
      PageAscending(clients, phoneNumber, page, pageSize);
    } else if sort == PhoneNumberDesc {
      PageDescending(clients, phoneNumber, page, pageSize);
    } else {
      assert SortDirection(sort) == SourceOrder;
    }
  }

  /** The size of the page of Sort_Search's result. */
  lemma PageCount(clients: seq<Entry<Client>>, sort: SortState, phoneNumber: string, page: int, pageSize: int)
    requires page >= 1 && pageSize > 0
    ensures var query := SortSearch(clients, sort, phoneNumber);
      && |query| == |Matching(clients, phoneNumber)| && |query| <= |clients|
      && |PageSlice(query, page, pageSize)| == Min(pageSize, Max(0, |query| - (page - 1) * pageSize))
  {
    var query := SortSearch(clients, sort, phoneNumber);
    SortSearchSpec(clients, sort, phoneNumber);
    assert |query| == |multiset(query)| == |multiset(Matching(clients, phoneNumber))| == |Matching(clients, phoneNumber)|;
    PageSliceSpec(query, page, pageSize);
  }

  /** Every row of the page of Sort_Search's result is a client matching the filter. */
  lemma PageRowsMatch(clients: seq<Entry<Client>>, sort: SortState, phoneNumber: string, page: int, pageSize: int)
    requires page >= 1 && pageSize > 0
    ensures var items := PageSlice(SortSearch(clients, sort, phoneNumber), page, pageSize);
      forall i :: 0 <= i < |items| ==> items[i] in clients && (phoneNumber != "" ==> PhoneContains(phoneNumber)(items[i]))
  {
    SortSearchSpec(clients, sort, phoneNumber);
    PageSliceMembers(SortSearch(clients, sort, phoneNumber), page, pageSize);
  }

  /** Under PhoneNumberAsc the page is ordered by phone number. */
  lemma PageAscending(clients: seq<Entry<Client>>, phoneNumber: string, page: int, pageSize: int)
    requires page >= 1 && pageSize > 0
    ensures var items := PageSlice(SortSearch(clients, PhoneNumberAsc, phoneNumber), page, pageSize);
      forall i, j :: 0 <= i < j < |items| ==> PhoneLe(items[i].row.phoneNumber, items[j].row.phoneNumber)
  {
    PhoneLeTotalPreorder();
    PageAscendingByKey(clients, PhoneKey, PhoneLe, phoneNumber != "", PhoneContains(phoneNumber), page, pageSize);
  }

  /** Under PhoneNumberDesc the page is in reverse phone number order. */
  lemma PageDescending(clients: seq<Entry<Client>>, phoneNumber: string, page: int, pageSize: int)
    requires page >= 1 && pageSize > 0
    ensures var items := PageSlice(SortSearch(clients, PhoneNumberDesc, phoneNumber), page, pageSize);
      forall i, j :: 0 <= i < j < |items| ==> PhoneLe(items[j].row.phoneNumber, items[i].row.phoneNumber)
  {
    PhoneLeTotalPreorder();
    PageDescendingByKey(clients, PhoneKey, PhoneLe, phoneNumber != "", PhoneContains(phoneNumber), page, pageSize);
  }

  /**
   * `Index(PhoneNumber, sortOrder, page)` over the Clients table: the
   * arguments are what model binding produced (None for a null phone
   * number), and count only when their key is in the query string. A null
   * effective phone number reaches `Response.Cookies.Append`, which throws.
   */
  function Index(
    req: Request, phoneNumber: Option<string>, sortOrder: SortState, page: Int32, pageSize: Int32,
    clients: seq<Entry<Client>>): (r: IndexResult<Entry<Client>, string>)
    requires page >= 1 && pageSize > 0
    ensures r.RedirectToHome? <==> !req.authenticated
    ensures r.Throws? <==> req.authenticated && req.HasQueryKey(PhoneNumberQueryKey) && phoneNumber.None?
  {
    if !req.authenticated then RedirectToHome
    else
      match EffectivePhoneNumber(req, phoneNumber)
      case None => Throws
      case Some(filterPhoneNumber) =>
        var filterSortOrder := EffectiveSortOrder(req, sortOrder);
        Rendered(
          ClientList(clients, filterPhoneNumber, filterSortOrder, page, pageSize),
          SetFilterCookies(filterPhoneNumber, filterSortOrder))
  }

  /** What SetFilterCookies appends reads back as the same phone filter and sort order. */
  lemma CookiesReadBack(jar: CookieJar, phoneNumber: string, sort: SortState)
    ensures PhoneNumberFromCookie(ApplySetCookies(jar, SetFilterCookies(phoneNumber, sort))) == phoneNumber
    ensures SortOrderFromCookie(ApplySetCookies(jar, SetFilterCookies(phoneNumber, sort))) == sort
  {
    assert |PhoneNumberCookie| != |SortOrderCookie|;
    var next := ApplySetCookies(jar, SetFilterCookies(phoneNumber, sort));
    SortCookieRoundTrip(next, SortOrderCookie, sort, DefaultSortOrder);
  }

  /**
   * An authenticated Index with a phone filter renders the list for the
   * effective values and leaves both in the cookies; with a null one it
   * throws before any cookie is written.
   */
  lemma IndexPage(
    req: Request, phoneNumber: Option<string>, sortOrder: SortState, page: Int32, pageSize: Int32,
    clients: seq<Entry<Client>>)
    requires page >= 1 && pageSize > 0 && req.authenticated
    ensures EffectivePhoneNumber(req, phoneNumber).None? ==> Index(req, phoneNumber, sortOrder, page, pageSize, clients) == Throws
    ensures EffectivePhoneNumber(req, phoneNumber).Some? ==>
      var r := Index(req, phoneNumber, sortOrder, page, pageSize, clients);
      var filterPhoneNumber := EffectivePhoneNumber(req, phoneNumber).value;
      var filterSortOrder := EffectiveSortOrder(req, sortOrder);
      && r.Rendered?
      && r.view == ClientList(clients, filterPhoneNumber, filterSortOrder, page, pageSize)
      && r.setCookies == SetFilterCookies(filterPhoneNumber, filterSortOrder)
      && PhoneNumberFromCookie(ApplySetCookies(req.cookies, r.setCookies)) == filterPhoneNumber
      && SortOrderFromCookie(ApplySetCookies(req.cookies, r.setCookies)) == filterSortOrder
  {
    if EffectivePhoneNumber(req, phoneNumber).Some? {
      var filterPhoneNumber := EffectivePhoneNumber(req, phoneNumber).value;
      var filterSortOrder := EffectiveSortOrder(req, sortOrder);
      assert Index(req, phoneNumber, sortOrder, page, pageSize, clients)
        == Rendered(ClientList(clients, filterPhoneNumber, filterSortOrder, page, pageSize), SetFilterCookies(filterPhoneNumber, filterSortOrder));
      CookiesReadBack(req.cookies, filterPhoneNumber, filterSortOrder);
    }
  }

  /**
   * Index on the live database: the query enumerates the Clients table, so
   * totalAll is its row count and every listed client is a stored row under
   * its own key.
   */
  function IndexOn(
    db: Db, req: Request, phoneNumber: Option<string>, sortOrder: SortState, page: Int32, pageSize: Int32): (r: IndexResult<Entry<Client>, string>)
    reads db, db.clients
    requires db.clients.Valid() && page >= 1 && pageSize > 0
    ensures r.RedirectToHome? <==> !req.authenticated
    ensures r.Rendered? ==> r.view.totalAll == |db.clients.rows|
    ensures r.Rendered? ==> forall e :: e in r.view.items ==> e.id in db.clients.rows && db.clients.rows[e.id] == e.row
  {
    var entries := db.clients.Entries();
    var eff := EffectivePhoneNumber(req, phoneNumber);
    if eff.Some? then
      ClientListSpec(entries, eff.value, EffectiveSortOrder(req, sortOrder), page, pageSize);
      Index(req, phoneNumber, sortOrder, page, pageSize, entries)
    else
      Index(req, phoneNumber, sortOrder, page, pageSize, entries)
  }

  /** `?PhoneNumber=` with an empty box binds null, and Index then fails with an unhandled exception. */
  lemma IndexEmptyPhoneNumberThrows(
    req: Request, sortOrder: SortState, page: Int32, pageSize: Int32, clients: seq<Entry<Client>>)
    requires page >= 1 && pageSize > 0 && req.authenticated && req.HasQueryKey(PhoneNumberQueryKey)
    ensures Index(req, None, sortOrder, page, pageSize, clients) == Throws
    ensures Index(req, Some(""), sortOrder, page, pageSize, clients).Rendered?
  {
  }

  /** Neither query keys nor cookies: no phone filter, ordered by phone number, no active filter, every client counted. */
  lemma IndexFirstVisit(
    req: Request, phoneNumber: Option<string>, sortOrder: SortState, page: Int32, pageSize: Int32,
    clients: seq<Entry<Client>>)
    requires page >= 1 && pageSize > 0 && req.authenticated
    requires !req.HasQueryKey(PhoneNumberQueryKey) && !req.HasQueryKey(SortOrderQueryKey)
    requires PhoneNumberCookie !in req.cookies && SortOrderCookie !in req.cookies
    ensures var r := Index(req, phoneNumber, sortOrder, page, pageSize, clients);
      && r.Rendered?
      && r.view.filter == ""
      && r.view.sorting == Some(NewSortViewModel(PhoneNumberAsc))
      && !r.view.hasFilters
      && r.view.paging.totalItems == r.view.totalAll
      && r.setCookies == map[PhoneNumberCookie := "", SortOrderCookie := "PhoneNumberAsc"]
  {
    ClientListSpec(clients, "", PhoneNumberAsc, page, pageSize);
  }

  /**
   * Filters are sticky: coming back with neither query key and the cookies
   * the previous response set renders the same page and sets the same cookies.
   */
  lemma IndexRemembersFilters(
    req: Request, phoneNumber: Option<string>, sortOrder: SortState, page: Int32, pageSize: Int32,
    clients: seq<Entry<Client>>,
    laterKeys: set<string>, laterPhoneNumber: Option<string>, laterSort: SortState)
    requires page >= 1 && pageSize > 0 && req.authenticated
    requires !HasKey(laterKeys, PhoneNumberQueryKey) && !HasKey(laterKeys, SortOrderQueryKey)
    ensures var first := Index(req, phoneNumber, sortOrder, page, pageSize, clients);
      first.Rendered? ==>
        var later := Request(true, laterKeys, ApplySetCookies(req.cookies, first.setCookies));
        Index(later, laterPhoneNumber, laterSort, page, pageSize, clients) == first
  {
    var eff := EffectivePhoneNumber(req, phoneNumber);
    if eff.Some? {
      CookiesReadBack(req.cookies, eff.value, EffectiveSortOrder(req, sortOrder));
    }
  }

  // ---------------------------------------------------------------- edits

  function FormToClient(client: ClientForm): Client {
    Client(client.fullName, client.licenseNumber, client.phoneNumber)
  }

  /** `Create([Bind("FullName, LicenseNumber, PhoneNumber")] Client)` POST. */
  method CreatePost(db: Db, client: ClientForm, modelValid: bool) returns (r: ActionResult<ClientForm>)
    requires db.Valid()
    modifies db.clients
    ensures db.Valid()
    ensures !modelValid ==> r == View(client) && unchanged(db.clients)
    ensures modelValid ==>
      && r == RedirectToIndex
      && old(db.clients.nextId) !in old(db.clients.rows)
      && db.clients.rows == old(db.clients.rows)[old(db.clients.nextId) := FormToClient(client)]
      && |db.clients.rows| == |old(db.clients.rows)| + 1
  {
    if !modelValid {
      return View(client);
    }
    var _ := db.clients.Add(FormToClient(client));
    return RedirectToIndex;
  }

  /**
   * `Edit(id, [Bind("ClientId, ...")] Client)` POST through `Update`: a key
   * of 0 (no key) makes `Update` insert a new client; a key with no row
   * fails to save and, the client not existing, answers NotFound; otherwise
   * the whole record is replaced.
   */
  method EditPost(db: Db, id: int, client: ClientForm, modelValid: bool) returns (r: ActionResult<ClientForm>)
    requires db.Valid()
    modifies db.clients
    ensures db.Valid()
    ensures id != client.id ==> r == NotFound && unchanged(db.clients)
    ensures id == client.id && !modelValid ==> r == View(client) && unchanged(db.clients)
    ensures id == client.id && modelValid && id == 0 ==>
      && r == RedirectToIndex
      && old(db.clients.nextId) !in old(db.clients.rows)
      && db.clients.rows == old(db.clients.rows)[old(db.clients.nextId) := FormToClient(client)]
    ensures id == client.id && modelValid && id != 0 && id !in old(db.clients.rows) ==>
      r == NotFound && unchanged(db.clients)
    ensures id == client.id && modelValid && id in old(db.clients.rows) ==>
      && r == RedirectToIndex
      && db.clients.rows == old(db.clients.rows)[id := FormToClient(client)]
      && db.clients.keys == old(db.clients.keys)
  {
    if id != client.id {
      return NotFound;
    }
    if !modelValid {
      return View(client);
    }
    if id == 0 {
      var _ := db.clients.Add(FormToClient(client));
      return RedirectToIndex;
    }
    if db.clients.Find(id).None? {
      return NotFound;
    }
    db.clients.Update(id, FormToClient(client));
    return RedirectToIndex;
  }

  /** `Delete(int? id)` GET: the confirmation page of an existing client. */
  function DeleteGet(db: Db, id: Option<int>): (r: ActionResult<Entry<Client>>)
    reads db, db.clients
    ensures r == NotFound <==> id.None? || id.value !in db.clients.rows
    ensures r != NotFound ==> r == View(Entry(id.value, db.clients.rows[id.value]))
  {
    if id.None? then NotFound
    else match db.clients.Find(id.value)
      case None => NotFound
      case Some(client) => View(Entry(id.value, client))
  }

  /**
   * `Delete(int id)` POST, unguarded: `Remove(null)` of a missing id throws
   * before anything is saved.
   */
  method DeletePost(db: Db, id: int) returns (r: ActionResult<ClientForm>)
    requires db.Valid()
    modifies db.clients
    ensures db.Valid()
    ensures id in old(db.clients.rows) ==>
      && r == RedirectToIndex
      && db.clients.rows == old(db.clients.rows) - {id}
      && |db.clients.rows| == |old(db.clients.rows)| - 1
    ensures id !in old(db.clients.rows) ==> r == UnhandledException && unchanged(db.clients)
  {
    if db.clients.Find(id).None? {
      return UnhandledException;
    }
    db.clients.Remove(id);
    return RedirectToIndex;
  }
}
