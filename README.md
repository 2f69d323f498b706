# CarRental controllers in Dafny

This project models the list and edit controllers of the CarRental_2 ASP.NET
MVC application. The six controllers are Cars, Maintenances,
RentalAgreements, RentalHistories, Clients and CarsClass (the car classes).
The model also covers the two view models they share, `PageViewModel`
(paging metadata) and `SortViewModel` (the sort state and its toggles).

Each controller's `Index` action works in six steps:

1. The action itself redirects an anonymous user to the home page. (In the
   running application the `[Authorize]` filter turns such a user away
   before the action runs.)
2. It resolves each filter and the sort order. The action argument is used
   when its key is in the query string; otherwise the remembered cookie is
   used; otherwise the default.
3. It runs the controller's `Sort_Search` query. Where a controller sorts,
   it orders by one column, ascending or descending. It then keeps the rows
   that equal (or, for text filters, contain) the filter value.
4. It counts the result (`count`) and the unfiltered rows (`totalAll`).
5. It takes page `page` of `_pageSize` rows. The page size comes from the
   `Parameters:PageSize` setting, or is 20.
6. It renders the page with its `PageViewModel`, `SortViewModel` and
   ViewBag facts (the filter label, `HasFilters`, the sort description). It
   then writes the effective filter and sort back into cookies.

The model is built from these modules:

- `QueryPipeline`: the LINQ operators the queries use. `OrderBy` and
  `OrderByDescending` are an insertion sort by a key under a total
  preorder. `Where`, the inner `Join`, and `Skip`/`Take` are also here.
- `Text`, `Numerals`, `SortViewModels`, `PageViewModels`, `Http`: the
  framework behaviour the controllers rely on.
  - `Text` and `Numerals` cover trimming, ASCII case-insensitive comparison,
    substring search, ordinal string order, and decimal and Int32 text.
  - `SortViewModels` covers `Enum.TryParse<SortState>` with `ignoreCase`.
  - `Http` covers cookie jars, the query-string key test and the page-size
    setting.
- `Store`: the database context. `Table<T>` is a class holding a key-to-row
  map, the keys in identity order, and the next identity value. `Db` holds
  the six tables.

Each controller's `Index` is a function over table snapshots, the rows of
`Table.Entries()` in ascending key order. It returns `RedirectToHome`, the
rendered `ListView` together with the cookies it appends, or `Throws` for
an exception it does not catch. The POST actions `Create`, `Edit` and `Delete` are
methods that change one table of the `Db`. They answer through an
`ActionResult`: `NotFound`, `RedirectToIndex`, `View(model)`, or
`UnhandledException` for an exception the action does not catch.

The properties proved are these:

- Every `Sort_Search` returns exactly the matching rows, as a multiset. The
  rows are ordered by the key for the ascending and descending sort states
  and stay in source order for every other state.
- The page holds the rows from `(page - 1) * pageSize` on, and its
  length is given exactly.
- `count`, `totalAll`, `HasFilters` and the sort description agree with the
  effective filter and sort order.
- Filter resolution follows the query string, then the cookie, then the
  default, in every case. The cookies written by one `Index` read back as the
  same filter and sort. So a later visit without query keys renders the
  same page (`IndexRemembersFilters`).
- The paging metadata is correct: `TotalPages` is the ceiling of the
  division, and `HasPreviousPage` and `HasNextPage` are characterised.
- The sort toggles are correct.
- Each POST action's outcome and new table state is stated for every
  branch: an invalid model, an id mismatch, a missing row, the
  insert-on-key-0 behaviour of `Update`, and an unguarded delete.

## Model

| member | source | states |
|---|---|---|
| Text.TrimStart | CarRental_2/Controllers/CarsController.cs:234 | the result is a suffix of the input with no leading white space, and everything dropped is white space |
| Text.TrimEnd | CarRental_2/Controllers/CarsController.cs:234 | the result is a prefix of the input with no trailing white space, and everything dropped is white space |
| Text.TrimUnchanged | CarRental_2/Controllers/CarsController.cs:234 | a text without surrounding white space is left as it is by `Trim` |
| Text.EqualsIgnoreCaseAt | CarRental_2/Controllers/CarsController.cs:234 | case-insensitive equality holds exactly when the lengths agree and every position agrees after ASCII lower-casing |
| Text.EqualsIgnoreCaseReflexive | CarRental_2/Controllers/CarsController.cs:234 | every text equals itself ignoring case |
| Text.EqualsIgnoreCaseSymmetric | CarRental_2/Controllers/CarsController.cs:234 | case-insensitive equality is symmetric |
| Text.EqualsIgnoreCaseTransitive | CarRental_2/Controllers/CarsController.cs:234 | case-insensitive equality is transitive |
| Text.ContainsEmpty | CarRental_2/Controllers/CarsClassController.cs:37-41 | every text contains the empty text, so skipping the filter for "" loses no row |
| Text.OrdinalLeTotal | CarRental_2/Controllers/ClientsController.cs:238-241 | any two texts are comparable in ordinal order |
| Text.OrdinalLeTransitive | CarRental_2/Controllers/ClientsController.cs:238-241 | ordinal order is transitive |
| Text.Trim | CarRental_2/Controllers/CarsController.cs:234 | `string.Trim` as `Enum.TryParse` applies it; specified by `TrimStart`, `TrimEnd` and `TrimUnchanged` |
| Text.EqualsIgnoreCase | CarRental_2/Controllers/CarsController.cs:234 | ASCII case-insensitive equality; `EqualsIgnoreCaseAt` characterises it position by position, and it is an equivalence (`EqualsIgnoreCaseReflexive`, `EqualsIgnoreCaseSymmetric`, `EqualsIgnoreCaseTransitive`) |
| Text.Contains | CarRental_2/Controllers/ClientsController.cs:250 | `string.Contains`: sub occurs at some position of s; `ContainsEmpty` shows the empty text always occurs |
| Text.OrdinalLe | CarRental_2/Controllers/ClientsController.cs:238-241 | ordinal string order, a total preorder by `OrdinalLeTotal` and `OrdinalLeTransitive` |
| Numerals.Digit | CarRental_2/Controllers/CarsController.cs:250 | the character for digit d is a decimal digit whose value is d |
| Numerals.NatToDigits | CarRental_2/Controllers/CarsController.cs:250 | the text of n is a non-empty digit string, without leading zeros, whose value is n |
| Numerals.ParseFormatInteger | CarRental_2/Controllers/CarsController.cs:225 | parsing the text of any integer gives that integer back |
| Numerals.TryParseDecimalOfParse | CarRental_2/Controllers/CarsController.cs:225 | `decimal.TryParse` fails when the text is no integer numeral, and otherwise yields the numeral's value |
| Numerals.DecimalRoundTrip | CarRental_2/Controllers/CarsController.cs:250 | `decimal.TryParse(d.ToString())` yields d |
| Numerals.Int32RoundTrip | CarRental_2/Controllers/CarsController.cs:29-31 | `int.TryParse` of an Int32's text yields that Int32 |
| Numerals.ParseInteger | CarRental_2/Controllers/CarsController.cs:225 | the integer syntax of the parsers; `ParseFormatInteger` shows every integer's text parses back to it |
| Numerals.FormatInteger | CarRental_2/Controllers/CarsController.cs:250 | the invariant text of a whole number; `NatToDigits` gives its digits and `ParseFormatInteger` its inverse |
| Numerals.TryParseInt32 | CarRental_2/Controllers/CarsController.cs:29-31 | `int.TryParse`; `Int32RoundTrip` shows an Int32's text parses back to it, and `Http.PageSizeSetting` uses it |
| Numerals.TryParseDecimal | CarRental_2/Controllers/CarsController.cs:225 | `decimal.TryParse` of whole amounts; `TryParseDecimalOfParse` states when it fails and what it yields |
| Numerals.DecimalToString | CarRental_2/Controllers/CarsController.cs:250 | `decimal.ToString()`; `DecimalRoundTrip` shows `TryParseDecimal` inverts it |
| SortViewModels.StatesComplete | CarRental_2/ViewModels/SortViewModel.cs:3-14 | the list of states holds every one of the nine `SortState` values |
| SortViewModels.FindByName | CarRental_2/Controllers/CarsController.cs:234 | a found state is a candidate whose name equals the text ignoring case; no state is found only when no candidate's name matches |
| SortViewModels.NamesDistinct | CarRental_2/ViewModels/SortViewModel.cs:3-14 | two states whose names are equal ignoring case are the same state |
| SortViewModels.TryParseIff | CarRental_2/Controllers/CarsController.cs:234 | `Enum.TryParse` with ignoreCase yields s exactly when the trimmed text equals s's name ignoring case |
| SortViewModels.NameRoundTrip | CarRental_2/Controllers/CarsController.cs:251 | parsing `sortOrder.ToString()` gives the same state |
| SortViewModels.ToggleSpec | CarRental_2/ViewModels/SortViewModel.cs:27-30 | each column's link state is Desc exactly when the current state is that column's Asc, and Asc otherwise; it is never `No` |
| SortViewModels.ToggleInvolution | CarRental_2/ViewModels/SortViewModel.cs:27-30 | following a column's link twice from that column's Asc or Desc returns to the starting state |
| SortViewModels.CurrentStateKept | CarRental_2/ViewModels/SortViewModel.cs:23-32 | `CurrentState` and `SortOrder` are the state the view model was built with |
| SortViewModels.Name | CarRental_2/ViewModels/SortViewModel.cs:3-14 | `SortState.ToString()`, the member's name; `NameRoundTrip` shows `TryParse` inverts it and `NamesDistinct` that it is injective |
| SortViewModels.TryParse | CarRental_2/Controllers/CarsController.cs:234 | `Enum.TryParse` with ignoreCase; `TryParseIff` states exactly which texts yield each state |
| SortViewModels.SortViewModel.SortOrder | CarRental_2/ViewModels/SortViewModel.cs:23 | the `SortOrder` property; `CurrentStateKept` shows it is the state the view model was built with |
| SortViewModels.SortViewModel.Toggle | CarRental_2/ViewModels/SortViewModel.cs:27-30 | a column's link state; `ToggleSpec` and `ToggleInvolution` state it |
| SortViewModels.NewSortViewModel | CarRental_2/ViewModels/SortViewModel.cs:25-33 | the constructor; `ToggleSpec` states its four link states and `CurrentStateKept` its current state |
| PageViewModels.CeilDiv | CarRental_2/ViewModels/PageViewModel.cs:15 | q is the ceiling of a / b: q * b >= a and (q - 1) * b < a |
| PageViewModels.NewPageViewModelSpec | CarRental_2/ViewModels/PageViewModel.cs:11-17 | the fields are the arguments, and TotalPages is the least page count that covers all items |
| PageViewModels.HasPreviousPageIff | CarRental_2/ViewModels/PageViewModel.cs:19 | there is a previous page exactly when page > 1 |
| PageViewModels.HasNextPageIff | CarRental_2/ViewModels/PageViewModel.cs:20 | there is a next page exactly when items remain after this page (page * pageSize < totalItems); an empty list never has one |
| PageViewModels.SecondOfTwoPages | CarRental_2/ViewModels/PageViewModel.cs:11-20 | 25 items at 20 per page make two pages; page 2 has a previous page and no next page |
| PageViewModels.NewPageViewModel | CarRental_2/ViewModels/PageViewModel.cs:11-17 | the constructor; `NewPageViewModelSpec` states its fields and the page count |
| PageViewModels.PageViewModel.HasPreviousPage | CarRental_2/ViewModels/PageViewModel.cs:19 | `Page > 1`; `HasPreviousPageIff` characterises it |
| PageViewModels.PageViewModel.HasNextPage | CarRental_2/ViewModels/PageViewModel.cs:20 | `Page < TotalPages`; `HasNextPageIff` characterises it by the items that remain |
| QueryPipeline.IntLeTotalPreorder | CarRental_2/Controllers/CarsController.cs:266 | the order of numeric keys is a total preorder |
| QueryPipeline.ByTotalPreorder | CarRental_2/Controllers/CarsController.cs:266 | comparing rows by a key under a total preorder is a total preorder |
| QueryPipeline.ReverseTotalPreorder | CarRental_2/Controllers/CarsController.cs:269 | the reverse of a total preorder is one (the order of `OrderByDescending`) |
| QueryPipeline.Insert | CarRental_2/Controllers/CarsController.cs:266 | inserting adds exactly that one element |
| QueryPipeline.OrderBy | CarRental_2/Controllers/CarsController.cs:266 | `OrderBy` is a permutation of its input |
| QueryPipeline.InsertSorted | CarRental_2/Controllers/CarsController.cs:266 | inserting into a sorted list keeps it sorted |
| QueryPipeline.OrderBySorted | CarRental_2/Controllers/CarsController.cs:266 | `OrderBy` under a total preorder yields a sorted list |
| QueryPipeline.Where | CarRental_2/Controllers/CarsController.cs:276 | `Where` keeps exactly the rows satisfying the predicate, and is no longer than its input |
| QueryPipeline.WhereMultiset | CarRental_2/Controllers/CarsController.cs:276 | `Where` keeps every copy of a satisfying row and none of the others |
| QueryPipeline.WherePermutation | CarRental_2/Controllers/CarsController.cs:276 | filtering two permutations of a list gives permutations of each other |
| QueryPipeline.WhereSorted | CarRental_2/Controllers/CarsController.cs:276 | filtering a sorted list keeps it sorted |
| QueryPipeline.WhereIf | CarRental_2/Controllers/CarsController.cs:274-277 | the conditional filter keeps every row when the condition is off, and exactly the satisfying rows when it is on |
| QueryPipeline.OrderThenWhereIf | CarRental_2/Controllers/CarsController.cs:261-280 | ordering then filtering gives a sorted permutation of the filtered input |
| QueryPipeline.SameRowsAsFilter | CarRental_2/Controllers/CarsController.cs:261-280 | a permutation of the filtered input has the filter's membership in both directions |
| QueryPipeline.OrderByKeyThenWhereIf | CarRental_2/Controllers/CarsController.cs:261-280 | the ordered, filtered query is a permutation of the filtered rows, ordered by key for Ascending and Descending, and exactly the filtered rows in source order otherwise |
| QueryPipeline.PageAscendingByKey | CarRental_2/Controllers/CarsController.cs:74 | every page of an ascending ordered, filtered query is ordered by key |
| QueryPipeline.PageDescendingByKey | CarRental_2/Controllers/CarsController.cs:74 | every page of a descending ordered, filtered query is in reverse key order |
| QueryPipeline.JoinCountIndependentOfSelect | CarRental_2/Controllers/CarsController.cs:67-70 | the joined row count does not depend on the projection, so the count of joined cars equals the number of joined list rows |
| QueryPipeline.SkipTakeSpec | CarRental_2/Controllers/CarsController.cs:74 | `Take(Skip(s, n), m)` is the min(m, max(0, \|s\| - n)) rows of s from position n |
| QueryPipeline.PageSliceSpec | CarRental_2/Controllers/CarsController.cs:74 | page p holds the rows from (p - 1) * pageSize on, with length min(pageSize, max(0, \|s\| - (p - 1) * pageSize)) |
| QueryPipeline.PageSliceMembers | CarRental_2/Controllers/CarsController.cs:74 | every row of a page is a row of the list |
| QueryPipeline.SkipTakeMembers | CarRental_2/Controllers/CarsController.cs:74 | every row of `Take(Skip(s, n), m)` is a row of s |
| QueryPipeline.PageSliceOrdered | CarRental_2/Controllers/CarsController.cs:74 | a page of a list ordered by a relation is ordered by it |
| QueryPipeline.SkipTakeOrdered | CarRental_2/Controllers/CarsController.cs:74 | `Take(Skip(s, n), m)` of an ordered list is ordered |
| QueryPipeline.PageSliceAgainstMetadata | CarRental_2/Controllers/CarsController.cs:73-83 | the page is non-empty exactly when page <= TotalPages, and is full whenever HasNextPage holds |
| QueryPipeline.OrderByKey | CarRental_2/Controllers/CarsController.cs:263-272 | the `switch` of Sort_Search: OrderBy, OrderByDescending or no ordering; `OrderByKeyThenWhereIf` states the result |
| QueryPipeline.JoinOne | CarRental_2/Controllers/CarsController.cs:49-50 | one outer row's matches in inner order; `JoinOneCount` counts them independently of the projection and `JoinOneMembers` gives its rows |
| QueryPipeline.JoinOneMembers | CarRental_2/Controllers/CarsController.cs:49-50 | the rows one outer row contributes are exactly the selections of the inner rows it matches |
| QueryPipeline.Join | CarRental_2/Controllers/CarsController.cs:48-61 | LINQ's inner join in outer-then-inner order; `JoinMembers` states its rows and `JoinCountIndependentOfSelect` its count |
| QueryPipeline.JoinMembers | CarRental_2/Controllers/CarsController.cs:48-61 | a row is in the join exactly when it is the selection of some outer row and inner row that satisfy the join condition |
| QueryPipeline.Skip | CarRental_2/Controllers/CarsController.cs:74 | `Skip(n)`; `SkipTakeSpec` states it with `Take` |
| QueryPipeline.Take | CarRental_2/Controllers/CarsController.cs:74 | `Take(m)`; `SkipTakeSpec` states it with `Skip` |
| QueryPipeline.PageSlice | CarRental_2/Controllers/CarsController.cs:74 | `Skip((page - 1) * pageSize).Take(pageSize)`; `PageSliceSpec`, `PageSliceMembers`, `PageSliceOrdered` and `PageSliceAgainstMetadata` state it |
| Http.ApplySetCookies | CarRental_2/Controllers/CarsController.cs:250-251 | after the response, the browser's cookies are the appended ones plus the earlier cookies not overwritten |
| Http.DecimalCookieSpec | CarRental_2/Controllers/CarsController.cs:223-230 | a decimal cookie reads as its numeral's value, and as the default when it is absent or unparsable |
| Http.SortCookieSpec | CarRental_2/Controllers/CarsController.cs:232-239 | a sort cookie reads as the state named by its trimmed text in any letter case, and as the default when absent or naming none |
| Http.DecimalCookieRoundTrip | CarRental_2/Controllers/CarsController.cs:250 | a decimal written as text reads back as that decimal |
| Http.SortCookieRoundTrip | CarRental_2/Controllers/CarsController.cs:251 | a sort state written by name reads back as that state |
| Http.PageSizeSetting | CarRental_2/Controllers/CarsController.cs:29-31 | the page size is the `Parameters:PageSize` value when a configuration holds an Int32 numeral there, and 20 otherwise |
| Http.PageSizeFromNumeral | CarRental_2/Controllers/CarsController.cs:29-31 | a configured Int32 numeral is used as the page size |
| Http.HasKey | CarRental_2/Controllers/CarsController.cs:44 | `Request.Query.ContainsKey`: some query key equals the name ignoring case; each `Effective*Spec` resolves filters by it |
| Http.Request.HasQueryKey | CarRental_2/Controllers/CarsController.cs:44 | the request's query-key test, `HasKey` on its keys |
| Http.DecimalCookie | CarRental_2/Controllers/CarsController.cs:223-230 | a decimal cookie reader; `DecimalCookieSpec` and `DecimalCookieRoundTrip` state it |
| Http.SortCookie | CarRental_2/Controllers/CarsController.cs:232-239 | a sort cookie reader; `SortCookieSpec` and `SortCookieRoundTrip` state it |
| Http.StringCookie | CarRental_2/Controllers/ClientsController.cs:194-201 | a text cookie reader, "" when absent; `ClientsController.CookiesReadBack` and `CarClassesController.CookieReadsBack` show it reads back what was written |
| Store.Table.Find | CarRental_2/Controllers/CarsController.cs:168 | `FindAsync` returns the stored row exactly when the key is in the table |
| Store.Table.Entries | CarRental_2/Controllers/CarsController.cs:48-61 | the enumeration lists every stored row exactly once, with its key, in ascending key order |
| Store.Table.Add | CarRental_2/Controllers/CarsController.cs:125 | adding stores the row under the next identity, a key not used before, and changes nothing else |
| Store.Table.Update | CarRental_2/Controllers/ClientsController.cs:135 | updating an existing key replaces its row and keeps every key |
| Store.Table.Remove | CarRental_2/Controllers/CarsController.cs:207 | removing an existing key drops exactly that row and keeps the identity counter |
| CarsController.SortSearchSpec | CarRental_2/Controllers/CarsController.cs:261-280 | Sort_Search returns exactly the cars whose daily rate equals a positive filter (all cars for a non-positive one), as a multiset; they are in ascending or descending rate order for the two rate states, and in source order otherwise |
| CarsController.GetSortDescription | CarRental_2/Controllers/CarsController.cs:213-221 | the description is "Без сортировки" exactly when the state is neither rate state |
| CarsController.EffectiveRentalCostSpec | CarRental_2/Controllers/CarsController.cs:44 | the rate is the query argument when `RentalCostPerDay` is in the query; otherwise the cookie's numeral; otherwise 0 |
| CarsController.EffectiveSortOrderSpec | CarRental_2/Controllers/CarsController.cs:45 | the sort order is the query argument when `sortOrder` is in the query; otherwise the state the cookie names; otherwise RentalCostPerDayAsc |
| CarsController.CarListSpec | CarRental_2/Controllers/CarsController.cs:64-90 | count is the number of matching joined cars, and totalAll is the unfiltered join; the page length is exact, and every row matches and is in the requested order; HasFilters holds exactly for a positive rate or a non-default sort |
| CarsController.PageCount | CarRental_2/Controllers/CarsController.cs:73-74 | the filtered count equals the number of matching rows, and the page length follows from it |
| CarsController.PageRowsMatch | CarRental_2/Controllers/CarsController.cs:74 | every row on the page is a joined car matching the rate filter |
| CarsController.PageAscending | CarRental_2/Controllers/CarsController.cs:266 | under RentalCostPerDayAsc the page is non-decreasing in rate |
| CarsController.PageDescending | CarRental_2/Controllers/CarsController.cs:269 | under RentalCostPerDayDesc the page is non-increasing in rate |
| CarsController.CarItems | CarRental_2/Controllers/CarsController.cs:48-61 | the cars joined with their classes; `CarListSpec` makes totalAll its length and the page a selection of it |
| CarsController.Matching | CarRental_2/Controllers/CarsController.cs:274-277 | the rate filter; `SortSearchSpec` shows Sort_Search keeps exactly these rows |
| CarsController.SortDirection | CarRental_2/Controllers/CarsController.cs:263-272 | the switch on the sort state; `SortSearchSpec` states the order it gives |
| CarsController.SortSearch | CarRental_2/Controllers/CarsController.cs:261-280 | `Sort_Search`; `SortSearchSpec` states its rows and order |
| CarsController.RentalCostFromCookie | CarRental_2/Controllers/CarsController.cs:223-230 | the rate cookie reader; `EffectiveRentalCostSpec` states it |
| CarsController.SortOrderFromCookie | CarRental_2/Controllers/CarsController.cs:232-239 | the sort cookie reader; `EffectiveSortOrderSpec` states it |
| CarsController.SetFilterCookies | CarRental_2/Controllers/CarsController.cs:241-252 | the two cookies Index appends; `CookiesReadBack` shows they read back as the same rate and sort |
| CarsController.FilterLabel | CarRental_2/Controllers/CarsController.cs:87 | the rate label: a positive rate as a numeral that parses back to it, otherwise "Все стоимости" |
| CarsController.EffectiveRentalCost | CarRental_2/Controllers/CarsController.cs:44 | the rate resolution; `EffectiveRentalCostSpec` states it |
| CarsController.EffectiveSortOrder | CarRental_2/Controllers/CarsController.cs:45 | the sort resolution; `EffectiveSortOrderSpec` states it |
| CarsController.CarList | CarRental_2/Controllers/CarsController.cs:64-90 | the rendered list; `CarListSpec` states its counts, page, order and flags |
| CarsController.FormToCar | CarRental_2/Controllers/CarsController.cs:114-123 | the car a form describes; `CreatePost` and `EditPost` state it is what gets stored |
| CarsController.Index | CarRental_2/Controllers/CarsController.cs:38-41 | Index redirects home exactly when the user is not authenticated, and renders exactly when they are |
| CarsController.CookiesReadBack | CarRental_2/Controllers/CarsController.cs:241-252 | the two cookies SetFilterCookies writes read back as the same rate and sort order |
| CarsController.IndexPage | CarRental_2/Controllers/CarsController.cs:35-96 | an authenticated Index renders the list for the effective rate and sort order, and stores both in the cookies |
| CarsController.IndexFirstVisit | CarRental_2/Controllers/CarsController.cs:44-45 | with no query keys and no cookies: rate 0, RentalCostPerDayAsc, no active filter, count = totalAll, cookies "0" and "RentalCostPerDayAsc" |
| CarsController.IndexRemembersFilters | CarRental_2/Controllers/CarsController.cs:93 | a later request without the query keys, carrying the cookies just written, renders the same result |
| CarsController.CreatePost | CarRental_2/Controllers/CarsController.cs:107-128 | an invalid form is shown again with no change; a valid one inserts the car under a fresh key and redirects |
| CarsController.EditPost | CarRental_2/Controllers/CarsController.cs:159-181 | an id mismatch, or a missing car, gives NotFound and an invalid form gives the view, each with no change; otherwise all fields are replaced and it redirects |
| CarsController.DeleteGet | CarRental_2/Controllers/CarsController.cs:185-198 | NotFound exactly for a missing id or car; otherwise the car's confirmation view |
| CarsController.DeletePost | CarRental_2/Controllers/CarsController.cs:204-210 | an existing car is removed and it redirects; a missing one throws from `Remove(null)` with nothing changed |
| MaintenancesController.SortSearchSpec | CarRental_2/Controllers/MaintenancesController.cs:280-299 | Sort_Search returns exactly the maintenances whose cost equals a positive filter, as a multiset; they are in ascending or descending cost order for CostAsc and CostDesc, and in source order otherwise |
| MaintenancesController.GetSortDescription | CarRental_2/Controllers/MaintenancesController.cs:233-241 | the description is "Без сортировки" exactly when the state is neither cost state |
| MaintenancesController.EffectiveCostSpec | CarRental_2/Controllers/MaintenancesController.cs:41 | the cost is the query argument when `Cost` is in the query; otherwise the cookie's numeral; otherwise 0 |
| MaintenancesController.EffectiveSortOrderSpec | CarRental_2/Controllers/MaintenancesController.cs:42 | the sort order is the query argument, otherwise the state the cookie names, otherwise CostAsc |
| MaintenancesController.MaintenanceListSpec | CarRental_2/Controllers/MaintenancesController.cs:58-83 | count is the number of matching joined maintenances, and totalAll is the unfiltered join; the page length is exact, and every row matches and is ordered; HasFilters holds exactly for a positive cost or a sort other than CostAsc |
| MaintenancesController.PageCount | CarRental_2/Controllers/MaintenancesController.cs:66-67 | the filtered count equals the number of matching rows, and the page length follows from it |
| MaintenancesController.PageRowsMatch | CarRental_2/Controllers/MaintenancesController.cs:67 | every row on the page is a joined maintenance matching the cost filter |
| MaintenancesController.PageAscending | CarRental_2/Controllers/MaintenancesController.cs:285 | under CostAsc the page is non-decreasing in cost |
| MaintenancesController.PageDescending | CarRental_2/Controllers/MaintenancesController.cs:288 | under CostDesc the page is non-increasing in cost |
| MaintenancesController.MaintenanceItems | CarRental_2/Controllers/MaintenancesController.cs:45-55 | the maintenances joined with their cars; `MaintenanceListSpec` makes totalAll its length |
| MaintenancesController.Matching | CarRental_2/Controllers/MaintenancesController.cs:293-296 | the cost filter; `SortSearchSpec` shows Sort_Search keeps exactly these rows |
| MaintenancesController.SortDirection | CarRental_2/Controllers/MaintenancesController.cs:282-291 | the switch on the sort state; `SortSearchSpec` states the order it gives |
| MaintenancesController.SortSearch | CarRental_2/Controllers/MaintenancesController.cs:280-299 | `Sort_Search`; `SortSearchSpec` states its rows and order |
| MaintenancesController.CostFromCookie | CarRental_2/Controllers/MaintenancesController.cs:243-250 | the cost cookie reader; `EffectiveCostSpec` states it |
| MaintenancesController.SortOrderFromCookie | CarRental_2/Controllers/MaintenancesController.cs:252-259 | the sort cookie reader; `EffectiveSortOrderSpec` states it |
| MaintenancesController.SetFilterCookies | CarRental_2/Controllers/MaintenancesController.cs:261-272 | the two cookies Index appends; `CookiesReadBack` shows they read back |
| MaintenancesController.FilterLabel | CarRental_2/Controllers/MaintenancesController.cs:80 | the cost label: a positive cost as a numeral that parses back to it, otherwise "Все стоимости" |
| MaintenancesController.EffectiveCost | CarRental_2/Controllers/MaintenancesController.cs:41 | the cost resolution; `EffectiveCostSpec` states it |
| MaintenancesController.EffectiveSortOrder | CarRental_2/Controllers/MaintenancesController.cs:42 | the sort resolution; `EffectiveSortOrderSpec` states it |
| MaintenancesController.MaintenanceList | CarRental_2/Controllers/MaintenancesController.cs:58-83 | the rendered list; `MaintenanceListSpec` states its counts, page, order and flags |
| MaintenancesController.FormToMaintenance | CarRental_2/Controllers/MaintenancesController.cs:110-116 | the maintenance a form describes; `CreatePost` and `EditPost` state it is what gets stored |
| MaintenancesController.Index | CarRental_2/Controllers/MaintenancesController.cs:35-38 | Index redirects home exactly when the user is not authenticated, and renders exactly when they are |
| MaintenancesController.CookiesReadBack | CarRental_2/Controllers/MaintenancesController.cs:261-272 | the cookies written read back as the same cost and sort order |
| MaintenancesController.IndexPage | CarRental_2/Controllers/MaintenancesController.cs:32-89 | an authenticated Index renders the list for the effective cost and sort order, and stores both in the cookies |
| MaintenancesController.IndexFirstVisit | CarRental_2/Controllers/MaintenancesController.cs:41-42 | with no query keys and no cookies: cost 0, CostAsc, no active filter, count = totalAll, cookies "0" and "CostAsc" |
| MaintenancesController.IndexRemembersFilters | CarRental_2/Controllers/MaintenancesController.cs:86 | a later request without the query keys, carrying the cookies just written, renders the same result |
| MaintenancesController.CreatePost | CarRental_2/Controllers/MaintenancesController.cs:103-122 | an invalid form is shown again with no change; a valid one inserts under a fresh key and redirects |
| MaintenancesController.EditPost | CarRental_2/Controllers/MaintenancesController.cs:154-192 | an id mismatch, or a missing row, gives NotFound and an invalid form gives the view, each with no change; otherwise the fields are replaced |
| MaintenancesController.DeleteGet | CarRental_2/Controllers/MaintenancesController.cs:196-212 | NotFound exactly for a missing id or row; otherwise the confirmation view |
| MaintenancesController.DeletePost | CarRental_2/Controllers/MaintenancesController.cs:217-229 | an existing row is removed and it redirects; a missing one gives NotFound with nothing changed |
| RentalAgreementsController.SortSearchSpec | CarRental_2/Controllers/RentalAgreementsController.cs:289-309 | Sort_Search returns exactly the agreements whose total equals a positive filter, as a multiset; they are ordered by total for TotalAmountAsc and TotalAmountDesc, and in source order otherwise |
| RentalAgreementsController.GetSortDescription | CarRental_2/Controllers/RentalAgreementsController.cs:241-250 | the description is "Без сортировки" exactly when the state is neither total-amount state |
| RentalAgreementsController.EffectiveTotalAmountSpec | CarRental_2/Controllers/RentalAgreementsController.cs:46 | the amount is the query argument when `TotalAmount` is in the query; otherwise the cookie's numeral; otherwise 0 |
| RentalAgreementsController.EffectiveSortOrderSpec | CarRental_2/Controllers/RentalAgreementsController.cs:47 | the sort order is the query argument, otherwise the state the cookie names, otherwise No |
| RentalAgreementsController.RentalAgreementListSpec | CarRental_2/Controllers/RentalAgreementsController.cs:67-91 | totalAll is the client-and-car join, and count is the number of its matching rows; the page length is exact, and every row matches and is ordered; HasFilters holds exactly for a positive amount or a sort other than No |
| RentalAgreementsController.PageCount | CarRental_2/Controllers/RentalAgreementsController.cs:74-75 | the filtered count equals the number of matching rows, and the page length follows from it |
| RentalAgreementsController.PageRowsMatch | CarRental_2/Controllers/RentalAgreementsController.cs:75 | every row on the page is a joined agreement matching the amount filter |
| RentalAgreementsController.PageAscending | CarRental_2/Controllers/RentalAgreementsController.cs:294 | under TotalAmountAsc the page is non-decreasing in total |
| RentalAgreementsController.PageDescending | CarRental_2/Controllers/RentalAgreementsController.cs:297 | under TotalAmountDesc the page is non-increasing in total |
| RentalAgreementsController.RentalAgreementItems | CarRental_2/Controllers/RentalAgreementsController.cs:50-65 | the agreements joined with their clients and cars; `RentalAgreementListSpec` makes totalAll its length |
| RentalAgreementsController.Matching | CarRental_2/Controllers/RentalAgreementsController.cs:303-306 | the amount filter; `SortSearchSpec` shows Sort_Search keeps exactly these rows |
| RentalAgreementsController.SortDirection | CarRental_2/Controllers/RentalAgreementsController.cs:291-301 | the switch on the sort state; `SortSearchSpec` states the order it gives |
| RentalAgreementsController.SortSearch | CarRental_2/Controllers/RentalAgreementsController.cs:289-309 | `Sort_Search`; `SortSearchSpec` states its rows and order |
| RentalAgreementsController.TotalAmountFromCookie | CarRental_2/Controllers/RentalAgreementsController.cs:252-259 | the amount cookie reader; `EffectiveTotalAmountSpec` states it |
| RentalAgreementsController.SortOrderFromCookie | CarRental_2/Controllers/RentalAgreementsController.cs:261-268 | the sort cookie reader; `EffectiveSortOrderSpec` states it |
| RentalAgreementsController.SetFilterCookies | CarRental_2/Controllers/RentalAgreementsController.cs:270-281 | the two cookies Index appends; `CookiesReadBack` shows they read back |
| RentalAgreementsController.FilterLabel | CarRental_2/Controllers/RentalAgreementsController.cs:88 | the amount label: a positive amount as a numeral that parses back to it, otherwise "Все суммы" |
| RentalAgreementsController.EffectiveTotalAmount | CarRental_2/Controllers/RentalAgreementsController.cs:46 | the amount resolution; `EffectiveTotalAmountSpec` states it |
| RentalAgreementsController.EffectiveSortOrder | CarRental_2/Controllers/RentalAgreementsController.cs:47 | the sort resolution; `EffectiveSortOrderSpec` states it |
| RentalAgreementsController.RentalAgreementList | CarRental_2/Controllers/RentalAgreementsController.cs:67-91 | the rendered list; `RentalAgreementListSpec` states its counts, page, order and flags |
| RentalAgreementsController.FormToRentalAgreement | CarRental_2/Controllers/RentalAgreementsController.cs:117-125 | the agreement a form describes; `CreatePost` and `EditPost` state it is what gets stored |
| RentalAgreementsController.Index | CarRental_2/Controllers/RentalAgreementsController.cs:40-43 | Index redirects home exactly when the user is not authenticated, and renders exactly when they are |
| RentalAgreementsController.CookiesReadBack | CarRental_2/Controllers/RentalAgreementsController.cs:270-281 | the cookies written read back as the same amount and sort order |
| RentalAgreementsController.IndexPage | CarRental_2/Controllers/RentalAgreementsController.cs:37-97 | an authenticated Index renders the list for the effective amount and sort order, and stores both in the cookies |
| RentalAgreementsController.IndexFirstVisit | CarRental_2/Controllers/RentalAgreementsController.cs:46-47 | with no query keys and no cookies: amount 0, No, no active filter, the page is the plain join in source order, cookies "0" and "No" |
| RentalAgreementsController.IndexRemembersFilters | CarRental_2/Controllers/RentalAgreementsController.cs:94 | a later request without the query keys, carrying the cookies just written, renders the same result |
| RentalAgreementsController.CreatePost | CarRental_2/Controllers/RentalAgreementsController.cs:110-130 | an invalid form is shown again with no change; a valid one inserts under a fresh key and redirects |
| RentalAgreementsController.EditPost | CarRental_2/Controllers/RentalAgreementsController.cs:166-207 | an id mismatch, or a missing row, gives NotFound and an invalid form gives the view, each with no change; otherwise the fields are replaced |
| RentalAgreementsController.DeleteGet | CarRental_2/Controllers/RentalAgreementsController.cs:211-226 | NotFound exactly for a missing id or row; otherwise the confirmation view |
| RentalAgreementsController.DeletePost | CarRental_2/Controllers/RentalAgreementsController.cs:232-238 | an existing row is removed and it redirects; a missing one throws with nothing changed |
| RentalHistoriesController.SortSearch | CarRental_2/Controllers/RentalHistoriesController.cs:250-259 | a positive amount keeps exactly the histories with that total, in source order; a non-positive one keeps all |
| RentalHistoriesController.EffectiveTotalAmountSpec | CarRental_2/Controllers/RentalHistoriesController.cs:39 | the amount is the query argument when `totalAmount` is in the query; otherwise the cookie's numeral; otherwise 0 |
| RentalHistoriesController.RentalHistoryItems | CarRental_2/Controllers/RentalHistoriesController.cs:42-53 | the histories joined with their clients; `RentalHistoryListSpec` makes totalAll its length |
| RentalHistoriesController.TotalAmountFromCookie | CarRental_2/Controllers/RentalHistoriesController.cs:222-229 | the amount cookie reader; `EffectiveTotalAmountSpec` states it |
| RentalHistoriesController.SetTotalAmountCookie | CarRental_2/Controllers/RentalHistoriesController.cs:231-241 | the one cookie Index appends; `CookieReadsBack` shows it reads back |
| RentalHistoriesController.FilterLabel | CarRental_2/Controllers/RentalHistoriesController.cs:75 | the label: "<= " and a numeral that parses back to a positive amount, otherwise "Все суммы" |
| RentalHistoriesController.EffectiveTotalAmount | CarRental_2/Controllers/RentalHistoriesController.cs:39 | the amount resolution; `EffectiveTotalAmountSpec` states it |
| RentalHistoriesController.RentalHistoryList | CarRental_2/Controllers/RentalHistoriesController.cs:55-77 | the rendered list; `RentalHistoryListSpec` states its counts, page and flag |
| RentalHistoriesController.FormToRentalHistory | CarRental_2/Controllers/RentalHistoriesController.cs:101-107 | the history a form describes; `CreatePost` and `EditPost` state it is what gets stored |
| RentalHistoriesController.RentalHistoryListSpec | CarRental_2/Controllers/RentalHistoriesController.cs:55-77 | count is the number of matching joined histories, and totalAll is the join; the page is the matching rows' page, and every row matches; HasFilters holds exactly for a positive amount |
| RentalHistoriesController.Index | CarRental_2/Controllers/RentalHistoriesController.cs:33-36 | Index redirects home exactly when the user is not authenticated, and renders exactly when they are |
| RentalHistoriesController.CookieReadsBack | CarRental_2/Controllers/RentalHistoriesController.cs:231-241 | the cookie written reads back as the same amount |
| RentalHistoriesController.IndexPage | CarRental_2/Controllers/RentalHistoriesController.cs:30-83 | an authenticated Index renders the list for the effective amount and stores it in the one cookie |
| RentalHistoriesController.IndexFirstVisit | CarRental_2/Controllers/RentalHistoriesController.cs:39 | with no query key and no cookie: amount 0, no active filter, the whole join paged, cookie "0" |
| RentalHistoriesController.IndexRemembersFilter | CarRental_2/Controllers/RentalHistoriesController.cs:80 | a later request without the query key, carrying the cookie just written, renders the same result |
| RentalHistoriesController.CreatePost | CarRental_2/Controllers/RentalHistoriesController.cs:97-116 | an invalid form is shown again with no change; a valid one inserts under a fresh key and redirects |
| RentalHistoriesController.EditPost | CarRental_2/Controllers/RentalHistoriesController.cs:149-188 | an id mismatch, or a missing row, gives NotFound and an invalid form gives the view, each with no change; otherwise the fields are replaced |
| RentalHistoriesController.DeleteGet | CarRental_2/Controllers/RentalHistoriesController.cs:192-207 | NotFound exactly for a missing id or row; otherwise the confirmation view |
| RentalHistoriesController.DeletePost | CarRental_2/Controllers/RentalHistoriesController.cs:213-219 | an existing row is removed and it redirects; a missing one throws with nothing changed |
| ClientsController.PhoneLeTotalPreorder | CarRental_2/Controllers/ClientsController.cs:238-241 | ordering by a nullable phone number (null first, then ordinal) is a total preorder |
| ClientsController.SortSearchSpec | CarRental_2/Controllers/ClientsController.cs:232-254 | Sort_Search returns exactly the clients whose phone number contains a non-empty filter (all clients for ""), as a multiset; they are in ascending or descending phone order for the two phone states, and in source order otherwise |
| ClientsController.GetSortDescription | CarRental_2/Controllers/ClientsController.cs:184-192 | the description is "Без сортировки" exactly when the state is neither phone state |
| ClientsController.EffectivePhoneNumberSpec | CarRental_2/Controllers/ClientsController.cs:39 | the phone filter is the bound argument, null included, when `PhoneNumber` is in the query; otherwise the cookie's text; otherwise ""; it is null exactly when the key is present and bound to null |
| ClientsController.EffectiveSortOrderSpec | CarRental_2/Controllers/ClientsController.cs:40 | the sort order is the query argument, otherwise the state the cookie names, otherwise PhoneNumberAsc |
| ClientsController.ClientListSpec | CarRental_2/Controllers/ClientsController.cs:43-70 | count is the number of matching clients, and totalAll is every client; the page length is exact, and every row matches and is ordered; HasFilters holds exactly for a non-empty filter or a sort other than PhoneNumberAsc |
| ClientsController.PageCount | CarRental_2/Controllers/ClientsController.cs:50-54 | the filtered count equals the number of matching clients, and the page length follows from it |
| ClientsController.PageRowsMatch | CarRental_2/Controllers/ClientsController.cs:52-54 | every client on the page matches the phone filter |
| ClientsController.PageAscending | CarRental_2/Controllers/ClientsController.cs:238 | under PhoneNumberAsc the page is in ascending phone order |
| ClientsController.PageDescending | CarRental_2/Controllers/ClientsController.cs:241 | under PhoneNumberDesc the page is in descending phone order |
| ClientsController.Matching | CarRental_2/Controllers/ClientsController.cs:248-251 | the phone filter; `SortSearchSpec` shows Sort_Search keeps exactly these clients |
| ClientsController.SortDirection | CarRental_2/Controllers/ClientsController.cs:235-245 | the switch on the sort state; `SortSearchSpec` states the order it gives |
| ClientsController.SortSearch | CarRental_2/Controllers/ClientsController.cs:232-254 | `Sort_Search`; `SortSearchSpec` states its rows and order |
| ClientsController.PhoneNumberFromCookie | CarRental_2/Controllers/ClientsController.cs:194-201 | the phone cookie reader; `EffectivePhoneNumberSpec` states it |
| ClientsController.SortOrderFromCookie | CarRental_2/Controllers/ClientsController.cs:203-210 | the sort cookie reader; `EffectiveSortOrderSpec` states it |
| ClientsController.SetFilterCookies | CarRental_2/Controllers/ClientsController.cs:212-223 | the two cookies Index appends; `CookiesReadBack` shows they read back |
| ClientsController.FilterLabel | CarRental_2/Controllers/ClientsController.cs:67 | the phone label: "Все телефоны" exactly for no filter, otherwise the filter in quotes |
| ClientsController.EffectivePhoneNumber | CarRental_2/Controllers/ClientsController.cs:39 | the phone resolution; `EffectivePhoneNumberSpec` states it |
| ClientsController.EffectiveSortOrder | CarRental_2/Controllers/ClientsController.cs:40 | the sort resolution; `EffectiveSortOrderSpec` states it |
| ClientsController.ClientList | CarRental_2/Controllers/ClientsController.cs:43-70 | the rendered list; `ClientListSpec` states its counts, page, order and flags |
| ClientsController.FormToClient | CarRental_2/Controllers/ClientsController.cs:88-91 | the client a bound form describes; `CreatePost` and `EditPost` state it is what gets stored |
| ClientsController.Index | CarRental_2/Controllers/ClientsController.cs:31-76 | Index redirects home exactly when the user is not authenticated; it throws exactly when an authenticated request has the `PhoneNumber` key bound to null |
| ClientsController.CookiesReadBack | CarRental_2/Controllers/ClientsController.cs:212-223 | the cookies written read back as the same phone filter and sort order |
| ClientsController.IndexPage | CarRental_2/Controllers/ClientsController.cs:31-76 | an authenticated Index with a null effective filter throws; with a non-null one it renders the list for the effective filter and sort order, and stores both in the cookies |
| ClientsController.IndexEmptyPhoneNumberThrows | CarRental_2/Controllers/ClientsController.cs:221 | `?PhoneNumber=` bound to null makes Index throw when it appends the cookie, while the bound text "" renders |
| ClientsController.IndexOn | CarRental_2/Controllers/ClientsController.cs:43-54 | on the live Clients table, totalAll is its row count and every listed client is a stored row under its key; it redirects exactly for an anonymous user |
| ClientsController.IndexFirstVisit | CarRental_2/Controllers/ClientsController.cs:39-40 | with no query keys and no cookies: filter "", PhoneNumberAsc, no active filter, count = totalAll, cookies "" and "PhoneNumberAsc" |
| ClientsController.IndexRemembersFilters | CarRental_2/Controllers/ClientsController.cs:73 | a later request without the query keys, carrying the cookies just written, renders the same result |
| ClientsController.CreatePost | CarRental_2/Controllers/ClientsController.cs:88-99 | an invalid client is shown again with no change; a valid one is inserted under a fresh key |
| ClientsController.EditPost | CarRental_2/Controllers/ClientsController.cs:120-152 | an id mismatch gives NotFound, and an invalid form gives the view, both with no change. Key 0 inserts a new client. A missing key gives NotFound with no change. Otherwise the row is replaced |
| ClientsController.DeleteGet | CarRental_2/Controllers/ClientsController.cs:155-170 | NotFound exactly for a missing id or client; otherwise the confirmation view |
| ClientsController.DeletePost | CarRental_2/Controllers/ClientsController.cs:175-181 | an existing client is removed and it redirects; a missing one throws with nothing changed |
| CarClassesController.Search | CarRental_2/Controllers/CarsClassController.cs:37-41 | a non-empty search keeps exactly the classes whose name contains it, and "" keeps every class |
| CarClassesController.EffectiveSearchName | CarRental_2/Controllers/CarsClassController.cs:34 | the search is the query argument (null read as "") when `SearchName` is in the query; otherwise the cookie's text; otherwise "" |
| CarClassesController.CarClassListSpec | CarRental_2/Controllers/CarsClassController.cs:37-64 | count is the number of matching classes, at most totalAll (every class); the page is the matching classes' page; HasFilters holds exactly for a non-empty search |
| CarClassesController.SearchNameFromCookie | CarRental_2/Controllers/CarsClassController.cs:71-75 | the search cookie reader (`value ?? ""`); `EffectiveSearchName` states it |
| CarClassesController.SetSearchNameCookie | CarRental_2/Controllers/CarsClassController.cs:77-86 | the one cookie Index appends; `CookieReadsBack` shows it reads back |
| CarClassesController.FilterLabel | CarRental_2/Controllers/CarsClassController.cs:62 | the search label: "Все классы" exactly for no search, otherwise the search in quotes |
| CarClassesController.CarClassList | CarRental_2/Controllers/CarsClassController.cs:37-64 | the rendered list; `CarClassListSpec` states its counts, page and flag |
| CarClassesController.FormToCarClass | CarRental_2/Controllers/CarsClassController.cs:99-102 | the class a bound form describes; `CreatePost` and `EditPost` state it is what gets stored |
| CarClassesController.Index | CarRental_2/Controllers/CarsClassController.cs:28-31 | Index redirects home exactly when the user is not authenticated, and renders exactly when they are |
| CarClassesController.IndexOn | CarRental_2/Controllers/CarsClassController.cs:37-45 | on the live CarClasses table, it renders exactly for an authenticated user; totalAll is the table's row count and every listed class is a stored row under its key |
| CarClassesController.CookieReadsBack | CarRental_2/Controllers/CarsClassController.cs:77-86 | the cookie written reads back as the same search name |
| CarClassesController.IndexPage | CarRental_2/Controllers/CarsClassController.cs:26-69 | an authenticated Index renders the list for the effective search and stores it in the one cookie |
| CarClassesController.IndexFirstVisit | CarRental_2/Controllers/CarsClassController.cs:34 | with no query key and no cookie: search "", no active filter, every class paged in table order |
| CarClassesController.IndexRemembersFilter | CarRental_2/Controllers/CarsClassController.cs:66 | a later request without the query key, carrying the cookie just written, renders the same result |
| CarClassesController.CreatePost | CarRental_2/Controllers/CarsClassController.cs:99-110 | an invalid class is shown again with no change; a valid one is inserted under a fresh key |
| CarClassesController.EditPost | CarRental_2/Controllers/CarsClassController.cs:133-165 | an id mismatch gives NotFound, and an invalid form gives the view, both with no change. Key 0 inserts a new class. A missing key gives NotFound with no change. Otherwise the row is replaced |
| CarClassesController.DeleteGet | CarRental_2/Controllers/CarsClassController.cs:168-183 | NotFound exactly for a missing id or class; otherwise the confirmation view |
| CarClassesController.DeletePost | CarRental_2/Controllers/CarsClassController.cs:188-194 | an existing class is removed and it redirects; a missing one throws with nothing changed |

## Left out

- I/O and `async`: each database query reads a snapshot of the tables, and `SaveChangesAsync` is the table update itself. Logging calls are not modelled.
- Concurrency: the `DbUpdateConcurrencyException` branch that rethrows while the row still exists cannot happen in a single-threaded store. Only the branch where the row has vanished (NotFound) is modelled.
- Cookie options: expiry, `HttpOnly` and path are not modelled. ASP.NET Core looks request cookies up by name ignoring case. The model matches cookie names exactly, which is a simplification of that lookup. Cookies persist until they are overwritten.
- Query-string keys are matched ignoring ASCII case, as ASP.NET's query collection does. Unicode case folding and non-ASCII white space are not modelled.
- Numerals.TryParseDecimal: decimals are whole numbers in `System.Decimal`'s range. Fractions, trailing signs (`NumberStyles.Number` reads "5-" as -5), group separators and the culture of `decimal.TryParse`/`ToString` are not modelled.
- SortViewModels.TryParseIff: `Enum.TryParse` also accepts numeric texts such as "3" and comma-separated lists of names, whose values it ORs together. Neither is modelled. Only a single name counts.
- QueryPipeline.OrderBy: SQL leaves the order of rows with equal keys unspecified, and also the order of a query without ORDER BY. The model's choices are the insertion sort's order for ties and ascending key order (as `Table.Entries` lists it) for unsorted queries. Only the order of unequal keys is a property of the source.
- Database collation and null ordering: sorting by phone number is modelled as ordinal order with null first. SQL Server's collation may order differently.
- Index preconditions assume `page >= 1` and a positive page size. The source passes a non-positive page straight to `Skip`. The model also computes `(page - 1) * pageSize` without Int32 overflow.
- The Index of Cars, Maintenances, RentalAgreements and RentalHistories takes its tables as entry sequences. The link to a live `Db` through `Table.Entries` is stated only for Clients and CarsClass, by their `IndexOn`.
- Foreign keys: key checks, cascade deletes and the database refusing a delete of a referenced row are not modelled.
- The view: the `ResetUrl` ViewBag entry and the rendering of the views themselves are not modelled.
- Model binding and validation: the bound arguments are inputs, and `ModelState.IsValid` is a boolean input. Clients' Index takes the phone filter as an optional string, where `None` is the null that an empty query value binds to.
- The GET forms of Create and Edit are not modelled. Create renders an empty form. Edit returns NotFound for a null or unknown id, and otherwise renders the row.
- Authorization: the model starts at the action body. The `[Authorize]` filters on every controller, and the `Roles = "Admin, User"` filter on `ClientsController`, are not modelled. Nor are the login challenge an anonymous user receives or the 403 a signed-in user without those roles receives. The redirect branch of each Index is reached only when the action is invoked directly.
- `UsersController`, ASP.NET Identity, and the startup code in `Program.cs` are not part of this model.
- CarsClass's `SearchByClassName` is never called. The inline filter of Index is modelled instead.
- RentalHistoriesController.FilterLabel reads as "<= amount" while the filter compares for equality. It is a display string, and the model reproduces it as written.
