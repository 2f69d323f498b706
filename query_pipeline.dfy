// The LINQ operators the list pages compose: inner join, OrderBy /
// OrderByDescending, Where, Skip and Take, with the facts the list pages
// rely on.

module QueryPipeline {
  import opened PageViewModels

  // ---------------------------------------------------------------- ordering

  /** A comparison that is total and transitive (ties allowed). */
  ghost predicate TotalPreorder<T(!new)>(le: (T, T) -> bool) {
    && (forall a, b :: le(a, b) || le(b, a))
    && (forall a, b, c :: le(a, b) && le(b, c) ==> le(a, c))
  }

  ghost predicate SortedBy<T>(s: seq<T>, le: (T, T) -> bool) {
    forall i, j :: 0 <= i < j < |s| ==> le(s[i], s[j])
  }

  /** Compare rows by a key. */
  function By<R, K>(key: R -> K, le: (K, K) -> bool): (R, R) -> bool {
    (a: R, b: R) => le(key(a), key(b))
  }

  /** The opposite comparison, for OrderByDescending. */
  function Reverse<T>(le: (T, T) -> bool): (T, T) -> bool {
    (a: T, b: T) => le(b, a)
  }

  predicate IntLe(a: int, b: int) {
    a <= b
  }

  lemma IntLeTotalPreorder()
    ensures TotalPreorder(IntLe)
  {
  }

  lemma ByTotalPreorder<R(!new), K(!new)>(key: R -> K, le: (K, K) -> bool)
    requires TotalPreorder(le)
    ensures TotalPreorder(By(key, le))
  {
  }

  lemma ReverseTotalPreorder<T(!new)>(le: (T, T) -> bool)
    requires TotalPreorder(le)
    ensures TotalPreorder(Reverse(le))
  {
  }

  /** Puts `x` in front of the first element it is not greater than. */
  function Insert<T>(x: T, s: seq<T>, le: (T, T) -> bool): (r: seq<T>)
    ensures |r| == |s| + 1
    ensures multiset(r) == multiset(s) + multiset{x}
  {
    if s == [] then [x]
    else if le(x, s[0]) then [x] + s
    else
      assert s == [s[0]] + s[1..];
      [s[0]] + Insert(x, s[1..], le)
  }

  /**
   * LINQ `OrderBy` with comparison `le`, as an insertion sort. Only the
   * order of unequal keys is specified; the order it gives to ties is one
   * choice among those the database may make.
   */
  function OrderBy<T>(s: seq<T>, le: (T, T) -> bool): (r: seq<T>)
    ensures |r| == |s|
    ensures multiset(r) == multiset(s)
  {
    if s == [] then []
    else
      assert s == [s[0]] + s[1..];
      Insert(s[0], OrderBy(s[1..], le), le)
  }

  lemma {:induction false} InsertSorted<T(!new)>(x: T, s: seq<T>, le: (T, T) -> bool)
    requires TotalPreorder(le) && SortedBy(s, le)
    ensures SortedBy(Insert(x, s, le), le)
  {
    if s != [] && !le(x, s[0]) {
      var tail := s[1..];
      InsertSorted(x, tail, le);
      var r := Insert(x, s, le);
      var rest := Insert(x, tail, le);
      assert r == [s[0]] + rest;
      forall j | 0 < j < |r| ensures le(s[0], r[j]) {
        assert r[j] in multiset(rest);
        if r[j] != x {
          assert r[j] in multiset(tail);
          var k :| 0 <= k < |tail| && tail[k] == r[j];
          assert s[k + 1] == r[j];
        }
      }
    }
  }

  /** OrderBy sorts: every row is not greater than every later row. */
  lemma {:induction false} OrderBySorted<T(!new)>(s: seq<T>, le: (T, T) -> bool)
    requires TotalPreorder(le)
    ensures SortedBy(OrderBy(s, le), le)
  {
    if s != [] {
      OrderBySorted(s[1..], le);
      InsertSorted(s[0], OrderBy(s[1..], le), le);
    }
  }

  // ---------------------------------------------------------------- filtering

  /** LINQ `Where`: the rows satisfying `p`, in source order. */
  function Where<T>(s: seq<T>, p: T -> bool): (r: seq<T>)
    ensures |r| <= |s|
    ensures forall i :: 0 <= i < |r| ==> r[i] in s && p(r[i])
    ensures forall i :: 0 <= i < |s| && p(s[i]) ==> s[i] in r
  {
    if s == [] then []
    else
      assert s == [s[0]] + s[1..];
      if p(s[0]) then [s[0]] + Where(s[1..], p) else Where(s[1..], p)
  }

  /** Where keeps every row satisfying `p` as often as it occurs, and no other row. */
  lemma {:induction false} WhereMultiset<T>(s: seq<T>, p: T -> bool)
    ensures forall x :: multiset(Where(s, p))[x] == if p(x) then multiset(s)[x] else 0
  {
    if s != [] {
      WhereMultiset(s[1..], p);
      assert s == [s[0]] + s[1..];
    }
  }

  /** Filtering two permutations of each other gives permutations of each other. */
  lemma WherePermutation<T>(a: seq<T>, b: seq<T>, p: T -> bool)
    requires multiset(a) == multiset(b)
    ensures multiset(Where(a, p)) == multiset(Where(b, p))
  {
    WhereMultiset(a, p);
    WhereMultiset(b, p);
    assert forall x :: multiset(Where(a, p))[x] == multiset(Where(b, p))[x];
  }

  /** A filtered sorted list is still sorted. */
  lemma {:induction false} WhereSorted<T>(s: seq<T>, p: T -> bool, le: (T, T) -> bool)
    requires SortedBy(s, le)
    ensures SortedBy(Where(s, p), le)
  {
    if s != [] {
      var tail := s[1..];
      WhereSorted(tail, p, le);
      if p(s[0]) {
        var r := Where(s, p);
        var rest := Where(tail, p);
        assert r == [s[0]] + rest;
        forall j | 0 < j < |r| ensures le(s[0], r[j]) {
          assert r[j] in rest;
          var k :| 0 <= k < |tail| && tail[k] == r[j];
          assert s[k + 1] == r[j];
        }
      }
    }
  }

  /** `if (cond) rows = rows.Where(p)`: a filter applied only when `cond` holds. */
  function WhereIf<T>(s: seq<T>, cond: bool, p: T -> bool): (r: seq<T>)
    ensures |r| <= |s|
    ensures forall i :: 0 <= i < |r| ==> r[i] in s && (cond ==> p(r[i]))
    ensures forall i :: 0 <= i < |s| && (cond ==> p(s[i])) ==> s[i] in r
  {
    if cond then Where(s, p) else s
  }

  /** Ordering and then filtering gives a sorted list with the same rows as filtering alone. */
  lemma OrderThenWhereIf<T(!new)>(s: seq<T>, le: (T, T) -> bool, cond: bool, p: T -> bool)
    requires TotalPreorder(le)
    ensures SortedBy(WhereIf(OrderBy(s, le), cond, p), le)
    ensures multiset(WhereIf(OrderBy(s, le), cond, p)) == multiset(WhereIf(s, cond, p))
  {
    OrderBySorted(s, le);
    if cond {
      WhereSorted(OrderBy(s, le), p, le);
      WherePermutation(OrderBy(s, le), s, p);
    }
  }

  /**
   * A list with the same rows as the filtered source holds only source rows
   * passing the filter, every such row, and no more rows than the source.
   */
  lemma SameRowsAsFilter<T>(r: seq<T>, s: seq<T>, cond: bool, p: T -> bool)
    requires multiset(r) == multiset(WhereIf(s, cond, p))
    ensures |r| <= |s|
    ensures forall i :: 0 <= i < |r| ==> r[i] in s && (cond ==> p(r[i]))
    ensures forall i :: 0 <= i < |s| && (cond ==> p(s[i])) ==> s[i] in r
  {
    var m := WhereIf(s, cond, p);
    assert |r| == |multiset(r)| == |multiset(m)| == |m|;
    forall i | 0 <= i < |r| ensures r[i] in s && (cond ==> p(r[i])) {
      assert r[i] in multiset(m);
      var k :| 0 <= k < |m| && m[k] == r[i];
    }
    forall i | 0 <= i < |s| && (cond ==> p(s[i])) ensures s[i] in r {
      assert s[i] in m;
      assert s[i] in multiset(r);
    }
  }

  /** The three shapes of a `switch (sortOrder)` over one column. */
  datatype Direction = Ascending | Descending | SourceOrder

  /** `OrderBy(key)`, `OrderByDescending(key)`, or the rows as they are. */
  function OrderByKey<T, K>(s: seq<T>, key: T -> K, le: (K, K) -> bool, d: Direction): seq<T> {
    match d
    case Ascending => OrderBy(s, By(key, le))
    case Descending => OrderBy(s, Reverse(By(key, le)))
    case SourceOrder => s
  }

  /**
   * An optional sort on one key followed by an optional filter returns
   * exactly the filtered source rows, in key order (either way) or in
   * source order.
   */
  lemma OrderByKeyThenWhereIf<T(!new), K(!new)>(
    s: seq<T>, key: T -> K, le: (K, K) -> bool, d: Direction, cond: bool, p: T -> bool)
    requires TotalPreorder(le)
    ensures var r := WhereIf(OrderByKey(s, key, le, d), cond, p);
      && multiset(r) == multiset(WhereIf(s, cond, p))
      && |r| <= |s|
      && (forall i :: 0 <= i < |r| ==> r[i] in s && (cond ==> p(r[i])))
      && (forall i :: 0 <= i < |s| && (cond ==> p(s[i])) ==> s[i] in r)
      && (d == Ascending ==> forall i, j :: 0 <= i < j < |r| ==> le(key(r[i]), key(r[j])))
      && (d == Descending ==> forall i, j :: 0 <= i < j < |r| ==> le(key(r[j]), key(r[i])))
      && (d == SourceOrder ==> r == WhereIf(s, cond, p))
  {
    var r := WhereIf(OrderByKey(s, key, le, d), cond, p);
    ByTotalPreorder(key, le);
    ReverseTotalPreorder(By(key, le));
    if d == Ascending {
      OrderThenWhereIf(s, By(key, le), cond, p);
      forall i, j | 0 <= i < j < |r| ensures le(key(r[i]), key(r[j])) {
        assert By(key, le)(r[i], r[j]);
      }
    } else if d == Descending {
      OrderThenWhereIf(s, Reverse(By(key, le)), cond, p);
      forall i, j | 0 <= i < j < |r| ensures le(key(r[j]), key(r[i])) {
        assert Reverse(By(key, le))(r[i], r[j]);
      }
    }
    SameRowsAsFilter(r, s, cond, p);
  }

  /** A page of an ascending OrderBy-then-filter is ascending in the key. */
  lemma PageAscendingByKey<T(!new), K(!new)>(
    s: seq<T>, key: T -> K, le: (K, K) -> bool, cond: bool, p: T -> bool, page: int, pageSize: int)
    requires TotalPreorder(le) && page >= 1 && pageSize >= 0
    ensures var r := PageSlice(WhereIf(OrderByKey(s, key, le, Ascending), cond, p), page, pageSize);
      forall i, j :: 0 <= i < j < |r| ==> le(key(r[i]), key(r[j]))
  {
    var q := WhereIf(OrderBy(s, By(key, le)), cond, p);
    ByTotalPreorder(key, le);
    OrderThenWhereIf(s, By(key, le), cond, p);
    PageSliceOrdered(q, By(key, le), page, pageSize);
    var r := PageSlice(q, page, pageSize);
    forall i, j | 0 <= i < j < |r| ensures le(key(r[i]), key(r[j])) {
      assert By(key, le)(r[i], r[j]);
    }
  }

  /** A page of a descending OrderBy-then-filter is descending in the key. */
  lemma PageDescendingByKey<T(!new), K(!new)>(
    s: seq<T>, key: T -> K, le: (K, K) -> bool, cond: bool, p: T -> bool, page: int, pageSize: int)
    requires TotalPreorder(le) && page >= 1 && pageSize >= 0
    ensures var r := PageSlice(WhereIf(OrderByKey(s, key, le, Descending), cond, p), page, pageSize);
      forall i, j :: 0 <= i < j < |r| ==> le(key(r[j]), key(r[i]))
  {
    var q := WhereIf(OrderBy(s, Reverse(By(key, le))), cond, p);
    ByTotalPreorder(key, le);
    ReverseTotalPreorder(By(key, le));
    OrderThenWhereIf(s, Reverse(By(key, le)), cond, p);
    PageSliceOrdered(q, Reverse(By(key, le)), page, pageSize);
    var r := PageSlice(q, page, pageSize);
    forall i, j | 0 <= i < j < |r| ensures le(key(r[j]), key(r[i])) {
      assert Reverse(By(key, le))(r[i], r[j]);
    }
  }

  // ---------------------------------------------------------------- joining

  /** The inner-join rows produced by one outer row, in inner order. */
  function JoinOne<A, B, R>(a: A, inner: seq<B>, on: (A, B) -> bool, select: (A, B) -> R): seq<R> {
    if inner == [] then []
    else (if on(a, inner[0]) then [select(a, inner[0])] else []) + JoinOne(a, inner[1..], on, select)
  }

  /** LINQ `join ... on ... equals ... select`: outer order, then inner order. */
  function Join<A, B, R>(outer: seq<A>, inner: seq<B>, on: (A, B) -> bool, select: (A, B) -> R): seq<R> {
    if outer == [] then [] else JoinOne(outer[0], inner, on, select) + Join(outer[1..], inner, on, select)
  }

  /** Counting a join does not depend on what it selects. */
  lemma {:induction false} JoinCountIndependentOfSelect<A, B, R, S>(
    outer: seq<A>, inner: seq<B>, on: (A, B) -> bool, select1: (A, B) -> R, select2: (A, B) -> S)
    ensures |Join(outer, inner, on, select1)| == |Join(outer, inner, on, select2)|
  {
    if outer != [] {
      JoinOneCount(outer[0], inner, on, select1, select2);
      JoinCountIndependentOfSelect(outer[1..], inner, on, select1, select2);
    }
  }

  lemma {:induction false} JoinOneCount<A, B, R, S>(
    a: A, inner: seq<B>, on: (A, B) -> bool, select1: (A, B) -> R, select2: (A, B) -> S)
    ensures |JoinOne(a, inner, on, select1)| == |JoinOne(a, inner, on, select2)|
  {
    if inner != [] {
      JoinOneCount(a, inner[1..], on, select1, select2);
    }
  }

  /** The rows one outer row contributes are exactly the selections of its matching inner rows. */
  lemma {:induction false} JoinOneMembers<A, B, R>(a: A, inner: seq<B>, on: (A, B) -> bool, select: (A, B) -> R, r: R)
    ensures r in JoinOne(a, inner, on, select) <==> exists b :: b in inner && on(a, b) && r == select(a, b)
  {
    if inner != [] {
      JoinOneMembers(a, inner[1..], on, select, r);
      if exists b :: b in inner && on(a, b) && r == select(a, b) {
        var b :| b in inner && on(a, b) && r == select(a, b);
        if b != inner[0] {
          assert b in inner[1..];
        }
      }
    }
  }

  /** The join holds exactly the selections of matching pairs of an outer and an inner row. */
  lemma {:induction false} JoinMembers<A, B, R>(outer: seq<A>, inner: seq<B>, on: (A, B) -> bool, select: (A, B) -> R, r: R)
    ensures r in Join(outer, inner, on, select) <==>
      exists a, b :: a in outer && b in inner && on(a, b) && r == select(a, b)
  {
    if outer != [] {
      JoinOneMembers(outer[0], inner, on, select, r);
      JoinMembers(outer[1..], inner, on, select, r);
      if exists a, b :: a in outer && b in inner && on(a, b) && r == select(a, b) {
        var a, b :| a in outer && b in inner && on(a, b) && r == select(a, b);
        if a != outer[0] {
          assert a in outer[1..];
        }
      }
    }
  }

  // ---------------------------------------------------------------- paging

  /** LINQ `Skip`: a non-positive count skips nothing. */
  function Skip<T>(s: seq<T>, n: int): seq<T> {
    if n <= 0 then s else if n >= |s| then [] else s[n..]
  }

  /** LINQ `Take`: a non-positive count takes nothing. */
  function Take<T>(s: seq<T>, n: int): seq<T> {
    if n <= 0 then [] else if n >= |s| then s else s[..n]
  }

  /** `Skip((page - 1) * pageSize).Take(pageSize)`. */
  function PageSlice<T>(s: seq<T>, page: int, pageSize: int): seq<T> {
    Take(Skip(s, (page - 1) * pageSize), pageSize)
  }

  function Min(a: int, b: int): int {
    if a <= b then a else b
  }

  function Max(a: int, b: int): int {
    if a <= b then b else a
  }

  /** `Take(Skip(s, n), m)` for non-negative counts: the m rows (at most) from position n on. */
  lemma SkipTakeSpec<T>(s: seq<T>, n: int, m: int)
    requires n >= 0 && m >= 0
    ensures var r := Take(Skip(s, n), m);
      && |r| == Min(m, Max(0, |s| - n))
      && forall i :: 0 <= i < |r| ==> r[i] == s[n + i]
  {
  }

  /** Page `page` holds the rows from (page - 1) * pageSize on, at most pageSize of them. */
  lemma PageSliceSpec<T>(s: seq<T>, page: int, pageSize: int)
    requires page >= 1 && pageSize >= 0
    ensures var r := PageSlice(s, page, pageSize);
      && |r| == Min(pageSize, Max(0, |s| - (page - 1) * pageSize))
      && forall i :: 0 <= i < |r| ==> r[i] == s[(page - 1) * pageSize + i]
  {
    MulNonNegative(page - 1, pageSize);
    SkipTakeSpec(s, (page - 1) * pageSize, pageSize);
  }

  /** Every row of a page is a row of the list. */
  lemma PageSliceMembers<T>(s: seq<T>, page: int, pageSize: int)
    requires page >= 1 && pageSize >= 0
    ensures var r := PageSlice(s, page, pageSize); forall i :: 0 <= i < |r| ==> r[i] in s
  {
    MulNonNegative(page - 1, pageSize);
    SkipTakeMembers(s, (page - 1) * pageSize, pageSize);
  }

  lemma SkipTakeMembers<T>(s: seq<T>, n: int, m: int)
    requires n >= 0 && m >= 0
    ensures var r := Take(Skip(s, n), m); forall i :: 0 <= i < |r| ==> r[i] in s
  {
    SkipTakeSpec(s, n, m);
  }

  /** A page of a list whose rows are pairwise ordered by `rel` is ordered by `rel` too. */
  lemma PageSliceOrdered<T>(s: seq<T>, rel: (T, T) -> bool, page: int, pageSize: int)
    requires page >= 1 && pageSize >= 0
    requires forall i, j :: 0 <= i < j < |s| ==> rel(s[i], s[j])
    ensures var r := PageSlice(s, page, pageSize); forall i, j :: 0 <= i < j < |r| ==> rel(r[i], r[j])
  {
    MulNonNegative(page - 1, pageSize);
    SkipTakeOrdered(s, rel, (page - 1) * pageSize, pageSize);
  }

  lemma SkipTakeOrdered<T>(s: seq<T>, rel: (T, T) -> bool, n: int, m: int)
    requires n >= 0 && m >= 0
    requires forall i, j :: 0 <= i < j < |s| ==> rel(s[i], s[j])
    ensures var r := Take(Skip(s, n), m); forall i, j :: 0 <= i < j < |r| ==> rel(r[i], r[j])
  {
    var r := Take(Skip(s, n), m);
    SkipTakeSpec(s, n, m);
    forall i, j | 0 <= i < j < |r| ensures rel(r[i], r[j]) {
      assert r[i] == s[n + i] && r[j] == s[n + j];
    }
  }

  lemma MulNonNegative(a: int, b: int)
    requires a >= 0 && b >= 0
    ensures a * b >= 0
  {
  }

  /**
   * Against the paging metadata of the same list: a page (page >= 1) has rows
   * exactly when it is not past TotalPages, and it is full whenever there is
   * a next page.
   */
  lemma PageSliceAgainstMetadata<T>(s: seq<T>, page: int, pageSize: int)
    requires page >= 1 && pageSize > 0
    ensures var p := NewPageViewModel(|s|, page, pageSize);
      && (|PageSlice(s, page, pageSize)| > 0 <==> page <= p.totalPages)
      && (p.HasNextPage() ==> |PageSlice(s, page, pageSize)| == pageSize)
  {
    PageSliceSpec(s, page, pageSize);
    NewPageViewModelSpec(|s|, page, pageSize);
    HasNextPageIff(|s|, page, pageSize);
    var t := NewPageViewModel(|s|, page, pageSize).totalPages;
    if page <= t {
      MulMonotone(page - 1, t - 1, pageSize);
    }
    assert (page - 1) * pageSize == page * pageSize - pageSize;
  }
}
