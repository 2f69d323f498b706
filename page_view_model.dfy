// PageViewModel: paging metadata of a list page.

module PageViewModels {

  datatype PageViewModel = PageViewModel(page: int, totalPages: int, pageSize: int, totalItems: int)
  {
    predicate HasPreviousPage() {
      page > 1
    }

    predicate HasNextPage() {
      page < totalPages
    }
  }

  /**
   * `Math.Ceiling(a / (double)b)` for 32-bit operands and b > 0, as exact
   * integer arithmetic (Dafny's `/` floors when the divisor is positive).
   */
  function CeilDiv(a: int, b: int): (q: int)
    requires b > 0
    ensures q * b >= a
    ensures (q - 1) * b < a
  {
    var f := (-a) / b;
    assert -a == f * b + (-a) % b;
    -f
  }

  /** The `PageViewModel(totalItems, page, pageSize)` constructor. */
  function NewPageViewModel(totalItems: int, page: int, pageSize: int): PageViewModel
    requires pageSize > 0
  {
    PageViewModel(page, CeilDiv(totalItems, pageSize), pageSize, totalItems)
  }

  /** The stored fields are the arguments, unclamped; TotalPages is the least n with n * pageSize >= totalItems. */
  lemma NewPageViewModelSpec(totalItems: int, page: int, pageSize: int)
    requires pageSize > 0
    ensures var p := NewPageViewModel(totalItems, page, pageSize);
      && p.totalItems == totalItems && p.page == page && p.pageSize == pageSize
      && p.totalPages * pageSize >= totalItems
      && forall n :: n * pageSize >= totalItems ==> p.totalPages <= n
  {
    var p := NewPageViewModel(totalItems, page, pageSize);
    forall n | n * pageSize >= totalItems ensures p.totalPages <= n {
      if n < p.totalPages {
        assert n <= p.totalPages - 1;
        MulMonotone(n, p.totalPages - 1, pageSize);
      }
    }
  }

  lemma MulMonotone(a: int, b: int, c: int)
    requires a <= b && c > 0
    ensures a * c <= b * c
  {
  }

  lemma HasPreviousPageIff(totalItems: int, page: int, pageSize: int)
    requires pageSize > 0
    ensures NewPageViewModel(totalItems, page, pageSize).HasPreviousPage() <==> page > 1
  {
  }

  /** There is a next page exactly when page * pageSize < totalItems; so never on the last page nor for an empty list. */
  lemma HasNextPageIff(totalItems: int, page: int, pageSize: int)
    requires pageSize > 0
    ensures NewPageViewModel(totalItems, page, pageSize).HasNextPage() <==> page * pageSize < totalItems
    ensures totalItems <= 0 && page >= 0 ==> !NewPageViewModel(totalItems, page, pageSize).HasNextPage()
  {
    var t := NewPageViewModel(totalItems, page, pageSize).totalPages;
    if page < t {
      MulMonotone(page, t - 1, pageSize);
    } else {
      MulMonotone(t, page, pageSize);
    }
  }

  /** 25 items, 20 per page, page 2: two pages, no next page, a previous page. */
  lemma SecondOfTwoPages()
    ensures var p := NewPageViewModel(25, 2, 20);
      p.totalPages == 2 && !p.HasNextPage() && p.HasPreviousPage()
  {
  }
}
