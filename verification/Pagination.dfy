/** Offset pagination: reading one response's page numbers, collecting a complete sequence of pages,
    and the independent completeness check (crates/revoot-core/src/gitlab_wire.rs, lines 757-841 and
    1271-1438; crates/revoot-core/src/snapshot.rs, lines 336-452). */
module Pagination {
  import opened Wrappers
  import opened Words

  const HARD_MAX_ITEMS_PER_PAGE := 1_000
  const HARD_MAX_PAGES := 10_000
  const HARD_MAX_TOTAL_ITEMS := 1_000_000

  /** The limits that bound pages; the other dimensions are not part of this model. */
  datatype Limits = Limits(maxItemsPerPage: u32, maxPages: u32, maxTotalItems: u32) {
    predicate Valid() {
      && 0 < maxItemsPerPage <= HARD_MAX_ITEMS_PER_PAGE
      && 0 < maxPages <= HARD_MAX_PAGES
      && 0 < maxTotalItems <= HARD_MAX_TOTAL_ITEMS
    }
  }

  datatype WireError =
    | InvalidLimits | InvalidRequestedPage | TooManyPages | TooManyPageItems | TooManyTotalItems
    | PageMismatch | PerPageMismatch | PreviousMismatch | NextMismatch | Cycle | Gap | AfterTerminal
    | ContinuationMissing | AmbiguousContinuation | TotalMismatch | Overflow

  datatype Metadata = Metadata(
    pageNumber: u32, perPage: u32, itemCount: u32, nextPage: Option<u32>, totalItems: Option<u64>, totalPages: Option<u32>)

  datatype Page<T> = Page(metadata: Metadata, items: seq<T>)

  datatype Receipt = Receipt(pageNumber: u32, itemCount: u32, hasNextPage: bool)

  datatype Acquisition<T> = Acquisition(items: seq<T>, pages: seq<Receipt>)

  datatype Signal = Unobserved | Terminal | To(page: u32) {
    function NextPage(): Option<u32> {
      if To? then Some(page) else None
    }
  }

  function Min(a: nat, b: nat): nat { if a <= b then a else b }

  function Past(total: nat, before: nat): nat { if before <= total then total - before else 0 }

  /** The number of pages of a list: at least one. */
  function PageCount(n: nat, perPage: nat): nat
    requires perPage > 0
  {
    var filled := (n + perPage - 1) / perPage;
    if filled < 1 then 1 else filled
  }

  /** The number of items on the pages before page `page`. */
  function ItemsBefore(page: nat, perPage: nat): nat
    requires page > 0
  {
    (page - 1) * perPage
  }

  /** `validate_pagination_totals`. */
  function TotalsSignal(total: u64, pages: u32, page: u32, perPage: u32, count: nat): Result<Signal, WireError>
    requires page > 0 && perPage > 0
  {
    if total + perPage - 1 > U64_MAX then Failure(Overflow)
    else
      var calculated := PageCount(total, perPage);
      if calculated > U32_MAX then Failure(Overflow)
      else if pages != calculated || page > pages then Failure(TotalMismatch)
      else if Min(Past(total, ItemsBefore(page, perPage)), perPage) != count then Failure(TotalMismatch)
      else if page < pages then Success(To(page + 1))
      else Success(Terminal)
  }

  // ----- collecting pages

  function AllItems<T>(pages: seq<Page<T>>): seq<T> {
    if pages == [] then [] else AllItems(pages[..|pages| - 1]) + pages[|pages| - 1].items
  }

  function ReceiptOf<T>(p: Page<T>): Receipt {
    Receipt(p.metadata.pageNumber, p.metadata.itemCount, p.metadata.nextPage.Some?)
  }

  function Receipts<T>(pages: seq<Page<T>>): (r: seq<Receipt>)
    ensures |r| == |pages| && forall i :: 0 <= i < |pages| ==> r[i] == ReceiptOf(pages[i])
  {
    seq(|pages|, i requires 0 <= i < |pages| => ReceiptOf(pages[i]))
  }

  /** Page `i` agrees with the first page, with its own items and, given totals, with those. */
  predicate GoodPage<T>(l: Limits, first: Metadata, p: Page<T>, i: nat)
    requires first.perPage > 0
  {
    var m := p.metadata;
    && m.pageNumber == i + 1
    && m.perPage == first.perPage && m.totalItems == first.totalItems && m.totalPages == first.totalPages
    && m.itemCount == |p.items|
    && m.itemCount <= first.perPage && m.itemCount <= l.maxItemsPerPage
    && (first.totalItems.Some? && first.totalPages.Some? ==>
          var s := TotalsSignal(first.totalItems.value, first.totalPages.value, m.pageNumber, first.perPage, |p.items|);
          s.Success? && m.nextPage == s.value.NextPage())
  }

  /** The page sequences that are complete acquisitions. */
  ghost predicate ValidPages<T>(l: Limits, pages: seq<Page<T>>) {
    && l.Valid()
    && 0 < |pages| <= l.maxPages
    && 0 < pages[0].metadata.perPage <= l.maxItemsPerPage
    && (forall i :: 0 <= i < |pages| ==> GoodPage(l, pages[0].metadata, pages[i], i))
    && (forall i :: 0 <= i < |pages| ==> pages[i].metadata.nextPage == if i + 1 < |pages| then Some(i + 2) else None)
    && |AllItems(pages)| <= l.maxTotalItems
    && (pages[0].metadata.totalItems.Some? ==> pages[0].metadata.totalItems.value == |AllItems(pages)|)
  }

  lemma {:induction false} ItemsGrow<T>(pages: seq<Page<T>>, i: nat)
    requires i <= |pages|
    ensures |AllItems(pages[..i])| <= |AllItems(pages)|
  {
    if i == |pages| {
      assert pages[..i] == pages;
    } else {
      ItemsGrow(pages[..|pages| - 1], i);
      assert pages[..|pages| - 1][..i] == pages[..i];
    }
  }

  /** `e` is the first check that a page fails. */
  ghost predicate PageRefused<T>(l: Limits, first: Metadata, previousNext: Option<u32>, p: Page<T>, i: nat, e: WireError)
    requires first.perPage > 0
  {
    var m := p.metadata;
    if m.pageNumber != i + 1 then e == (if m.pageNumber > i + 1 then Gap else Cycle)
    else if previousNext != Some(i + 1) then e == AfterTerminal
    else if (m.perPage, m.totalItems, m.totalPages, m.itemCount) != (first.perPage, first.totalItems, first.totalPages, |p.items|) then
      e == TotalMismatch
    else if |p.items| > first.perPage || |p.items| > l.maxItemsPerPage then e == TooManyPageItems
    else
      && first.totalItems.Some? && first.totalPages.Some?
      && var s := TotalsSignal(first.totalItems.value, first.totalPages.value, m.pageNumber, first.perPage, |p.items|);
         if s.Failure? then e == s.error else m.nextPage != s.value.NextPage() && e == NextMismatch
  }

  /** The first `i` pages are good, lead from one to the next, and do not hold too many items. */
  ghost predicate CollectedTo<T>(l: Limits, pages: seq<Page<T>>, i: nat)
    requires i <= |pages| && pages != [] && pages[0].metadata.perPage > 0
  {
    && (forall j :: 0 <= j < i ==> GoodPage(l, pages[0].metadata, pages[j], j))
    && (forall j :: 0 <= j < i - 1 ==> pages[j].metadata.nextPage == Some(j + 2))
    && |AllItems(pages[..i])| <= l.maxTotalItems
  }

  /** The next page as told by the pages before page `i`. */
  function Announced<T>(pages: seq<Page<T>>, i: nat): Option<u32>
    requires i <= |pages|
  {
    if i == 0 then Some(1) else pages[i - 1].metadata.nextPage
  }

  lemma CollectedOn<T>(l: Limits, pages: seq<Page<T>>, i: nat)
    requires i < |pages| && pages[0].metadata.perPage > 0 && CollectedTo(l, pages, i)
    requires GoodPage(l, pages[0].metadata, pages[i], i) && Announced(pages, i) == Some(i + 1)
    ensures AllItems(pages[..i + 1]) == AllItems(pages[..i]) + pages[i].items
    ensures |AllItems(pages[..i + 1])| <= l.maxTotalItems ==> CollectedTo(l, pages, i + 1)
  {
    assert pages[..i + 1][..i] == pages[..i] && pages[..i + 1][i] == pages[i];
  }

  lemma {:induction false} CollectedAll<T>(l: Limits, pages: seq<Page<T>>)
    requires pages != [] && pages[0].metadata.perPage > 0 && CollectedTo(l, pages, |pages|)
    ensures |AllItems(pages)| <= l.maxTotalItems
    ensures forall i :: 0 <= i < |pages| ==> GoodPage(l, pages[0].metadata, pages[i], i)
    ensures forall i :: 0 <= i < |pages| - 1 ==> pages[i].metadata.nextPage == Some(i + 2)
  {
    assert pages[..|pages|] == pages;
  }

  /** Collecting stops at page `i` with `e`, having passed the pages before it. */
  ghost predicate StopsAt<T>(l: Limits, pages: seq<Page<T>>, i: nat, e: WireError)
    requires i < |pages| && pages[0].metadata.perPage > 0
  {
    CollectedTo(l, pages, i)
    && (|| PageRefused(l, pages[0].metadata, Announced(pages, i), pages[i], i, e)
        || (e == TooManyTotalItems && Announced(pages, i) == Some(i + 1) && GoodPage(l, pages[0].metadata, pages[i], i)
            && |AllItems(pages[..i + 1])| > l.maxTotalItems))
  }

  /** Why collecting fails. */
  ghost predicate CollectRefused<T>(l: Limits, pages: seq<Page<T>>, e: WireError) {
    if !l.Valid() then e == InvalidLimits
    else if pages == [] then e == ContinuationMissing
    else if |pages| > l.maxPages then e == TooManyPages
    else if pages[0].metadata.perPage == 0 || pages[0].metadata.perPage > l.maxItemsPerPage then e == PerPageMismatch
    else
      || (exists i :: 0 <= i < |pages| && StopsAt(l, pages, i, e))
      || ((forall i :: 0 <= i < |pages| ==> GoodPage(l, pages[0].metadata, pages[i], i)) && |AllItems(pages)| <= l.maxTotalItems
          && if pages[|pages| - 1].metadata.nextPage.Some? then e == ContinuationMissing
             else e == TotalMismatch && pages[0].metadata.totalItems.Some? && pages[0].metadata.totalItems.value != |AllItems(pages)|)
  }

  /** The checks of one page, in the order of the source. */
  method CheckPage<T>(l: Limits, first: Metadata, previousNext: Option<u32>, p: Page<T>, i: nat) returns (e: Option<WireError>)
    requires l.Valid() && i < l.maxPages && 0 < first.perPage <= l.maxItemsPerPage
    ensures e.None? <==> GoodPage(l, first, p, i) && previousNext == Some(i + 1)
    ensures e.Some? ==> PageRefused(l, first, previousNext, p, i, e.value)
  {
    var m := p.metadata;
    if m.pageNumber != i + 1 {
      return Some(if m.pageNumber < i + 1 then Cycle else Gap);
    }
    if previousNext != Some(i + 1) {
      return Some(AfterTerminal);
    }
    if m.perPage != first.perPage || m.totalItems != first.totalItems || m.totalPages != first.totalPages || m.itemCount != |p.items| {
      return Some(TotalMismatch);
    }
    if m.itemCount > first.perPage || m.itemCount > l.maxItemsPerPage {
      return Some(TooManyPageItems);
    }
    if first.totalItems.Some? && first.totalPages.Some? {
      var expected := TotalsSignal(first.totalItems.value, first.totalPages.value, i + 1, first.perPage, |p.items|);
      if expected.Failure? {
        return Some(expected.error);
      }
      if m.nextPage != expected.value.NextPage() {
        return Some(NextMismatch);
      }
    }
    return None;
  }

  /** `collect_complete_pages`: accepts exactly the valid page sequences, and returns their items in
      order with one receipt for each page. */
  method CollectCompletePages<T>(pages: seq<Page<T>>, l: Limits) returns (r: Result<Acquisition<T>, WireError>)
    ensures r.Success? <==> ValidPages(l, pages)
    ensures r.Success? ==> r.value == Acquisition(AllItems(pages), Receipts(pages))
    ensures r.Failure? ==> CollectRefused(l, pages, r.error)
  {
    if !l.Valid() {
      return Failure(InvalidLimits);
    }
    if pages == [] {
      return Failure(ContinuationMissing);
    }
    if |pages| > l.maxPages {
      return Failure(TooManyPages);
    }
    var first := pages[0].metadata;
    if first.perPage == 0 || first.perPage > l.maxItemsPerPage {
      return Failure(PerPageMismatch);
    }
    var items: seq<T>, receipts: seq<Receipt> := [], [];
    var previousNext: Option<u32> := Some(1);
    for i := 0 to |pages|
      invariant CollectedTo(l, pages, i) && previousNext == Announced(pages, i)
      invariant items == AllItems(pages[..i])
      invariant |receipts| == i && forall j :: 0 <= j < i ==> receipts[j] == ReceiptOf(pages[j])
    {
      var page := pages[i];
      var e := CheckPage(l, first, previousNext, page, i);
      if e.Some? {
        assert StopsAt(l, pages, i, e.value);
        return Failure(e.value);
      }
      previousNext := page.metadata.nextPage;
      receipts := receipts + [Receipt(i + 1, page.metadata.itemCount, previousNext.Some?)];
      items := items + page.items;
      CollectedOn(l, pages, i);
      if |items| > l.maxTotalItems {
        ItemsGrow(pages, i + 1);
        assert StopsAt(l, pages, i, TooManyTotalItems);
        return Failure(TooManyTotalItems);
      }
    }
    assert pages[..|pages|] == pages;
    CollectedAll(l, pages);
    if previousNext.Some? {
      return Failure(ContinuationMissing);
    }
    if first.totalItems.Some? && first.totalItems.value != |items| {
      return Failure(TotalMismatch);
    }
    return Success(Acquisition(items, receipts));
  }

  // ----- the independent completeness check

  datatype PaginationIssue =
    | NoPages | PageNumberZero | FirstPageMissing(observed: u32) | NonSequentialPage(expected: u32, observed: u32)
    | PageAfterTerminal(page: u32) | ContinuationNotFetched(afterPage: u32) | ItemCountMismatch(counted: nat, held: nat)

  datatype Status = Complete(pages: u32, items: nat) | Partial(pages: u32, items: nat, reasons: set<PaginationIssue>)

  function Saturate(n: nat): u32 { if n <= U32_MAX then n else U32_MAX }

  /** The issues of receipt `i`. */
  function ReceiptIssues(pages: seq<Receipt>, i: nat): set<PaginationIssue>
    requires i < |pages|
  {
    var n := pages[i].pageNumber;
    (if n == 0 then {PageNumberZero} else {})
    + (if i == 0 && n != 1 then {FirstPageMissing(n)} else {})
    + (if i > 0 && !pages[i - 1].hasNextPage then {PageAfterTerminal(n)} else {})
    + (if i > 0 && n != Saturate(pages[i - 1].pageNumber + 1)
       then {NonSequentialPage(Saturate(pages[i - 1].pageNumber + 1), n)} else {})
  }

  function SequenceIssues(pages: seq<Receipt>, k: nat): set<PaginationIssue>
    requires k <= |pages|
  {
    if k == 0 then if pages == [] then {NoPages} else {} else SequenceIssues(pages, k - 1) + ReceiptIssues(pages, k - 1)
  }

  function ReceiptCount(pages: seq<Receipt>): nat {
    if pages == [] then 0 else ReceiptCount(pages[..|pages| - 1]) + pages[|pages| - 1].itemCount
  }

  function Issues<T>(a: Acquisition<T>): set<PaginationIssue> {
    var n := |a.pages|;
    SequenceIssues(a.pages, n)
    + (if n > 0 && a.pages[n - 1].hasNextPage then {ContinuationNotFetched(a.pages[n - 1].pageNumber)} else {})
    + (if ReceiptCount(a.pages) != |a.items| then {ItemCountMismatch(ReceiptCount(a.pages), |a.items|)} else {})
  }

  /** Receipts 1, 2, 3, … of which exactly the last has no next page. */
  ghost predicate Consecutive(pages: seq<Receipt>) {
    && pages != []
    && forall i :: 0 <= i < |pages| ==> pages[i].pageNumber == Saturate(i + 1) && pages[i].hasNextPage == (i + 1 < |pages|)
  }

  /** `completeness`. */
  method Completeness<T>(a: Acquisition<T>) returns (s: Status)
    ensures s == if Issues(a) == {} then Complete(Saturate(|a.pages|), |a.items|)
                 else Partial(Saturate(|a.pages|), |a.items|, Issues(a))
  {
    var reasons: set<PaginationIssue> := if a.pages == [] then {NoPages} else {};
    var counted := 0;
    for i := 0 to |a.pages|
      invariant reasons == SequenceIssues(a.pages, i) && counted == ReceiptCount(a.pages[..i])
    {
      reasons := reasons + ReceiptIssues(a.pages, i);
      counted := counted + a.pages[i].itemCount;
      assert a.pages[..i + 1][..i] == a.pages[..i] && a.pages[..i + 1][i] == a.pages[i];
    }
    assert a.pages[..|a.pages|] == a.pages;
    var last := |a.pages| - 1;
    if a.pages != [] && a.pages[last].hasNextPage {
      reasons := reasons + {ContinuationNotFetched(a.pages[last].pageNumber)};
    }
    if counted != |a.items| {
      reasons := reasons + {ItemCountMismatch(counted, |a.items|)};
    }
    s := if reasons == {} then Complete(Saturate(|a.pages|), |a.items|)
         else Partial(Saturate(|a.pages|), |a.items|, reasons);
  }

  lemma ReceiptIssuesExactly(pages: seq<Receipt>, i: nat)
    requires i < |pages|
    ensures ReceiptIssues(pages, i) == {} <==>
      var n := pages[i].pageNumber;
      && n != 0 && (i == 0 ==> n == 1)
      && (i > 0 ==> pages[i - 1].hasNextPage && n == Saturate(pages[i - 1].pageNumber + 1))
  {
    var all := ReceiptIssues(pages, i);
    var n := pages[i].pageNumber;
    if n == 0 { assert PageNumberZero in all; }
    if i == 0 && n != 1 { assert FirstPageMissing(n) in all; }
    if i > 0 && !pages[i - 1].hasNextPage { assert PageAfterTerminal(n) in all; }
    if i > 0 && n != Saturate(pages[i - 1].pageNumber + 1) {
      assert NonSequentialPage(Saturate(pages[i - 1].pageNumber + 1), n) in all;
    }
  }

  lemma {:induction false} SequenceIssuesExactly(pages: seq<Receipt>, k: nat)
    requires k <= |pages| && pages != []
    ensures SequenceIssues(pages, k) == {} <==>
      && (forall i :: 0 <= i < k ==> pages[i].pageNumber == Saturate(i + 1))
      && (forall i :: 0 <= i < k - 1 ==> pages[i].hasNextPage)
  {
    if k > 0 {
      SequenceIssuesExactly(pages, k - 1);
      ReceiptIssuesExactly(pages, k - 1);
      var before, here := SequenceIssues(pages, k - 1), ReceiptIssues(pages, k - 1);
      assert before + here == {} <==> before == {} && here == {};
    }
  }

  /** An acquisition is complete if and only if its receipts are consecutive and account for exactly
      the items it holds. */
  lemma CompleteExactly<T>(a: Acquisition<T>)
    ensures Issues(a) == {} <==> Consecutive(a.pages) && ReceiptCount(a.pages) == |a.items|
  {
    var n := |a.pages|;
    if n == 0 {
      assert NoPages in SequenceIssues(a.pages, 0);
      assert NoPages in Issues(a);
    } else {
      SequenceIssuesExactly(a.pages, n);
      var last, mismatch := ContinuationNotFetched(a.pages[n - 1].pageNumber), ItemCountMismatch(ReceiptCount(a.pages), |a.items|);
      assert a.pages[n - 1].hasNextPage ==> last in Issues(a);
      assert ReceiptCount(a.pages) != |a.items| ==> mismatch in Issues(a);
      assert SequenceIssues(a.pages, n) <= Issues(a);
    }
  }

  lemma {:induction false} ReceiptsCountItems<T>(pages: seq<Page<T>>)
    requires forall i :: 0 <= i < |pages| ==> pages[i].metadata.itemCount == |pages[i].items|
    ensures ReceiptCount(Receipts(pages)) == |AllItems(pages)|
  {
    if pages != [] {
      var n := |pages| - 1;
      ReceiptsCountItems(pages[..n]);
      assert Receipts(pages)[..n] == Receipts(pages[..n]);
    }
  }

  /** Whatever is collected is complete under the independent check. */
  lemma {:induction false} CollectedIsComplete<T>(l: Limits, pages: seq<Page<T>>)
    requires ValidPages(l, pages)
    ensures Issues(Acquisition(AllItems(pages), Receipts(pages))) == {}
  {
    ReceiptsCountItems(pages);
    CompleteExactly(Acquisition(AllItems(pages), Receipts(pages)));
  }
}
