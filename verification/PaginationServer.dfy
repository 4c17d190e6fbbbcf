/** Pagination against a server that really serves a list: what an honest response parses to, and
    that collecting undoes paging (crates/revoot-core/src/gitlab_wire.rs, lines 757-841 and 1271-1438). */
module PaginationServers {
  import opened Wrappers
  import opened Words
  import opened Pagination

  // ----- one response

  /** The pagination headers of a response, each already read as a number or a page signal. */
  datatype Headers = Headers(
    page: Option<u32>, perPage: Option<u32>, previous: Signal, next: Signal, link: Signal,
    total: Option<u64>, totalPages: Option<u32>)

  /** `combine_next_signals`: an unobserved signal yields, observed ones must agree. */
  function Combine(a: Signal, b: Signal): Result<Signal, WireError> {
    if a == Unobserved then Success(b)
    else if b == Unobserved then Success(a)
    else if a == b then Success(a)
    else Failure(NextMismatch)
  }

  function PreviousOf(page: u32): Signal {
    if page > 1 then To(page - 1) else Terminal
  }

  /** `validate_pagination_echoes`. */
  function EchoIssue(h: Headers, page: u32, perPage: u32): Option<WireError> {
    if h.page.Some? && h.page.value != page then Some(PageMismatch)
    else if h.perPage.Some? && h.perPage.value != perPage then Some(PerPageMismatch)
    else if h.previous != Unobserved && h.previous != PreviousOf(page) then Some(PreviousMismatch)
    else None
  }

  /** Where the next page is, from the totals or else from the explicit signal. */
  function ResolveNext(h: Headers, page: u32, perPage: u32, count: nat, explicit: Signal): Result<Signal, WireError>
    requires page > 0 && perPage > 0
  {
    if h.total.Some? && h.totalPages.Some? then
      var expected := TotalsSignal(h.total.value, h.totalPages.value, page, perPage, count);
      if expected.Success? && explicit != Unobserved && explicit != expected.value then Failure(NextMismatch) else expected
    else if explicit != Unobserved then Success(explicit)
    else if count < perPage then Success(Terminal)
    else Failure(AmbiguousContinuation)
  }

  /** `parse_pagination` behind the header strings. */
  function ParsePagination(h: Headers, page: u32, perPage: u32, count: nat, l: Limits): Result<Metadata, WireError> {
    if page == 0 || perPage == 0 || perPage > l.maxItemsPerPage then Failure(InvalidRequestedPage)
    else if EchoIssue(h, page, perPage).Some? then Failure(EchoIssue(h, page, perPage).value)
    else if h.total.Some? != h.totalPages.Some? then Failure(TotalMismatch)
    else if count > perPage then Failure(TooManyPageItems)
    else
      var explicit := Combine(h.next, h.link);
      if explicit.Failure? then Failure(explicit.error)
      else
        var resolved := ResolveNext(h, page, perPage, count, explicit.value);
        if resolved.Failure? then Failure(resolved.error)
        else
          var next := resolved.value.NextPage();
          if next.Some? && next.value <= page then Failure(Cycle)
          else if next.Some? && next.value != Saturate(page + 1) then Failure(Gap)
          else if next.Some? && count == 0 then Failure(NextMismatch)
          else Success(Metadata(page, perPage, count, next, h.total, h.totalPages))
  }

  // ----- a list in pages

  function Chunks<T>(items: seq<T>, perPage: nat): (r: seq<seq<T>>)
    requires perPage > 0
    ensures r != []
  {
    if |items| <= perPage then [items] else [items[..perPage]] + Chunks(items[perPage..], perPage)
  }

  function Concat<T>(chunks: seq<seq<T>>): seq<T> {
    if chunks == [] then [] else chunks[0] + Concat(chunks[1..])
  }

  lemma {:induction false} ConcatChunks<T>(items: seq<T>, perPage: nat)
    requires perPage > 0
    ensures Concat(Chunks(items, perPage)) == items
  {
    if |items| <= perPage {
      assert Concat([items]) == items + Concat<T>([]);
    } else {
      var rest := Chunks(items[perPage..], perPage);
      ConcatChunks(items[perPage..], perPage);
      assert Chunks(items, perPage)[1..] == rest;
      assert items == items[..perPage] + items[perPage..];
    }
  }

  lemma NextStart(i: nat, perPage: nat)
    requires i > 0
    ensures i * perPage == (i - 1) * perPage + perPage
  {
  }

  lemma {:induction false} SameQuotient(d: nat, p: nat, s: nat, q: nat, r: nat)
    requires s < d && r < d && p * d + s == q * d + r
    ensures p == q
  {
    if p > 0 {
      NextStart(p, d);
    }
    if q > 0 {
      NextStart(q, d);
    }
    if p > 0 && q > 0 {
      SameQuotient(d, p - 1, s, q - 1, r);
    }
  }

  lemma OnePageFewer(n: nat, perPage: nat)
    requires perPage > 0 && n > perPage
    ensures PageCount(n, perPage) == PageCount(n - perPage, perPage) + 1
  {
    var m, k := n - 1, n - 1 + perPage;
    assert m == (m / perPage) * perPage + m % perPage;
    assert k == (k / perPage) * perPage + k % perPage;
    assert (m / perPage + 1) * perPage == (m / perPage) * perPage + perPage;
    SameQuotient(perPage, k / perPage, k % perPage, m / perPage + 1, m % perPage);
  }

  lemma OnePage(n: nat, perPage: nat)
    requires perPage > 0
    ensures PageCount(n, perPage) == 1 <==> n <= perPage
  {
    if n > perPage {
      OnePageFewer(n, perPage);
    } else if n > 0 {
      assert (n + perPage - 1) / perPage == 1;
    }
  }

  /** There are as many chunks as pages, full ones first. */
  lemma {:induction false} ChunkSizes<T>(items: seq<T>, perPage: nat)
    requires perPage > 0
    ensures |Chunks(items, perPage)| == PageCount(|items|, perPage)
    ensures forall i :: 0 <= i < |Chunks(items, perPage)| ==> |Chunks(items, perPage)[i]| == Min(Past(|items|, i * perPage), perPage)
  {
    OnePage(|items|, perPage);
    if |items| > perPage {
      var rest := Chunks(items[perPage..], perPage);
      ChunkSizes(items[perPage..], perPage);
      OnePageFewer(|items|, perPage);
      forall i | 0 <= i < |Chunks(items, perPage)|
        ensures |Chunks(items, perPage)[i]| == Min(Past(|items|, i * perPage), perPage)
      {
        if i > 0 {
          NextStart(i, perPage);
          assert Chunks(items, perPage)[i] == rest[i - 1];
        }
      }
    }
  }

  lemma {:induction false} ChunksUnique<T>(chunks: seq<seq<T>>, perPage: nat)
    requires perPage > 0 && |chunks| == PageCount(|Concat(chunks)|, perPage)
    requires forall i :: 0 <= i < |chunks| ==> |chunks[i]| == Min(Past(|Concat(chunks)|, i * perPage), perPage)
    ensures chunks == Chunks(Concat(chunks), perPage)
  {
    var items, rest := Concat(chunks), chunks[1..];
    OnePage(|items|, perPage);
    if |chunks| == 1 {
      assert Concat(rest) == [] && items == chunks[0];
    } else {
      assert |chunks[0]| == Min(Past(|items|, 0 * perPage), perPage) == perPage;
      assert items[..perPage] == chunks[0] && items[perPage..] == Concat(rest);
      OnePageFewer(|items|, perPage);
      forall i | 0 <= i < |rest| ensures |rest[i]| == Min(Past(|Concat(rest)|, i * perPage), perPage) {
        NextStart(i + 1, perPage);
        assert rest[i] == chunks[i + 1];
      }
      ChunksUnique(rest, perPage);
    }
  }

  // ----- an honest server

  function NextOf(n: nat, perPage: nat, i: nat): Signal
    requires perPage > 0 && PageCount(n, perPage) <= U32_MAX
  {
    if i + 1 < PageCount(n, perPage) then To(i + 2) else Terminal
  }

  /** A list that fits the limits. */
  ghost predicate Fits<T>(l: Limits, items: seq<T>, perPage: u32) {
    && l.Valid()
    && 0 < perPage <= l.maxItemsPerPage
    && |items| <= l.maxTotalItems
    && PageCount(|items|, perPage) <= l.maxPages
  }

  /** The metadata of page `i` (counting from zero), with or without totals. */
  ghost function ServedMetadata<T>(l: Limits, items: seq<T>, perPage: u32, totals: bool, i: nat): Metadata
    requires Fits(l, items, perPage) && i < PageCount(|items|, perPage)
  {
    Metadata(
      i + 1, perPage, Min(Past(|items|, i * perPage), perPage), NextOf(|items|, perPage, i).NextPage(),
      if totals then Some(|items|) else None, if totals then Some(PageCount(|items|, perPage)) else None)
  }

  ghost function Serve<T>(l: Limits, items: seq<T>, perPage: u32, totals: bool): (pages: seq<Page<T>>)
    requires Fits(l, items, perPage)
    ensures |pages| == PageCount(|items|, perPage)
  {
    ChunkSizes(items, perPage);
    var chunks := Chunks(items, perPage);
    seq(|chunks|, i requires 0 <= i < |chunks| => Page(ServedMetadata(l, items, perPage, totals, i), chunks[i]))
  }

  /** The totals check accepts the true totals and finds the true next page. */
  lemma TrueTotals<T>(l: Limits, items: seq<T>, perPage: u32, i: nat)
    requires Fits(l, items, perPage) && i < PageCount(|items|, perPage)
    ensures TotalsSignal(|items|, PageCount(|items|, perPage), i + 1, perPage, Min(Past(|items|, i * perPage), perPage))
         == Success(NextOf(|items|, perPage, i))
  {
  }

  function Contents<T>(pages: seq<Page<T>>): (r: seq<seq<T>>)
    ensures |r| == |pages| && forall i :: 0 <= i < |pages| ==> r[i] == pages[i].items
  {
    seq(|pages|, i requires 0 <= i < |pages| => pages[i].items)
  }

  lemma {:induction false} ConcatSnoc<T>(chunks: seq<seq<T>>, last: seq<T>)
    ensures Concat(chunks + [last]) == Concat(chunks) + last
  {
    var all := chunks + [last];
    if chunks == [] {
      assert all[1..] == [];
    } else {
      assert all[1..] == chunks[1..] + [last];
      ConcatSnoc(chunks[1..], last);
    }
  }

  lemma {:induction false} ItemsAreContents<T>(pages: seq<Page<T>>)
    ensures AllItems(pages) == Concat(Contents(pages))
  {
    if pages == [] {
      assert Contents(pages) == [];
    } else {
      var n := |pages| - 1;
      ItemsAreContents(pages[..n]);
      ConcatSnoc(Contents(pages[..n]), pages[n].items);
      assert Contents(pages) == Contents(pages[..n]) + [pages[n].items];
    }
  }

  lemma ServedPagesAreGood<T>(l: Limits, items: seq<T>, perPage: u32, totals: bool)
    requires Fits(l, items, perPage)
    ensures var pages := Serve(l, items, perPage, totals);
      forall i :: 0 <= i < |pages| ==> GoodPage(l, pages[0].metadata, pages[i], i)
  {
    var pages := Serve(l, items, perPage, totals);
    ChunkSizes(items, perPage);
    forall i | 0 <= i < |pages| ensures GoodPage(l, pages[0].metadata, pages[i], i) {
      TrueTotals(l, items, perPage, i);
    }
  }

  lemma {:induction false} ServedItems<T>(l: Limits, items: seq<T>, perPage: u32, totals: bool)
    requires Fits(l, items, perPage)
    ensures AllItems(Serve(l, items, perPage, totals)) == items
  {
    var pages := Serve(l, items, perPage, totals);
    ItemsAreContents(pages);
    assert Contents(pages) == Chunks(items, perPage);
    ConcatChunks(items, perPage);
  }

  /** Collecting undoes paging: a list within the limits, cut into pages with or without its true
      totals, is accepted and collected back unchanged. */
  lemma {:induction false} CollectServed<T>(l: Limits, items: seq<T>, perPage: u32, totals: bool)
    requires Fits(l, items, perPage)
    ensures var pages := Serve(l, items, perPage, totals); ValidPages(l, pages) && AllItems(pages) == items
  {
    ServedPagesAreGood(l, items, perPage, totals);
    ServedItems(l, items, perPage, totals);
  }

  /** With totals, nothing else is accepted: every accepted sequence of pages is its own list, cut
      into full pages and a last one. In particular it has as many pages as the list needs. */
  lemma {:induction false} AcceptedIsServed<T>(l: Limits, pages: seq<Page<T>>)
    requires ValidPages(l, pages)
    requires pages[0].metadata.totalItems.Some? && pages[0].metadata.totalPages.Some?
    ensures Fits(l, AllItems(pages), pages[0].metadata.perPage)
    ensures pages == Serve(l, AllItems(pages), pages[0].metadata.perPage, true)
  {
    var first, chunks := pages[0].metadata, Contents(pages);
    ItemsAreContents(pages);
    var last := |pages| - 1;
    assert GoodPage(l, first, pages[last], last);
    AcceptedSizes(l, pages);
    ChunksUnique(chunks, first.perPage);
    var served := Serve(l, AllItems(pages), first.perPage, true);
    forall i | 0 <= i < |pages| ensures pages[i] == served[i] {
      assert GoodPage(l, first, pages[i], i);
      assert chunks[i] == pages[i].items;
    }
  }

  lemma {:induction false} AcceptedSizes<T>(l: Limits, pages: seq<Page<T>>)
    requires ValidPages(l, pages)
    requires pages[0].metadata.totalItems.Some? && pages[0].metadata.totalPages.Some?
    ensures var n, perPage := |AllItems(pages)|, pages[0].metadata.perPage;
      && |pages| == PageCount(n, perPage) && pages[0].metadata.totalPages.value == PageCount(n, perPage)
      && forall i :: 0 <= i < |pages| ==> |pages[i].items| == Min(Past(n, i * perPage), perPage)
  {
    var first, last := pages[0].metadata, |pages| - 1;
    assert GoodPage(l, first, pages[last], last);
    forall i | 0 <= i < |pages| ensures |pages[i].items| == Min(Past(|AllItems(pages)|, i * first.perPage), first.perPage) {
      assert GoodPage(l, first, pages[i], i);
    }
  }

  /** Every header that is present tells the truth about page `i`; totals come together. */
  ghost predicate Honest<T>(h: Headers, items: seq<T>, perPage: u32, i: nat)
    requires perPage > 0 && i < PageCount(|items|, perPage) <= U32_MAX
  {
    && (h.page.Some? ==> h.page.value == i + 1)
    && (h.perPage.Some? ==> h.perPage.value == perPage)
    && (h.previous == Unobserved || h.previous == PreviousOf(i + 1))
    && (h.next == Unobserved || h.next == NextOf(|items|, perPage, i))
    && (h.link == Unobserved || h.link == NextOf(|items|, perPage, i))
    && (h.total.Some? <==> h.totalPages.Some?)
    && (h.total.Some? ==> h.total.value == |items| && h.totalPages.value == PageCount(|items|, perPage))
  }

  /** A full page without totals and without a next-page signal. */
  predicate Silent(h: Headers, perPage: u32, count: nat) {
    h.total.None? && h.next == Unobserved && h.link == Unobserved && count == perPage
  }

  /** An honest response is understood as the page it is, unless it is silent about a full page: then,
      and only then, it is refused as ambiguous. */
  lemma HonestResponses<T>(l: Limits, items: seq<T>, perPage: u32, i: nat, h: Headers)
    requires Fits(l, items, perPage) && i < PageCount(|items|, perPage) && Honest(h, items, perPage, i)
    ensures var count := Min(Past(|items|, i * perPage), perPage);
      ParsePagination(h, i + 1, perPage, count, l) ==
        if Silent(h, perPage, count) then Failure(AmbiguousContinuation)
        else Success(ServedMetadata(l, items, perPage, h.total.Some?, i))
  {
    var n, count := |items|, Min(Past(|items|, i * perPage), perPage);
    TrueTotals(l, items, perPage, i);
    MiddlePagesAreFull(n, perPage, i);
    var explicit := Combine(h.next, h.link);
    assert explicit == Success(if h.next == Unobserved && h.link == Unobserved then Unobserved else NextOf(n, perPage, i));
  }

  /** Every page but the last is full, and the last one of a nonempty list is not empty. */
  lemma {:induction false} MiddlePagesAreFull(n: nat, perPage: nat, i: nat)
    requires perPage > 0 && i < PageCount(n, perPage)
    ensures i + 1 < PageCount(n, perPage) ==> Min(Past(n, i * perPage), perPage) == perPage
    decreases i
  {
    OnePage(n, perPage);
    if i + 1 < PageCount(n, perPage) {
      OnePageFewer(n, perPage);
      if i > 0 {
        MiddlePagesAreFull(n - perPage, perPage, i - 1);
        NextStart(i, perPage);
      }
    }
  }
}
