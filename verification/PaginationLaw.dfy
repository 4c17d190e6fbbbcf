/** What pagination accepts and refuses, told from the page numbers, the counts and the totals
    (crates/revoot-core/src/gitlab_wire.rs, lines 757-841 and 1271-1438; crates/revoot-core/src/snapshot.rs,
    lines 387-452). */
module PaginationLaws {
  import opened Wrappers
  import opened Words
  import opened Pagination
  import opened PaginationServers

  // ----- totals

  /** A list of `total` items takes `pages` pages; an empty list takes one. */
  ghost predicate Takes(total: nat, perPage: nat, pages: nat) {
    pages > 0 && total <= pages * perPage && (pages > 1 ==> (pages - 1) * perPage < total)
  }

  lemma {:induction false} PageCountIsTold(total: nat, perPage: nat, pages: nat)
    requires perPage > 0
    ensures PageCount(total, perPage) == pages <==> Takes(total, perPage, pages)
    decreases pages
  {
    OnePage(total, perPage);
    if total <= perPage {
      if pages > 1 {
        NextStart(pages - 1, perPage);
        Grows(1, pages - 1, perPage);
      }
    } else {
      OnePageFewer(total, perPage);
      if pages > 1 {
        PageCountIsTold(total - perPage, perPage, pages - 1);
        NextStart(pages - 1, perPage);
        NextStart(pages, perPage);
      }
    }
  }

  lemma Grows(x: nat, y: nat, perPage: nat)
    requires x <= y
    ensures x * perPage <= y * perPage
  {
  }

  /** Page `page` of a list of `total` items holds `count` of them. */
  ghost predicate Holds(total: nat, perPage: nat, page: nat, count: nat)
    requires page > 0
  {
    if page * perPage <= total then count == perPage
    else if (page - 1) * perPage <= total then (page - 1) * perPage + count == total
    else count == 0
  }

  /** The totals fit together, with the page and with its items, and lead to `next`. */
  ghost predicate TotalsAgree(total: u64, pages: u32, page: u32, perPage: u32, count: nat, next: Option<u32>)
    requires page > 0 && perPage > 0
  {
    && total + perPage <= U64_MAX + 1
    && Takes(total, perPage, pages) && page <= pages && Holds(total, perPage, page, count)
    && next == if page < pages then Some(page + 1) else None
  }

  /** The totals cannot be added up in the widths of the source. */
  ghost predicate TotalsOverflow(total: u64, perPage: u32) {
    total + perPage > U64_MAX + 1 || U32_MAX * perPage < total
  }

  lemma {:induction false} HoldsIsTold(total: nat, perPage: nat, page: nat, count: nat)
    requires page > 0
    ensures Min(Past(total, ItemsBefore(page, perPage)), perPage) == count <==> Holds(total, perPage, page, count)
  {
    NextStart(page, perPage);
  }

  lemma {:induction false} ManyPages(total: nat, perPage: nat)
    requires perPage > 0
    ensures PageCount(total, perPage) > U32_MAX <==> U32_MAX * perPage < total
  {
    var pages := PageCount(total, perPage);
    PageCountIsTold(total, perPage, pages);
    if pages > U32_MAX {
      Grows(U32_MAX, pages - 1, perPage);
    } else {
      Grows(pages, U32_MAX, perPage);
    }
  }

  lemma {:induction false} TotalsAreTold(total: u64, pages: u32, page: u32, perPage: u32, count: nat)
    requires page > 0 && perPage > 0
    ensures match TotalsSignal(total, pages, page, perPage, count)
      case Success(s) => s != Unobserved && TotalsAgree(total, pages, page, perPage, count, s.NextPage())
      case Failure(Overflow) => TotalsOverflow(total, perPage)
      case Failure(e) =>
        e == TotalMismatch && !TotalsOverflow(total, perPage)
        && forall next :: !TotalsAgree(total, pages, page, perPage, count, next)
  {
    PageCountIsTold(total, perPage, pages);
    HoldsIsTold(total, perPage, page, count);
    ManyPages(total, perPage);
  }

  lemma {:induction false} TotalsGive(total: u64, pages: u32, page: u32, perPage: u32, count: nat, next: Option<u32>)
    requires page > 0 && perPage > 0
    ensures TotalsSignal(total, pages, page, perPage, count) == Success(SignalTo(next)) <==> TotalsAgree(total, pages, page, perPage, count, next)
  {
    PageCountIsTold(total, perPage, pages);
    HoldsIsTold(total, perPage, page, count);
    if TotalsAgree(total, pages, page, perPage, count, next) {
      assert PageCount(total, perPage) == pages;
    }
  }

  function SignalTo(next: Option<u32>): Signal {
    if next.Some? then To(next.value) else Terminal
  }

  lemma {:induction false} SignalIsObserved(total: u64, pages: u32, page: u32, perPage: u32, count: nat)
    requires page > 0 && perPage > 0
    ensures TotalsSignal(total, pages, page, perPage, count) != Success(Unobserved)
  {
  }

  // ----- one response

  ghost predicate Requested(page: u32, perPage: u32, l: Limits) {
    page > 0 && 0 < perPage <= l.maxItemsPerPage
  }

  /** The response repeats the page that was asked for, as far as it says anything. */
  ghost predicate Echoed(h: Headers, page: u32, perPage: u32) {
    && (h.page == None || h.page == Some(page))
    && (h.perPage == None || h.perPage == Some(perPage))
    && (h.previous == Unobserved || h.previous == if page <= 1 then Terminal else To(page - 1))
  }

  /** A signal that says nothing, or that the next page is `next`. */
  predicate Says(s: Signal, next: Option<u32>) {
    s == Unobserved || s == SignalTo(next)
  }

  ghost predicate Mute(h: Headers) {
    h.next == Unobserved && h.link == Unobserved
  }

  /** The signals for the next page agree with each other and with the totals; or without totals and signals the
      page is short. */
  ghost predicate Leads(h: Headers, page: u32, perPage: u32, count: nat, next: Option<u32>)
    requires page > 0 && perPage > 0
  {
    && Says(h.next, next) && Says(h.link, next)
    && (h.total.Some? && h.totalPages.Some? ==> TotalsAgree(h.total.value, h.totalPages.value, page, perPage, count, next))
    && (!(h.total.Some? && h.totalPages.Some?) && Mute(h) ==> next.None? && count < perPage)
  }

  /** A response is understood as a page of its own number and size; a next page is the one behind a page that has
      items. */
  ghost predicate Understood(h: Headers, page: u32, perPage: u32, count: nat, l: Limits, m: Metadata) {
    && Requested(page, perPage, l) && Echoed(h, page, perPage) && count <= perPage
    && m == Metadata(page, perPage, count, m.nextPage, h.total, h.totalPages)
    && (h.total.Some? <==> h.totalPages.Some?)
    && Leads(h, page, perPage, count, m.nextPage)
    && (m.nextPage.Some? ==> page < U32_MAX && m.nextPage.value == page + 1 && count > 0)
  }

  lemma {:induction false} NextIsTold(h: Headers, page: u32, perPage: u32, count: nat, next: Option<u32>)
    requires page > 0 && perPage > 0 && count <= perPage
    ensures Resolves(h, page, perPage, count, next) <==> Leads(h, page, perPage, count, next)
  {
    if h.total.Some? && h.totalPages.Some? {
      TotalsLead(h, page, perPage, count, next);
    }
  }

  ghost predicate Resolves(h: Headers, page: u32, perPage: u32, count: nat, next: Option<u32>)
    requires page > 0 && perPage > 0
  {
    var explicit := Combine(h.next, h.link);
    && explicit.Success?
    && var s := ResolveNext(h, page, perPage, count, explicit.value); s.Success? && s.value.NextPage() == next
  }

  lemma {:induction false} TotalsLead(h: Headers, page: u32, perPage: u32, count: nat, next: Option<u32>)
    requires page > 0 && perPage > 0 && h.total.Some? && h.totalPages.Some?
    ensures Resolves(h, page, perPage, count, next) <==> Leads(h, page, perPage, count, next)
  {
    TotalsGive(h.total.value, h.totalPages.value, page, perPage, count, next);
    SignalIsObserved(h.total.value, h.totalPages.value, page, perPage, count);
    var explicit, expected := Combine(h.next, h.link), TotalsSignal(h.total.value, h.totalPages.value, page, perPage, count);
    if expected.Success? {
      assert expected.value.NextPage() == next <==> expected.value == SignalTo(next);
    }
  }

  lemma {:induction false} EchoIsTold(h: Headers, page: u32, perPage: u32)
    ensures EchoIssue(h, page, perPage).None? <==> Echoed(h, page, perPage)
  {
  }

  /** A response is read as `m` exactly if that is what it says. */
  lemma {:induction false} ParsingIsTold(h: Headers, page: u32, perPage: u32, count: nat, l: Limits, m: Metadata)
    ensures ParsePagination(h, page, perPage, count, l) == Success(m) <==> Understood(h, page, perPage, count, l, m)
  {
    EchoIsTold(h, page, perPage);
    if Requested(page, perPage, l) && count <= perPage {
      NextIsTold(h, page, perPage, count, m.nextPage);
    }
  }

  // ----- why a response is refused

  /** The totals, the page and its items do not fit together. */
  ghost predicate TotalsClash(h: Headers, page: u32, perPage: u32, count: nat)
    requires page > 0 && perPage > 0 && h.total.Some? && h.totalPages.Some?
  {
    forall next :: !TotalsAgree(h.total.value, h.totalPages.value, page, perPage, count, next)
  }

  /** The response repeats its request, has both totals or none, and not too many items. */
  ghost predicate Plausible(h: Headers, page: u32, perPage: u32, count: nat, l: Limits) {
    Requested(page, perPage, l) && Echoed(h, page, perPage) && (h.total.Some? <==> h.totalPages.Some?) && count <= perPage
  }

  ghost predicate Agreed(h: Headers) {
    h.next == Unobserved || h.link == Unobserved || h.next == h.link
  }

  /** The page that either signal names. */
  ghost predicate Names(h: Headers, next: u32) {
    h.next == To(next) || h.link == To(next)
  }

  /** What each error says of a response. */
  ghost predicate Refuses(h: Headers, page: u32, perPage: u32, count: nat, l: Limits, e: WireError) {
    var plausible, totals := Plausible(h, page, perPage, count, l), h.total.Some? && h.totalPages.Some?;
    match e
    case InvalidRequestedPage => !Requested(page, perPage, l)
    case PageMismatch => Requested(page, perPage, l) && h.page.Some? && h.page.value != page
    case PerPageMismatch => Requested(page, perPage, l) && h.perPage.Some? && h.perPage.value != perPage
    case PreviousMismatch => Requested(page, perPage, l) && !Says(h.previous, if page > 1 then Some(page - 1) else None)
    case TotalMismatch =>
      Requested(page, perPage, l) && Echoed(h, page, perPage)
      && ((h.total.Some? <==> h.totalPages.None?) || (plausible && Agreed(h) && totals && TotalsClash(h, page, perPage, count)))
    case TooManyPageItems => Requested(page, perPage, l) && Echoed(h, page, perPage) && count > perPage
    case NextMismatch =>
      plausible && (!Agreed(h)
                    || (totals && forall next :: !Leads(h, page, perPage, count, next))
                    || (page < U32_MAX && Leads(h, page, perPage, count, Some(page + 1)) && count == 0))
    case Overflow => plausible && Agreed(h) && totals && TotalsOverflow(h.total.value, perPage)
    case AmbiguousContinuation => plausible && !totals && Mute(h) && count == perPage
    case Cycle => plausible && !totals && Agreed(h) && exists next: u32 :: Names(h, next) && next <= page
    case Gap => plausible && !totals && Agreed(h) && exists next: u32 :: Names(h, next) && next > page + 1
    case _ => false
  }

  /** A refused response gives the reason the error names. */
  lemma {:induction false} RefusalsAreTold(h: Headers, page: u32, perPage: u32, count: nat, l: Limits)
    ensures var r := ParsePagination(h, page, perPage, count, l); r.Failure? ==> Refuses(h, page, perPage, count, l, r.error)
  {
    EchoIsTold(h, page, perPage);
    if Plausible(h, page, perPage, count, l) && Agreed(h) {
      if h.total.Some? && h.totalPages.Some? {
        TotalsAreTold(h.total.value, h.totalPages.value, page, perPage, count);
      } else {
        SignalRefused(h, page, perPage, count, l);
      }
    }
  }

  lemma {:induction false} SignalRefused(h: Headers, page: u32, perPage: u32, count: nat, l: Limits)
    requires Plausible(h, page, perPage, count, l) && Agreed(h) && h.total.None?
    ensures var r := ParsePagination(h, page, perPage, count, l); r.Failure? ==> Refuses(h, page, perPage, count, l, r.error)
  {
    EchoIsTold(h, page, perPage);
    if h.next.To? {
      assert Names(h, h.next.page);
    }
    if h.link.To? {
      assert Names(h, h.link.page);
    }
  }

  // ----- a sequence of pages

  function ItemsOn<T>(pages: seq<Page<T>>): nat {
    if pages == [] then 0 else |pages[0].items| + ItemsOn(pages[1..])
  }

  /** Page `i` of `n` repeats the size and the totals of the first page, tells its own number of items, and leads to
      the next page if there is one. */
  ghost predicate Follows(first: Metadata, m: Metadata, n: nat, i: nat, count: nat) {
    && m.pageNumber == i + 1 && m.itemCount == count <= first.perPage
    && (m.perPage, m.totalItems, m.totalPages) == (first.perPage, first.totalItems, first.totalPages)
    && (if i + 1 < n then m.nextPage.Some? && m.nextPage.value == i + 2 else m.nextPage.None?)
  }

  ghost predicate ExactTotals(total: u64, pages: u32, perPage: u32, counts: seq<nat>)
    requires perPage > 0
  {
    && total + perPage <= U64_MAX + 1 && |counts| == pages && Takes(total, perPage, pages)
    && forall i :: 0 <= i < |counts| ==> Holds(total, perPage, i + 1, counts[i])
  }

  function CountsOn<T>(pages: seq<Page<T>>): (r: seq<nat>)
    ensures |r| == |pages| && forall i :: 0 <= i < |pages| ==> r[i] == |pages[i].items|
  {
    seq(|pages|, i requires 0 <= i < |pages| => |pages[i].items|)
  }

  /** The sequences that can be collected: pages one after the other, no more of them and no more items than the
      limits allow, and where there are totals, exactly as many of both. */
  ghost predicate Collectable<T>(l: Limits, pages: seq<Page<T>>) {
    && 1 <= l.maxItemsPerPage <= 1000 && 1 <= l.maxPages <= 10_000 && 1 <= l.maxTotalItems <= 1_000_000
    && 0 < |pages| <= l.maxPages
    && var first := pages[0].metadata;
       && 0 < first.perPage <= l.maxItemsPerPage
       && (forall i :: 0 <= i < |pages| ==> Follows(first, pages[i].metadata, |pages|, i, |pages[i].items|))
       && ItemsOn(pages) <= l.maxTotalItems
       && (first.totalItems.Some? ==> first.totalItems.value == ItemsOn(pages))
       && (first.totalItems.Some? && first.totalPages.Some? ==>
             ExactTotals(first.totalItems.value, first.totalPages.value, first.perPage, CountsOn(pages)))
  }

  lemma {:induction false} ItemsAreCounted<T>(pages: seq<Page<T>>)
    ensures |AllItems(pages)| == ItemsOn(pages)
  {
    if pages != [] {
      var n := |pages| - 1;
      ItemsAreCounted(pages[..n]);
      ItemsOnSnoc(pages[..n], pages[n]);
      assert pages == pages[..n] + [pages[n]];
    }
  }

  lemma {:induction false} ItemsOnSnoc<T>(pages: seq<Page<T>>, last: Page<T>)
    ensures ItemsOn(pages + [last]) == ItemsOn(pages) + |last.items|
  {
    if pages == [] {
      assert (pages + [last])[1..] == [];
    } else {
      assert (pages + [last])[1..] == pages[1..] + [last];
      ItemsOnSnoc(pages[1..], last);
    }
  }

  /** Page `i` is good and leads on exactly if it follows and, with totals, those give it its items. */
  lemma {:induction false} GoodPageIsTold<T>(l: Limits, first: Metadata, p: Page<T>, n: nat, i: nat)
    requires 0 < first.perPage <= l.maxItemsPerPage && i < n
    ensures GoodPage(l, first, p, i) && p.metadata.nextPage == (if i + 1 < n then Some(i + 2) else None) <==>
      && Follows(first, p.metadata, n, i, |p.items|)
      && (first.totalItems.Some? && first.totalPages.Some? ==>
            TotalsAgree(first.totalItems.value, first.totalPages.value, p.metadata.pageNumber, first.perPage, |p.items|, p.metadata.nextPage))
  {
    if first.totalItems.Some? && first.totalPages.Some? && p.metadata.pageNumber == i + 1 {
      TotalsGive(first.totalItems.value, first.totalPages.value, i + 1, first.perPage, |p.items|, p.metadata.nextPage);
      SignalIsObserved(first.totalItems.value, first.totalPages.value, i + 1, first.perPage, |p.items|);
      var s := TotalsSignal(first.totalItems.value, first.totalPages.value, i + 1, first.perPage, |p.items|);
      if s.Success? {
        assert s.value.NextPage() == p.metadata.nextPage <==> s.value == SignalTo(p.metadata.nextPage);
      }
    }
  }

  /** Totals agree with every page of a sequence exactly if they are those of the sequence. */
  lemma {:induction false} TotalsOfAll<T>(first: Metadata, pages: seq<Page<T>>)
    requires pages != [] && 0 < first.perPage && first.totalItems.Some? && first.totalPages.Some?
    requires forall i :: 0 <= i < |pages| ==> Follows(first, pages[i].metadata, |pages|, i, |pages[i].items|)
    ensures (forall i :: 0 <= i < |pages| ==> AgreesAt(first, pages, i)) <==>
      ExactTotals(first.totalItems.value, first.totalPages.value, first.perPage, CountsOn(pages))
  {
    var n := |pages|;
    assert Follows(first, pages[n - 1].metadata, n, n - 1, |pages[n - 1].items|);
    if forall i :: 0 <= i < n ==> AgreesAt(first, pages, i) {
      assert AgreesAt(first, pages, n - 1);
      forall i | 0 <= i < n ensures Holds(first.totalItems.value, first.perPage, i + 1, |pages[i].items|) {
        assert AgreesAt(first, pages, i) && Follows(first, pages[i].metadata, n, i, |pages[i].items|);
      }
    }
    if ExactTotals(first.totalItems.value, first.totalPages.value, first.perPage, CountsOn(pages)) {
      forall i | 0 <= i < n ensures AgreesAt(first, pages, i) {
        assert Follows(first, pages[i].metadata, n, i, |pages[i].items|);
        assert Holds(first.totalItems.value, first.perPage, i + 1, CountsOn(pages)[i]);
      }
    }
  }

  ghost predicate AgreesAt<T>(first: Metadata, pages: seq<Page<T>>, i: nat)
    requires i < |pages| && 0 < first.perPage && first.totalItems.Some? && first.totalPages.Some?
  {
    var m := pages[i].metadata;
    m.pageNumber > 0
    && TotalsAgree(first.totalItems.value, first.totalPages.value, m.pageNumber, first.perPage, |pages[i].items|, m.nextPage)
  }

  /** Collecting succeeds exactly on those sequences. */
  lemma {:induction false} CollectingIsTold<T>(l: Limits, pages: seq<Page<T>>)
    ensures ValidPages(l, pages) <==> Collectable(l, pages)
  {
    ItemsAreCounted(pages);
    if pages != [] && 0 < pages[0].metadata.perPage <= l.maxItemsPerPage {
      PagesAreTold(l, pages);
    }
  }

  lemma {:induction false} PagesAreTold<T>(l: Limits, pages: seq<Page<T>>)
    requires pages != [] && 0 < pages[0].metadata.perPage <= l.maxItemsPerPage
    ensures var first, n := pages[0].metadata, |pages|;
      (forall i :: 0 <= i < n ==> GoodPage(l, first, pages[i], i))
      && (forall i :: 0 <= i < n ==> pages[i].metadata.nextPage == if i + 1 < n then Some(i + 2) else None)
      <==>
      (forall i :: 0 <= i < n ==> Follows(first, pages[i].metadata, n, i, |pages[i].items|))
      && (first.totalItems.Some? && first.totalPages.Some? ==>
            ExactTotals(first.totalItems.value, first.totalPages.value, first.perPage, CountsOn(pages)))
  {
    var first, n := pages[0].metadata, |pages|;
    var totals := first.totalItems.Some? && first.totalPages.Some?;
    forall i | 0 <= i < n
      ensures GoodPage(l, first, pages[i], i) && pages[i].metadata.nextPage == (if i + 1 < n then Some(i + 2) else None) <==>
        Follows(first, pages[i].metadata, n, i, |pages[i].items|) && (totals ==> AgreesAt(first, pages, i))
    {
      GoodPageIsTold(l, first, pages[i], n, i);
    }
    if totals && forall i :: 0 <= i < n ==> Follows(first, pages[i].metadata, n, i, |pages[i].items|) {
      TotalsOfAll(first, pages);
    }
  }

  // ----- completeness

  /** The number behind a page number; the largest one stays. */
  predicate Behind(page: u32, next: u32) {
    if page < 4294967295 then next == page + 1 else next == page
  }

  /** What each issue says of one receipt. */
  ghost predicate TroubleAt(pages: seq<Receipt>, i: nat, x: PaginationIssue)
    requires i < |pages|
  {
    match x
    case PageNumberZero => pages[i].pageNumber == 0
    case FirstPageMissing(observed) => i == 0 && pages[0].pageNumber == observed != 1
    case NonSequentialPage(expected, observed) =>
      i > 0 && pages[i].pageNumber == observed != expected && Behind(pages[i - 1].pageNumber, expected)
    case PageAfterTerminal(page) => i > 0 && pages[i].pageNumber == page && !pages[i - 1].hasNextPage
    case _ => false
  }

  /** What each issue says of an acquisition. */
  ghost predicate Troubles<T>(a: Acquisition<T>, x: PaginationIssue) {
    match x
    case NoPages => a.pages == []
    case ContinuationNotFetched(page) => a.pages != [] && a.pages[|a.pages| - 1] == Receipt(page, a.pages[|a.pages| - 1].itemCount, true)
    case ItemCountMismatch(counted, held) => held == |a.items| && counted == ReceiptCount(a.pages) && counted != held
    case _ => exists i :: 0 <= i < |a.pages| && TroubleAt(a.pages, i, x)
  }

  lemma {:induction false} ReceiptIssuesAreTold(pages: seq<Receipt>, i: nat, x: PaginationIssue)
    requires i < |pages|
    ensures x in ReceiptIssues(pages, i) <==> TroubleAt(pages, i, x)
  {
  }

  lemma {:induction false} SequenceIssuesAreTold(pages: seq<Receipt>, k: nat, x: PaginationIssue)
    requires k <= |pages|
    ensures x in SequenceIssues(pages, k) <==> (pages == [] && x == NoPages) || exists i :: 0 <= i < k && x in ReceiptIssues(pages, i)
  {
    if k > 0 {
      SequenceIssuesAreTold(pages, k - 1, x);
    }
  }

  /** The issues of an acquisition are exactly those it has. */
  lemma {:induction false} IssuesAreTold<T>(a: Acquisition<T>, x: PaginationIssue)
    ensures x in Issues(a) <==> Troubles(a, x)
  {
    var n := |a.pages|;
    SequenceIssuesAreTold(a.pages, n, x);
    forall i | 0 <= i < n ensures x in ReceiptIssues(a.pages, i) <==> TroubleAt(a.pages, i, x) {
      ReceiptIssuesAreTold(a.pages, i, x);
    }
  }
}
