/** The one page walker, and what it yields over an unchanging listing. */
module PageWalk {
  import opened Repository
  import Scoped

  // One full-size page of whatever backend is being walked.
  type Backend = PageNumber -> Page

  ghost predicate FullSizePages(backend: Backend) {
    forall p: PageNumber :: backend(p).page == p && backend(p).size == MAX_PAGE_SIZE
  }

  predicate LastPage(page: Page) {
    page.items == [] || !page.HasNext()
  }

  // The rows of pages 1 to n, in order.
  function Collected(backend: Backend, n: nat): seq<Model> {
    if n == 0 then [] else Collected(backend, n - 1) + backend(n).items
  }

  /** Walks a backend whose reported totals are bounded.  Rows and totals may disagree in any way:
      the walk still ends, at the first page that is empty or reports no next page, having yielded
      every row of the pages up to there. */
  method WalkPages(backend: Backend, ghost bound: nat) returns (rows: seq<Model>, queries: nat)
    requires FullSizePages(backend)
    requires forall p: PageNumber :: backend(p).total <= bound
    ensures queries >= 1 && LastPage(backend(queries))
    ensures forall p: PageNumber :: p < queries ==> !LastPage(backend(p))
    ensures rows == Collected(backend, queries)
    ensures queries <= bound + 1
  {
    var number: PageNumber := MIN_PAGE;
    rows := [];
    while true
      invariant rows == Collected(backend, number - 1)
      invariant forall p: PageNumber :: p < number ==> !LastPage(backend(p))
      invariant number <= bound + 1
      decreases bound + 1 - number
    {
      var page := backend(number);
      rows := rows + page.items;
      if page.items == [] || !page.HasNext() {
        return rows, number;
      }
      assert backend(number).total <= bound;
      NextPageExists(page);
      number := number + 1;
    }
  }

  lemma NextPageExists(page: Page)
    requires page.page >= MIN_PAGE
    ensures page.size >= 1 ==> (page.HasNext() <==> page.page * page.size < page.total)
    ensures page.size <= 0 ==> !page.HasNext()
    ensures page.HasNext() ==> page.page < page.total
  {
    if page.size >= 1 {
      var q := (page.total + page.size - 1) / page.size;
      assert page.size * q <= page.total + page.size - 1 < page.size * q + page.size;
      if page.page < q {
        Scales(page.page + 1, q, page.size);
        Scales(1, page.size, page.page);
      } else {
        Scales(q, page.page, page.size);
      }
    }
  }

  lemma Scales(a: nat, b: nat, n: nat)
    requires a <= b
    ensures a * n <= b * n
  {
  }

  // ---------- Over an unchanging repository ----------

  function ListingOf(docs: seq<Model>, filters: map<string, Value>): Backend {
    (p: PageNumber) => ListDocs(docs, filters, PageRequest(p, MAX_PAGE_SIZE))
  }

  // max(1, ceil(n / 100))
  function QueriesFor(n: nat): nat {
    if n == 0 then 1 else (n + MAX_PAGE_SIZE - 1) / MAX_PAGE_SIZE
  }

  lemma {:induction false} PagesTileTheListing(docs: seq<Model>, filters: map<string, Value>, n: nat)
    ensures Collected(ListingOf(docs, filters), n) == Slice(Select(docs, filters), 0, n * MAX_PAGE_SIZE)
  {
    hide Select;
    if n > 0 {
      PagesTileTheListing(docs, filters, n - 1);
      var all := Select(docs, filters);
      var lo, hi := (n - 1) * MAX_PAGE_SIZE, n * MAX_PAGE_SIZE;
      assert ListingOf(docs, filters)(n).items == Slice(all, lo, hi);
      assert Slice(all, 0, lo) + Slice(all, lo, hi) == Slice(all, 0, hi);
    }
  }

  lemma LastPageOfListing(docs: seq<Model>, filters: map<string, Value>, p: PageNumber)
    ensures LastPage(ListingOf(docs, filters)(p)) <==> p * MAX_PAGE_SIZE >= |Select(docs, filters)|
  {
    hide Select;
    var page := ListingOf(docs, filters)(p);
    NextPageExists(page);
    if p * MAX_PAGE_SIZE < |Select(docs, filters)| {
      assert |page.items| > 0;
    }
  }

  /** MAIN: over an unchanging repository the walk yields every active match exactly once, in listing
      order, in max(1, ceil(n / 100)) queries. */
  method WalkRepository(docs: seq<Model>, filters: map<string, Value>) returns (rows: seq<Model>, queries: nat)
    ensures rows == Select(docs, filters)
    ensures queries == QueriesFor(|Select(docs, filters)|)
  {
    var n := |Select(docs, filters)|;
    rows, queries := WalkPages(ListingOf(docs, filters), n);
    LastPageOfListing(docs, filters, queries);
    if queries > 1 {
      LastPageOfListing(docs, filters, queries - 1);
    }
    PagesTileTheListing(docs, filters, queries);
  }

  /** A tenant walking its scoped view sees exactly its own active matches: page boundaries fall
      where they would in its private repository, so no foreign row displaces one of its own. */
  lemma ScopedWalkIsPrivate(docs: seq<Model>, t: string, filters: map<string, Value>, p: PageNumber)
    ensures Scoped.ScopedList(docs, t, filters, PageRequest(p, MAX_PAGE_SIZE))
         == ListingOf(Scoped.View(docs, t), filters)(p)
  {
    Scoped.ScopedListIsPrivate(docs, t, filters, PageRequest(p, MAX_PAGE_SIZE));
  }

  method WalkScoped(docs: seq<Model>, t: string, filters: map<string, Value>) returns (rows: seq<Model>, queries: nat)
    ensures rows == Select(Scoped.View(docs, t), filters)
    ensures queries == QueriesFor(|rows|)
  {
    hide Select, Scoped.View, Scoped.ScopedList, Collected;
    var backend := (p: PageNumber) => Scoped.ScopedList(docs, t, filters, PageRequest(p, MAX_PAGE_SIZE));
    ghost var view := Scoped.View(docs, t);
    forall p: PageNumber ensures backend(p) == ListingOf(view, filters)(p) {
      ScopedWalkIsPrivate(docs, t, filters, p);
    }
    ghost var n := |Select(view, filters)|;
    rows, queries := WalkPages(backend, n);
    LastPageOfListing(view, filters, queries);
    if queries > 1 {
      LastPageOfListing(view, filters, queries - 1);
    }
    SameCollection(backend, ListingOf(view, filters), queries);
    PagesTileTheListing(view, filters, queries);
  }

  lemma {:induction false} SameCollection(a: Backend, b: Backend, n: nat)
    requires forall p: PageNumber :: a(p) == b(p)
    ensures Collected(a, n) == Collected(b, n)
  {
    if n > 0 { SameCollection(a, b, n - 1); }
  }
}
