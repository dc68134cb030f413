/** `get_all_orders`: fetch every order of a shop, page by page. The store
    client is a function from a cursor (the id after which to list) to the
    page of orders it answers with; the data frame that accumulates pages is
    the sequence of orders in fetch order. */
module Orders {

  /** The largest page the store returns; a shorter page is the last one. */
  const PAGE_LIMIT := 250

  /** One order record; only its `id` matters to the loop. */
  datatype Order = Order(id: int, fields: seq<(string, string)>)

  type Page = seq<Order>

  /** `store_client.get_orders(last)['orders']` */
  type Client = int -> Page

  /** The result of `get_all_orders`: every order, or the exception raised
      when a page comes back empty (the empty frame has no `id` column, so
      reading the last id fails before the length test). */
  datatype Fetched = AllOrders(orders: seq<Order>) | EmptyPageError

  /** How far the loop gets within `fuel` requests. */
  datatype Progress = Finished(result: Fetched) | OutOfFuel

  function LastId(page: Page): int
    requires |page| > 0
  {
    page[|page| - 1].id
  }

  /** Earlier pages come first in everything the loop returns. */
  function Prepend(page: Page, p: Progress): Progress {
    match p
    case Finished(AllOrders(rest)) => Finished(AllOrders(page + rest))
    case _ => p
  }

  /** The loop, run from `cursor` for at most `fuel` requests. */
  function Crawl(client: Client, cursor: int, fuel: nat): Progress
    decreases fuel
  {
    if fuel == 0 then OutOfFuel
    else
      var page := client(cursor);
      if |page| == 0 then Finished(EmptyPageError)
      else if |page| < PAGE_LIMIT then Finished(AllOrders(page))
      else Prepend(page, Crawl(client, LastId(page), fuel - 1))
  }

  /** `get_all_orders(store_client)`. The source loops until a short page
      arrives; `fuel` bounds the number of requests that takes (it is ghost,
      so the method itself has no bound). */
  method GetAllOrders(client: Client, ghost fuel: nat) returns (r: Fetched)
    requires Crawl(client, 0, fuel).Finished?
    ensures Crawl(client, 0, fuel) == Finished(r)
  {
    var last := 0;
    var fullOrders: seq<Order> := [];
    ghost var left := fuel;
    while true
      invariant Crawl(client, last, left).Finished?
      invariant Crawl(client, 0, fuel) == Prepend(fullOrders, Crawl(client, last, left))
      decreases left
    {
      var page := client(last);
      fullOrders := fullOrders + page;
      if |page| == 0 {
        return EmptyPageError;
      }
      last := LastId(page);
      if |page| < PAGE_LIMIT {
        break;
      }
      left := left - 1;
    }
    r := AllOrders(fullOrders);
  }

  // ---------------------------------------------------------------------------
  // The sequence of requests, described without the loop

  /** `pages` are what the client answers when the first request uses
      `start` and every later one uses the id of the last order of the page
      before it; every page but the last is full. */
  ghost predicate Linked(client: Client, start: int, pages: seq<Page>) {
    && |pages| > 0
    && pages[0] == client(start)
    && forall i :: 0 <= i < |pages| - 1 ==> |pages[i]| >= PAGE_LIMIT && pages[i + 1] == client(LastId(pages[i]))
  }

  /** The pages concatenated in fetch order (`pd.concat` of the frames). */
  function Flatten(pages: seq<Page>): seq<Order> {
    if pages == [] then [] else pages[0] + Flatten(pages[1..])
  }

  lemma LinkedTail(client: Client, start: int, pages: seq<Page>)
    requires Linked(client, start, pages) && |pages| > 1
    ensures Linked(client, LastId(pages[0]), pages[1..])
  {
    forall i | 0 <= i < |pages| - 2
      ensures |pages[1..][i]| >= PAGE_LIMIT && pages[1..][i + 1] == client(LastId(pages[1..][i]))
    {
      assert pages[1..][i] == pages[i + 1] && pages[1..][i + 1] == pages[i + 2];
    }
  }

  lemma LinkedCons(client: Client, start: int, page: Page, pages: seq<Page>)
    requires page == client(start) && |page| >= PAGE_LIMIT
    requires Linked(client, LastId(page), pages)
    ensures Linked(client, start, [page] + pages)
  {
    var all := [page] + pages;
    forall i | 0 <= i < |all| - 1
      ensures |all[i]| >= PAGE_LIMIT && all[i + 1] == client(LastId(all[i]))
    {
      if i > 0 {
        assert all[i] == pages[i - 1] && all[i + 1] == pages[i];
      }
    }
  }

  /** Every finished run is a linked sequence of requests of at most `fuel`
      pages: all pages but the last are full, and the last is either short
      (the result is all pages concatenated in fetch order) or empty (the run
      fails). */
  lemma {:induction false} CrawlTrace(client: Client, start: int, fuel: nat) returns (pages: seq<Page>)
    requires Crawl(client, start, fuel).Finished?
    ensures Linked(client, start, pages) && |pages| <= fuel
    ensures |pages[|pages| - 1]| < PAGE_LIMIT
    ensures Crawl(client, start, fuel) ==
      Finished(if pages[|pages| - 1] == [] then EmptyPageError else AllOrders(Flatten(pages)))
    decreases fuel
  {
    var page := client(start);
    if |page| < PAGE_LIMIT {
      pages := [page];
      assert Flatten(pages) == page;
    } else {
      var rest := CrawlTrace(client, LastId(page), fuel - 1);
      pages := [page] + rest;
      LinkedCons(client, start, page, rest);
      assert pages[1..] == rest;
      assert pages[|pages| - 1] == rest[|rest| - 1];
    }
  }

  /** Conversely, a linked sequence of requests ending in a short or empty
      page is what the loop does, given enough fuel. */
  lemma {:induction false} TraceCrawl(client: Client, start: int, pages: seq<Page>, fuel: nat)
    requires Linked(client, start, pages) && |pages| <= fuel
    requires |pages[|pages| - 1]| < PAGE_LIMIT
    ensures Crawl(client, start, fuel) ==
      Finished(if pages[|pages| - 1] == [] then EmptyPageError else AllOrders(Flatten(pages)))
    decreases |pages|
  {
    var page := client(start);
    assert pages[0] == page && fuel > 0;
    if |pages| == 1 {
      assert Flatten(pages) == page;
    } else {
      assert |page| >= PAGE_LIMIT;
      var rest := pages[1..];
      LinkedTail(client, start, pages);
      TraceCrawl(client, LastId(page), rest, fuel - 1);
      assert pages[|pages| - 1] == rest[|rest| - 1];
      assert Flatten(pages) == page + Flatten(rest);
      assert Crawl(client, start, fuel) == Prepend(page, Crawl(client, LastId(page), fuel - 1));
    }
  }

  /** An empty first page fails the whole fetch. */
  lemma EmptyFirstPageFails(client: Client, fuel: nat)
    requires fuel > 0 && client(0) == []
    ensures Crawl(client, 0, fuel) == Finished(EmptyPageError)
  {
  }

  /** A later empty page fails the whole fetch too: the orders already read are lost. */
  lemma EmptyPageAfterFullPageFails(client: Client, fuel: nat)
    requires fuel > 1 && |client(0)| >= PAGE_LIMIT && client(LastId(client(0))) == []
    ensures Crawl(client, 0, fuel) == Finished(EmptyPageError)
  {
  }
}
