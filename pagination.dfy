/**
 * The paginated collection fetch of src/utils/api.js: request page after page
 * (`skip`/`limit` query parameters) until the server reports no next page,
 * with a hard ceiling of 1000 requests, and concatenate the pages' items.
 * The server is an oracle from the request to what the page fetch produced.
 */
module Pagination {
  import opened Wrappers
  import opened Js
  import opened Http

  /** The safety ceiling on the number of page requests. */
  const MaxPages := 1000
  const DefaultPageSize := 100

  /** What one page request produced, as the caller reads it: the parsed body
      (`items`, `has_next`, `total_count`), a response that was not ok, or an
      exception (a network failure or a body that is not JSON). The list
      fetches also throw on a body without an `items` array; the count
      requests read `total_count` alone and ignore the other two fields. */
  datatype Reply<T> =
    | Page(items: seq<T>, hasNext: Value, totalCount: Value)
    | NotOk(status: int)
    | Threw(message: string)

  /** The error a whole fetch fails with. */
  datatype FetchError = HttpError(status: int) | Rethrown(message: string)

  /** The message of the thrown `Error`. */
  function ErrorMessage(e: FetchError): string
  {
    match e
    case HttpError(status) => "HTTP error! status: " + IntToString(status)
    case Rethrown(m) => m
  }

  /** The error a failed page request aborts the fetch with. */
  function ErrorOf<T>(reply: Reply<T>): FetchError
    requires !reply.Page?
  {
    if reply.NotOk? then HttpError(reply.status) else Rethrown(reply.message)
  }

  /** The arguments of one `fetchAllPaginated` call. */
  datatype Listing = Listing(
    endpoint: string,
    headers: map<string, string>,
    params: map<string, Value>,
    pageSize: int)

  /** The caller's query parameters as `searchParams.set` records them: null
      and undefined values are skipped. The query keeps each value; printing it
      into the URL (with `String(value)`) belongs to the URL serialisation. */
  function CallerQuery(params: map<string, Value>): map<string, Value>
  {
    map k | k in params && params[k] != Null && params[k] != Undefined :: params[k]
  }

  /** The request for the given 1-based page: the caller's parameters, then
      `skip` and `limit`, which overwrite caller entries of the same name. */
  function PageRequest(l: Listing, page: int): Request
  {
    var q := CallerQuery(l.params);
    Request(l.endpoint, q["skip" := Num((page - 1) * l.pageSize)]["limit" := Num(l.pageSize)],
            map[], l.headers)
  }

  /** The query of the k-th request: `skip = (k-1)*pageSize`, `limit = pageSize`,
      and exactly the caller's non-null, non-undefined parameters besides. */
  lemma PageRequestQuery(l: Listing, page: int)
    ensures var r := PageRequest(l, page);
      && r.url == l.endpoint && r.headers == l.headers && r.options == map[]
      && r.query["skip"] == Num((page - 1) * l.pageSize)
      && r.query["limit"] == Num(l.pageSize)
      && (forall k | k != "skip" && k != "limit" ::
            (k in r.query <==> k in l.params && l.params[k] != Null && l.params[k] != Undefined))
      && (forall k | k in r.query && k != "skip" && k != "limit" :: r.query[k] == l.params[k])
  {
  }

  /** The overall outcome of a fetch and the requests it issued, in order. */
  datatype Fetched<T> = Fetched(result: Result<seq<T>, FetchError>, issued: seq<Request>)

  /** Puts the items and requests of earlier pages in front of a later outcome;
      an error discards the items. */
  function Prepend<T>(items: seq<T>, requests: seq<Request>, later: Fetched<T>): Fetched<T>
  {
    Fetched(if later.result.Ok? then Ok(items + later.result.value) else later.result,
            requests + later.issued)
  }

  lemma PrependTwice<T>(a: seq<T>, ra: seq<Request>, b: seq<T>, rb: seq<Request>, f: Fetched<T>)
    ensures Prepend(a, ra, Prepend(b, rb, f)) == Prepend(a + b, ra + rb, f)
  {
    assert ra + (rb + f.issued) == (ra + rb) + f.issued;
    if f.result.Ok? {
      assert a + (b + f.result.value) == (a + b) + f.result.value;
    }
  }

  lemma PrependNothing<T>(f: Fetched<T>)
    ensures Prepend([], [], f) == f
  {
    assert [] + f.issued == f.issued;
    if f.result.Ok? {
      assert [] + f.result.value == f.result.value;
    }
  }

  /** The fetch from the given page on, as the loop performs it: stop on a
      failure, on a falsy `has_next`, or after the request for page MaxPages. */
  function Run<T>(server: Request -> Reply<T>, l: Listing, page: int): (r: Fetched<T>)
    requires 1 <= page <= MaxPages
    ensures 1 <= |r.issued| <= MaxPages - page + 1
    decreases MaxPages - page
  {
    var request := PageRequest(l, page);
    match server(request)
    case NotOk(status) => Fetched(Err(HttpError(status)), [request])
    case Threw(m) => Fetched(Err(Rethrown(m)), [request])
    case Page(items, hasNext, _) =>
      if Truthy(hasNext) && page < MaxPages then Prepend(items, [request], Run(server, l, page + 1))
      else Fetched(Ok(items), [request])
  }

  /** One successful page request, seen from the loop: its items and request
      join the accumulated ones, and the fetch goes on from the next page or
      ends with the accumulated items. */
  lemma StepPage<T>(server: Request -> Reply<T>, l: Listing, page: int, items: seq<T>, issued: seq<Request>)
    requires 1 <= page <= MaxPages
    requires server(PageRequest(l, page)).Page?
    ensures var reply := server(PageRequest(l, page));
      var before := Prepend(items, issued, Run(server, l, page));
      && (Truthy(reply.hasNext) && page < MaxPages ==>
            before == Prepend(items + reply.items, issued + [PageRequest(l, page)], Run(server, l, page + 1)))
      && (!(Truthy(reply.hasNext) && page < MaxPages) ==>
            before == Fetched(Ok(items + reply.items), issued + [PageRequest(l, page)]))
  {
    var reply := server(PageRequest(l, page));
    if Truthy(reply.hasNext) && page < MaxPages {
      PrependTwice(items, issued, reply.items, [PageRequest(l, page)], Run(server, l, page + 1));
    }
  }

  /** One failed page request ends the fetch with its error. */
  lemma StepFailure<T>(server: Request -> Reply<T>, l: Listing, page: int, items: seq<T>, issued: seq<Request>)
    requires 1 <= page <= MaxPages
    requires !server(PageRequest(l, page)).Page?
    ensures Prepend(items, issued, Run(server, l, page)) ==
            Fetched(Err(ErrorOf(server(PageRequest(l, page)))), issued + [PageRequest(l, page)])
  {
  }

  /** `fetchAllPaginated(baseEndpoint, headers, queryParams, pageSize)`. */
  method FetchAllPaginated<T>(server: Request -> Reply<T>, baseEndpoint: string, headers: map<string, string>,
                              queryParams: map<string, Value>, pageSize: int)
    returns (result: Result<seq<T>, FetchError>, issued: seq<Request>)
    ensures Fetched(result, issued) == Run(server, Listing(baseEndpoint, headers, queryParams, pageSize), 1)
  {
    var listing := Listing(baseEndpoint, headers, queryParams, pageSize);
    ghost var expected := Run(server, listing, 1);
    var allItems: seq<T> := [];
    var currentPage := 1;
    var hasMore: Value := Bool(true);
    issued := [];
    PrependNothing(expected);
    while Truthy(hasMore)
      invariant 1 <= currentPage <= MaxPages
      invariant Truthy(hasMore) ==> expected == Prepend(allItems, issued, Run(server, listing, currentPage))
      invariant !Truthy(hasMore) ==> expected == Fetched(Ok(allItems), issued)
      decreases MaxPages - currentPage
    {
      var request := PageRequest(listing, currentPage);
      var reply := server(request);
      if !reply.Page? {
        StepFailure(server, listing, currentPage, allItems, issued);
        issued := issued + [request];
        result := Err(ErrorOf(reply));
        return;
      }
      StepPage(server, listing, currentPage, allItems, issued);
      allItems := allItems + reply.items;
      issued := issued + [request];
      hasMore := reply.hasNext;
      currentPage := currentPage + 1;
      if currentPage > MaxPages {
        break;
      }
    }
    result := Ok(allItems);
  }

  /** The items of every page among the replies to the given requests, in order. */
  function ItemsOf<T>(server: Request -> Reply<T>, requests: seq<Request>): seq<T>
  {
    if |requests| == 0 then []
    else (match server(requests[0]) case Page(items, _, _) => items case _ => []) + ItemsOf(server, requests[1..])
  }

  /** The k-th request (0-based, counted from the given page) is the one for
      page `page + k`, and no more than MaxPages - page + 1 are issued. */
  lemma {:induction false} RunIssued<T>(server: Request -> Reply<T>, l: Listing, page: int)
    requires 1 <= page <= MaxPages
    ensures 1 <= |Run(server, l, page).issued| <= MaxPages - page + 1
    ensures forall k | 0 <= k < |Run(server, l, page).issued| :: Run(server, l, page).issued[k] == PageRequest(l, page + k)
    decreases MaxPages - page
  {
    var request := PageRequest(l, page);
    var f := Run(server, l, page);
    if server(request).Page? && Truthy(server(request).hasNext) && page < MaxPages {
      var rest := Run(server, l, page + 1);
      RunIssued(server, l, page + 1);
      assert f.issued == [request] + rest.issued;
      forall k | 0 <= k < |f.issued| ensures f.issued[k] == PageRequest(l, page + k) {
        if k > 0 {
          assert f.issued[k] == rest.issued[k - 1];
        }
      }
    } else {
      assert f.issued == [request];
    }
  }

  /** Every request but the last got a page with a truthy `has_next`. */
  lemma {:induction false} RunContinuedPages<T>(server: Request -> Reply<T>, l: Listing, page: int)
    requires 1 <= page <= MaxPages
    ensures forall k | 0 <= k < |Run(server, l, page).issued| - 1 ::
              && server(Run(server, l, page).issued[k]).Page?
              && Truthy(server(Run(server, l, page).issued[k]).hasNext)
    decreases MaxPages - page
  {
    var request := PageRequest(l, page);
    var f := Run(server, l, page);
    if server(request).Page? && Truthy(server(request).hasNext) && page < MaxPages {
      var rest := Run(server, l, page + 1);
      RunContinuedPages(server, l, page + 1);
      assert f.issued == [request] + rest.issued;
      forall k | 0 <= k < |f.issued| - 1
        ensures server(f.issued[k]).Page? && Truthy(server(f.issued[k]).hasNext)
      {
        if k == 0 {
          assert f.issued[k] == request;
        } else {
          assert f.issued[k] == rest.issued[k - 1];
        }
      }
    }
  }

  /** The last reply decides the outcome: success exactly when it was a page,
      and then all pages' items in order, stopped by a falsy `has_next` or the
      ceiling; otherwise the last reply's error. */
  lemma {:induction false} RunLastReply<T>(server: Request -> Reply<T>, l: Listing, page: int)
    requires 1 <= page <= MaxPages
    ensures var f := Run(server, l, page);
      && |f.issued| >= 1
      && var last := server(f.issued[|f.issued| - 1]);
      && (f.result.Ok? <==> last.Page?)
      && (f.result.Ok? ==>
            f.result.value == ItemsOf(server, f.issued) && (!Truthy(last.hasNext) || page + |f.issued| - 1 == MaxPages))
      && (f.result.Err? ==> f.result.error == ErrorOf(last))
    decreases MaxPages - page
  {
    var request := PageRequest(l, page);
    var f := Run(server, l, page);
    var reply := server(request);
    if reply.Page? && Truthy(reply.hasNext) && page < MaxPages {
      var rest := Run(server, l, page + 1);
      RunLastReply(server, l, page + 1);
      assert f.issued == [request] + rest.issued;
      assert f.issued[1..] == rest.issued;
      assert f.issued[|f.issued| - 1] == rest.issued[|rest.issued| - 1];
      assert |f.issued| == |rest.issued| + 1;
      var last := server(f.issued[|f.issued| - 1]);
      assert last == server(rest.issued[|rest.issued| - 1]);
      assert page + |f.issued| - 1 == (page + 1) + |rest.issued| - 1;
      if rest.result.Ok? {
        assert !Truthy(last.hasNext) || page + |f.issued| - 1 == MaxPages;
        assert f.result.value == reply.items + rest.result.value;
        assert ItemsOf(server, f.issued) == reply.items + ItemsOf(server, rest.issued);
      } else {
        assert f.result == rest.result;
      }
    } else {
      assert f.issued == [request];
      assert ItemsOf(server, f.issued) == (if reply.Page? then reply.items else []) + ItemsOf(server, f.issued[1..]);
    }
  }

  /** What a fetch returns, stated over the replies to the requests it issued:
      every reply but the last was a page with a truthy `has_next`; the fetch
      succeeds exactly when the last reply was a page too, and then returns the
      concatenation of all pages' items and stopped because `has_next` was
      falsy or the ceiling was reached; otherwise it fails with the last
      reply's error and returns no items. */
  lemma RunOutcome<T>(server: Request -> Reply<T>, l: Listing, page: int)
    requires 1 <= page <= MaxPages
    ensures var f := Run(server, l, page);
      && |f.issued| >= 1
      && (forall k | 0 <= k < |f.issued| - 1 :: server(f.issued[k]).Page? && Truthy(server(f.issued[k]).hasNext))
      && var last := server(f.issued[|f.issued| - 1]);
      && (f.result.Ok? <==> last.Page?)
      && (f.result.Ok? ==>
            f.result.value == ItemsOf(server, f.issued) && (!Truthy(last.hasNext) || page + |f.issued| - 1 == MaxPages))
      && (f.result.Err? ==> f.result.error == ErrorOf(last))
  {
    RunContinuedPages(server, l, page);
    RunLastReply(server, l, page);
  }

  /** Termination is decided by `has_next` alone: two servers whose replies
      agree on kind, status, message and the truthiness of `has_next` make the
      fetch issue the same requests, whatever the items (an empty page with a
      truthy `has_next` does not stop the fetch). */
  lemma {:induction false} RunIgnoresItems<T>(s1: Request -> Reply<T>, s2: Request -> Reply<T>, l: Listing, page: int)
    requires 1 <= page <= MaxPages
    requires forall r :: s1(r).Page? <==> s2(r).Page?
    requires forall r | s1(r).Page? :: Truthy(s1(r).hasNext) == Truthy(s2(r).hasNext)
    requires forall r | !s1(r).Page? :: ErrorOf(s1(r)) == ErrorOf(s2(r))
    ensures Run(s1, l, page).issued == Run(s2, l, page).issued
    ensures Run(s1, l, page).result.Ok? <==> Run(s2, l, page).result.Ok?
    decreases MaxPages - page
  {
    var request := PageRequest(l, page);
    if s1(request).Page? && Truthy(s1(request).hasNext) && page < MaxPages {
      RunIgnoresItems(s1, s2, l, page + 1);
    } else if !s1(request).Page? {
      assert ErrorOf(s1(request)) == ErrorOf(s2(request));
    }
  }

  /** A server that always claims another page stops the fetch after exactly
      MaxPages requests, and the fetch returns the accumulated items rather
      than an error. */
  lemma AlwaysMoreStopsAtCeiling<T>(server: Request -> Reply<T>, l: Listing)
    requires forall r :: server(r).Page? && Truthy(server(r).hasNext)
    ensures |Run(server, l, 1).issued| == MaxPages
    ensures Run(server, l, 1).result == Ok(ItemsOf(server, Run(server, l, 1).issued))
  {
    RunOutcome(server, l, 1);
    RunIssued(server, l, 1);
  }

  /** A fetch in which any issued request failed returns an error, never a partial array. */
  lemma FailureReturnsNoItems<T>(server: Request -> Reply<T>, l: Listing, page: int)
    requires 1 <= page <= MaxPages
    requires exists k | 0 <= k < |Run(server, l, page).issued| :: !server(Run(server, l, page).issued[k]).Page?
    ensures Run(server, l, page).result.Err?
  {
    RunOutcome(server, l, page);
  }

  /** `getTotalCount`: the request asks for `skip=0`, `limit=1`. */
  function CountRequest(endpoint: string, headers: map<string, string>, params: map<string, Value>): (r: Request)
    ensures "skip" in r.query && r.query["skip"] == Num(0)
    ensures "limit" in r.query && r.query["limit"] == Num(1)
  {
    Request(endpoint, CallerQuery(params)["skip" := Num(0)]["limit" := Num(1)], map[], headers)
  }

  /** `getTotalCount(baseEndpoint, headers, queryParams)`: `total_count`, or 0
      when it is falsy; 0 also on every failure, which is never rethrown. */
  function GetTotalCount<T>(server: Request -> Reply<T>, endpoint: string, headers: map<string, string>,
                            params: map<string, Value>): (count: Value)
    ensures var reply := server(CountRequest(endpoint, headers, params));
      && (reply.Page? && Truthy(reply.totalCount) ==> count == reply.totalCount)
      && (!(reply.Page? && Truthy(reply.totalCount)) ==> count == Num(0))
  {
    match server(CountRequest(endpoint, headers, params))
    case Page(_, _, totalCount) => Or(totalCount, Num(0))
    case _ => Num(0)
  }

  /** The query parameters of `fetchAllDevices`: `monitoring` only when the
      filter is not null. An omitted or undefined argument takes the default
      `null`, so it adds no parameter either. */
  function DevicesParams(monitoringFilter: Value): (params: map<string, Value>)
    ensures "monitoring" in params <==> monitoringFilter != Null && monitoringFilter != Undefined
    ensures params.Keys <= {"monitoring"}
    ensures "monitoring" in params ==> params["monitoring"] == monitoringFilter
  {
    var filter := if monitoringFilter.Undefined? then Null else monitoringFilter;
    if filter != Null then map["monitoring" := filter] else map[]
  }

  /** `fetchAllDevices(token, monitoringFilter)`. */
  method FetchAllDevices<T>(server: Request -> Reply<T>, token: Option<string>, monitoringFilter: Value)
    returns (result: Result<seq<T>, FetchError>, issued: seq<Request>)
    ensures Fetched(result, issued) ==
            Run(server, Listing(DevicesUrl, BearerHeaders(token), DevicesParams(monitoringFilter), DefaultPageSize), 1)
    ensures forall k | 0 <= k < |issued| ::
              && issued[k].headers == BearerHeaders(token)
              && ("monitoring" in issued[k].query <==> monitoringFilter != Null && monitoringFilter != Undefined)
              && ("monitoring" in issued[k].query ==> issued[k].query["monitoring"] == monitoringFilter)
  {
    result, issued := FetchAllPaginated(server, DevicesUrl, BearerHeaders(token), DevicesParams(monitoringFilter),
                                        DefaultPageSize);
    RunIssued(server, Listing(DevicesUrl, BearerHeaders(token), DevicesParams(monitoringFilter), DefaultPageSize), 1);
    forall k | 0 <= k < |issued|
      ensures "monitoring" in issued[k].query <==> monitoringFilter != Null && monitoringFilter != Undefined
    {
      PageRequestQuery(Listing(DevicesUrl, BearerHeaders(token), DevicesParams(monitoringFilter), DefaultPageSize), k + 1);
    }
  }

  /** `fetchAllUsers(token)`: the users collection with no extra parameters. */
  method FetchAllUsers<T>(server: Request -> Reply<T>, token: Option<string>)
    returns (result: Result<seq<T>, FetchError>, issued: seq<Request>)
    ensures Fetched(result, issued) == Run(server, UsersListing(token), 1)
    ensures forall k | 0 <= k < |issued| :: issued[k] == PageRequest(UsersListing(token), k + 1)
  {
    result, issued := FetchAllPaginated(server, UsersUrl, BearerHeaders(token), map[], DefaultPageSize);
    RunIssued(server, UsersListing(token), 1);
  }

  function UsersListing(token: Option<string>): Listing
  {
    Listing(UsersUrl, BearerHeaders(token), map[], DefaultPageSize)
  }
}
