/**
 The fetch effect of the artists table (components/ArtistsTable.tsx:26-42):
 which request it sends for the current filters, when it runs again, and how
 the table state (`rows`, `rowCount`, `loading`) evolves as fetches start and
 settle. Fetches are events in the order they happen; a settled fetch carries
 the outcome of `fetchArtists`.
 */
module FetchEffect {
  import opened Wrappers
  import opened SearchParams
  import opened JsNumber
  import opened Api
  import opened ArtistsTable

  // ---------------------------------------------------------------------------
  // The request
  // ---------------------------------------------------------------------------

  /**
   The parameters the effect passes to `fetchArtists` (ArtistsTable.tsx:28): the
   decoded page, search and letter, a page size of 50, and the type only when
   it is not empty.
   */
  function RequestParams(f: Filters): FetchArtistsParams
  {
    FetchArtistsParams(
      Some(f.page), Some(Finite(50)), Some(f.search), Some(f.letter),
      if f.artistType == "" then None else Some(f.artistType))
  }

  /** The query string the effect requests for an address bar. */
  function OutgoingQuery(p: Params): Params
  {
    BuildQuery(RequestParams(Decode(p)))
  }

  /**
   The query sent for a set of filters: `include_image=true`, always 50 rows
   per page, the page number unless it is 0 or NaN (then 1), and `search`,
   `letter` and `type` exactly when they are not empty.
   */
  lemma RequestQuery(f: Filters)
    ensures Values(BuildQuery(RequestParams(f)), IncludeImageName) == [TrueText]
    ensures Values(BuildQuery(RequestParams(f)), PerPageName) == ["50"]
    ensures Truthy(f.page) ==> Values(BuildQuery(RequestParams(f)), PageName) == [IntToString(f.page.n)]
    ensures !Truthy(f.page) ==> Values(BuildQuery(RequestParams(f)), PageName) == ["1"]
    ensures Values(BuildQuery(RequestParams(f)), SearchName) == if f.search == "" then [] else [f.search]
    ensures Values(BuildQuery(RequestParams(f)), LetterName) == if f.letter == "" then [] else [f.letter]
    ensures Values(BuildQuery(RequestParams(f)), TypeName) == if f.artistType == "" then [] else [f.artistType]
  {
    var params := RequestParams(f);
    BuildQueryValue(params, IncludeImageName);
    BuildQueryValue(params, PerPageName);
    BuildQueryValue(params, PageName);
    BuildQueryValue(params, SearchName);
    BuildQueryValue(params, LetterName);
    BuildQueryValue(params, TypeName);
    Fifty();
  }

  /** Choosing grid page index `index` requests page `index + 1` with the same filters. */
  lemma ChangePageRequestsPage(p: Params, index: nat)
    ensures Values(OutgoingQuery(ChangePage(p, index)), PageName) == [IntToString(index + 1)]
    ensures forall n :: n != PageName ==> Values(OutgoingQuery(ChangePage(p, index)), n) == Values(OutgoingQuery(p), n)
  {
    var f := Decode(p);
    var g := f.(page := Finite(index + 1));
    ChangePageRoundTrip(p, index);
    assert OutgoingQuery(ChangePage(p, index)) == BuildQuery(RequestParams(g));
    RequestQuery(g);
    assert Truthy(g.page) && g.page.n == index + 1;
    BuildQueryMatchesExpected(RequestParams(f));
    BuildQueryMatchesExpected(RequestParams(g));
    SamePageElsewhere(f, g, OutgoingQuery(p), OutgoingQuery(ChangePage(p, index)));
  }

  lemma SamePageElsewhere(f: Filters, g: Filters, a: Params, b: Params)
    requires g == f.(page := g.page)
    requires forall n :: Values(a, n) == Expected(RequestParams(f), n)
    requires forall n :: Values(b, n) == Expected(RequestParams(g), n)
    ensures forall n :: n != PageName ==> Values(b, n) == Values(a, n)
  {
  }

  /**
   A `page` value `parseInt` cannot read decodes to NaN, and only the `|| 1`
   of `fetchArtists` turns it into a request for page 1.
   */
  lemma NonNumericPageRequestsFirstPage(p: Params)
    requires Get(p, PageName).Some?
    requires var s := Get(p, PageName).value;
      s != [] && !IsStrWhiteSpace(s[0]) && !IsDigit(s[0]) && s[0] != '-' && s[0] != '+'
    ensures Decode(p).page == NaN
    ensures Values(OutgoingQuery(p), PageName) == ["1"]
  {
    DecodePage(p);
    ParseIntNonNumeric(Get(p, PageName).value);
    RequestQuery(Decode(p));
  }

  // ---------------------------------------------------------------------------
  // When the effect runs
  // ---------------------------------------------------------------------------

  /**
   The effect depends on `[page, search, letter, type]` and runs again after a
   navigation exactly when one of them differs. React compares dependencies
   with `Object.is`, under which NaN equals NaN, as equality of `Num` does.
   */
  predicate Refetches(before: Params, after: Params)
  {
    Decode(before) != Decode(after)
  }

  /** A navigation to the page already shown does not fetch again; any other page change does. */
  lemma ChangePageRefetches(p: Params, index: int)
    ensures Refetches(p, ChangePage(p, index)) <==> Decode(p).page != Finite(index + 1)
  {
    ChangePageRoundTrip(p, index);
  }

  /** An `updateParams` record that names none of the filter keys never fetches again. */
  lemma UnrelatedUpdateKeepsFilters(p: Params, us: seq<Update>)
    requires forall i :: 0 <= i < |us| ==> us[i].0 != PageName && us[i].0 != SearchName && us[i].0 != LetterName && us[i].0 != TypeName
    ensures !Refetches(p, UpdateParams(p, us))
  {
    LastUpdateAbsent(us, PageName);
    LastUpdateAbsent(us, SearchName);
    LastUpdateAbsent(us, LetterName);
    LastUpdateAbsent(us, TypeName);
    FilterKeysKept(p, UpdateParams(p, us));
  }

  lemma FilterKeysKept(p: Params, q: Params)
    requires Values(q, PageName) == Values(p, PageName) && Values(q, SearchName) == Values(p, SearchName)
    requires Values(q, LetterName) == Values(p, LetterName) && Values(q, TypeName) == Values(p, TypeName)
    ensures Decode(q) == Decode(p)
  {
    DecodeAgrees(q, p);
  }

  /** A search for "" while no search is set, on page 1, does not fetch again. */
  lemma EmptySearchOnFirstPageKeepsFilters(p: Params)
    requires Decode(p).search == "" && Decode(p).page == Finite(1)
    ensures !Refetches(p, SubmitSearch(p, ""))
  {
    SubmitSearchRoundTrip(p, "");
  }

  // ---------------------------------------------------------------------------
  // The table state
  // ---------------------------------------------------------------------------

  /** The three pieces of component state the effect writes (ArtistsTable.tsx:15-17). */
  datatype Table = Table(rows: seq<Artist>, rowCount: int, loading: bool)

  /** The initial state: no rows, a count of 0, not loading. */
  const Initial: Table := Table([], 0, false)

  /** The grid rows of a response: one per artist of `data`, in order, none when `data` is missing; each copies `id`, `name`, `albumCount` and `portrait`. */
  function ToRows(response: FetchArtistsResponse): (rows: seq<Artist>)
    ensures response.data.None? ==> rows == []
    ensures response.data.Some? ==> |rows| == |response.data.value|
    ensures response.data.Some? ==>
              forall i :: 0 <= i < |rows| ==>
                (var a := response.data.value[i];
                 rows[i].id == a.id && rows[i].name == a.name
                 && rows[i].albumCount == a.albumCount && rows[i].portrait == a.portrait)
  {
    var d := response.data.GetOr([]);
    seq(|d|, i requires 0 <= i < |d| => Artist(d[i].id, d[i].name, d[i].albumCount, d[i].portrait))
  }

  /** Since a row has exactly the fields of an artist, the rows are the data itself, in order. */
  lemma ToRowsIsData(response: FetchArtistsResponse)
    ensures ToRows(response) == response.data.GetOr([])
  {
  }

  /** The row count of a response: `total_items` of the pagination block, or 0 when either is missing. */
  function TotalItems(response: FetchArtistsResponse): (n: int)
    ensures response.pagination.Some? && response.pagination.value.totalItems.Some? ==> n == response.pagination.value.totalItems.value
    ensures response.pagination.None? || response.pagination.value.totalItems.None? ==> n == 0
  {
    match response.pagination
    case None => 0
    case Some(pagination) => pagination.totalItems.GetOr(0)
  }

  /**
   What happens to the table: a fetch starts, or a fetch settles with an
   outcome. Each event carries the filters its request was issued for, which
   the effect itself never looks at again.
   */
  datatype Event =
    | Started(request: Filters)
    | Settled(request: Filters, outcome: Result<FetchArtistsResponse, FetchError>)

  /**
   One event (ArtistsTable.tsx:27-41): a start sets `loading`; a success
   replaces the rows and the count; a failure is only logged, so rows and count
   stay; either outcome clears `loading`.
   */
  function Step(t: Table, e: Event): (u: Table)
    ensures e.Started? ==> u.rows == t.rows && u.rowCount == t.rowCount && u.loading
    ensures e.Settled? ==> !u.loading
    ensures e.Settled? && e.outcome.Failure? ==> u.rows == t.rows && u.rowCount == t.rowCount
    ensures e.Settled? && e.outcome.Success? ==> u.rows == ToRows(e.outcome.value) && u.rowCount == TotalItems(e.outcome.value)
  {
    match e
    case Started(_) => t.(loading := true)
    case Settled(_, Success(response)) => Table(ToRows(response), TotalItems(response), false)
    case Settled(_, Failure(_)) => t.(loading := false)
  }

  /** The table after a sequence of events. */
  function Run(t: Table, es: seq<Event>): (u: Table)
    ensures es == [] ==> u == t
    ensures es != [] ==> (u.loading <==> es[|es| - 1].Started?)
    decreases |es|
  {
    if es == [] then t else Step(Run(t, es[..|es| - 1]), es[|es| - 1])
  }

  /**
   The most recent successful settle: the filters its request was issued for
   and its response, whichever request that was.
   */
  function LastSuccess(es: seq<Event>): Option<(Filters, FetchArtistsResponse)>
    decreases |es|
  {
    if es == [] then None
    else if es[|es| - 1].Settled? && es[|es| - 1].outcome.Success? then Some((es[|es| - 1].request, es[|es| - 1].outcome.value))
    else LastSuccess(es[..|es| - 1])
  }

  /** The filters of the most recent start: the request the address bar currently asks for. */
  function CurrentRequest(es: seq<Event>): Option<Filters>
    decreases |es|
  {
    if es == [] then None
    else if es[|es| - 1].Started? then Some(es[|es| - 1].request)
    else CurrentRequest(es[..|es| - 1])
  }

  /**
   The rows and count shown are those of the last successful response to
   settle, or the starting ones when none has: failures and starts never touch
   them, and there is no check that the response belongs to the latest request.
   */
  lemma {:induction false} RunShowsLastSuccess(t: Table, es: seq<Event>)
    ensures LastSuccess(es).None? ==> Run(t, es).rows == t.rows && Run(t, es).rowCount == t.rowCount
    ensures LastSuccess(es).Some? ==>
              Run(t, es).rows == ToRows(LastSuccess(es).value.1) && Run(t, es).rowCount == TotalItems(LastSuccess(es).value.1)
    decreases |es|
  {
    if es != [] {
      RunShowsLastSuccess(t, es[..|es| - 1]);
    }
  }

  /**
   Starting from the `useState` defaults (ArtistsTable.tsx:15-17), the table
   shows no rows and a count of 0 until some fetch succeeds, whatever starts
   and failures happen first.
   */
  lemma InitialUntilSuccess(es: seq<Event>)
    requires LastSuccess(es).None?
    ensures Run(Initial, es).rows == [] && Run(Initial, es).rowCount == 0
    ensures Run(Initial, es).loading <==> es != [] && es[|es| - 1].Started?
  {
    RunShowsLastSuccess(Initial, es);
  }

  /**
   With no stale-response guard, a response to a request for filters `a` that
   settles after the response to a later request for other filters `b` is what
   the table shows, although the address bar asks for `b`; and `loading` is
   already false while the request for `a` is still pending.
   */
  lemma StaleResponseWins(t: Table, a: Filters, b: Filters, older: FetchArtistsResponse, newer: FetchArtistsResponse)
    requires a != b
    ensures var es := [Started(a), Started(b), Settled(b, Success(newer)), Settled(a, Success(older))];
      && Run(t, es).rows == ToRows(older)
      && LastSuccess(es) == Some((a, older))
      && CurrentRequest(es) == Some(b)
    ensures !Run(t, [Started(a), Started(b), Settled(b, Success(newer))]).loading
  {
    var es := [Started(a), Started(b), Settled(b, Success(newer)), Settled(a, Success(older))];
    var settledNewer := es[..3];
    assert settledNewer == [Started(a), Started(b), Settled(b, Success(newer))];
    assert settledNewer[..2] == [Started(a), Started(b)];
    assert CurrentRequest(settledNewer[..2]) == Some(b);
    assert CurrentRequest(es) == Some(b);
    assert LastSuccess(es) == Some((a, older));
    RunShowsLastSuccess(t, es);
  }

  /** A non-ok reply only clears `loading`: the rows and count on screen stay. */
  lemma FailedReplyKeepsRows(t: Table, f: Filters, status: int, body: Result<FetchArtistsResponse, string>)
    requires !IsOk(status)
    ensures Step(t, Settled(f, Settle(Reply(status, body)))) == t.(loading := false)
  {
  }

  /** An ok reply with a parsed body shows exactly that body's artists and total. */
  lemma OkReplyShowsBody(t: Table, f: Filters, status: int, response: FetchArtistsResponse)
    requires IsOk(status)
    ensures Step(t, Settled(f, Settle(Reply(status, Success(response))))) == Table(response.data.GetOr([]), TotalItems(response), false)
  {
    ToRowsIsData(response);
  }
}
