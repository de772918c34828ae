/**
 The catalogue client (utils/api.ts): the shapes the catalogue API exchanges,
 the query string `fetchArtists` sends, and how it turns an HTTP reply into a
 settled result. The network call itself is not modelled: the reply is an
 input.
 */
module Api {
  import opened Wrappers
  import opened SearchParams
  import opened JsNumber

  /**
   The names of the query parameters. The address bar of the artist browser
   uses the same names for its filters.
   */
  const IncludeImageName: string := "include_image"
  const PageName: string := "page"
  const PerPageName: string := "per_page"
  const SearchName: string := "search"
  const LetterName: string := "letter"
  const TypeName: string := "type"

  /** The value of `include_image`. */
  const TrueText: string := "true"

  /** One artist as the catalogue returns it. */
  datatype Artist = Artist(id: int, name: string, albumCount: int, portrait: Option<string>)

  /** The pagination block of a response; any field may be missing from the JSON. */
  datatype Pagination = Pagination(
    currentPage: Option<int>,
    totalPages: Option<int>,
    perPage: Option<int>,
    totalItems: Option<int>)

  /** The parsed JSON body of a catalogue response; either part may be missing. */
  datatype FetchArtistsResponse = FetchArtistsResponse(data: Option<seq<Artist>>, pagination: Option<Pagination>)

  /**
   The argument of `fetchArtists`. Every field is optional. `artistType` is the
   `type` field; it is declared as a three-value union but nothing enforces it,
   so any string may arrive.
   */
  datatype FetchArtistsParams = FetchArtistsParams(
    page: Option<Num>,
    perPage: Option<Num>,
    search: Option<string>,
    letter: Option<string>,
    artistType: Option<string>)

  /** An optional number with a fallback: a missing number, 0 and NaN give `fallback`, any other number itself. */
  function NumberOr(x: Option<Num>, fallback: int): (r: int)
    ensures x.Some? && Truthy(x.value) ==> r == x.value.n
    ensures x.None? || !Truthy(x.value) ==> r == fallback
  {
    if x.Some? && Truthy(x.value) then x.value.n else fallback
  }

  /** JavaScript truthiness of an optional string: defined and not empty. */
  predicate Present(s: Option<string>)
  {
    s.Some? && s.value != ""
  }

  /** The value list of a filter: its value when truthy, nothing otherwise. */
  function OptionalValue(s: Option<string>): seq<string>
  {
    if Present(s) then [s.value] else []
  }

  /** The pair `name=value` when the optional string is truthy, nothing otherwise. */
  function OptionalPair(name: string, s: Option<string>): (q: Params)
    ensures Names(q) == if Present(s) then [name] else []
    ensures forall n :: Values(q, n) == if n == name then OptionalValue(s) else []
  {
    if Present(s) then [(name, s.value)] else []
  }

  /** Sets `name` to the string when it is truthy; otherwise leaves the query alone. */
  function SetIfPresent(q: Params, name: string, s: Option<string>): Params
  {
    if Present(s) then Set(q, name, s.value) else q
  }

  /** Setting a name the query does not hold yet appends it. */
  lemma SetIfPresentFresh(q: Params, name: string, s: Option<string>)
    requires name !in Names(q)
    ensures SetIfPresent(q, name, s) == q + OptionalPair(name, s)
    ensures Names(SetIfPresent(q, name, s)) == Names(q) + (if Present(s) then [name] else [])
  {
    ValuesAbsent(q, name);
    NamesAppend(q, OptionalPair(name, s));
  }

  /** The record passed to the URLSearchParams constructor. */
  function BaseQuery(params: FetchArtistsParams): (q: Params)
    ensures Names(q) == [IncludeImageName, PageName, PerPageName]
  {
    [ (IncludeImageName, TrueText),
      (PageName, IntToString(NumberOr(params.page, 1))),
      (PerPageName, IntToString(NumberOr(params.perPage, 50))) ]
  }

  /**
   The query string of `fetchArtists` (utils/api.ts:31-39): `include_image`,
   `page` and `per_page` from the constructor record, then `search`, `letter`
   and `type` appended in that order when truthy.
   */
  function BuildQuery(params: FetchArtistsParams): (q: Params)
    ensures q == BaseQuery(params)
                 + OptionalPair(SearchName, params.search)
                 + OptionalPair(LetterName, params.letter)
                 + OptionalPair(TypeName, params.artistType)
  {
    var q0 := BaseQuery(params);
    var q1 := SetIfPresent(q0, SearchName, params.search);
    SetIfPresentFresh(q0, SearchName, params.search);
    var q2 := SetIfPresent(q1, LetterName, params.letter);
    SetIfPresentFresh(q1, LetterName, params.letter);
    var q3 := SetIfPresent(q2, TypeName, params.artistType);
    SetIfPresentFresh(q2, TypeName, params.artistType);
    q3
  }

  /**
   The names go out as `include_image`, `page`, `per_page`, then whichever of
   `search`, `letter` and `type` are truthy, in that order.
   */
  lemma BuildQueryOrder(params: FetchArtistsParams)
    ensures Names(BuildQuery(params)) == [IncludeImageName, PageName, PerPageName]
                                         + (if Present(params.search) then [SearchName] else [])
                                         + (if Present(params.letter) then [LetterName] else [])
                                         + (if Present(params.artistType) then [TypeName] else [])
  {
    var b := BaseQuery(params);
    var s := OptionalPair(SearchName, params.search);
    var l := OptionalPair(LetterName, params.letter);
    var t := OptionalPair(TypeName, params.artistType);
    NamesAppend(b, s);
    NamesAppend(b + s, l);
    NamesAppend(b + s + l, t);
  }

  /**
   What the query is meant to carry under each name, written independently of
   how it is built: `include_image=true`; `page` and `per_page` from the
   parameters, or 1 and 50 when undefined, 0 or NaN; `search`, `letter` and
   `type` verbatim when truthy; nothing else.
   */
  function Expected(params: FetchArtistsParams, name: string): seq<string>
  {
    if name == IncludeImageName then [TrueText]
    else if name == PageName then
      [if params.page.Some? && Truthy(params.page.value) then IntToString(params.page.value.n) else "1"]
    else if name == PerPageName then
      [if params.perPage.Some? && Truthy(params.perPage.value) then IntToString(params.perPage.value.n) else "50"]
    else if name == SearchName then OptionalValue(params.search)
    else if name == LetterName then OptionalValue(params.letter)
    else if name == TypeName then OptionalValue(params.artistType)
    else []
  }

  lemma Fifty()
    ensures IntToString(50) == "50"
  {
    assert NatToString(5) == "5";
  }

  lemma BaseQueryValue(params: FetchArtistsParams, name: string)
    ensures name != SearchName && name != LetterName && name != TypeName ==>
              Values(BaseQuery(params), name) == Expected(params, name)
    ensures name == SearchName || name == LetterName || name == TypeName ==>
              Values(BaseQuery(params), name) == []
  {
    var b := BaseQuery(params);
    assert IntToString(1) == "1";
    Fifty();
    ValuesCons(b[2], []);
    ValuesCons(b[1], [b[2]]);
    ValuesCons(b[0], [b[1]] + [b[2]]);
    assert b == [b[0]] + ([b[1]] + [b[2]]);
    assert [b[2]] == [b[2]] + [];
  }

  /** The built query carries exactly the expected values under every name. */
  lemma BuildQueryMatchesExpected(params: FetchArtistsParams)
    ensures forall n :: Values(BuildQuery(params), n) == Expected(params, n)
  {
    forall n
      ensures Values(BuildQuery(params), n) == Expected(params, n)
    {
      BuildQueryValue(params, n);
    }
  }

  lemma BuildQueryValue(params: FetchArtistsParams, name: string)
    ensures Values(BuildQuery(params), name) == Expected(params, name)
  {
    var b := BaseQuery(params);
    var s := OptionalPair(SearchName, params.search);
    var l := OptionalPair(LetterName, params.letter);
    var t := OptionalPair(TypeName, params.artistType);
    PartsValue(b, s, l, t, name);
    BaseQueryValue(params, name);
  }

  lemma PartsValue(b: Params, s: Params, l: Params, t: Params, name: string)
    ensures Values(b + s + l + t, name) == Values(b, name) + Values(s, name) + Values(l, name) + Values(t, name)
  {
    ValuesAppendAt(b, s, name);
    ValuesAppendAt(b + s, l, name);
    ValuesAppendAt(b + s + l, t, name);
  }

  /**
   Every name is sent at most once and no value sent is empty; in particular
   `search`, `letter` and `type` are never sent as empty strings.
   */
  lemma BuildQueryWellFormed(params: FetchArtistsParams)
    ensures forall n :: |Values(BuildQuery(params), n)| <= 1
    ensures forall n :: "" !in Values(BuildQuery(params), n)
  {
    BuildQueryMatchesExpected(params);
    forall n
      ensures |Expected(params, n)| <= 1 && "" !in Expected(params, n)
    {
      ExpectedWellFormed(params, n);
    }
  }

  lemma ExpectedWellFormed(params: FetchArtistsParams, name: string)
    ensures |Expected(params, name)| <= 1 && "" !in Expected(params, name)
  {
    var e := Expected(params, name);
    if e != [] {
      assert |e| == 1;
      assert e[0] != "";
    }
  }

  /** What `fetch` settles with: a transport failure, or a status and what `res.json()` would yield. */
  datatype HttpReply =
    | TransportFailure
    | Reply(status: int, body: Result<FetchArtistsResponse, string>)

  /** The ways `fetchArtists` rejects. */
  datatype FetchError =
    | ApiError        // `new Error("API error")` on a non-ok status
    | TransportError  // `fetch` itself rejected
    | BodyError(reason: string)  // `res.json()` rejected

  /** `Response.ok`: the status is in the range 200-299. */
  predicate IsOk(status: int)
  {
    200 <= status <= 299
  }

  /**
   How `fetchArtists` settles for a reply (utils/api.ts:41-45): a non-ok status
   rejects with "API error" before the body is read; an ok status resolves with
   the parsed body or rejects with the parse failure; a transport failure
   propagates unchanged.
   */
  function Settle(reply: HttpReply): (r: Result<FetchArtistsResponse, FetchError>)
    ensures reply.Reply? && !IsOk(reply.status) ==> r == Failure(ApiError)
    ensures reply.Reply? && IsOk(reply.status) && reply.body.Success? ==> r == Success(reply.body.value)
    ensures r.Success? ==> reply.Reply? && IsOk(reply.status)
    ensures r == Failure(ApiError) ==> reply.Reply? && !IsOk(reply.status)
  {
    match reply
    case TransportFailure => Failure(TransportError)
    case Reply(status, body) =>
      if !IsOk(status) then Failure(ApiError)
      else match body
        case Success(response) => Success(response)
        case Failure(reason) => Failure(BodyError(reason))
  }

  /** A non-ok reply settles the same way whatever its body: the body is never read. */
  lemma NonOkIgnoresBody(status: int, a: Result<FetchArtistsResponse, string>, b: Result<FetchArtistsResponse, string>)
    requires !IsOk(status)
    ensures Settle(Reply(status, a)) == Settle(Reply(status, b)) == Failure(ApiError)
  {
  }
}
