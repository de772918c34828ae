# Hungaroton artist browser: the address-bar state machine

The artist browser is one Next.js page. Its only state is the address bar:
`page`, `search`, `letter` and `type` live in the query string. This project
models that part of the program in Dafny:

- how the table component reads its filters from the query string (`parseInt`
  for the page, `|| ""` for the rest);
- the `updateParams` patch. It copies the query, then for each entry of the
  update record deletes the key (`null`) or sets it (a string), following the
  URLSearchParams list semantics of section 6.2 of the WHATWG URL Standard;
- the user intents that call `updateParams`: a search submitted by Enter or by
  the button, a type change, a letter click, clearing the letter, and a grid page
  change;
- the request `fetchArtists` builds from the filters: its query string, and how
  a reply settles it;
- the fetch effect: when it runs, what it asks for, and how `rows`, `rowCount`
  and `loading` evolve as fetches start and settle.

Modules, one file each:

- `Wrappers` (`wrappers.dfy`): `Option` and `Result`.
- `SearchParams` (`search_params.dfy`): the URLSearchParams list.
  - A query is a sequence of name-value pairs, and a name may repeat.
  - `get` returns the first value. `set` rewrites the first pair and drops later ones, or appends. `delete` drops every pair.
  - Contracts are stated through `Values(p, name)`: the values under one name, in list order.
- `JsNumber` (`js_number.dfy`): JavaScript numbers as NaN or an integer.
  - Truthiness.
  - `parseInt(s, 10)`, per section 19.2.5 of ECMA-262: leading StrWhiteSpaceChar skipped, an optional sign, then the longest digit run; NaN when there are no digits.
  - Integer `toString`.
- `Api` (`api.dfy`): `utils/api.ts`. The response and parameter shapes, the outgoing query, and settling a reply.
- `ArtistsTable` (`artists_table.dfy`): `components/ArtistsTable.tsx`. Decoding the filters, `updateParams`, the intents, and what the next render reads after each intent.
- `FetchEffect` (`fetch_effect.dfy`): the effect.
  - The request made for an address bar, and when a navigation fetches again.
  - The table state as a fold over start and settle events.

The model follows the code, including where a reader might expect otherwise:

- The search text is not trimmed.
- Submitting an empty search sets `search=""`; it does not remove the key. Only `null` deletes.
- `type` is not validated. The component casts any string, and `fetchArtists` sends any truthy one.
- A non-numeric `page` decodes to NaN, not 1. Only `page || 1` in `fetchArtists` turns it into a request for page 1.
- `letter` is not checked to be a single letter A–Z. The buttons produce only those, but the address bar is read verbatim.
- The effect has no stale-response guard. A response to an older request that settles last overwrites newer rows. `loading` turns false when any fetch settles, even while another is pending.
- A failed fetch is only logged. It leaves the rows and the count as they were.

## Model

| member | source | states |
|---|---|---|
| SearchParams.Get | components/ArtistsTable.tsx:20-23 | `get(name)` is missing exactly when the name holds no value, and is otherwise the first value stored under it |
| SearchParams.Delete | components/ArtistsTable.tsx:62 | after `delete(name)` the name holds no value and every other name keeps all its values |
| SearchParams.Set | components/ArtistsTable.tsx:63 | after `set(name, v)` the name holds exactly `v`, every other name keeps its values, and a name that was absent is appended at the end |
| SearchParams.SetThenDelete | components/ArtistsTable.tsx:63 | `set` touches only the pairs of its name: deleting the name afterwards gives what deleting it before gives, and an existing name keeps the position of its first pair |
| SearchParams.SetSame | components/ArtistsTable.tsx:63 | setting a name to the single value it already holds leaves the query unchanged |
| SearchParams.SetIdempotent | components/ArtistsTable.tsx:63 | `set` applied twice with the same arguments equals one application |
| SearchParams.DeleteIdempotent | components/ArtistsTable.tsx:62 | `delete` applied twice equals one application |
| SearchParams.DeleteAbsent | components/ArtistsTable.tsx:62 | deleting a name the query does not hold changes nothing |
| SearchParams.DeleteAppend | components/ArtistsTable.tsx:62 | `delete` distributes over concatenation of queries |
| JsNumber.IntToString | components/ArtistsTable.tsx:167 | `toString` of an integer is non-empty and starts with `-` exactly when the number is negative |
| JsNumber.ParseIntOfIntToString | components/ArtistsTable.tsx:20 | `parseInt` of the text `toString` prints, followed by anything that does not continue the digits, reads back the same integer |
| JsNumber.ParseIntSkipsWhiteSpace | components/ArtistsTable.tsx:20 | leading white space does not change what `parseInt` reads |
| JsNumber.ParseIntNonNumeric | components/ArtistsTable.tsx:20 | text starting with something other than white space, a sign or a digit parses to NaN |
| Api.BuildQuery | utils/api.ts:31-39 | the query is the constructor record (`include_image`, `page`, `per_page`) followed by `search`, `letter`, `type` each appended only when truthy |
| Api.BuildQueryOrder | utils/api.ts:31-39 | names go out as `include_image`, `page`, `per_page`, then the truthy ones of `search`, `letter`, `type`, in that order |
| Api.BuildQueryMatchesExpected | utils/api.ts:31-39 | under every name the query carries exactly what an independent per-name definition prescribes: `true`; the page, or 1 when it is undefined, 0 or NaN; the page size, or 50 likewise; the filters verbatim when truthy; nothing else |
| Api.BuildQueryWellFormed | utils/api.ts:37-39 | every name is sent at most once and no empty value is ever sent |
| Api.Settle | utils/api.ts:41-45 | a non-ok status fails with "API error", an ok status yields the parsed body unchanged, and success implies an ok reply |
| Api.NonOkIgnoresBody | utils/api.ts:43 | for a non-ok status the outcome does not depend on the body, which is never read |
| ArtistsTable.Decode | components/ArtistsTable.tsx:21-23 | `search`, `letter` and `type` decode to their first value, or "" when missing |
| ArtistsTable.DecodePage | components/ArtistsTable.tsx:20 | a missing or empty `page` decodes to 1; any other value decodes to its `parseInt` |
| ArtistsTable.DecodeReadsFilterKeys | components/ArtistsTable.tsx:20-23 | two queries whose first `page`, `search`, `letter` and `type` values agree decode to the same filters |
| ArtistsTable.EmptySearchIsNoSearch | components/ArtistsTable.tsx:21 | a query holding `search=""` decodes exactly like the same query without `search` |
| ArtistsTable.UpdateParams | components/ArtistsTable.tsx:59-64 | a name the update record does not mention keeps its values; a mentioned name ends with no value when its last entry is null and exactly the given value otherwise |
| ArtistsTable.UpdateParamsIdempotent | components/ArtistsTable.tsx:59-64 | for a record with distinct keys, applying `updateParams` twice equals applying it once |
| ArtistsTable.SubmitSearch | components/ArtistsTable.tsx:89 | a submitted search sets `search` to the text as typed (even empty) and `page` to "1", and changes no other name |
| ArtistsTable.SearchKeyDown | components/ArtistsTable.tsx:88-90 | a key press navigates exactly when the key is Enter, and then writes the text and page 1 |
| ArtistsTable.SearchButton | components/ArtistsTable.tsx:92-95 | the button navigates exactly when the search input is found, and then writes its text and page 1 |
| ArtistsTable.ChangeType | components/ArtistsTable.tsx:128 | the "all" option removes `type`, any other value is stored verbatim, `page` becomes "1", and nothing else changes |
| ArtistsTable.ClickLetter | components/ArtistsTable.tsx:145 | a letter click stores that letter and page 1 and changes nothing else |
| ArtistsTable.ClearLetter | components/ArtistsTable.tsx:150-151 | the clear button exists exactly while a letter is selected; it removes `letter`, sets page 1, and changes nothing else |
| ArtistsTable.ChangePage | components/ArtistsTable.tsx:166-168 | a grid page index `i` writes `page` as the text of `i + 1` and changes no other name |
| ArtistsTable.DispatchRoundTrip | components/ArtistsTable.tsx:88-168 | for every intent, the next render reads exactly the filters an independent filter-level definition of the intent prescribes, and the handler navigates exactly when that definition does |
| ArtistsTable.NonPageIntentResetsPage | components/ArtistsTable.tsx:89 | every intent other than a page change leaves exactly `page=1`, which decodes to page 1 |
| ArtistsTable.IntentPatchIdempotent | components/ArtistsTable.tsx:61-64 | repeating any intent's update record changes nothing more |
| ArtistsTable.ClickLetterIdempotent | components/ArtistsTable.tsx:145 | clicking the same letter twice leaves the query as one click does |
| ArtistsTable.SubmitSearchRoundTrip | components/ArtistsTable.tsx:89 | after a search the next render reads that search text on page 1, with letter and type unchanged |
| ArtistsTable.ChangeTypeRoundTrip | components/ArtistsTable.tsx:128 | after a type change the next render reads that type ("" for all) on page 1, with search and letter unchanged |
| ArtistsTable.ClickLetterRoundTrip | components/ArtistsTable.tsx:145 | after a letter click the next render reads that letter on page 1, with search and type unchanged |
| ArtistsTable.ClearLetterRoundTrip | components/ArtistsTable.tsx:151 | after clearing the letter the next render reads no letter on page 1, with search and type unchanged |
| ArtistsTable.ChangePageRoundTrip | components/ArtistsTable.tsx:166-168 | after choosing grid index `i` the next render reads page `i + 1`, with every filter unchanged |
| ArtistsTable.SearchTypeLetterRoundTrip | cypress/e2e/artists.spec.tsx:156-171 | a search, then a type, then a letter read back as all three values on page 1 |
| FetchEffect.RequestQuery | components/ArtistsTable.tsx:28 | the effect's request always carries `include_image=true` and `per_page=50`; `page` is the decoded page, or 1 when it is 0 or NaN; `search`, `letter` and `type` are sent exactly when non-empty |
| FetchEffect.ChangePageRequestsPage | cypress/e2e/artists.spec.tsx:143-152 | after choosing grid index `i` the request asks for page `i + 1` and is otherwise the request made before |
| FetchEffect.NonNumericPageRequestsFirstPage | utils/api.ts:33 | a non-numeric `page` decodes to NaN, and the request still asks for page 1 |
| FetchEffect.ChangePageRefetches | components/ArtistsTable.tsx:42 | a page change fetches again exactly when it leads to a page other than the one shown |
| FetchEffect.UnrelatedUpdateKeepsFilters | components/ArtistsTable.tsx:42 | an update record naming none of the filter keys never fetches again |
| FetchEffect.EmptySearchOnFirstPageKeepsFilters | components/ArtistsTable.tsx:42 | submitting an empty search while none is set, on page 1, does not fetch again |
| FetchEffect.ToRows | components/ArtistsTable.tsx:30-37 | the rows have the length and order of `data`, or are empty when it is absent, and each copies `id`, `name`, `albumCount` and `portrait` |
| FetchEffect.Step | components/ArtistsTable.tsx:27-41 | a start sets `loading`; a success replaces rows and count; a failure keeps them; any settle clears `loading` |
| FetchEffect.Run | components/ArtistsTable.tsx:27-41 | after any events, `loading` is true exactly when the last event was a start |
| FetchEffect.RunShowsLastSuccess | components/ArtistsTable.tsx:29-40 | the rows and count shown come from the last successful response to settle, whichever request it answered, or are the initial ones when none has |
| FetchEffect.InitialUntilSuccess | components/ArtistsTable.tsx:15-17 | from the initial state the table shows no rows and a count of 0 until a fetch succeeds, and is loading exactly while the last event is a start |
| FetchEffect.StaleResponseWins | components/ArtistsTable.tsx:26-42 | a response to a request for filters `a` that settles after the response for other filters `b` is what the table shows, though the current request is for `b`; and `loading` is already false while the request for `a` is pending |
| FetchEffect.FailedReplyKeepsRows | components/ArtistsTable.tsx:40-41 | a non-ok reply only clears `loading`; rows and count stay |
| FetchEffect.OkReplyShowsBody | components/ArtistsTable.tsx:29-38 | an ok reply shows exactly the body's artists, in order, and its `total_items`, or 0 when that is missing |

## Left out

- Rendering: JSX, MUI styling, the DataGrid columns and the `paginationModel` display. These are presentation only.
- `router.push` and `useSearchParams`. The query is an explicit input and output, so a navigation is modelled as the next render reading the query it wrote.
- Byte-level form-urlencoded serialisation (`toString`, section 5.2 of the WHATWG URL Standard). The query stays a list of pairs.
- `document.querySelector` for the search input. Its result is the `input` parameter of `ArtistsTable.SearchButton`.
- The `fetch` call, `cache: "no-store"`, the base URL and the JSON parser. The reply (a status plus the parse result or a parse failure) is an input.
- Bodies whose JSON has the wrong shape, such as a null body or a `data` that is not an array. They make the `.then` callback throw. The parsed body is assumed to have the declared shape.
- `console.error` logging of a failed fetch. It has no effect on state.
- React scheduling and batching. A settle event applies `.then` and `.finally` together, and events are taken in the order they happen.
- JavaScript numbers beyond integers and NaN: fractions, infinities, and the sign of zero. Model integers are exact and unbounded, while JavaScript numbers are IEEE doubles: above 2^53 they round, and from 10^21 up `toString` prints exponent notation such as `1e+21`, of which `parseInt` reads only the leading digits.
- JsNumber.ParseIntOfIntToString: holds in JavaScript only for integers of magnitude below 10^21 that are doubles; the model states it for every integer because it does not model doubles.
- ArtistsTable.ChangePageRoundTrip: holds in JavaScript only while `index + 1` is at most 2^53 in magnitude, because beyond that the addition rounds.
- ArtistsTable.DispatchRoundTrip: for a page change, the same 2^53 bound as `ArtistsTable.ChangePageRoundTrip` applies.
- FetchEffect.ChangePageRequestsPage: holds in JavaScript only while `index + 1` is at most 2^53 in magnitude, for the same reason.
- FetchEffect.ChangePageRefetches: compares page numbers exactly, where JavaScript would compare rounded doubles above 2^53.
- JsNumber.ParseInt: there is no contract of its own. Its behaviour is stated by `JsNumber.ParseIntOfIntToString`, `JsNumber.ParseIntSkipsWhiteSpace`, `JsNumber.ParseIntNonNumeric` and `ArtistsTable.DecodePage`.
- `app/layout.tsx`, `app/page.tsx` and `cypress.config.ts`. They are page layout, font loading and test configuration.
- The Cypress tests as code. They are cited only as evidence of intended behaviour.
