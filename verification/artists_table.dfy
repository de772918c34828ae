/**
 The logic of the artists table component (components/ArtistsTable.tsx): the
 filters it reads from the address bar, the `updateParams` patch it writes
 back, the user intents that call it, and the table state its fetch effect
 maintains. The address bar is an explicit query list in and out; rendering,
 routing and the network are not modelled.
 */
module ArtistsTable {
  import opened Wrappers
  import opened SearchParams
  import opened JsNumber
  import opened Api

  /** The filters read from the address bar on every render. `artistType` is the `type` key. */
  datatype Filters = Filters(page: Num, search: string, letter: string, artistType: string)

  /** The first value of `name`, where a missing or empty value gives `fallback`. */
  function GetOr(p: Params, name: string, fallback: string): string
  {
    var v := Get(p, name);
    if v.Some? && v.value != "" then v.value else fallback
  }

  /**
   The filters of the current address bar (ArtistsTable.tsx:20-23): `page` is
   `parseInt` of the first `page` value, or of "1" when it is missing or
   empty; `search`, `letter` and `type` are their first value, or "" when
   missing. Nothing is trimmed or validated, and a non-numeric page stays NaN.
   */
  function Decode(p: Params): (f: Filters)
    ensures f.search == Get(p, SearchName).GetOr("")
    ensures f.letter == Get(p, LetterName).GetOr("")
    ensures f.artistType == Get(p, TypeName).GetOr("")
  {
    Filters(ParseInt(GetOr(p, PageName, "1")), GetOr(p, SearchName, ""), GetOr(p, LetterName, ""), GetOr(p, TypeName, ""))
  }

  /** A missing or empty `page` decodes to page 1; any other text goes through `parseInt`. */
  lemma DecodePage(p: Params)
    ensures Get(p, PageName).None? || Get(p, PageName) == Some("") ==> Decode(p).page == Finite(1)
    ensures Get(p, PageName).Some? && Get(p, PageName).value != "" ==> Decode(p).page == ParseInt(Get(p, PageName).value)
  {
    ParseIntOne();
  }

  /** Decoding reads only the first values of `page`, `search`, `letter` and `type`. */
  lemma DecodeReadsFilterKeys(p: Params, q: Params)
    requires Get(p, PageName) == Get(q, PageName) && Get(p, SearchName) == Get(q, SearchName)
    requires Get(p, LetterName) == Get(q, LetterName) && Get(p, TypeName) == Get(q, TypeName)
    ensures Decode(p) == Decode(q)
  {
  }

  /** Two address bars decode alike when they agree on the filter keys, up to an empty `search`. */
  lemma DecodeAgrees(p: Params, q: Params)
    requires Values(p, PageName) == Values(q, PageName)
    requires Values(p, LetterName) == Values(q, LetterName)
    requires Values(p, TypeName) == Values(q, TypeName)
    requires Get(p, SearchName).GetOr("") == Get(q, SearchName).GetOr("")
    ensures Decode(p) == Decode(q)
  {
  }

  /** A `search` key holding "" decodes exactly like a missing one. */
  lemma EmptySearchIsNoSearch(p: Params)
    ensures Decode(Set(p, SearchName, "")) == Decode(Delete(p, SearchName))
  {
    EmptySearchAgrees(Set(p, SearchName, ""), Delete(p, SearchName));
  }

  lemma EmptySearchAgrees(a: Params, b: Params)
    requires Values(a, SearchName) == [""] && Values(b, SearchName) == []
    requires forall n :: n != SearchName ==> Values(a, n) == Values(b, n)
    ensures Decode(a) == Decode(b)
  {
    DecodeAgrees(a, b);
  }

  /** An address bar holding exactly `page=1` decodes to page 1. */
  lemma PageOneDecodes(q: Params)
    requires Values(q, PageName) == ["1"]
    ensures Decode(q).page == Finite(1)
  {
    DecodePage(q);
    ParseIntOne();
  }

  // ---------------------------------------------------------------------------
  // updateParams (ArtistsTable.tsx:59-66)
  // ---------------------------------------------------------------------------

  /** One entry of the `updates` record: a value to set, or `None` (`null`) to delete. */
  type Update = (string, Option<string>)

  /** One entry applied to the query: a null value deletes the key, a string sets it. */
  function ApplyUpdate(p: Params, u: Update): Params
  {
    if u.1.None? then Delete(p, u.0) else Set(p, u.0, u.1.value)
  }

  /** The last entry for `name` in the update list, if any. */
  function LastUpdate(us: seq<Update>, name: string): Option<Option<string>>
  {
    if us == [] then None
    else if LastUpdate(us[1..], name).Some? then LastUpdate(us[1..], name)
    else if us[0].0 == name then Some(us[0].1)
    else None
  }

  /** The values a name holds after an update with this value: none after a delete, one after a set. */
  function Target(v: Option<string>): seq<string>
  {
    if v.None? then [] else [v.value]
  }

  /**
   `updateParams`: apply each entry of the record in order to a copy of the
   current query. A name the record does not mention keeps all its values; a
   name it mentions ends with no value when its (last) entry is `null` and
   with exactly the given value otherwise.
   */
  function UpdateParams(p: Params, us: seq<Update>): (r: Params)
    ensures forall n :: LastUpdate(us, n).None? ==> Values(r, n) == Values(p, n)
    ensures forall n :: LastUpdate(us, n).Some? ==> Values(r, n) == Target(LastUpdate(us, n).value)
    decreases |us|
  {
    if us == [] then p else UpdateParams(ApplyUpdate(p, us[0]), us[1..])
  }

  /** The keys of a JavaScript object literal are distinct. */
  predicate DistinctKeys(us: seq<Update>)
  {
    forall i, j :: 0 <= i < j < |us| ==> us[i].0 != us[j].0
  }

  lemma {:induction false} LastUpdateOfDistinct(us: seq<Update>, i: nat)
    requires DistinctKeys(us) && i < |us|
    ensures LastUpdate(us, us[i].0) == Some(us[i].1)
  {
    if i == 0 {
      LastUpdateAbsent(us[1..], us[0].0);
    } else {
      LastUpdateOfDistinct(us[1..], i - 1);
    }
  }

  lemma {:induction false} LastUpdateAbsent(us: seq<Update>, name: string)
    requires forall i :: 0 <= i < |us| ==> us[i].0 != name
    ensures LastUpdate(us, name).None?
  {
    if us != [] {
      LastUpdateAbsent(us[1..], name);
    }
  }

  /** In a two-entry record the second entry wins for its name, the first for its own. */
  lemma LastUpdateOfTwo(us: seq<Update>)
    requires |us| == 2
    ensures forall n :: LastUpdate(us, n)
                     == if n == us[1].0 then Some(us[1].1) else if n == us[0].0 then Some(us[0].1) else None
  {
    forall n
      ensures LastUpdate(us, n)
           == if n == us[1].0 then Some(us[1].1) else if n == us[0].0 then Some(us[0].1) else None
    {
      assert us[1..][1..] == [];
      assert LastUpdate(us[1..][1..], n).None?;
    }
  }

  lemma LastUpdateOfOne(us: seq<Update>)
    requires |us| == 1
    ensures forall n :: LastUpdate(us, n) == if n == us[0].0 then Some(us[0].1) else None
  {
    assert us[1..] == [];
  }

  /** An update whose outcome already holds changes nothing. */
  lemma ApplyUpdateSettled(p: Params, u: Update)
    requires Values(p, u.0) == Target(u.1)
    ensures ApplyUpdate(p, u) == p
  {
    if u.1.None? {
      DeleteAbsent(p, u.0);
    } else {
      SetSame(p, u.0, u.1.value);
    }
  }

  lemma {:induction false} UpdateParamsSettled(p: Params, us: seq<Update>)
    requires forall i :: 0 <= i < |us| ==> Values(p, us[i].0) == Target(us[i].1)
    ensures UpdateParams(p, us) == p
    decreases |us|
  {
    if us != [] {
      ApplyUpdateSettled(p, us[0]);
      UpdateParamsSettled(p, us[1..]);
    }
  }

  /** Applying the same `updateParams` record twice gives the same query as applying it once. */
  lemma UpdateParamsIdempotent(p: Params, us: seq<Update>)
    requires DistinctKeys(us)
    ensures UpdateParams(UpdateParams(p, us), us) == UpdateParams(p, us)
  {
    var r := UpdateParams(p, us);
    forall i | 0 <= i < |us|
      ensures Values(r, us[i].0) == Target(us[i].1)
    {
      LastUpdateOfDistinct(us, i);
    }
    UpdateParamsSettled(r, us);
  }

  // ---------------------------------------------------------------------------
  // User intents
  // ---------------------------------------------------------------------------

  /** The record of a search submission: the text under `search`, and page 1 (ArtistsTable.tsx:89, :94). */
  function SearchPatch(text: string): seq<Update>
  {
    [(SearchName, Some(text)), (PageName, Some("1"))]
  }

  /** The record of a type change: the value under `type`, null for the empty "all" option, and page 1 (ArtistsTable.tsx:128). */
  function TypePatch(value: string): seq<Update>
  {
    [(TypeName, if value == "" then None else Some(value)), (PageName, Some("1"))]
  }

  /** The record of a letter click: the letter under `letter`, and page 1 (ArtistsTable.tsx:145). */
  function LetterPatch(l: char): seq<Update>
  {
    [(LetterName, Some([l])), (PageName, Some("1"))]
  }

  /** The record of clearing the letter: null under `letter`, and page 1 (ArtistsTable.tsx:151). */
  function ClearLetterPatch(): seq<Update>
  {
    [(LetterName, None), (PageName, Some("1"))]
  }

  /** The record of a grid page change: the one-based page number as decimal text (ArtistsTable.tsx:167). */
  function PagePatch(index: int): seq<Update>
  {
    [(PageName, Some(IntToString(index + 1)))]
  }

  /**
   Submitting a search (Enter in the field or the search button): `search`
   becomes the text exactly as typed, even when empty, and `page` becomes "1";
   nothing else changes.
   */
  function SubmitSearch(p: Params, text: string): (r: Params)
    ensures Values(r, SearchName) == [text]
    ensures Values(r, PageName) == ["1"]
    ensures forall n :: n != SearchName && n != PageName ==> Values(r, n) == Values(p, n)
  {
    LastUpdateOfTwo(SearchPatch(text));
    UpdateParams(p, SearchPatch(text))
  }

  /** A key press in the search field submits only when the key is Enter (ArtistsTable.tsx:88-89). */
  function SearchKeyDown(p: Params, key: string, text: string): (r: Option<Params>)
    ensures r.Some? <==> key == "Enter"
    ensures r.Some? ==> Values(r.value, SearchName) == [text] && Values(r.value, PageName) == ["1"]
  {
    if key == "Enter" then Some(SubmitSearch(p, text)) else None
  }

  /**
   The search button submits the text of the search input when the input is
   found, and does nothing otherwise (ArtistsTable.tsx:92-94). `input` stands
   for the result of the DOM query.
   */
  function SearchButton(p: Params, input: Option<string>): (r: Option<Params>)
    ensures r.Some? <==> input.Some?
    ensures r.Some? ==> Values(r.value, SearchName) == [input.value] && Values(r.value, PageName) == ["1"]
  {
    if input.Some? then Some(SubmitSearch(p, input.value)) else None
  }

  /**
   Picking a type (ArtistsTable.tsx:128): the empty "all" option removes
   `type`, any other value is stored verbatim; `page` becomes "1"; nothing
   else changes.
   */
  function ChangeType(p: Params, value: string): (r: Params)
    ensures value == "" ==> Values(r, TypeName) == []
    ensures value != "" ==> Values(r, TypeName) == [value]
    ensures Values(r, PageName) == ["1"]
    ensures forall n :: n != TypeName && n != PageName ==> Values(r, n) == Values(p, n)
  {
    LastUpdateOfTwo(TypePatch(value));
    UpdateParams(p, TypePatch(value))
  }

  /** Clicking a letter button (ArtistsTable.tsx:145): `letter` becomes it and `page` "1"; nothing else changes. */
  function ClickLetter(p: Params, l: char): (r: Params)
    ensures Values(r, LetterName) == [[l]]
    ensures Values(r, PageName) == ["1"]
    ensures forall n :: n != LetterName && n != PageName ==> Values(r, n) == Values(p, n)
  {
    LastUpdateOfTwo(LetterPatch(l));
    UpdateParams(p, LetterPatch(l))
  }

  /**
   The clear button exists only while a letter is selected (ArtistsTable.tsx:150);
   clicking it removes `letter` and sets `page` to "1"; nothing else changes.
   */
  function ClearLetter(p: Params): (r: Option<Params>)
    ensures r.Some? <==> Decode(p).letter != ""
    ensures r.Some? ==> Values(r.value, LetterName) == [] && Values(r.value, PageName) == ["1"]
    ensures r.Some? ==> forall n :: n != LetterName && n != PageName ==> Values(r.value, n) == Values(p, n)
  {
    LastUpdateOfTwo(ClearLetterPatch());
    if GetOr(p, LetterName, "") != "" then Some(UpdateParams(p, ClearLetterPatch())) else None
  }

  /**
   The grid reports a zero-based page index (ArtistsTable.tsx:166-168): `page`
   becomes the one-based number as text; nothing else changes, so the filters
   are kept.
   */
  function ChangePage(p: Params, index: int): (r: Params)
    ensures Values(r, PageName) == [IntToString(index + 1)]
    ensures forall n :: n != PageName ==> Values(r, n) == Values(p, n)
  {
    LastUpdateOfOne(PagePatch(index));
    UpdateParams(p, PagePatch(index))
  }

  /** The interactions of the presentation layer. */
  datatype Intent =
    | SearchKey(key: string, text: string)
    | SearchClick(input: Option<string>)
    | TypePicked(value: string)
    | LetterPicked(letter: char)
    | LetterCleared
    | PageChanged(index: int)

  /** The `updateParams` record an intent issues in the current address bar, if it issues one. */
  function PatchOf(p: Params, i: Intent): Option<seq<Update>>
  {
    match i
    case SearchKey(key, text) => if key == "Enter" then Some(SearchPatch(text)) else None
    case SearchClick(input) => if input.Some? then Some(SearchPatch(input.value)) else None
    case TypePicked(value) => Some(TypePatch(value))
    case LetterPicked(l) => Some(LetterPatch(l))
    case LetterCleared => if GetOr(p, LetterName, "") != "" then Some(ClearLetterPatch()) else None
    case PageChanged(index) => Some(PagePatch(index))
  }

  /** The address bar after an intent, or `None` when the handler does not navigate. */
  function Dispatch(p: Params, i: Intent): (r: Option<Params>)
    ensures r.Some? <==> PatchOf(p, i).Some?
    ensures r.Some? ==> r.value == UpdateParams(p, PatchOf(p, i).value)
  {
    match i
    case SearchKey(key, text) => SearchKeyDown(p, key, text)
    case SearchClick(input) => SearchButton(p, input)
    case TypePicked(value) => Some(ChangeType(p, value))
    case LetterPicked(l) => Some(ClickLetter(p, l))
    case LetterCleared => ClearLetter(p)
    case PageChanged(index) => Some(ChangePage(p, index))
  }

  /** Every intent other than a page change leaves exactly `page=1`, so the view returns to page 1. */
  lemma NonPageIntentResetsPage(p: Params, i: Intent)
    requires !i.PageChanged? && Dispatch(p, i).Some?
    ensures Values(Dispatch(p, i).value, PageName) == ["1"]
    ensures Decode(Dispatch(p, i).value).page == Finite(1)
  {
    var r := Dispatch(p, i).value;
    assert Values(r, PageName) == ["1"] by {
      match i
      case SearchKey(_, _) =>
      case SearchClick(_) =>
      case TypePicked(_) =>
      case LetterPicked(_) =>
      case LetterCleared =>
    }
    PageOneDecodes(r);
  }

  /** Repeating an intent's `updateParams` record changes nothing more. */
  lemma IntentPatchIdempotent(p: Params, i: Intent)
    requires PatchOf(p, i).Some?
    ensures UpdateParams(UpdateParams(p, PatchOf(p, i).value), PatchOf(p, i).value)
         == UpdateParams(p, PatchOf(p, i).value)
  {
    UpdateParamsIdempotent(p, PatchOf(p, i).value);
  }

  /** Clicking the same letter twice leaves the address bar as one click does. */
  lemma ClickLetterIdempotent(p: Params, l: char)
    ensures ClickLetter(ClickLetter(p, l), l) == ClickLetter(p, l)
  {
    UpdateParamsIdempotent(p, LetterPatch(l));
  }

  // ---------------------------------------------------------------------------
  // Round trips: what the next render decodes after an intent
  // ---------------------------------------------------------------------------

  /** The decoded search depends only on the values under `search`. */
  lemma SameSearch(p: Params, q: Params)
    requires Values(q, SearchName) == Values(p, SearchName)
    ensures Decode(q).search == Decode(p).search
  {
  }

  /** The decoded letter depends only on the values under `letter`. */
  lemma SameLetter(p: Params, q: Params)
    requires Values(q, LetterName) == Values(p, LetterName)
    ensures Decode(q).letter == Decode(p).letter
  {
  }

  /** The decoded type depends only on the values under `type`. */
  lemma SameType(p: Params, q: Params)
    requires Values(q, TypeName) == Values(p, TypeName)
    ensures Decode(q).artistType == Decode(p).artistType
  {
  }

  /** After a page change only the page is read differently: the written text goes through `parseInt`. */
  lemma DecodeAfterPage(p: Params, q: Params, text: string)
    requires text != ""
    requires Values(q, PageName) == [text]
    requires Values(q, SearchName) == Values(p, SearchName)
    requires Values(q, LetterName) == Values(p, LetterName)
    requires Values(q, TypeName) == Values(p, TypeName)
    ensures Decode(q) == Decode(p).(page := ParseInt(text))
  {
    DecodePage(q);
  }

  /** What the next render reads after an intent that writes one filter key and `page=1`. */
  lemma DecodeAfterReset(p: Params, q: Params, key: string)
    requires key == SearchName || key == LetterName || key == TypeName
    requires Values(q, PageName) == ["1"]
    requires forall n :: n != key && n != PageName ==> Values(q, n) == Values(p, n)
    ensures Decode(q).page == Finite(1)
    ensures key != SearchName ==> Decode(q).search == Decode(p).search
    ensures key != LetterName ==> Decode(q).letter == Decode(p).letter
    ensures key != TypeName ==> Decode(q).artistType == Decode(p).artistType
  {
    var search := key != SearchName ==> Values(q, SearchName) == Values(p, SearchName);
    var letter := key != LetterName ==> Values(q, LetterName) == Values(p, LetterName);
    var artistType := key != TypeName ==> Values(q, TypeName) == Values(p, TypeName);
    assert search && letter && artistType;
    DecodeKeeps(p, q, key);
  }

  lemma DecodeKeeps(p: Params, q: Params, key: string)
    requires Values(q, PageName) == ["1"]
    requires key != SearchName ==> Values(q, SearchName) == Values(p, SearchName)
    requires key != LetterName ==> Values(q, LetterName) == Values(p, LetterName)
    requires key != TypeName ==> Values(q, TypeName) == Values(p, TypeName)
    ensures Decode(q).page == Finite(1)
    ensures key != SearchName ==> Decode(q).search == Decode(p).search
    ensures key != LetterName ==> Decode(q).letter == Decode(p).letter
    ensures key != TypeName ==> Decode(q).artistType == Decode(p).artistType
  {
    PageOneDecodes(q);
    if key != SearchName {
      SameSearch(p, q);
    }
    if key != LetterName {
      SameLetter(p, q);
    }
    if key != TypeName {
      SameType(p, q);
    }
  }

  /** Submitting `text` is read back as search `text` on page 1, the letter and type kept. */
  lemma SubmitSearchRoundTrip(p: Params, text: string)
    ensures Decode(SubmitSearch(p, text)) == Decode(p).(page := Finite(1), search := text)
  {
    DecodeAfterReset(p, SubmitSearch(p, text), SearchName);
  }

  /** Picking a type is read back verbatim (the "all" option as ""), on page 1, other filters kept. */
  lemma ChangeTypeRoundTrip(p: Params, value: string)
    ensures Decode(ChangeType(p, value)) == Decode(p).(page := Finite(1), artistType := value)
  {
    DecodeAfterReset(p, ChangeType(p, value), TypeName);
  }

  /** Clicking letter `l` is read back as letter `l` on page 1, search and type kept. */
  lemma ClickLetterRoundTrip(p: Params, l: char)
    ensures Decode(ClickLetter(p, l)) == Decode(p).(page := Finite(1), letter := [l])
  {
    DecodeAfterReset(p, ClickLetter(p, l), LetterName);
  }

  /** Clearing the letter is read back as no letter on page 1, search and type kept. */
  lemma ClearLetterRoundTrip(p: Params)
    requires ClearLetter(p).Some?
    ensures Decode(ClearLetter(p).value) == Decode(p).(page := Finite(1), letter := "")
  {
    DecodeAfterReset(p, ClearLetter(p).value, LetterName);
  }

  /** Choosing grid page index `index` is read back as page `index + 1`, every filter kept. */
  lemma ChangePageRoundTrip(p: Params, index: int)
    ensures Decode(ChangePage(p, index)) == Decode(p).(page := Finite(index + 1))
  {
    var text := IntToString(index + 1);
    DecodeAfterPage(p, ChangePage(p, index), text);
    ParseIntOfIntToString(index + 1, "");
    assert text + "" == text;
  }

  /** A search, then a type, then a letter: the next render reads all three, on page 1. */
  lemma SearchTypeLetterRoundTrip(p: Params, text: string, value: string, l: char)
    ensures Decode(ClickLetter(ChangeType(SubmitSearch(p, text), value), l)) == Filters(Finite(1), text, [l], value)
  {
    var q1 := SubmitSearch(p, text);
    var q2 := ChangeType(q1, value);
    SubmitSearchRoundTrip(p, text);
    ChangeTypeRoundTrip(q1, value);
    ClickLetterRoundTrip(q2, l);
  }

  /**
   What each intent is meant to do, stated on the filters alone: a search
   submitted by Enter or by a found input shows that text, a type or letter
   pick shows it, clearing a selected letter shows none, each on page 1 with
   the other filters kept; a grid page change shows page `index + 1` with
   every filter kept. `None` when the handler does nothing.
   */
  function Intended(f: Filters, i: Intent): Option<Filters>
  {
    match i
    case SearchKey(key, text) => if key == "Enter" then Some(f.(page := Finite(1), search := text)) else None
    case SearchClick(input) => if input.Some? then Some(f.(page := Finite(1), search := input.value)) else None
    case TypePicked(value) => Some(f.(page := Finite(1), artistType := value))
    case LetterPicked(l) => Some(f.(page := Finite(1), letter := [l]))
    case LetterCleared => if f.letter != "" then Some(f.(page := Finite(1), letter := "")) else None
    case PageChanged(index) => Some(f.(page := Finite(index + 1)))
  }

  /**
   Every intent, read back by the next render, gives exactly the filters its
   filter-level meaning prescribes, and it navigates exactly when that meaning
   does.
   */
  lemma DispatchRoundTrip(p: Params, i: Intent)
    ensures Dispatch(p, i).Some? <==> Intended(Decode(p), i).Some?
    ensures Dispatch(p, i).Some? ==> Decode(Dispatch(p, i).value) == Intended(Decode(p), i).value
  {
    match i
    case SearchKey(key, text) =>
      SubmitSearchRoundTrip(p, text);
    case SearchClick(input) =>
      if input.Some? {
        SubmitSearchRoundTrip(p, input.value);
      }
    case TypePicked(value) =>
      ChangeTypeRoundTrip(p, value);
    case LetterPicked(l) =>
      ClickLetterRoundTrip(p, l);
    case LetterCleared =>
      if ClearLetter(p).Some? {
        ClearLetterRoundTrip(p);
      }
    case PageChanged(index) =>
      ChangePageRoundTrip(p, index);
  }
}
