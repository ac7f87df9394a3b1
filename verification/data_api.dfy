/** The two request handlers of the `/data` resource over an in-memory,
    insertion-ordered store of records.

    GET /data parses the `page` query value with `parseInt(page, 10) || 1`,
    reads `skip((page - 1) * 5).limit(5)` from the store and answers
    `{ data, totalPages, currentPage }`. POST /data rejects a body whose
    `name`, `address` or `phone` is missing or empty and otherwise appends
    one record. */
module DataApi {
  import opened Wrappers
  import JsParseInt
  import Pagination

  /** A stored entry. The store's id and timestamps are not modelled. */
  datatype Record = Record(name: string, address: string, phone: string)

  /** The collection, oldest record first. */
  type Store = seq<Record>

  const FetchErrorMessage: string := "Error fetching data"
  const MissingFieldsMessage: string := "All fields are required."

  /** The JSON body of a successful listing. */
  datatype PageBody = PageBody(data: seq<Record>, totalPages: nat, currentPage: int)

  datatype ListResponse = Listed(body: PageBody) | FetchFailed(message: string) {
    function Status(): nat {
      if Listed? then 200 else 500
    }
  }

  /** The three fields of a POST body; `None` is a field that is absent. */
  datatype Body = Body(name: Option<string>, address: Option<string>, phone: Option<string>)

  datatype CreateResponse = Created(record: Record) | Rejected(message: string) {
    function Status(): nat {
      if Created? then 201 else 400
    }
  }

  /** The store after a POST, and the answer sent. */
  datatype CreateOutcome = CreateOutcome(store: Store, response: CreateResponse)

  // ---------------------------------------------------------------- GET /data

  /** `parseInt(raw, 10)` on the query value; an absent value is
      `undefined`, which parses to NaN. */
  function ParseQuery(raw: Option<string>): (r: Option<int>)
    ensures r.Some? ==> raw.Some? && exists i :: 0 <= i < |raw.value| && JsParseInt.IsDecimalDigit(raw.value[i])
  {
    match raw
    case None => None
    case Some(s) => JsParseInt.ParseInt(s)
  }

  /** `parseInt(raw, 10) || 1`: NaN and 0 are falsy and give 1; any other
      integer, negative ones included, is kept. */
  function PageParam(raw: Option<string>): (page: int)
    ensures page != 0
    ensures page == 1 <==> ParseQuery(raw) in {None, Some(0), Some(1)}
    ensures ParseQuery(raw).Some? && ParseQuery(raw).value != 0 ==> page == ParseQuery(raw).value
  {
    match ParseQuery(raw)
    case None => 1
    case Some(n) => if n == 0 then 1 else n
  }

  /** The handler once the page number is known. A page below 1 makes the
      skip negative, which the store refuses; the handler's catch answers
      500. */
  function ListPage(store: Store, page: int): (r: ListResponse)
    ensures r.Listed? <==> page >= 1
    ensures r.Status() == (if page >= 1 then 200 else 500)
    ensures r.FetchFailed? ==> r.message == FetchErrorMessage
    ensures r.Listed? ==>
      var offset := (page - 1) * Pagination.PageSize;
      && r.body.currentPage == page
      && r.body.totalPages == Pagination.TotalPages(|store|)
      && |r.body.data| <= Pagination.PageSize
      && r.body.data == store[Pagination.Min(offset, |store|)..Pagination.Min(offset + Pagination.PageSize, |store|)]
  {
    var offset := Pagination.Offset(page);
    if offset < 0 then FetchFailed(FetchErrorMessage)
    else
      Listed(PageBody(
        Pagination.Limit(Pagination.Skip(store, offset), Pagination.PageSize),
        Pagination.TotalPages(|store|),
        page))
  }

  /** GET /data?page=raw. It answers 200 unless the page parses to a
      negative number; an absent page lists the first five records. */
  function List(store: Store, raw: Option<string>): (r: ListResponse)
    ensures r.Listed? <==> ParseQuery(raw).None? || ParseQuery(raw).value >= 0
    ensures r.Listed? ==> r.body.currentPage >= 1 && r.body.totalPages == Pagination.TotalPages(|store|)
    ensures raw.None? ==> r.Listed? && r.body.data == store[..Pagination.Min(Pagination.PageSize, |store|)]
  {
    ListPage(store, PageParam(raw))
  }

  // --------------------------------------------------------------- POST /data

  /** A JavaScript string field is truthy when present and non-empty: the
      only falsy values it can hold are `undefined` and `""`. */
  predicate Truthy(field: Option<string>) {
    field.Some? && field.value != ""
  }

  /** POST /data with `body`. */
  function Create(store: Store, body: Body): (r: CreateOutcome)
    ensures r.response.Rejected? <==>
      body.name in {None, Some("")} || body.address in {None, Some("")} || body.phone in {None, Some("")}
    ensures r.response.Rejected? ==> r.store == store && r.response.message == MissingFieldsMessage
    ensures r.response.Created? ==>
      && r.response.record == Record(body.name.value, body.address.value, body.phone.value)
      && |r.store| == |store| + 1
      && r.store[..|store|] == store
      && r.store[|store|] == r.response.record
  {
    if !Truthy(body.name) || !Truthy(body.address) || !Truthy(body.phone) then
      CreateOutcome(store, Rejected(MissingFieldsMessage))
    else
      var record := Record(body.name.value, body.address.value, body.phone.value);
      CreateOutcome(store + [record], Created(record))
  }

  // ---------------------------------------------------------------- properties

  /** A `page` value with no decimal digit in it ("abc", "", "-") lists the
      same as an absent one, and both list page 1. */
  lemma NonNumericPageIsFirstPage(store: Store, s: string)
    requires forall i :: 0 <= i < |s| ==> !JsParseInt.IsDecimalDigit(s[i])
    ensures List(store, Some(s)) == List(store, None) == ListPage(store, 1)
  {
    JsParseInt.ParseIntWithoutDigitsIsNaN(s);
  }

  /** A decimal `page` value, with any leading white space and any trailing
      non-digit text, selects that page, except that 0 selects page 1.
      Negative pages are kept, not clamped to 1. */
  lemma PageParamOfNumeral(ws: string, n: int, rest: string)
    requires JsParseInt.AllWhiteSpace(ws)
    requires rest == [] || !JsParseInt.IsDecimalDigit(rest[0])
    ensures PageParam(Some(ws + JsParseInt.IntToString(n) + rest)) == (if n == 0 then 1 else n)
  {
    JsParseInt.ParseIntOfFormatted(ws, n, rest);
  }

  /** Every `page` value that `parseInt` reads a digit run from: an
      optional sign and digits of value `n`, with leading zeros allowed
      ("007" is page 7, "+5" page 5). A run of value 0 gives page 1 under
      either sign, since `-0` is falsy too. */
  lemma PageParamOfSignedDigits(ws: string, sign: string, ds: string, rest: string, n: nat)
    requires JsParseInt.AllWhiteSpace(ws)
    requires sign == "" || sign == "+" || sign == "-"
    requires ds != [] && JsParseInt.AllDigits(ds) && n == JsParseInt.DigitsValue(ds)
    requires rest == [] || !JsParseInt.IsDecimalDigit(rest[0])
    ensures PageParam(Some(ws + (sign + ds + rest))) ==
      if n == 0 then 1 else if sign == "-" then -(n as int) else n
  {
    JsParseInt.ParseIntOfSignedDigits(ws, sign, ds, rest, n);
  }

  /** Every `page` value whose first non-white-space text is neither a
      digit nor a sign followed by a digit ("abc1", "-x", "") gives page 1. */
  lemma PageParamOfNoDigitRun(ws: string, t: string)
    requires JsParseInt.AllWhiteSpace(ws)
    requires t == [] || !JsParseInt.IsStrWhiteSpace(t[0])
    requires t == [] || !JsParseInt.IsDecimalDigit(t[0])
    requires |t| >= 2 && (t[0] == '+' || t[0] == '-') ==> !JsParseInt.IsDecimalDigit(t[1])
    ensures PageParam(Some(ws + t)) == 1
  {
    JsParseInt.ParseIntOfNoDigitRun(ws, t);
  }

  /** Concrete query values that fall back to page 1: absent, non-numeric
      and zero. */
  lemma PageParamFallbackExamples()
    ensures PageParam(None) == 1
    ensures PageParam(Some("abc")) == 1
    ensures PageParam(Some("0")) == 1
  {
    JsParseInt.ParseIntWithoutDigitsIsNaN("abc");
    assert JsParseInt.IntToString(0) == "0";
    PageParamOfNumeral("", 0, "");
    assert "" + "0" + "" == "0";
  }

  /** A negative value passes through. */
  lemma PageParamNegativeExample()
    ensures PageParam(Some("-2")) == -2
  {
    assert JsParseInt.DigitsValue("2") == 2;
    PageParamOfSignedDigits("", "-", "2", "", 2);
    assert "" + ("-" + "2" + "") == "-2";
  }

  /** A negative page survives the parse and the store refuses its
      negative skip, so the answer is a 500. */
  lemma NegativePageFails(store: Store, n: int)
    requires n < 0
    ensures List(store, Some(JsParseInt.IntToString(n))) == FetchFailed(FetchErrorMessage)
  {
    var raw := Some(JsParseInt.IntToString(n));
    JsParseInt.ParseIntRoundTrip(n);
    assert ParseQuery(raw) == Some(n);
    assert PageParam(raw) == n;
  }

  /** `currentPage` echoes the requested page even past the last page,
      where `data` is empty. */
  lemma PagePastTheEndIsEmpty(store: Store, page: int)
    requires page > Pagination.TotalPages(|store|)
    ensures page >= 1 && ListPage(store, page).Listed?
    ensures ListPage(store, page).body == PageBody([], Pagination.TotalPages(|store|), page)
  {
    Pagination.PageNonEmptyIff(store, page);
  }

  /** A listed page has data exactly when it is within `totalPages`. */
  lemma ListedDataNonEmptyIff(store: Store, page: int)
    requires page >= 1
    ensures ListPage(store, page).body.data != [] <==> page <= ListPage(store, page).body.totalPages
  {
    Pagination.PageNonEmptyIff(store, page);
  }

  /** The `data` of listed pages 1 through `k`, concatenated in order. */
  function ListedData(store: Store, k: nat): seq<Record> {
    if k == 0 then [] else ListedData(store, k - 1) + ListPage(store, k).body.data
  }

  /** Listed pages are the store's pages. */
  lemma {:induction false} ListedDataIsPages(store: Store, k: nat)
    ensures ListedData(store, k) == Pagination.Pages(store, k)
  {
    if k > 0 {
      ListedDataIsPages(store, k - 1);
      assert ListPage(store, k).body.data == Pagination.Page(store, k);
    }
  }

  /** Listing pages 1 through `totalPages` and concatenating their `data`
      reproduces the store in insertion order. */
  lemma ListingTilesStore(store: Store)
    ensures forall page :: page >= 1 ==> ListPage(store, page).body.data == Pagination.Page(store, page)
    ensures ListedData(store, Pagination.TotalPages(|store|)) == store
  {
    ListedDataIsPages(store, Pagination.TotalPages(|store|));
    Pagination.PagesTileStore(store);
  }

  /** A rejected POST leaves every listing as it was. */
  lemma RejectedCreateKeepsListing(store: Store, body: Body, raw: Option<string>)
    requires Create(store, body).response.Rejected?
    ensures List(Create(store, body).store, raw) == List(store, raw)
  {
  }

  /** An accepted POST adds its record as the last entry of the last page
      and leaves every other page's data as it was. */
  lemma CreateChangesOnlyLastPage(store: Store, body: Body, page: int)
    requires Create(store, body).response.Created?
    requires page >= 1
    ensures var after := Create(store, body);
      var last := ListPage(after.store, Pagination.TotalPages(|after.store|)).body.data;
      && last != [] && last[|last| - 1] == after.response.record
      && (page != Pagination.TotalPages(|after.store|) ==>
            ListPage(after.store, page).body.data == ListPage(store, page).body.data)
  {
    var after := Create(store, body);
    assert after.store == store + [after.response.record];
    Pagination.AppendLandsOnLastPage(store, after.response.record);
    if page != Pagination.TotalPages(|after.store|) {
      Pagination.AppendChangesOnlyLastPage(store, after.response.record, page);
    }
  }

  /** On a store of fewer than five records, a created record shows up as
      the last entry of the default listing. */
  lemma CreateThenList(store: Store, body: Body)
    requires |store| < Pagination.PageSize
    requires Truthy(body.name) && Truthy(body.address) && Truthy(body.phone)
    ensures var after := Create(store, body);
      var listed := List(after.store, None);
      && after.response.Created?
      && listed.Listed?
      && listed.body.data == after.store
      && listed.body.data[|store|] == Record(body.name.value, body.address.value, body.phone.value)
  {
    var after := Create(store, body);
    assert after.store[..|after.store|] == after.store;
  }
}
