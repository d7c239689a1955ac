/** The request both components send to the repository-search endpoint and
    the two fields they read from its response. The request is the ordered
    parameter list handed to `new URLSearchParams({...})`; it is the cache
    identity of the request as well, so it is shown to determine, and be
    determined by, the query, the sort key and the page. */
module SearchApi {
  import opened JsString

  /** Repositories per page: the `per_page` parameter and the factor of the rank. */
  const PageSize: nat := 25

  datatype Param = Param(name: string, value: string)

  /** The parameter names, in insertion order. */
  const ParamNames: seq<string> := ["q", "sort", "order", "per_page", "page"]

  function Names(ps: seq<Param>): (ns: seq<string>)
    ensures |ns| == |ps|
    ensures forall k :: 0 <= k < |ps| ==> ns[k] == ps[k].name
  {
    if ps == [] then [] else [ps[0].name] + Names(ps[1..])
  }

  /** `{ q, sort, order: "desc", per_page: "25", page: String(page) }`. */
  function RequestParams(q: string, sort: string, page: nat): (ps: seq<Param>)
    ensures Names(ps) == ParamNames
    ensures ps[0].value == q && ps[1].value == sort
    ensures ps[2].value == "desc" && ps[3].value == NatToString(PageSize)
    ensures IsCanonicalDecimal(ps[4].value) && ParseDigits(ps[4].value) == page
  {
    NatToStringRoundTrip(page);
    [Param("q", q), Param("sort", sort), Param("order", "desc"),
     Param("per_page", "25"), Param("page", NatToString(page))]
  }

  datatype Request = Request(q: string, sort: string, page: nat)

  /** Reads a parameter list of the shape `RequestParams` produces back into
      its query, sort key and page; `None` for any other list. */
  function DecodeParams(ps: seq<Param>): Option<Request> {
    if && Names(ps) == ParamNames
       && ps[2].value == "desc" && ps[3].value == "25"
       && IsCanonicalDecimal(ps[4].value)
    then Some(Request(ps[0].value, ps[1].value, ParseDigits(ps[4].value)))
    else None
  }

  lemma DecodeRequestParams(q: string, sort: string, page: nat)
    ensures DecodeParams(RequestParams(q, sort, page)) == Some(Request(q, sort, page))
  {
  }

  /** Every list that decodes is the parameter list of what it decodes to. */
  lemma RequestParamsOfDecode(ps: seq<Param>)
    requires DecodeParams(ps).Some?
    ensures var r := DecodeParams(ps).value; RequestParams(r.q, r.sort, r.page) == ps
  {
    var r := DecodeParams(ps).value;
    ParseDigitsRoundTrip(ps[4].value);
    var qs := RequestParams(r.q, r.sort, r.page);
    assert Names(qs) == Names(ps);
    forall k | 0 <= k < 5 ensures qs[k] == ps[k] {
      assert qs[k].name == ParamNames[k] == ps[k].name;
    }
  }

  /** Two requests are the same cache key exactly when they agree on the
      query, the sort key and the page. */
  lemma RequestParamsInjective(q1: string, s1: string, p1: nat, q2: string, s2: string, p2: nat)
    ensures RequestParams(q1, s1, p1) == RequestParams(q2, s2, p2) <==> q1 == q2 && s1 == s2 && p1 == p2
  {
  }

  /** A repository record; the components only pass it on to the card that renders it. */
  datatype Repo = Repo(id: int)

  /** The parsed response body as far as the components read it: `items`
      and `total_count`, either of which may be missing. `data` itself is
      `None` before any response arrived or while no request is issued. */
  datatype Payload = Payload(items: Option<seq<Repo>>, totalCount: Option<int>)

  /** `data?.items || []`. */
  function Repos(data: Option<Payload>): (r: seq<Repo>)
    ensures data.Some? && data.value.items.Some? ==> r == data.value.items.value
    ensures data.None? || data.value.items.None? ==> r == []
  {
    match data
    case None => []
    case Some(p) => if p.items.Some? then p.items.value else []
  }

  /** `data?.total_count || 0`. */
  function TotalCount(data: Option<Payload>): (n: int)
    ensures data.Some? && data.value.totalCount.Some? ==> n == data.value.totalCount.value
    ensures data.None? || data.value.totalCount.None? ==> n == 0
  {
    if data.Some? && data.value.totalCount.Some? && data.value.totalCount.value != 0
    then data.value.totalCount.value
    else 0
  }
}
