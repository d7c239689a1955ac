/** The search page (`SearchContent`): the text box, the language and sort
    selectors, the request they produce and the pager. The text in the box
    only reaches the request when it is submitted, trimmed; an empty
    submitted text means no request at all. */
module SearchContent {
  import opened JsString
  import opened SearchApi
  import opened Paging

  /** The `q` parameter: the submitted text, followed by ` language:L`
      when a language is chosen. It starts with the submitted text; it is
      exactly that text if and only if no language is chosen, and otherwise
      the rest is ` language:` and the language. */
  function FullQuery(submitted: string, language: string): (q: string)
    ensures |q| >= |submitted| && q[..|submitted|] == submitted
    ensures q == submitted <==> language == ""
    ensures language != "" ==> q[|submitted|..] == " language:" + language
  {
    if language != "" then submitted + " language:" + language else submitted
  }

  /** The search request is the query joined with the language qualifier.
      Text and qualifier are not separated in `q`, so two different
      filter states can make the same request. */
  lemma FullQueryAmbiguous()
    ensures FullQuery("raft language:go", "") == FullQuery("raft", "go")
  {
  }

  /** The key handed to `useSWR`: no request (`None`) while nothing has
      been submitted, otherwise the parameter list, which decodes to the
      full query, the sort key and the page. */
  function SearchRequest(submitted: string, language: string, sort: string, page: nat): (r: Option<seq<Param>>)
    ensures r.None? <==> submitted == ""
    ensures r.Some? ==> DecodeParams(r.value) == Some(Request(FullQuery(submitted, language), sort, page))
  {
    if submitted == "" then None
    else
      DecodeRequestParams(FullQuery(submitted, language), sort, page);
      Some(RequestParams(FullQuery(submitted, language), sort, page))
  }

  /** The example of the search endpoint: "raft" in Go, by stars, page 2. */
  lemma RaftExample()
    ensures SearchRequest("raft", "go", "stars", 2) == Some([
      Param("q", "raft language:go"), Param("sort", "stars"), Param("order", "desc"),
      Param("per_page", "25"), Param("page", "2")])
  {
    assert NatToString(2) == "2";
    assert FullQuery("raft", "go") == "raft language:go";
  }

  /** The component's state. */
  class SearchState {
    var query: string
    var submittedQuery: string
    var language: string
    var sort: string
    var page: int

    /** The page never drops below 1 and what was submitted is always trimmed. */
    ghost predicate Valid()
      reads this
    {
      page >= 1 && IsTrimmed(submittedQuery)
    }

    /** The request the current state makes: none while nothing is
        submitted, otherwise the full query, the sort key and the page. */
    function Key(): (k: Option<seq<Param>>)
      reads this
      requires page >= 1
      ensures k.None? <==> submittedQuery == ""
      ensures k.Some? ==> DecodeParams(k.value) == Some(Request(FullQuery(submittedQuery, language), sort, page))
    {
      SearchRequest(submittedQuery, language, sort, page)
    }

    /** The initial state: nothing typed or submitted, any language, by stars, page 1. */
    constructor ()
      ensures Valid()
      ensures query == "" && submittedQuery == "" && language == "" && sort == "stars" && page == 1
      ensures Key().None?
    {
      query, submittedQuery, language, sort, page := "", "", "", "stars", 1;
    }

    /** Typing into the box (`onChange={e => setQuery(e.target.value)}`):
        only the box's text changes, never the request. */
    method Type(text: string)
      requires Valid()
      modifies this
      ensures Valid()
      ensures query == text
      ensures submittedQuery == old(submittedQuery) && language == old(language)
      ensures sort == old(sort) && page == old(page)
      ensures Key() == old(Key())
    {
      query := text;
    }

    /** `handleSubmit`: a blank box does nothing; otherwise the trimmed
        text is submitted and the page goes back to 1. */
    method Submit()
      requires Valid()
      modifies this
      ensures Valid()
      ensures query == old(query) && language == old(language) && sort == old(sort)
      ensures Trim(old(query)) == "" ==> submittedQuery == old(submittedQuery) && page == old(page)
      ensures Trim(old(query)) != "" ==> submittedQuery == Trim(old(query)) && page == 1
      ensures Trim(old(query)) != "" ==> Key().Some?
    {
      var trimmed := Trim(query);
      if trimmed != "" {
        submittedQuery := trimmed;
        page := 1;
      }
    }

    /** The language selector's `onChange`: sets the language and returns
        to page 1; re-setting `submittedQuery` to itself changes nothing. */
    method ChangeLanguage(value: string)
      requires Valid()
      modifies this
      ensures Valid()
      ensures language == value && page == 1
      ensures query == old(query) && submittedQuery == old(submittedQuery) && sort == old(sort)
    {
      language := value;
      page := 1;
      if submittedQuery != "" {
        submittedQuery := submittedQuery;
      }
    }

    /** The sort selector's `onChange`: sets the sort key and returns to page 1. */
    method ChangeSort(value: string)
      requires Valid()
      modifies this
      ensures Valid()
      ensures sort == value && page == 1
      ensures query == old(query) && submittedQuery == old(submittedQuery) && language == old(language)
    {
      sort := value;
      page := 1;
      if submittedQuery != "" {
        submittedQuery := submittedQuery;
      }
    }

    /** A click on Previous while the last response held `itemCount`
        repositories: only a shown, enabled button moves one page back. */
    method ClickPrevious(isLoading: bool, itemCount: nat)
      requires Valid()
      modifies this
      ensures Valid()
      ensures page == if PagerShown(isLoading, itemCount) && PreviousEnabled(old(page)) then old(page) - 1 else old(page)
      ensures query == old(query) && submittedQuery == old(submittedQuery)
      ensures language == old(language) && sort == old(sort)
    {
      if PagerShown(isLoading, itemCount) && PreviousEnabled(page) {
        page := PreviousPage(page);
      }
    }

    /** A click on Next: only a shown button after a full page moves one page on. */
    method ClickNext(isLoading: bool, itemCount: nat)
      requires Valid()
      modifies this
      ensures Valid()
      ensures page == if PagerShown(isLoading, itemCount) && NextEnabled(itemCount) then old(page) + 1 else old(page)
      ensures query == old(query) && submittedQuery == old(submittedQuery)
      ensures language == old(language) && sort == old(sort)
    {
      if PagerShown(isLoading, itemCount) && NextEnabled(itemCount) {
        page := NextPage(page);
      }
    }
  }
}
