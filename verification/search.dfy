/** Node 2 of the pipeline (`search_naver_items`): one shopping search per
    checklist entry, results collected in entry order. The HTTP call itself is
    the `search` parameter. */
module Search {
  import opened Wrappers
  import opened Checklist

  /** A shopping listing, reduced to the two fields node 3 reads. */
  datatype Listing = Listing(title: string, lprice: string)

  /** The query parameters of one search: `query`, `display`, `start`, `sort`. */
  datatype Request = Request(query: string, display: nat, start: nat, sort: string)

  /** The service's answer: the HTTP status and the JSON body's `items`
      array, `None` when the body has no such key. */
  datatype Response = Response(status: int, items: Option<seq<Listing>>)

  /** One result group: the keyword searched and the listings it produced. */
  datatype Group = Group(keyword: string, items: seq<Listing>)

  /** Listings requested per keyword. */
  const PageSize: nat := 3

  /** The search request for one keyword: the first page of three, sorted by similarity. */
  function RequestFor(keyword: string): Request {
    Request(keyword, PageSize, 1, "sim")
  }

  /** `response.json().get("items", []) if response.status_code == 200 else []`. */
  function Listings(response: Response): seq<Listing> {
    if response.status == 200 then response.items.GetOr([]) else []
  }

  /** The search loop: one group per entry, in entry order, each carrying the
      entry's keyword and the listings its own request returned. */
  function SearchAll(keywords: seq<Keyword>, search: Request -> Response): (groups: seq<Group>)
    ensures |groups| == |keywords|
    ensures forall i :: 0 <= i < |groups| ==> groups[i].keyword == keywords[i].keyword
    ensures forall i :: 0 <= i < |groups| ==>
      groups[i].items == Listings(search(RequestFor(keywords[i].keyword)))
  {
    if |keywords| == 0 then []
    else
      var keyword := keywords[0].keyword;
      [Group(keyword, Listings(search(RequestFor(keyword))))] + SearchAll(keywords[1..], search)
  }

  /** A request answered with any status other than 200 leaves its group empty. */
  lemma FailedRequestEmptiesGroup(keywords: seq<Keyword>, search: Request -> Response, i: nat)
    requires i < |keywords|
    requires search(RequestFor(keywords[i].keyword)).status != 200
    ensures SearchAll(keywords, search)[i].items == []
  {
    var response := search(RequestFor(keywords[i].keyword));
    assert Listings(response) == [];
  }

  /** Each group depends on its own response only: two search services that
      answer one entry's request alike give that entry the same group, however
      they answer the others. */
  lemma GroupDependsOnOwnRequest(keywords: seq<Keyword>, search: Request -> Response, search': Request -> Response, i: nat)
    requires i < |keywords|
    ensures search'(RequestFor(keywords[i].keyword)) == search(RequestFor(keywords[i].keyword)) ==>
      SearchAll(keywords, search')[i] == SearchAll(keywords, search)[i]
  {
  }

  /** Searching a concatenation of entry lists concatenates the groups: the
      fan-out keeps entry order. */
  lemma {:induction false} SearchAllAppend(a: seq<Keyword>, b: seq<Keyword>, search: Request -> Response)
    ensures SearchAll(a + b, search) == SearchAll(a, search) + SearchAll(b, search)
  {
    if |a| == 0 {
      assert a + b == b;
    } else {
      assert (a + b)[1..] == a[1..] + b;
      SearchAllAppend(a[1..], b, search);
    }
  }
}
