/**
 * Selection rules of the TAXII client: which API root to use, which
 * collection to read, and how the query of an objects page is rewritten.
 * The HTTP requests themselves are not modelled; their decoded answers are
 * the inputs here.
 */
module Taxii {
  import opened Wrappers
  import opened Strings
  import opened Sequences
  import opened Tally

  /** DEFAULT_COLLECTION_TITLE, ALERTS_API_PATH with its trailing slash stripped. */
  const DefaultCollectionTitle: string := "Alerts"
  const AlertsSuffix: string := "/alerts"

  /** A root written with exactly one trailing slash. */
  function WithOneSlash(root: string): (r: string)
    ensures |r| >= 1 && r[|r| - 1] == '/'
    ensures r[..|r| - 1] == RStrip(root, '/')
    ensures |r| == 1 || r[|r| - 2] != '/'
  {
    var r := RStrip(root, '/') + "/";
    assert r[..|r| - 1] == RStrip(root, '/');
    r
  }

  /** Normalising twice changes nothing. */
  lemma WithOneSlashIdempotent(root: string)
    ensures WithOneSlash(WithOneSlash(root)) == WithOneSlash(root)
  {
    var stripped := RStrip(root, '/');
    var once := stripped + "/";
    assert once[..|once| - 1] == stripped;
    assert RStrip(once, '/') == RStrip(stripped, '/');
  }

  predicate IsAlertsRoot(root: string) {
    EndsWith(RStrip(root, '/'), AlertsSuffix)
  }

  /** Index of the first root at or after position from that names the alerts API, if any. */
  function FirstAlertsRoot(roots: seq<string>, from: nat): (r: Option<nat>)
    requires from <= |roots|
    ensures r.Some? ==> (from <= r.value < |roots| && IsAlertsRoot(roots[r.value])
                         && forall j :: from <= j < r.value ==> !IsAlertsRoot(roots[j]))
    ensures r.None? ==> forall j :: from <= j < |roots| ==> !IsAlertsRoot(roots[j])
    decreases |roots| - from
  {
    if from == |roots| then None
    else if IsAlertsRoot(roots[from]) then Some(from)
    else FirstAlertsRoot(roots, from + 1)
  }

  /**
   * _discover_api_root after the discovery request: an error when no root is
   * advertised, else the first alerts root, else the first root, with one
   * trailing slash.
   */
  function DiscoverApiRoot(roots: seq<string>): (r: Result<string>)
    ensures roots == [] <==> r.Err?
    ensures r.Ok? ==> exists i :: (0 <= i < |roots| && r.value == WithOneSlash(roots[i])
      && (IsAlertsRoot(roots[i]) || (i == 0 && forall j :: 0 <= j < |roots| ==> !IsAlertsRoot(roots[j])))
      && forall j :: 0 <= j < i ==> !IsAlertsRoot(roots[j]))
  {
    if roots == [] then Err("No API roots advertised by TAXII discovery endpoint")
    else
      match FirstAlertsRoot(roots, 0)
      case Some(i) => Ok(WithOneSlash(roots[i]))
      case None => Ok(WithOneSlash(roots[0]))
  }

  /** Re-discovering from the chosen root alone returns that same root. */
  lemma DiscoverApiRootStable(roots: seq<string>)
    requires DiscoverApiRoot(roots).Ok?
    ensures DiscoverApiRoot([DiscoverApiRoot(roots).value]) == DiscoverApiRoot(roots)
  {
    var chosen := DiscoverApiRoot(roots).value;
    var i :| 0 <= i < |roots| && chosen == WithOneSlash(roots[i]);
    WithOneSlashIdempotent(roots[i]);
  }

  /**
   * A collection as advertised by the collections endpoint, with the keys
   * the objects URL is derived from (`objects`, `url`, `api_root`).
   */
  datatype Collection = Collection(
    id: Option<string>,
    title: Option<string>,
    objects: Option<string>,
    url: Option<string>,
    apiRoot: Option<string>)

  predicate IsAlertsCollection(c: Collection) {
    Contains(Lower(c.title.GetOr("")), Lower(DefaultCollectionTitle))
  }

  /** Index of the first collection whose title contains "alerts" in any case. */
  function FirstAlertsCollection(cs: seq<Collection>): (r: Option<nat>)
    ensures r.Some? ==> (r.value < |cs| && IsAlertsCollection(cs[r.value])
                         && forall j :: 0 <= j < r.value ==> !IsAlertsCollection(cs[j]))
    ensures r.None? ==> forall j :: 0 <= j < |cs| ==> !IsAlertsCollection(cs[j])
  {
    if cs == [] then None
    else if IsAlertsCollection(cs[0]) then Some(0)
    else
      match FirstAlertsCollection(cs[1..])
      case None => None
      case Some(i) => Some(i + 1)
  }

  /** _select_collection after the collections request. */
  function SelectCollection(cs: seq<Collection>): (r: Result<Collection>)
    ensures cs == [] <==> r.Err?
    ensures r.Ok? ==> exists i :: (0 <= i < |cs| && r.value == cs[i]
      && (IsAlertsCollection(cs[i]) || (i == 0 && forall j :: 0 <= j < |cs| ==> !IsAlertsCollection(cs[j])))
      && forall j :: 0 <= j < i ==> !IsAlertsCollection(cs[j]))
  {
    if cs == [] then Err("No collections available on TAXII server")
    else
      match FirstAlertsCollection(cs)
      case Some(i) => Ok(cs[i])
      case None => Ok(cs[0])
  }

  /** The title test ignores case: "ALERTS", "Alerts" and "alerts" all qualify. */
  lemma AlertsTitleAnyCase(title: string)
    ensures IsAlertsCollection(Collection(None, Some(title), None, None, None)) <==> Contains(Lower(title), "alerts")
  {
    assert Lower(DefaultCollectionTitle) == "alerts";
  }

  // ----- query parameters of an objects page -----

  /** An insertion-ordered dictionary of query parameters, as urlencode emits it. */
  type Params = seq<(string, string)>

  function Keys(p: Params): (r: seq<string>)
    ensures |r| == |p| && forall i :: 0 <= i < |p| ==> r[i] == p[i].0
  {
    seq(|p|, i requires 0 <= i < |p| => p[i].0)
  }

  lemma KeysCons(x: (string, string), p: Params)
    ensures Keys([x] + p) == [x.0] + Keys(p)
  {
  }

  lemma KeysSnoc(p: Params, x: (string, string))
    ensures Keys(p + [x]) == Keys(p) + [x.0]
  {
  }

  function Lookup(p: Params, k: string): (r: Option<string>)
    ensures r.Some? <==> k in Keys(p)
  {
    if p == [] then None
    else if p[0].0 == k then Some(p[0].1)
    else Lookup(p[1..], k)
  }

  /** params[k] = v: an existing key keeps its place, a new one goes last. */
  function SetParam(p: Params, k: string, v: string): (r: Params)
    ensures Lookup(r, k) == Some(v)
    ensures forall k' :: k' != k ==> Lookup(r, k') == Lookup(p, k')
  {
    if p == [] then [(k, v)]
    else if p[0].0 == k then [(k, v)] + p[1..]
    else [p[0]] + SetParam(p[1..], k, v)
  }

  lemma ConsSnoc(x: string, a: seq<string>, y: string)
    ensures ([x] + a) + [y] == [x] + (a + [y])
  {
  }

  /** An existing key keeps its place; a new key is appended. */
  lemma {:induction false} SetParamKeys(p: Params, k: string, v: string)
    ensures k in Keys(p) ==> Keys(SetParam(p, k, v)) == Keys(p)
    ensures k !in Keys(p) ==> Keys(SetParam(p, k, v)) == Keys(p) + [k]
  {
    if p != [] {
      assert p == [p[0]] + p[1..];
      KeysCons(p[0], p[1..]);
      if p[0].0 == k {
        KeysCons((k, v), p[1..]);
      } else {
        var rest := SetParam(p[1..], k, v);
        assert SetParam(p, k, v) == [p[0]] + rest;
        SetParamKeys(p[1..], k, v);
        KeysCons(p[0], rest);
        ConsSnoc(p[0].0, Keys(p[1..]), k);
      }
    }
  }

  /** Setting a parameter never duplicates a key. */
  lemma SetParamDistinct(p: Params, k: string, v: string)
    requires Distinct(Keys(p))
    ensures Distinct(Keys(SetParam(p, k, v)))
  {
    SetParamKeys(p, k, v);
    if k !in Keys(p) {
      DistinctSnoc(Keys(p), k);
    }
  }

  /** params.pop(k, None). */
  function PopParam(p: Params, k: string): (r: Params)
    ensures Lookup(r, k) == None
    ensures forall k' :: k' != k ==> Lookup(r, k') == Lookup(p, k')
    ensures forall k' :: k' in Keys(r) <==> k' in Keys(p) && k' != k
  {
    if p == [] then []
    else
      var rest := PopParam(p[1..], k);
      assert p == [p[0]] + p[1..];
      KeysCons(p[0], p[1..]);
      if p[0].0 == k then rest
      else
        KeysCons(p[0], rest);
        [p[0]] + rest
  }

  /** Removing a parameter never duplicates a key. */
  lemma {:induction false} PopParamDistinct(p: Params, k: string)
    requires Distinct(Keys(p))
    ensures Distinct(Keys(PopParam(p, k)))
  {
    if p != [] {
      var rest := PopParam(p[1..], k);
      assert p == [p[0]] + p[1..];
      KeysCons(p[0], p[1..]);
      DistinctCons(p[0].0, Keys(p[1..]));
      PopParamDistinct(p[1..], k);
      if p[0].0 != k {
        KeysCons(p[0], rest);
        DistinctCons(p[0].0, Keys(rest));
      }
    }
  }

  /** The value the last pair with key k gives, as dict(pairs) keeps it. */
  function LastValue(pairs: seq<(string, string)>, k: string): Option<string> {
    if pairs == [] then None
    else if pairs[|pairs| - 1].0 == k then Some(pairs[|pairs| - 1].1)
    else LastValue(pairs[..|pairs| - 1], k)
  }

  /** dict(parse_qsl(query)): later pairs override earlier ones, keys stay in first-seen order. */
  function FromPairs(pairs: seq<(string, string)>): (r: Params)
    ensures forall k :: Lookup(r, k) == LastValue(pairs, k)
  {
    if pairs == [] then []
    else
      var last := pairs[|pairs| - 1];
      SetParam(FromPairs(pairs[..|pairs| - 1]), last.0, last.1)
  }

  /** The keys of dict(pairs) are the distinct keys of pairs, in first-seen order. */
  lemma {:induction false} FromPairsKeys(pairs: seq<(string, string)>)
    ensures Keys(FromPairs(pairs)) == FirstSeen(Keys(pairs))
  {
    if pairs != [] {
      var init := pairs[..|pairs| - 1];
      var last := pairs[|pairs| - 1];
      FromPairsKeys(init);
      SetParamKeys(FromPairs(init), last.0, last.1);
      SplitLast(pairs);
      KeysSnoc(init, last);
      FirstSeenSnoc(Keys(init), last.0);
      FirstSeenFacts(Keys(init));
    }
  }

  /**
   * _build_page_url on the query of the objects URL: "limit" is set to the
   * page size, "next" to a truthy token or removed, everything else kept.
   */
  function BuildPageQuery(query: seq<(string, string)>, limit: int, nextToken: Option<string>): (r: Params)
    ensures Lookup(r, "limit") == Some(IntToString(limit))
    ensures nextToken.Some? && nextToken.value != "" ==> Lookup(r, "next") == nextToken
    ensures !(nextToken.Some? && nextToken.value != "") ==> Lookup(r, "next") == None
    ensures forall k :: k != "limit" && k != "next" ==> Lookup(r, k) == LastValue(query, k)
  {
    var params := SetParam(FromPairs(query), "limit", IntToString(limit));
    if nextToken.Some? && nextToken.value != "" then SetParam(params, "next", nextToken.value)
    else PopParam(params, "next")
  }

  /** The rebuilt query names every parameter once. */
  lemma BuildPageQueryDistinct(query: seq<(string, string)>, limit: int, nextToken: Option<string>)
    ensures Distinct(Keys(BuildPageQuery(query, limit, nextToken)))
  {
    FromPairsKeys(query);
    FirstSeenFacts(Keys(query));
    var params := SetParam(FromPairs(query), "limit", IntToString(limit));
    SetParamDistinct(FromPairs(query), "limit", IntToString(limit));
    if nextToken.Some? && nextToken.value != "" {
      SetParamDistinct(params, "next", nextToken.value);
    } else {
      PopParamDistinct(params, "next");
    }
  }

  /** Rebuilding the page query with the same limit and token changes nothing in its lookups. */
  lemma BuildPageQueryStable(query: seq<(string, string)>, limit: int, nextToken: Option<string>, k: string)
    ensures Lookup(BuildPageQuery(BuildPageQuery(query, limit, nextToken), limit, nextToken), k)
         == Lookup(BuildPageQuery(query, limit, nextToken), k)
  {
    var p := BuildPageQuery(query, limit, nextToken);
    BuildPageQueryDistinct(query, limit, nextToken);
    if k != "limit" && k != "next" {
      DictOfDistinct(p, k);
    }
  }

  /** dict() of a dictionary's own pairs looks every key up the same way. */
  lemma {:induction false} DictOfDistinct(p: Params, k: string)
    requires Distinct(Keys(p))
    ensures LastValue(p, k) == Lookup(p, k)
  {
    if p != [] {
      var init := p[..|p| - 1];
      var last := p[|p| - 1];
      assert p == init + [last];
      KeysSnoc(init, last);
      DistinctSnoc(Keys(init), last.0);
      DictOfDistinct(init, k);
      LookupSnoc(init, last, k);
    }
  }

  lemma {:induction false} LookupSnoc(p: Params, last: (string, string), k: string)
    requires last.0 !in Keys(p)
    ensures Lookup(p + [last], k) == if k in Keys(p) then Lookup(p, k) else if last.0 == k then Some(last.1) else None
  {
    if p != [] {
      assert (p + [last])[1..] == p[1..] + [last];
      assert p == [p[0]] + p[1..];
      KeysCons(p[0], p[1..]);
      LookupSnoc(p[1..], last, k);
    }
  }

  // ----- the objects of a collection -----

  predicate Present(o: Option<string>) {
    o.Some? && o.value != ""
  }

  /** Python's f-string rendering of an optional value: None prints as "None". */
  function Shown(o: Option<string>): string {
    if o.Some? then o.value else "None"
  }

  /** The two `setdefault` calls of get_dashboard_payload: api_root and url are filled in when absent. */
  function WithDefaults(c: Collection, apiRoot: string): (r: Collection)
    ensures r.id == c.id && r.title == c.title && r.objects == c.objects
    ensures c.apiRoot.Some? ==> r.apiRoot == c.apiRoot
    ensures c.apiRoot.None? ==> r.apiRoot == Some(apiRoot)
    ensures c.url.Some? ==> r.url == c.url
    ensures c.url.None? ==> r.url == Some(apiRoot + "collections/" + Shown(c.id) + "/")
  {
    c.(apiRoot := if c.apiRoot.Some? then c.apiRoot else Some(apiRoot),
       url := if c.url.Some? then c.url else Some(apiRoot + "collections/" + Shown(c.id) + "/"))
  }

  /**
   * The objects URL of _fetch_objects: the `objects` entry, else `url` +
   * "objects/", else built from api_root and id, else an error.
   */
  function ObjectsUrl(c: Collection): (r: Result<string>)
    ensures Present(c.objects) ==> r == Ok(c.objects.value)
    ensures !Present(c.objects) && Present(c.url) ==> r == Ok(c.url.value + "objects/")
    ensures !Present(c.objects) && !Present(c.url) && Present(c.apiRoot) && Present(c.id)
            ==> r == Ok(c.apiRoot.value + "collections/" + c.id.value + "/objects/")
    ensures r.Err? <==> !Present(c.objects) && !Present(c.url) && !(Present(c.apiRoot) && Present(c.id))
    ensures r.Err? ==> r.message == "Unable to determine objects URL for the TAXII collection"
  {
    if Present(c.objects) then Ok(c.objects.value)
    else if Present(c.url) then Ok(c.url.value + "objects/")
    else if Present(c.apiRoot) && Present(c.id) then Ok(c.apiRoot.value + "collections/" + c.id.value + "/objects/")
    else Err("Unable to determine objects URL for the TAXII collection")
  }

  /** After the defaults are filled in, only an explicitly empty `url` can leave no objects URL. */
  lemma DefaultsGiveObjectsUrl(c: Collection, apiRoot: string)
    ensures ObjectsUrl(WithDefaults(c, apiRoot)).Err? ==> c.url == Some("") && !Present(c.objects)
  {
  }

  /** One decoded objects page: its objects and its `next` token. */
  datatype Page<T> = Page(objects: seq<T>, next: Option<string>)

  /** The `safety` bound on the number of page requests. */
  const MaxPages: nat := 1000

  function Prepend<T>(xs: seq<T>, r: Result<seq<T>>): Result<seq<T>> {
    match r
    case Ok(v) => Ok(xs + v)
    case Err(m) => Err(m)
  }

  /**
   * What the paging loop collects from `token` on with `budget` requests
   * left, when the page for a token is `fetch(token)` (a failed request is an
   * Err): each page's objects in order, until a page without a truthy
   * `next`, a failed request, or the end of the budget.
   */
  function Crawl<T>(fetch: Option<string> -> Result<Page<T>>, token: Option<string>, budget: nat): Result<seq<T>>
    decreases budget
  {
    if budget == 0 then Ok([])
    else
      match fetch(token)
      case Err(m) => Err(m)
      case Ok(page) =>
        if Present(page.next) then Prepend(page.objects, Crawl(fetch, page.next, budget - 1))
        else Ok(page.objects)
  }

  /** A failed request fails the whole crawl with its message; otherwise pages concatenate. */
  lemma CrawlFirstPage<T>(fetch: Option<string> -> Result<Page<T>>, token: Option<string>, budget: nat)
    requires budget > 0
    ensures fetch(token).Err? ==> Crawl(fetch, token, budget) == Err(fetch(token).message)
    ensures fetch(token).Ok? && !Present(fetch(token).value.next)
            ==> Crawl(fetch, token, budget) == Ok(fetch(token).value.objects)
    ensures (fetch(token).Ok? && Present(fetch(token).value.next) && Crawl(fetch, fetch(token).value.next, budget - 1).Ok?)
            ==> Crawl(fetch, token, budget)
                == Ok(fetch(token).value.objects + Crawl(fetch, fetch(token).value.next, budget - 1).value)
  {
  }

  /** A crawl that failed within a budget fails the same way with one more page of budget. */
  lemma {:induction false} CrawlBudgetMonotone<T>(fetch: Option<string> -> Result<Page<T>>, token: Option<string>, budget: nat)
    ensures Crawl(fetch, token, budget).Err? ==> Crawl(fetch, token, budget + 1) == Crawl(fetch, token, budget)
    decreases budget
  {
    if budget > 0 {
      match fetch(token)
      case Err(m) =>
      case Ok(page) =>
        if Present(page.next) {
          CrawlBudgetMonotone(fetch, page.next, budget - 1);
        }
    }
  }

  lemma PrependNil<T>(r: Result<seq<T>>)
    ensures Prepend([], r) == r
  {
    match r
    case Ok(v) => assert [] + v == v;
    case Err(m) =>
  }

  lemma PrependAppend<T>(xs: seq<T>, ys: seq<T>, r: Result<seq<T>>)
    ensures Prepend(xs, Prepend(ys, r)) == Prepend(xs + ys, r)
  {
    match r
    case Ok(v) => assert xs + (ys + v) == (xs + ys) + v;
    case Err(m) =>
  }

  /**
   * The page loop of _fetch_objects: request pages by token, append their
   * objects, follow a truthy `next`, and stop after MaxPages requests.
   */
  method FetchPages<T>(fetch: Option<string> -> Result<Page<T>>) returns (r: Result<seq<T>>)
    ensures r == Crawl(fetch, None, MaxPages)
  {
    var collected: seq<T> := [];
    var token: Option<string> := None;
    var more := true;
    var safety: nat := 0;
    PrependNil(Crawl(fetch, None, MaxPages));
    while more && safety < MaxPages
      invariant safety <= MaxPages
      invariant more ==> Crawl(fetch, None, MaxPages) == Prepend(collected, Crawl(fetch, token, MaxPages - safety))
      invariant !more ==> Crawl(fetch, None, MaxPages) == Ok(collected)
      decreases MaxPages - safety
    {
      var response := fetch(token);
      if response.Err? {
        return Err(response.message);
      }
      var page := response.value;
      PrependAppend(collected, page.objects, Crawl(fetch, page.next, MaxPages - safety - 1));
      if page.next.Some? && page.next.value != "" {
        token := page.next;
      } else {
        more := false;
        assert collected + page.objects + [] == collected + page.objects;
      }
      collected := collected + page.objects;
      safety := safety + 1;
    }
    if more {
      assert collected + [] == collected;
    }
    return Ok(collected);
  }
}
