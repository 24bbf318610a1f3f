/**
 * Search assembly: one GraphQL request per query, sent in batches of 25; at most one
 * result per response (a user, a page, or the full page of the first search hit); and
 * the results de-duplicated by page URL or user name, first occurrence kept.
 */
module Search {
  import opened Wrappers
  import opened Text
  import opened Seqs
  import opened Crom
  import opened Parse

  const BatchSize: nat := 25

  // ---------------------------------------------------------------- chunks

  /** Successive slices of `s` of length `n`, the last one possibly shorter. */
  function Chunks<T>(s: seq<T>, n: nat): seq<seq<T>>
    requires n > 0
    decreases |s|
  {
    if s == [] then []
    else if |s| <= n then [s]
    else [s[..n]] + Chunks(s[n..], n)
  }

  /** Concatenating the chunks gives back the input. */
  lemma {:induction false} ChunksFlatten<T>(s: seq<T>, n: nat)
    requires n > 0
    ensures Flatten(Chunks(s, n)) == s
    decreases |s|
  {
    if s != [] && |s| > n {
      ChunksFlatten(s[n..], n);
      assert s == s[..n] + s[n..];
    }
  }

  /** Every chunk has `n` elements except the last, which has between 1 and `n`; there are none for an empty input. */
  lemma {:induction false} ChunksLengths<T>(s: seq<T>, n: nat)
    requires n > 0
    ensures s == [] <==> Chunks(s, n) == []
    ensures forall k :: 0 <= k < |Chunks(s, n)| - 1 ==> |Chunks(s, n)[k]| == n
    ensures Chunks(s, n) != [] ==> 0 < |Chunks(s, n)[|Chunks(s, n)| - 1]| <= n
    decreases |s|
  {
    if s != [] && |s| > n {
      ChunksLengths(s[n..], n);
      var rest := Chunks(s[n..], n);
      assert Chunks(s, n) == [s[..n]] + rest;
      assert forall k :: 1 <= k < |Chunks(s, n)| ==> Chunks(s, n)[k] == rest[k - 1];
    }
  }

  // ---------------------------------------------------------------- requests

  datatype QueryDocument = PageByUrl | PageByFreeformText

  /** A GraphQL request: the query document and its variables (`None` is JSON null). */
  datatype Request = Request(document: QueryDocument, variables: map<string, Option<string>>)

  /** A batch of requests goes out; the client answers with one data record per request, or fails. */
  type Client = seq<Request> -> Option<seq<Response>>

  /** How Python formats an optional string inside an f-string. */
  function Show(o: Option<string>): string
  {
    match o
    case Some(s) => s
    case None => "None"
  }

  /** The URL segment of a BARE query: lower case, each space turned into a hyphen. */
  function UrlSegment(v: string): (r: string)
    ensures |r| == |v|
    ensures forall k :: 0 <= k < |v| ==> r[k] != ' ' && r[k] == (if v[k] == ' ' then '-' else Lower(v[k]))
  {
    seq(|v|, k requires 0 <= k < |v| => if v[k] == ' ' then '-' else Lower(v[k]))
  }

  /** The segment is the query lower-cased with every space replaced by a hyphen (`value.lower().replace(" ", "-")`). */
  lemma {:induction false} UrlSegmentIsLowerReplace(v: string)
    ensures UrlSegment(v) == ReplaceAll(LowerStr(v), " ", "-")
  {
    if v != [] {
      var low := LowerStr(v);
      assert low[1..] == LowerStr(v[1..]);
      UrlSegmentIsLowerReplace(v[1..]);
      var head := if v[0] == ' ' then "-" else [low[0]];
      assert ReplaceAll(low, " ", "-") == head + ReplaceAll(low[1..], " ", "-") by {
        assert StartsWith(low, " ") <==> v[0] == ' ';
      }
      assert UrlSegment(v) == head + UrlSegment(v[1..]);
    }
  }

  /** The request for one query; URL and BARE queries send the variable `url`. */
  function BuildRequest(q: SearchQuery): (r: Request)
    ensures q.kind == Freeform <==> r.document == PageByFreeformText
    ensures q.kind != Freeform ==> r.variables.Keys == {"url"}
    ensures q.kind == Bare ==>
      var url := r.variables["url"];
      url.Some? && |url.value| == |Show(q.siteUrl)| + 5 + |q.value|
      && url.value[..|Show(q.siteUrl)| + 5] == Show(q.siteUrl) + "/scp-"
      && url.value[|Show(q.siteUrl)| + 5..] == UrlSegment(q.value)
    ensures q.kind == Url ==> r.variables["url"] == Some(LowerStr(q.value))
    ensures q.kind == Freeform ==> r.variables == map["text" := Some(LowerStr(q.value)), "siteUrl" := q.siteUrl]
  {
    match q.kind
    case Url => Request(PageByUrl, map["url" := Some(LowerStr(q.value))])
    case Bare => Request(PageByUrl, map["url" := Some(Show(q.siteUrl) + "/scp-" + UrlSegment(q.value))])
    case Freeform => Request(PageByFreeformText, map["text" := Some(LowerStr(q.value)), "siteUrl" := q.siteUrl])
  }

  /** The follow-up request for the full record of a search hit. */
  function FollowUp(url: string): Request
  {
    Request(PageByUrl, map["pageUrl" := Some(url)])
  }

  function Requests(qs: seq<SearchQuery>): (r: seq<Request>)
    ensures |r| == |qs| && forall k :: 0 <= k < |qs| ==> r[k] == BuildRequest(qs[k])
  {
    seq(|qs|, k requires 0 <= k < |qs| => BuildRequest(qs[k]))
  }

  /** The batches sent to the client, in order. */
  function Batches(qs: seq<SearchQuery>): (r: seq<seq<Request>>)
    ensures |r| == |Chunks(qs, BatchSize)|
    ensures forall k :: 0 <= k < |r| ==> r[k] == Requests(Chunks(qs, BatchSize)[k])
  {
    var cs := Chunks(qs, BatchSize);
    seq(|cs|, k requires 0 <= k < |cs| => Requests(cs[k]))
  }

  lemma {:induction false} FlattenRequests(cs: seq<seq<SearchQuery>>)
    ensures Flatten(seq(|cs|, k requires 0 <= k < |cs| => Requests(cs[k]))) == Requests(Flatten(cs))
  {
    if cs != [] {
      FlattenRequests(cs[1..]);
      assert seq(|cs| - 1, k requires 0 <= k < |cs| - 1 => Requests(cs[1..][k]))
        == seq(|cs|, k requires 0 <= k < |cs| => Requests(cs[k]))[1..];
      assert Requests(cs[0] + Flatten(cs[1..])) == Requests(cs[0]) + Requests(Flatten(cs[1..]));
    }
  }

  /** One request per query, in input order, in batches of at most 25; no batch at all for no query. */
  lemma BatchesShape(qs: seq<SearchQuery>)
    ensures Flatten(Batches(qs)) == Requests(qs)
    ensures forall b :: b in Batches(qs) ==> 0 < |b| <= BatchSize
    ensures qs == [] <==> Batches(qs) == []
  {
    BatchesFlatten(qs);
    BatchesLengths(qs);
  }

  lemma BatchesFlatten(qs: seq<SearchQuery>)
    ensures Flatten(Batches(qs)) == Requests(qs)
  {
    var cs := Chunks(qs, BatchSize);
    ChunksFlatten(qs, BatchSize);
    FlattenRequests(cs);
    assert Batches(qs) == seq(|cs|, k requires 0 <= k < |cs| => Requests(cs[k]));
  }

  lemma BatchesLengths(qs: seq<SearchQuery>)
    ensures forall b :: b in Batches(qs) ==> 0 < |b| <= BatchSize
    ensures qs == [] <==> Batches(qs) == []
  {
    ChunksLengths(qs, BatchSize);
  }

  // ---------------------------------------------------------------- responses

  /** The responses to the first `n` batches, or `None` once the client has failed. */
  function Collect(batches: seq<seq<Request>>, client: Client, n: nat): Option<seq<Response>>
    requires n <= |batches|
  {
    if n == 0 then Some([])
    else match Collect(batches, client, n - 1)
      case None => None
      case Some(rs) =>
        match client(batches[n - 1])
        case None => None
        case Some(more) => Some(rs + more)
  }

  /** Once the client has failed, the search fails whatever the later batches are. */
  lemma {:induction false} CollectStaysFailed(batches: seq<seq<Request>>, client: Client, n: nat, m: nat)
    requires n <= m <= |batches| && Collect(batches, client, n).None?
    ensures Collect(batches, client, m).None?
    decreases m - n
  {
    if n < m {
      CollectStaysFailed(batches, client, n + 1, m);
    }
  }

  /** A client that answers every batch with one record per request. */
  ghost predicate Answers(client: Client)
  {
    forall b :: client(b).Some? ==> |client(b).value| == |b|
  }

  lemma {:induction false} CollectLength(batches: seq<seq<Request>>, client: Client, n: nat)
    requires n <= |batches| && Answers(client)
    ensures Collect(batches, client, n).Some? ==> |Collect(batches, client, n).value| == |Flatten(batches[..n])|
  {
    if n > 0 {
      CollectLength(batches, client, n - 1);
      assert batches[..n] == batches[..n - 1] + [batches[n - 1]];
      FlattenAppend(batches[..n - 1], batches[n - 1]);
    }
  }

  datatype SearchError = ClientFailed | IndexOutOfRange | MissingKey

  /** A result before de-duplication; a follow-up may come back without a page. */
  datatype Found =
    | FoundUser(user: User)
    | FoundPage(page: Option<Page>, matchingPages: Option<seq<Page>>)

  /** No user is picked: there are no users, or query `i` exists and the first user's name differs from its value. */
  predicate UserMisses(qs: seq<SearchQuery>, i: nat, resp: Response)
  {
    resp.searchUsers == [] || (i < |qs| && !EqualsIgnoreCase(resp.searchUsers[0].displayName, qs[i].value))
  }

  /**
   * The result response `i` gives: the first user when its name equals query `i`'s value
   * ignoring case, else the page, else the full record of the first search hit, else nothing.
   */
  function Select(qs: seq<SearchQuery>, i: nat, resp: Response, client: Client): (r: Result<Option<Found>, SearchError>)
    ensures r.Ok? && r.value.Some? && r.value.value.FoundUser? ==>
      i < |qs| && resp.searchUsers != [] && r.value.value.user == resp.searchUsers[0]
      && EqualsIgnoreCase(resp.searchUsers[0].displayName, qs[i].value)
    ensures resp.wikidotPage.Some? && r.Ok? ==>
      r.value.Some? && (r.value.value.FoundUser? || r.value.value == FoundPage(resp.wikidotPage, resp.matchingPages))
    ensures r.Ok? && r.value.None? ==>
      resp.wikidotPage.None? && resp.searchPages == []
      && (resp.searchUsers == [] || (i < |qs| && !EqualsIgnoreCase(resp.searchUsers[0].displayName, qs[i].value)))
    ensures r == Err(ClientFailed) ==> resp.searchPages != [] && client([FollowUp(resp.searchPages[0])]).None?
    // The order of preference, case by case.
    ensures resp.searchUsers != [] && i >= |qs| ==> r == Err(IndexOutOfRange)
    ensures i < |qs| && resp.searchUsers != [] && EqualsIgnoreCase(resp.searchUsers[0].displayName, qs[i].value) ==>
      r == Ok(Some(FoundUser(resp.searchUsers[0])))
    ensures UserMisses(qs, i, resp) && resp.wikidotPage.Some? ==>
      r == Ok(Some(FoundPage(resp.wikidotPage, resp.matchingPages)))
    ensures UserMisses(qs, i, resp) && resp.wikidotPage.None? && resp.searchPages != [] ==>
      var full := client([FollowUp(resp.searchPages[0])]);
      && (full.None? ==> r == Err(ClientFailed))
      && (full == Some([]) ==> r == Err(IndexOutOfRange))
      && (full.Some? && full.value != [] ==>
            r == Ok(Some(FoundPage(full.value[0].wikidotPage, full.value[0].matchingPages))))
    ensures UserMisses(qs, i, resp) && resp.wikidotPage.None? && resp.searchPages == [] ==> r == Ok(None)
  {
    if resp.searchUsers != [] && i >= |qs| then Err(IndexOutOfRange)
    else if resp.searchUsers != [] && EqualsIgnoreCase(resp.searchUsers[0].displayName, qs[i].value) then
      Ok(Some(FoundUser(resp.searchUsers[0])))
    else if resp.wikidotPage.Some? then Ok(Some(FoundPage(resp.wikidotPage, resp.matchingPages)))
    else if resp.searchPages != [] then
      match client([FollowUp(resp.searchPages[0])])
      case None => Err(ClientFailed)
      case Some(full) =>
        if full == [] then Err(IndexOutOfRange)
        else Ok(Some(FoundPage(full[0].wikidotPage, full[0].matchingPages)))
    else Ok(None)
  }

  function OptionToSeq<T>(o: Option<T>): (r: seq<T>)
    ensures |r| <= 1
  {
    match o
    case Some(x) => [x]
    case None => []
  }

  /** The results of the first `n` responses, stopping at the first error. */
  function SelectAll(qs: seq<SearchQuery>, responses: seq<Response>, client: Client, n: nat): Result<seq<Found>, SearchError>
    requires n <= |responses|
  {
    if n == 0 then Ok([])
    else match SelectAll(qs, responses, client, n - 1)
      case Err(e) => Err(e)
      case Ok(fs) =>
        match Select(qs, n - 1, responses[n - 1], client)
        case Err(e) => Err(e)
        case Ok(o) => Ok(fs + OptionToSeq(o))
  }

  /** The first error ends the selection: later responses do not change it. */
  lemma {:induction false} SelectAllStaysFailed(qs: seq<SearchQuery>, responses: seq<Response>, client: Client, n: nat, m: nat)
    requires n <= m <= |responses| && SelectAll(qs, responses, client, n).Err?
    ensures SelectAll(qs, responses, client, m) == SelectAll(qs, responses, client, n)
    decreases m - n
  {
    if n < m {
      SelectAllStaysFailed(qs, responses, client, n + 1, m);
    }
  }

  /** The de-duplication key: the page URL, or the user name; a missing page has no key. */
  function FoundKey(f: Found): Option<string>
  {
    match f
    case FoundPage(Some(p), _) => Some(p.url)
    case FoundPage(None, _) => None
    case FoundUser(u) => Some(u.displayName)
  }

  function ToEntity(f: Found): Entity
    requires FoundKey(f).Some?
  {
    match f
    case FoundPage(Some(p), m) => PageEntity(p, m)
    case FoundUser(u) => UserEntity(u)
  }

  function EntityKey(e: Entity): string
  {
    match e
    case PageEntity(p, _) => p.url
    case UserEntity(u) => u.displayName
  }

  function ToEntities(fs: seq<Found>): (r: seq<Entity>)
    requires forall f :: f in fs ==> FoundKey(f).Some?
    ensures |r| == |fs|
    ensures forall k :: 0 <= k < |fs| ==> r[k] == ToEntity(fs[k]) && Some(EntityKey(r[k])) == FoundKey(fs[k])
  {
    seq(|fs|, k requires 0 <= k < |fs| => ToEntity(fs[k]))
  }

  /** What the search returns for the given queries and client. */
  function SearchSpec(qs: seq<SearchQuery>, client: Client): Result<seq<Entity>, SearchError>
  {
    var batches := Batches(qs);
    match Collect(batches, client, |batches|)
    case None => Err(ClientFailed)
    case Some(responses) =>
      match SelectAll(qs, responses, client, |responses|)
      case Err(e) => Err(e)
      case Ok(found) =>
        if exists f :: f in found && FoundKey(f).None? then Err(MissingKey)
        else Ok(Dedup(found))
  }

  /** The entities of the found items, keeping only the first item of each key. */
  function Dedup(found: seq<Found>): seq<Entity>
    requires forall f :: f in found ==> FoundKey(f).Some?
  {
    UniqByMembers(found, FoundKey, {});
    ToEntities(UniqBy(found, FoundKey, {}))
  }

  // ---------------------------------------------------------------- the program's loops

  /** The de-duplication loop: a set of seen keys, the first item with each key kept. */
  method Uniq<T, K(==)>(items: seq<T>, key: T -> K) returns (out: seq<T>)
    ensures out == UniqBy(items, key, {})
  {
    var tracking: set<K> := {};
    out := [];
    for i := 0 to |items|
      invariant out + UniqBy(items[i..], key, tracking) == UniqBy(items, key, {})
    {
      var k := key(items[i]);
      assert items[i..][1..] == items[i + 1..];
      if k !in tracking {
        tracking := tracking + {k};
        out := out + [items[i]];
      }
    }
  }

  /** The search as the program runs it: a loop over batches, then a loop over responses. */
  method RunSearch(qs: seq<SearchQuery>, client: Client) returns (r: Result<seq<Entity>, SearchError>)
    ensures r == SearchSpec(qs, client)
  {
    var sent := SendBatches(qs, client);
    if sent.None? {
      return Err(ClientFailed);
    }
    var responses := sent.value;
    var selected := SelectResults(qs, responses, client);
    if selected.Err? {
      return Err(selected.error);
    }
    var found := selected.value;
    if exists f :: f in found && FoundKey(f).None? {
      return Err(MissingKey);
    }
    var kept := Uniq(found, FoundKey);
    UniqByMembers(found, FoundKey, {});
    return Ok(ToEntities(kept));
  }

  /** The batching loop: the requests of each group of 25 queries go out together, the responses concatenated. */
  method SendBatches(qs: seq<SearchQuery>, client: Client) returns (sent: Option<seq<Response>>)
    ensures sent == Collect(Batches(qs), client, |Batches(qs)|)
  {
    var groups := Chunks(qs, BatchSize);
    ghost var batches := Batches(qs);
    var responses: seq<Response> := [];
    for g := 0 to |groups|
      invariant Collect(batches, client, g) == Some(responses)
    {
      var requests: seq<Request> := [];
      for k := 0 to |groups[g]|
        invariant requests == Requests(groups[g][..k])
      {
        requests := requests + [BuildRequest(groups[g][k])];
      }
      assert groups[g][..|groups[g]|] == groups[g];
      var answer := client(requests);
      if answer.None? {
        CollectStaysFailed(batches, client, g + 1, |batches|);
        return None;
      }
      responses := responses + answer.value;
    }
    return Some(responses);
  }

  /** The selection loop: each response yields at most one result, or the first failed follow-up ends the search. */
  method SelectResults(qs: seq<SearchQuery>, responses: seq<Response>, client: Client)
      returns (selected: Result<seq<Found>, SearchError>)
    ensures selected == SelectAll(qs, responses, client, |responses|)
  {
    var found: seq<Found> := [];
    for i := 0 to |responses|
      invariant SelectAll(qs, responses, client, i) == Ok(found)
    {
      var one := Select(qs, i, responses[i], client);
      if one.Err? {
        SelectAllStaysFailed(qs, responses, client, i + 1, |responses|);
        return Err(one.error);
      }
      found := found + OptionToSeq(one.value);
    }
    return Ok(found);
  }

  // ---------------------------------------------------------------- properties

  /** Each response yields at most one result. */
  lemma {:induction false} SelectAllLength(qs: seq<SearchQuery>, responses: seq<Response>, client: Client, n: nat)
    requires n <= |responses|
    ensures SelectAll(qs, responses, client, n).Ok? ==> |SelectAll(qs, responses, client, n).value| <= n
  {
    if n > 0 {
      SelectAllLength(qs, responses, client, n - 1);
    }
  }

  /** With a client that answers every request, there are never more results than queries. */
  lemma AtMostOneResultPerQuery(qs: seq<SearchQuery>, client: Client)
    requires Answers(client)
    ensures SearchSpec(qs, client).Ok? ==> |SearchSpec(qs, client).value| <= |qs|
  {
    var batches := Batches(qs);
    CollectLength(batches, client, |batches|);
    BatchesShape(qs);
    assert batches[..|batches|] == batches;
    match Collect(batches, client, |batches|)
    case None =>
    case Some(responses) =>
      SelectAllLength(qs, responses, client, |responses|);
      match SelectAll(qs, responses, client, |responses|)
      case Err(_) =>
      case Ok(found) =>
        UniqByIsSubsequence(found, FoundKey, {});
        SubsequenceLength(UniqBy(found, FoundKey, {}), found);
  }

  /** What the search selects before de-duplication: one item per query result, or the first failure. */
  function Selected(qs: seq<SearchQuery>, client: Client): Result<seq<Found>, SearchError>
  {
    var batches := Batches(qs);
    match Collect(batches, client, |batches|)
    case None => Err(ClientFailed)
    case Some(responses) => SelectAll(qs, responses, client, |responses|)
  }

  /**
   * `es` is `found` with repeats removed: no two results share a key, every found key has a
   * result, each result is the entity of the first item found with its key, and the results
   * come in the order in which their keys were first found.
   */
  predicate FirstSeen(found: seq<Found>, es: seq<Entity>)
  {
    && DistinctKeys(es, EntityKey)
    && (forall i :: 0 <= i < |found| ==> exists k :: 0 <= k < |es| && Some(EntityKey(es[k])) == FoundKey(found[i]))
    && (forall k :: 0 <= k < |es| ==>
          var first := FirstWithKey(found, FoundKey, Some(EntityKey(es[k])));
          first.Some? && es[k] == ToEntity(first.value))
    && (forall i, j :: 0 <= i < j < |es| ==>
          FirstIndex(found, FoundKey, Some(EntityKey(es[i]))) < FirstIndex(found, FoundKey, Some(EntityKey(es[j]))))
  }

  /** No two results share a key. */
  lemma DedupDistinct(found: seq<Found>)
    requires forall f :: f in found ==> FoundKey(f).Some?
    ensures DistinctKeys(Dedup(found), EntityKey)
  {
    var kept := UniqBy(found, FoundKey, {});
    UniqByDistinct(found, FoundKey, {});
    var es := Dedup(found);
    forall i, j | 0 <= i < j < |es| ensures EntityKey(es[i]) != EntityKey(es[j]) {
      assert FoundKey(kept[i]) != FoundKey(kept[j]);
    }
  }

  /** Every key found has a result. */
  lemma DedupCovers(found: seq<Found>)
    requires forall f :: f in found ==> FoundKey(f).Some?
    ensures var es := Dedup(found);
      forall i :: 0 <= i < |found| ==> exists k :: 0 <= k < |es| && Some(EntityKey(es[k])) == FoundKey(found[i])
  {
    var kept := UniqBy(found, FoundKey, {});
    UniqByCovers(found, FoundKey, {});
    var es := Dedup(found);
    forall i | 0 <= i < |found| ensures exists k :: 0 <= k < |es| && Some(EntityKey(es[k])) == FoundKey(found[i]) {
      assert found[i] in found;
      var y :| y in kept && FoundKey(y) == FoundKey(found[i]);
      var k :| 0 <= k < |kept| && kept[k] == y;
      assert Some(EntityKey(es[k])) == FoundKey(found[i]);
    }
  }

  /** Each result is the entity of the first item found with its key. */
  lemma DedupKeepsFirst(found: seq<Found>)
    requires forall f :: f in found ==> FoundKey(f).Some?
    ensures var es := Dedup(found);
      forall k :: 0 <= k < |es| ==>
        var first := FirstWithKey(found, FoundKey, Some(EntityKey(es[k])));
        first.Some? && es[k] == ToEntity(first.value)
  {
    var kept := UniqBy(found, FoundKey, {});
    UniqByKeepsFirst(found, FoundKey, {});
    var es := Dedup(found);
    forall k | 0 <= k < |es| ensures FirstWithKey(found, FoundKey, Some(EntityKey(es[k]))) == Some(kept[k]) {
      assert kept[k] in kept;
    }
  }

  /** The results come in the order in which their keys were first found. */
  lemma DedupOrder(found: seq<Found>)
    requires forall f :: f in found ==> FoundKey(f).Some?
    ensures var es := Dedup(found);
      forall i, j :: 0 <= i < j < |es| ==>
        FirstIndex(found, FoundKey, Some(EntityKey(es[i]))) < FirstIndex(found, FoundKey, Some(EntityKey(es[j])))
  {
    var kept := UniqBy(found, FoundKey, {});
    UniqByOrder(found, FoundKey, {});
    var es := Dedup(found);
    forall i, j | 0 <= i < j < |es|
      ensures FirstIndex(found, FoundKey, Some(EntityKey(es[i]))) < FirstIndex(found, FoundKey, Some(EntityKey(es[j])))
    {
      assert FirstIndex(found, FoundKey, FoundKey(kept[i])) < FirstIndex(found, FoundKey, FoundKey(kept[j]));
    }
  }

  /** De-duplicating a found list keeps the first item of each key, in first-seen order. */
  lemma DedupFirstSeen(found: seq<Found>)
    requires forall f :: f in found ==> FoundKey(f).Some?
    ensures FirstSeen(found, Dedup(found))
  {
    DedupDistinct(found);
    DedupCovers(found);
    DedupKeepsFirst(found);
    DedupOrder(found);
  }

  /** A successful search returns the selected items de-duplicated by key, first-seen first. */
  lemma ResultsDistinct(qs: seq<SearchQuery>, client: Client)
    ensures SearchSpec(qs, client).Ok? ==> DistinctKeys(SearchSpec(qs, client).value, EntityKey)
    ensures SearchSpec(qs, client).Ok? ==>
      Selected(qs, client).Ok? && FirstSeen(Selected(qs, client).value, SearchSpec(qs, client).value)
  {
    var batches := Batches(qs);
    match Collect(batches, client, |batches|)
    case None =>
    case Some(responses) =>
      match SelectAll(qs, responses, client, |responses|)
      case Err(_) =>
      case Ok(found) =>
        if !exists f :: f in found && FoundKey(f).None? {
          DedupFirstSeen(found);
        }
  }
}
