/** Progressive-disclosure search (search.py): a memory search, then the
    threads behind the memories found, by direct reference or, failing
    that, by a thread search on the same query.  The remote service is a
    parameter; each of its calls yields the decoded response or the error
    it raised. */
module Search {
  import opened Results
  import opened JsonData
  import opened Sequences

  /** Fields are kept as the response gave them, as the source does. */
  datatype MemoryItem = MemoryItem(
    memoryId: Json,
    title: Json,
    content: Json,
    similarityScore: Json,
    importance: Json,
    labels: Json,
    sourceThreadId: Json)

  datatype ThreadRef = ThreadRef(threadId: Json, title: Json, summary: Json, messageCount: Json)

  datatype DeepSearchResult = DeepSearchResult(
    query: string,
    memories: seq<MemoryItem>,
    relatedThreads: seq<ThreadRef>,
    totalMemoriesFound: Json,
    totalThreadsFound: Json)

  datatype Collaborator = Collaborator(
    searchMemories: (string, int) -> Result<Json, string>,
    searchThreads: (string, int) -> Result<Json, string>,
    getThread: Json -> Result<Json, string>)

  const DefaultScore: Json := JNum(0.0)
  const DefaultImportance: Json := JNum(0.5)

  // ---------------------------------------------------------------------
  // Response shapes

  /** The records of a response and the total it reports. */
  datatype Listing = Listing(records: seq<Json>, total: Json)

  /** The elements a `for` loop visits when every element must be a dict:
      a list gives its items; an empty dict or string gives nothing; any
      other value either cannot be iterated or yields a key or character
      whose `.get` raises, so the loop fails. */
  function Records(j: Json): (r: Result<seq<Json>, string>)
    ensures j.JArr? ==> r == Ok(j.items)
    ensures r.Ok? && !j.JArr? ==> r.value == []
    ensures r.Ok? <==> j.JArr? || j == JStr("") || j == JObj(map[])
  {
    match j
    case JArr(xs) => Ok(xs)
    case JObj(fields) =>
      if |fields| == 0 then assert fields == map[]; Ok([]) else Err("record is not an object")
    case JStr(s) => if s == "" then Ok([]) else Err("record is not an object")
    case _ => Err("records are not iterable")
  }

  /** A bare list, or a dict holding the list under `key` and optionally a
      declared `total`; the total defaults to the number of records. */
  function ReadListing(response: Json, key: string): (r: Result<Listing, string>)
    ensures response.JArr? ==> r == Ok(Listing(response.items, Count(|response.items|)))
    ensures response.JObj? && "total" in response.fields && r.Ok? ==> r.value.total == response.fields["total"]
    ensures response.JObj? && "total" !in response.fields && r.Ok? ==> r.value.total == Count(|r.value.records|)
    ensures response.JObj? && key !in response.fields ==> r == Ok(Listing([], GetOr(response.fields, "total", Count(0))))
    ensures !response.JArr? && !response.JObj? ==> r.Err?
    ensures response.JObj? && key in response.fields && response.fields[key].JArr? ==>
      var items := response.fields[key].items;
      r == Ok(Listing(items, GetOr(response.fields, "total", Count(|items|))))
    ensures r.Ok? <==> response.JArr? || (response.JObj? && Records(GetOr(response.fields, key, JArr([]))).Ok?)
  {
    match response
    case JArr(xs) => Ok(Listing(xs, Count(|xs|)))
    case JObj(fields) =>
      var records :- Records(GetOr(fields, key, JArr([])));
      Ok(Listing(records, GetOr(fields, "total", Count(|records|))))
    case _ => Err("response is neither a list nor an object")
  }

  /** Applies `f` to every record in order, failing at the first failure. */
  function MapAll<T>(records: seq<Json>, f: Json -> Result<T, string>): (r: Result<seq<T>, string>)
    ensures r.Ok? ==> |r.value| == |records|
    ensures r.Ok? ==> forall i :: 0 <= i < |records| ==> f(records[i]) == Ok(r.value[i])
    ensures r.Err? <==> exists i :: 0 <= i < |records| && f(records[i]).Err?
  {
    if |records| == 0 then Ok([])
    else
      var head :- f(records[0]);
      var tail :- MapAll(records[1..], f);
      assert forall i :: 1 <= i < |records| ==> records[i] == records[1..][i - 1];
      Ok([head] + tail)
  }

  // ---------------------------------------------------------------------
  // Phase 1: memories

  /** A memory's fields, with the source's defaults for absent keys. */
  function MemoryOf(m: map<string, Json>, score: Json): (r: MemoryItem)
    ensures r.similarityScore == score
    ensures "id" !in m ==> r.memoryId == JStr("")
    ensures "importance" !in m ==> r.importance == DefaultImportance
    ensures "labels" !in m ==> r.labels == JArr([])
    ensures "title" !in m ==> r.title == JNull
    ensures "source_thread_id" !in m ==> r.sourceThreadId == JNull
    ensures "content" in m ==> r.content == m["content"]
    ensures "source_thread_id" in m ==> r.sourceThreadId == m["source_thread_id"]
    ensures "id" in m ==> r.memoryId == m["id"]
    ensures "title" in m ==> r.title == m["title"]
    ensures "content" !in m ==> r.content == JStr("")
    ensures "importance" in m ==> r.importance == m["importance"]
    ensures "labels" in m ==> r.labels == m["labels"]
  {
    MemoryItem(
      GetOr(m, "id", JStr("")),
      GetOr(m, "title", JNull),
      GetOr(m, "content", JStr("")),
      score,
      GetOr(m, "importance", DefaultImportance),
      GetOr(m, "labels", JArr([])),
      GetOr(m, "source_thread_id", JNull))
  }

  /** One memory record: a `{memory, similarity_score}` wrapper takes its
      score from the wrapper and its fields from the nested memory; any
      other dict is the memory itself.  A record or nested memory that is
      not a dict makes the search raise. */
  function NormalizeMemory(item: Json): (r: Result<MemoryItem, string>)
    ensures r.Ok? <==> item.JObj? && ("memory" in item.fields ==> item.fields["memory"].JObj?)
    ensures r.Ok? && "memory" in item.fields ==>
      r.value == MemoryOf(item.fields["memory"].fields, GetOr(item.fields, "similarity_score", DefaultScore))
    ensures r.Ok? && "memory" !in item.fields ==>
      r.value == MemoryOf(item.fields, GetOr(item.fields, "similarity_score", DefaultScore))
  {
    if !item.JObj? then Err("memory record is not an object")
    else if "memory" in item.fields then
      var nested := item.fields["memory"];
      if !nested.JObj? then Err("nested memory is not an object")
      else Ok(MemoryOf(nested.fields, GetOr(item.fields, "similarity_score", DefaultScore)))
    else Ok(MemoryOf(item.fields, GetOr(item.fields, "similarity_score", DefaultScore)))
  }

  datatype PhaseOneResult = PhaseOneResult(memories: seq<MemoryItem>, total: Json)

  /** The memory search and its normalisation; any failure propagates. */
  function PhaseOne(c: Collaborator, query: string, memoryLimit: int): (r: Result<PhaseOneResult, string>)
    ensures c.searchMemories(query, memoryLimit).Err? ==> r.Err?
    ensures var response := c.searchMemories(query, memoryLimit);
      r.Err? <==>
        || response.Err?
        || ReadListing(response.value, "memories").Err?
        || exists i :: 0 <= i < |ReadListing(response.value, "memories").value.records|
             && NormalizeMemory(ReadListing(response.value, "memories").value.records[i]).Err?
    ensures r.Ok? ==>
      && var listing := ReadListing(c.searchMemories(query, memoryLimit).value, "memories");
      && listing.Ok?
      && |r.value.memories| == |listing.value.records|
      && r.value.total == listing.value.total
      && forall i :: 0 <= i < |r.value.memories| ==> NormalizeMemory(listing.value.records[i]) == Ok(r.value.memories[i])
  {
    var response :- c.searchMemories(query, memoryLimit);
    var listing :- ReadListing(response, "memories");
    var memories :- MapAll(listing.records, NormalizeMemory);
    Ok(PhaseOneResult(memories, listing.total))
  }

  /** A `{memories: [...]}` response whose records are all usable gives one
      memory per record, with the declared total or else the record count. */
  lemma WellFormedMemoryResponse(c: Collaborator, query: string, memoryLimit: int)
    ensures var response := c.searchMemories(query, memoryLimit);
      response.Ok? && response.value.JObj? && "memories" in response.value.fields
      && response.value.fields["memories"].JArr?
      && (forall i :: 0 <= i < |response.value.fields["memories"].items| ==>
            NormalizeMemory(response.value.fields["memories"].items[i]).Ok?) ==>
        var items := response.value.fields["memories"].items;
        && PhaseOne(c, query, memoryLimit).Ok?
        && |PhaseOne(c, query, memoryLimit).value.memories| == |items|
        && PhaseOne(c, query, memoryLimit).value.total == GetOr(response.value.fields, "total", Count(|items|))
  {
  }

  // ---------------------------------------------------------------------
  // Strategy 1: threads referenced by the memories

  /** Some memory carries `id` as its `source_thread_id`. */
  predicate IsReferenced(memories: seq<MemoryItem>, id: Json) {
    exists i :: 0 <= i < |memories| && memories[i].sourceThreadId == id
  }

  predicate Distinct(s: seq<Json>) {
    forall i, j :: 0 <= i < j < |s| ==> s[i] != s[j]
  }

  /** The distinct truthy `source_thread_id`s, in order of first
      occurrence.  Adding a list or dict to the Python set raises. */
  function ReferencedThreadIds(memories: seq<MemoryItem>): (r: Result<seq<Json>, string>)
    ensures r.Err? <==> exists i :: 0 <= i < |memories| && Truthy(memories[i].sourceThreadId) && !Hashable(memories[i].sourceThreadId)
    ensures r.Ok? ==> Distinct(r.value)
    ensures r.Ok? ==> forall k :: 0 <= k < |r.value| ==> Truthy(r.value[k]) && IsReferenced(memories, r.value[k])
    ensures r.Ok? ==> forall i :: 0 <= i < |memories| && Truthy(memories[i].sourceThreadId) ==> memories[i].sourceThreadId in r.value
    decreases |memories|
  {
    if |memories| == 0 then Ok([])
    else
      var front := memories[..|memories| - 1];
      assert forall i :: 0 <= i < |front| ==> front[i] == memories[i];
      var previous :- ReferencedThreadIds(front);
      assert forall x :: IsReferenced(front, x) ==> IsReferenced(memories, x);
      var id := memories[|memories| - 1].sourceThreadId;
      if !Truthy(id) then Ok(previous)
      else if !Hashable(id) then Err("unhashable thread id")
      else if id in previous then Ok(previous)
      else Ok(previous + [id])
  }

  /** A thread response: the nested `thread` object if present, else the
      response itself; it must be a dict for a ThreadRef to be made. */
  function ThreadRefOf(t: map<string, Json>): (r: ThreadRef)
    ensures "thread_id" in t ==> r.threadId == t["thread_id"]
    ensures "thread_id" !in t && "id" in t ==> r.threadId == t["id"]
    ensures "thread_id" !in t && "id" !in t ==> r.threadId == JStr("")
    ensures "message_count" !in t ==> r.messageCount == JNum(0.0)
    ensures "message_count" in t ==> r.messageCount == t["message_count"]
    ensures "title" in t ==> r.title == t["title"]
    ensures "title" !in t ==> r.title == JNull
    ensures "summary" in t ==> r.summary == t["summary"]
    ensures "summary" !in t ==> r.summary == JNull
  {
    ThreadRef(
      GetOr(t, "thread_id", GetOr(t, "id", JStr(""))),
      GetOr(t, "title", JNull),
      GetOr(t, "summary", JNull),
      GetOr(t, "message_count", JNum(0.0)))
  }

  /** What one `get_thread` attempt contributes: nothing if it raised, or if
      the response (or its nested `thread`) is not a dict. */
  function ResolveFetched(response: Result<Json, string>): (r: Option<ThreadRef>)
    ensures response.Err? ==> r.None?
    ensures (response.Ok? && response.value.JObj? && "thread" in response.value.fields
             && response.value.fields["thread"].JObj?) ==>
              r == Some(ThreadRefOf(response.value.fields["thread"].fields))
    ensures response.Ok? && response.value.JObj? && "thread" !in response.value.fields ==>
      r == Some(ThreadRefOf(response.value.fields))
    ensures response.Ok? && !response.value.JObj? ==> r.None?
    ensures (response.Ok? && response.value.JObj? && "thread" in response.value.fields
             && !response.value.fields["thread"].JObj?) ==> r.None?
  {
    match response
    case Err(_) => None
    case Ok(data) =>
      if !data.JObj? then None
      else
        var thread := GetOr(data.fields, "thread", data);
        if thread.JObj? then Some(ThreadRefOf(thread.fields)) else None
  }

  predicate Resolves(get: Json -> Result<Json, string>, id: Json) {
    ResolveFetched(get(id)).Some?
  }

  function ResolvedCount(ids: seq<Json>, get: Json -> Result<Json, string>): nat {
    if |ids| == 0 then 0 else (if Resolves(get, ids[0]) then 1 else 0) + ResolvedCount(ids[1..], get)
  }

  /** One fetch per id, in order; a failed fetch adds nothing and does not
      stop the remaining ones. */
  function FetchThreads(ids: seq<Json>, get: Json -> Result<Json, string>): (r: seq<ThreadRef>)
    ensures |r| == ResolvedCount(ids, get) <= |ids|
  {
    if |ids| == 0 then []
    else
      match ResolveFetched(get(ids[0]))
      case Some(t) => [t] + FetchThreads(ids[1..], get)
      case None => FetchThreads(ids[1..], get)
  }

  lemma {:induction false} FetchThreadsAppend(a: seq<Json>, b: seq<Json>, get: Json -> Result<Json, string>)
    ensures FetchThreads(a + b, get) == FetchThreads(a, get) + FetchThreads(b, get)
  {
    if |a| == 0 {
      assert a + b == b;
    } else {
      assert (a + b)[1..] == a[1..] + b;
      FetchThreadsAppend(a[1..], b, get);
    }
  }

  /** A thread is in the result iff the fetch of some id resolved to it. */
  lemma {:induction false} FetchThreadsMembers(ids: seq<Json>, get: Json -> Result<Json, string>)
    ensures forall t :: t in FetchThreads(ids, get) <==>
      exists i :: 0 <= i < |ids| && ResolveFetched(get(ids[i])) == Some(t)
  {
    if |ids| > 0 {
      FetchThreadsMembers(ids[1..], get);
      assert forall i :: 1 <= i < |ids| ==> ids[1..][i - 1] == ids[i];
    }
  }

  /** The source's loop appends each resolved thread in turn: the same
      list, built from the other end. */
  function FetchLoop(ids: seq<Json>, get: Json -> Result<Json, string>): seq<ThreadRef>
    decreases |ids|
  {
    if |ids| == 0 then []
    else
      var last := ids[|ids| - 1];
      FetchLoop(ids[..|ids| - 1], get) + Fetched(last, get)
  }

  lemma {:induction false} FetchThreadsIsAppendLoop(ids: seq<Json>, get: Json -> Result<Json, string>)
    ensures FetchThreads(ids, get) == FetchLoop(ids, get)
    decreases |ids|
  {
    if |ids| > 0 {
      var front, last := ids[..|ids| - 1], ids[|ids| - 1];
      FetchThreadsIsAppendLoop(front, get);
      assert ids == front + [last];
      FetchThreadsAppend(front, [last], get);
      assert [last][1..] == [];
    }
  }

  /** A fetch that fails is skipped: the result is that of the other ids. */
  lemma {:induction false} FailedFetchIsSkipped(ids: seq<Json>, k: nat, get: Json -> Result<Json, string>)
    requires k < |ids| && get(ids[k]).Err?
    ensures FetchThreads(ids, get) == FetchThreads(ids[..k] + ids[k + 1..], get)
  {
    var front, back := ids[..k], ids[k + 1..];
    assert ids == front + [ids[k]] + back;
    assert [ids[k]][1..] == [];
    assert FetchThreads([ids[k]], get) == [];
    FetchThreadsAppend(front + [ids[k]], back, get);
    FetchThreadsAppend(front, [ids[k]], get);
    assert FetchThreads(front + [ids[k]], get) == FetchThreads(front, get);
    FetchThreadsAppend(front, back, get);
  }

  /** What fetching one id contributes: its thread, if it resolves. */
  function Fetched(id: Json, get: Json -> Result<Json, string>): seq<ThreadRef> {
    match ResolveFetched(get(id))
    case Some(t) => [t]
    case None => []
  }

  /** The first id's fetch, then the rest's. */
  lemma FetchThreadsCons(ids: seq<Json>, get: Json -> Result<Json, string>)
    requires |ids| > 0
    ensures FetchThreads(ids, get) == Fetched(ids[0], get) + FetchThreads(ids[1..], get)
  {
  }

  /** Taking one id out of the list takes its fetch out of the result. */
  lemma FetchThreadsWithout(a: seq<Json>, x: Json, b: seq<Json>, get: Json -> Result<Json, string>)
    ensures multiset(FetchThreads(a + [x] + b, get)) == multiset(Fetched(x, get)) + multiset(FetchThreads(a + b, get))
  {
    FetchThreadsAppend(a + [x], b, get);
    FetchThreadsAppend(a, [x], get);
    FetchThreadsAppend(a, b, get);
    FetchThreadsCons([x], get);
    assert [x][1..] == [];
  }

  /** The threads found do not depend on the order the ids are fetched in
      (Python's set order is unspecified), as long as all of them are. */
  lemma {:induction false} FetchOrderIrrelevant(p: seq<Json>, q: seq<Json>, get: Json -> Result<Json, string>)
    requires multiset(p) == multiset(q)
    ensures multiset(FetchThreads(p, get)) == multiset(FetchThreads(q, get))
    decreases |p|
  {
    if |p| == 0 {
      assert |q| == |multiset(q)| == 0;
    } else {
      var x := p[0];
      assert x in multiset(p);
      var k := IndexOfMember(q, x);
      var a, b := q[..k], q[k + 1..];
      RemoveMatchingMultiset(p, q, k);
      FetchOrderIrrelevant(p[1..], a + b, get);
      FetchThreadsCons(p, get);
      SplitAt(q, k);
      FetchThreadsWithout(a, x, b, get);
    }
  }

  /** Strategy 1: at most `threadLimit` of the referenced ids are fetched. */
  function StrategyOne(memories: seq<MemoryItem>, threadLimit: int, get: Json -> Result<Json, string>)
    : (r: Result<seq<ThreadRef>, string>)
    requires threadLimit > 0
    ensures r.Ok? ==> |r.value| <= threadLimit
    ensures r.Err? <==> ReferencedThreadIds(memories).Err?
    ensures r.Ok? ==>
      var ids := ReferencedThreadIds(memories).value;
      r.value == FetchThreads(ids[..Min(|ids|, threadLimit)], get)
  {
    var ids :- ReferencedThreadIds(memories);
    Ok(FetchThreads(ids[..Min(|ids|, threadLimit)], get))
  }

  // ---------------------------------------------------------------------
  // Strategy 2 and the whole search

  function NormalizeThread(t: Json): (r: Result<ThreadRef, string>)
    ensures r.Ok? <==> t.JObj?
    ensures r.Ok? ==> r.value == ThreadRefOf(t.fields)
  {
    if t.JObj? then Ok(ThreadRefOf(t.fields)) else Err("thread record is not an object")
  }

  datatype Related = Related(threads: seq<ThreadRef>, total: Json)

  /** Strategy 2: the thread search on the query; any failure propagates. */
  function StrategyTwo(c: Collaborator, query: string, threadLimit: int): (r: Result<Related, string>)
    ensures c.searchThreads(query, threadLimit).Err? ==> r.Err?
    ensures var response := c.searchThreads(query, threadLimit);
      r.Err? <==>
        || response.Err?
        || ReadListing(response.value, "threads").Err?
        || exists i :: 0 <= i < |ReadListing(response.value, "threads").value.records|
             && !ReadListing(response.value, "threads").value.records[i].JObj?
    ensures r.Ok? ==>
              && var listing := ReadListing(c.searchThreads(query, threadLimit).value, "threads");
              && listing.Ok?
              && |r.value.threads| == |listing.value.records|
              && r.value.total == listing.value.total
              && forall i :: 0 <= i < |r.value.threads| ==>
                   listing.value.records[i].JObj?
                   && r.value.threads[i] == ThreadRefOf(listing.value.records[i].fields)
  {
    var response :- c.searchThreads(query, threadLimit);
    var listing :- ReadListing(response, "threads");
    var threads :- MapAll(listing.records, NormalizeThread);
    Ok(Related(threads, listing.total))
  }

  function Search(c: Collaborator, query: string, memoryLimit: int, threadLimit: int, expandThreads: bool)
    : (r: Result<DeepSearchResult, string>)
    ensures r.Ok? ==> r.value.query == query
    ensures r.Ok? ==>
              && PhaseOne(c, query, memoryLimit).Ok?
              && r.value.memories == PhaseOne(c, query, memoryLimit).value.memories
              && r.value.totalMemoriesFound == PhaseOne(c, query, memoryLimit).value.total
  {
    var phaseOne :- PhaseOne(c, query, memoryLimit);
    var base := DeepSearchResult(query, phaseOne.memories, [], phaseOne.total, Count(0));
    if !expandThreads || threadLimit <= 0 then Ok(base)
    else
      var fetched :- StrategyOne(phaseOne.memories, threadLimit, c.getThread);
      if |fetched| > 0 then Ok(base.(relatedThreads := fetched, totalThreadsFound := Count(|fetched|)))
      else
        var related :- StrategyTwo(c, query, threadLimit);
        Ok(base.(relatedThreads := related.threads, totalThreadsFound := related.total))
  }

  // ---------------------------------------------------------------------
  // Properties of the search

  /** Phase 1 alone decides whether a search without expansion succeeds;
      no thread operation is consulted and no thread is reported. */
  lemma NoExpansionMakesNoThreadCall(
    c: Collaborator, query: string, memoryLimit: int, threadLimit: int, expandThreads: bool,
    searchThreads: (string, int) -> Result<Json, string>, getThread: Json -> Result<Json, string>)
    requires !expandThreads || threadLimit <= 0
    ensures Search(c.(searchThreads := searchThreads, getThread := getThread), query, memoryLimit, threadLimit, expandThreads)
         == Search(c, query, memoryLimit, threadLimit, expandThreads)
    ensures Search(c, query, memoryLimit, threadLimit, expandThreads).Ok? <==> PhaseOne(c, query, memoryLimit).Ok?
    ensures Search(c, query, memoryLimit, threadLimit, expandThreads).Ok? ==>
              && Search(c, query, memoryLimit, threadLimit, expandThreads).value.relatedThreads == []
              && Search(c, query, memoryLimit, threadLimit, expandThreads).value.totalThreadsFound == Count(0)
  {
  }

  /** A search fails exactly when the memory search fails or is malformed,
      a referenced thread id cannot be collected, or the fallback thread
      search runs and fails; strategy-1 fetch failures never surface. */
  lemma SearchFailsOnlyAtFatalSteps(c: Collaborator, query: string, memoryLimit: int, threadLimit: int, expandThreads: bool)
    ensures Search(c, query, memoryLimit, threadLimit, expandThreads).Err? <==>
              || PhaseOne(c, query, memoryLimit).Err?
              || (expandThreads && threadLimit > 0 &&
                  var memories := PhaseOne(c, query, memoryLimit).value.memories;
                  || ReferencedThreadIds(memories).Err?
                  || (StrategyOne(memories, threadLimit, c.getThread).value == []
                      && StrategyTwo(c, query, threadLimit).Err?))
  {
  }

  /** When strategy 1 resolves at least one thread, those threads are the
      result, their count is the total, and the thread search is never
      consulted. */
  lemma ReferencedThreadsWin(
    c: Collaborator, query: string, memoryLimit: int, threadLimit: int,
    searchThreads: (string, int) -> Result<Json, string>)
    requires threadLimit > 0
    ensures
      var phaseOne := PhaseOne(c, query, memoryLimit);
      var strategyOne := if phaseOne.Ok? then StrategyOne(phaseOne.value.memories, threadLimit, c.getThread) else Err("");
      strategyOne.Ok? && strategyOne.value != [] ==>
        && Search(c.(searchThreads := searchThreads), query, memoryLimit, threadLimit, true)
           == Search(c, query, memoryLimit, threadLimit, true)
        && Search(c, query, memoryLimit, threadLimit, true).Ok?
        && Search(c, query, memoryLimit, threadLimit, true).value.relatedThreads == strategyOne.value
        && Search(c, query, memoryLimit, threadLimit, true).value.totalThreadsFound == Count(|strategyOne.value|)
        && |strategyOne.value| <= threadLimit
  {
  }

  /** When strategy 1 resolves nothing, the result's threads and total are
      exactly those of the thread search. */
  lemma FallbackWhenNothingResolved(c: Collaborator, query: string, memoryLimit: int, threadLimit: int)
    requires threadLimit > 0
    ensures
      var phaseOne := PhaseOne(c, query, memoryLimit);
      var search := Search(c, query, memoryLimit, threadLimit, true);
      var strategyTwo := StrategyTwo(c, query, threadLimit);
      phaseOne.Ok? && StrategyOne(phaseOne.value.memories, threadLimit, c.getThread) == Ok([]) ==>
        && (search.Ok? <==> strategyTwo.Ok?)
        && (strategyTwo.Ok? ==>
              && search.value.relatedThreads == strategyTwo.value.threads
              && search.value.totalThreadsFound == strategyTwo.value.total)
  {
  }

  /** Memories with no truthy `source_thread_id` reference no thread. */
  lemma NoReferencesNoIds(memories: seq<MemoryItem>)
    requires forall i :: 0 <= i < |memories| ==> !Truthy(memories[i].sourceThreadId)
    ensures ReferencedThreadIds(memories) == Ok([])
  {
  }

  /** Memories without thread provenance: the search never fetches a thread
      by id and always falls back to the thread search. */
  lemma UnreferencedMemoriesUseThreadSearch(
    c: Collaborator, query: string, memoryLimit: int, threadLimit: int,
    getThread: Json -> Result<Json, string>)
    requires threadLimit > 0
    requires PhaseOne(c, query, memoryLimit).Ok?
    requires forall i :: 0 <= i < |PhaseOne(c, query, memoryLimit).value.memories| ==>
               !Truthy(PhaseOne(c, query, memoryLimit).value.memories[i].sourceThreadId)
    ensures Search(c.(getThread := getThread), query, memoryLimit, threadLimit, true)
         == Search(c, query, memoryLimit, threadLimit, true)
    ensures Search(c, query, memoryLimit, threadLimit, true).Ok? <==> StrategyTwo(c, query, threadLimit).Ok?
    ensures StrategyTwo(c, query, threadLimit).Ok? ==>
              Search(c, query, memoryLimit, threadLimit, true).value.relatedThreads == StrategyTwo(c, query, threadLimit).value.threads
  {
    NoReferencesNoIds(PhaseOne(c, query, memoryLimit).value.memories);
    assert PhaseOne(c.(getThread := getThread), query, memoryLimit) == PhaseOne(c, query, memoryLimit);
  }

  // ---------------------------------------------------------------------
  // Three memories referencing threads A, B and C, where fetching B fails

  const ThreadA: Json := JStr("A")
  const ThreadB: Json := JStr("B")
  const ThreadC: Json := JStr("C")

  function ReferencingMemory(id: Json): Json {
    JObj(map["source_thread_id" := id])
  }

  function FetchedThread(id: Json): ThreadRef {
    ThreadRef(id, JNull, JNull, JNum(0.0))
  }

  /** A service whose thread B has been deleted. */
  function DeletedThreadService(): Collaborator {
    Collaborator(
      (query: string, limit: int) =>
        Ok(JArr([ReferencingMemory(ThreadA), ReferencingMemory(ThreadB), ReferencingMemory(ThreadC)])),
      (query: string, limit: int) => Err("thread search unavailable"),
      (id: Json) => if id == ThreadB then Err("thread not found")
                    else Ok(JObj(map["thread" := JObj(map["thread_id" := id])])))
  }

  function ReferencingItem(id: Json): MemoryItem {
    MemoryOf(map["source_thread_id" := id], DefaultScore)
  }

  lemma DeletedThreadServiceMemories(query: string, memoryLimit: int)
    ensures PhaseOne(DeletedThreadService(), query, memoryLimit)
         == Ok(PhaseOneResult([ReferencingItem(ThreadA), ReferencingItem(ThreadB), ReferencingItem(ThreadC)], Count(3)))
  {
    var records := [ReferencingMemory(ThreadA), ReferencingMemory(ThreadB), ReferencingMemory(ThreadC)];
    assert ReadListing(JArr(records), "memories") == Ok(Listing(records, Count(3)));
    var r := MapAll(records, NormalizeMemory);
    assert r.Ok?;
    assert r.value == [ReferencingItem(ThreadA), ReferencingItem(ThreadB), ReferencingItem(ThreadC)];
  }

  /** A memory whose new, hashable id has not been seen is added last. */
  lemma ReferencedThreadIdsAppend(memories: seq<MemoryItem>, m: MemoryItem, previous: seq<Json>)
    requires ReferencedThreadIds(memories) == Ok(previous)
    requires Truthy(m.sourceThreadId) && Hashable(m.sourceThreadId) && m.sourceThreadId !in previous
    ensures ReferencedThreadIds(memories + [m]) == Ok(previous + [m.sourceThreadId])
  {
    assert (memories + [m])[..|memories|] == memories;
  }

  lemma TwoDistinctReferences(a: MemoryItem, b: MemoryItem)
    requires Truthy(a.sourceThreadId) && Hashable(a.sourceThreadId)
    requires Truthy(b.sourceThreadId) && Hashable(b.sourceThreadId)
    requires a.sourceThreadId != b.sourceThreadId
    ensures ReferencedThreadIds([a, b]) == Ok([a.sourceThreadId, b.sourceThreadId])
  {
    ReferencedThreadIdsAppend([], a, []);
    assert [] + [a] == [a] && [] + [a.sourceThreadId] == [a.sourceThreadId];
    ReferencedThreadIdsAppend([a], b, [a.sourceThreadId]);
    assert [a] + [b] == [a, b];
    assert [a.sourceThreadId] + [b.sourceThreadId] == [a.sourceThreadId, b.sourceThreadId];
  }

  /** Three memories with distinct, hashable, truthy ids reference those
      ids in order. */
  lemma ThreeDistinctReferences(a: MemoryItem, b: MemoryItem, c: MemoryItem)
    requires Truthy(a.sourceThreadId) && Hashable(a.sourceThreadId)
    requires Truthy(b.sourceThreadId) && Hashable(b.sourceThreadId)
    requires Truthy(c.sourceThreadId) && Hashable(c.sourceThreadId)
    requires a.sourceThreadId != b.sourceThreadId && a.sourceThreadId != c.sourceThreadId
    requires b.sourceThreadId != c.sourceThreadId
    ensures ReferencedThreadIds([a, b, c]) == Ok([a.sourceThreadId, b.sourceThreadId, c.sourceThreadId])
  {
    TwoDistinctReferences(a, b);
    ReferencedThreadIdsAppend([a, b], c, [a.sourceThreadId, b.sourceThreadId]);
    assert [a, b] + [c] == [a, b, c];
    assert [a.sourceThreadId, b.sourceThreadId] + [c.sourceThreadId]
        == [a.sourceThreadId, b.sourceThreadId, c.sourceThreadId];
  }

  lemma DeletedThreadServiceIds()
    ensures ReferencedThreadIds([ReferencingItem(ThreadA), ReferencingItem(ThreadB), ReferencingItem(ThreadC)])
         == Ok([ThreadA, ThreadB, ThreadC])
  {
    assert "A"[0] != "B"[0] && "A"[0] != "C"[0] && "B"[0] != "C"[0];
    ThreeDistinctReferences(ReferencingItem(ThreadA), ReferencingItem(ThreadB), ReferencingItem(ThreadC));
  }

  lemma DeletedThreadServiceFetch()
    ensures FetchThreads([ThreadA, ThreadB, ThreadC], DeletedThreadService().getThread)
         == [FetchedThread(ThreadA), FetchedThread(ThreadC)]
  {
    var get := DeletedThreadService().getThread;
    var ids := [ThreadA, ThreadB, ThreadC];
    assert ids[1..] == [ThreadB, ThreadC];
    assert ids[1..][1..] == [ThreadC];
    assert [ThreadC][1..] == [];
    assert FetchThreads([ThreadC], get) == [FetchedThread(ThreadC)];
    assert FetchThreads([ThreadB, ThreadC], get) == [FetchedThread(ThreadC)];
  }

  /** Strategy 1 on the three memories resolves A and C. */
  lemma DeletedThreadServiceStrategyOne(threadLimit: int)
    requires threadLimit >= 3
    ensures StrategyOne([ReferencingItem(ThreadA), ReferencingItem(ThreadB), ReferencingItem(ThreadC)],
                        threadLimit, DeletedThreadService().getThread)
         == Ok([FetchedThread(ThreadA), FetchedThread(ThreadC)])
  {
    DeletedThreadServiceIds();
    DeletedThreadServiceFetch();
    var ids := [ThreadA, ThreadB, ThreadC];
    assert ids[..Min(|ids|, threadLimit)] == ids;
  }

  /** Fetching B fails, so the related threads are exactly A and C and the
      total counts the two threads resolved. */
  lemma DeletedThreadIsSkipped(query: string, memoryLimit: int, threadLimit: int)
    requires threadLimit >= 3
    ensures Search(DeletedThreadService(), query, memoryLimit, threadLimit, true).Ok?
    ensures Search(DeletedThreadService(), query, memoryLimit, threadLimit, true).value.relatedThreads
         == [FetchedThread(ThreadA), FetchedThread(ThreadC)]
    ensures Search(DeletedThreadService(), query, memoryLimit, threadLimit, true).value.totalThreadsFound == Count(2)
  {
    var c := DeletedThreadService();
    DeletedThreadServiceMemories(query, memoryLimit);
    DeletedThreadServiceStrategyOne(threadLimit);
    ReferencedThreadsWin(c, query, memoryLimit, threadLimit, c.searchThreads);
  }
}
