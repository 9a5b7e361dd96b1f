/** The service worker (sw.js): one current cache generation named
    `CACHE_NAME`, populated at install, served stale-while-revalidate on
    every fetch, and made the only generation at activation. Each event
    handler is a transition of the origin's Cache Storage, with the network's
    answers given as inputs. */
module ServiceWorker {
  import opened Wrappers
  import opened CacheStorage

  const CACHE_NAME: string := "imsakiye-v3-local-icon"

  const ASSETS_TO_CACHE: seq<string> := [
    "./",
    "./index.html",
    "./index-EhThZ-WV.js",
    "./manifest-CZT9gpFN.json",
    "./icon.png",
    "https://cdn.tailwindcss.com",
    "https://fonts.googleapis.com/css2?family=Inter:wght@400;500;600;700&display=swap"
  ]

  /** What one `fetch` settles to: a response (of any status) or a rejection. */
  datatype NetOutcome = Delivered(response: Response) | NetworkError

  /** What the network answers to each request at the time of the event. */
  type Network = Request -> NetOutcome

  /** What `respondWith` receives: a response, or `undefined`, which the
      page sees as a network error. */
  datatype Reply = Respond(response: Response) | NoResponse

  /** The caches after the event, the reply, and the requests sent to the network. */
  datatype FetchOutcome = FetchOutcome(caches: Caches, reply: Reply, fetched: seq<Request>)

  function AssetRequest(url: string): Request {
    Request("GET", url)
  }

  /** A response `addAll` accepts: an ok status, and not a partial (206) one. */
  predicate Ok(r: Response) {
    200 <= r.status <= 299 && r.status != 206
  }

  predicate Distinct(urls: seq<string>) {
    forall i, j :: 0 <= i < j < |urls| ==> urls[i] != urls[j]
  }

  /** Every listed URL answers with an ok response. */
  predicate AllFetchable(urls: seq<string>, network: Network) {
    forall u :: u in urls ==> network(AssetRequest(u)).Delivered? && Ok(network(AssetRequest(u)).response)
  }

  /** The entries `addAll` stores for the listed URLs. */
  function AssetEntries(urls: seq<string>, network: Network): Entries
    requires AllFetchable(urls, network)
  {
    map r | r in (set u | u in urls :: AssetRequest(u)) :: network(r).response
  }

  /** `cache.addAll(urls)` on the cache called `name` (sw.js:23): every URL is
      fetched; the batch is stored only if every response is ok and no URL is
      listed twice, otherwise nothing at all is stored. */
  method AddAll(cs: Caches, name: string, urls: seq<string>, network: Network)
    returns (after: Caches, added: bool, fetched: seq<Request>)
    ensures |fetched| == |urls| && forall k :: 0 <= k < |urls| ==> fetched[k] == AssetRequest(urls[k])
    ensures added <==> Distinct(urls) && AllFetchable(urls, network)
    ensures added ==> after == Merge(cs, name, AssetEntries(urls, network))
    ensures !added ==> after == cs
  {
    var incoming: Entries := map[];
    added := true;
    fetched := [];
    var i := 0;
    while i < |urls|
      invariant 0 <= i <= |urls|
      invariant |fetched| == i && forall k :: 0 <= k < i ==> fetched[k] == AssetRequest(urls[k])
      invariant added <==> Distinct(urls[..i]) && AllFetchable(urls[..i], network)
      invariant added ==> incoming == AssetEntries(urls[..i], network)
    {
      var req := AssetRequest(urls[i]);
      var outcome := network(req);
      fetched := fetched + [req];
      assert urls[..i + 1] == urls[..i] + [urls[i]];
      if added {
        if req in incoming {
          assert urls[i] in urls[..i];
          added := false;
        } else if outcome.NetworkError? || !Ok(outcome.response) {
          added := false;
        } else {
          assert urls[i] !in urls[..i];
          incoming := incoming[req := outcome.response];
        }
      }
      i := i + 1;
    }
    assert urls[..i] == urls;
    after := if added then Merge(cs, name, incoming) else cs;
  }

  /** The install handler (sw.js:19-28): open the current generation, then
      add every asset. Install succeeds exactly when every asset answers ok;
      then each asset is stored under its request in the current generation.
      On failure no entry of any cache changes; only the opened, still
      incomplete current cache may have been created. Other caches never change. */
  method Install(cs: Caches, network: Network) returns (after: Caches, installed: bool, fetched: seq<Request>)
    ensures |fetched| == |ASSETS_TO_CACHE|
    ensures forall k :: 0 <= k < |ASSETS_TO_CACHE| ==> fetched[k] == AssetRequest(ASSETS_TO_CACHE[k])
    ensures installed <==> AllFetchable(ASSETS_TO_CACHE, network)
    ensures installed ==> Find(after, CACHE_NAME).Some?
    ensures installed ==> forall u :: u in ASSETS_TO_CACHE ==>
      AssetRequest(u) in Find(after, CACHE_NAME).value
      && Find(after, CACHE_NAME).value[AssetRequest(u)] == network(AssetRequest(u)).response
    ensures !installed ==> after == Open(cs, CACHE_NAME)
    ensures forall n :: n != CACHE_NAME ==> Find(after, n) == Find(cs, n)
    ensures NamesUnique(cs) ==> NamesUnique(after)
  {
    assert Distinct(ASSETS_TO_CACHE);
    var ready := Open(cs, CACHE_NAME);
    after, installed, fetched := AddAll(ready, CACHE_NAME, ASSETS_TO_CACHE, network);
    if installed {
      forall u | u in ASSETS_TO_CACHE
        ensures AssetRequest(u) in AssetEntries(ASSETS_TO_CACHE, network)
      {
        assert AssetRequest(u) in (set v | v in ASSETS_TO_CACHE :: AssetRequest(v));
      }
      NamesUniqueMerge(ready, CACHE_NAME, AssetEntries(ASSETS_TO_CACHE, network));
    }
  }

  lemma NamesUniqueMerge(cs: Caches, name: string, incoming: Entries)
    ensures NamesUnique(cs) ==> NamesUnique(Merge(cs, name, incoming))
  {
  }

  /** Whether the background update of sw.js:36-38 stores `resp`. The copy
      is taken by `networkResponse.clone()` only once `caches.open` has
      settled. On a miss the same response has by then been handed to
      `respondWith`, which has taken a reader on its body, so `clone()`
      throws and nothing is put unless the body is null. On a hit nothing
      reads the network response and the clone succeeds. `cache.put` then
      refuses what `Storable` excludes. */
  predicate Refreshes(cs: Caches, req: Request, resp: Response) {
    Storable(req, resp) && (Match(cs, req).Some? || resp.body.None?)
  }

  /** The fetch handler (sw.js:30-49). The cache is consulted and the network
      is asked, once, whether or not the cache answers. A response found in
      any cache is the reply whatever the network does; otherwise the reply
      is the network's response, or `undefined` when the network fails,
      because the rejection is swallowed. A network response always opens
      (creating if needed) the current generation. It is copied there under
      the request (overwriting) only when `Refreshes` holds; a failure
      changes nothing. */
  function HandleFetch(cs: Caches, req: Request, net: NetOutcome): (o: FetchOutcome)
    ensures o.fetched == [req]
    ensures Match(cs, req).Some? ==> o.reply == Respond(Match(cs, req).value)
    ensures Match(cs, req).None? && net.Delivered? ==> o.reply == Respond(net.response)
    ensures Match(cs, req).None? && net.NetworkError? ==> o.reply == NoResponse
    ensures net.NetworkError? ==> o.caches == cs
    ensures net.Delivered? && Refreshes(cs, req, net.response) ==>
      Find(o.caches, CACHE_NAME) == Some(Find(Open(cs, CACHE_NAME), CACHE_NAME).value[req := net.response])
    ensures net.Delivered? && !Refreshes(cs, req, net.response) ==> o.caches == Open(cs, CACHE_NAME)
    ensures net.Delivered? ==> Names(o.caches) == Names(Open(cs, CACHE_NAME))
    ensures forall n :: n != CACHE_NAME ==> Find(o.caches, n) == Find(cs, n)
  {
    var cached := Match(cs, req);
    var after :=
      match net
      case NetworkError => cs
      case Delivered(resp) =>
        var ready := Open(cs, CACHE_NAME);
        if Refreshes(cs, req, resp) then
          assert Find(ready, CACHE_NAME).value + map[req := resp] == Find(ready, CACHE_NAME).value[req := resp];
          Merge(ready, CACHE_NAME, map[req := resp])
        else ready;
    var reply :=
      if cached.Some? then Respond(cached.value)
      else
        match net
        case Delivered(resp) => Respond(resp)
        case NetworkError => NoResponse;
    FetchOutcome(after, reply, [req])
  }

  /** The reference for activation: only caches called `CACHE_NAME` remain, in order. */
  function Evicted(cs: Caches): (r: Caches)
    ensures forall c :: c in r <==> c in cs && c.name == CACHE_NAME
  {
    if |cs| == 0 then []
    else (if cs[0].name == CACHE_NAME then [cs[0]] else []) + Evicted(cs[1..])
  }

  /** Dropping exactly the names other than `CACHE_NAME` is eviction. */
  lemma {:induction false} DropIsEviction(cs: Caches, doomed: set<string>)
    requires forall c :: c in cs ==> (c.name in doomed <==> c.name != CACHE_NAME)
    ensures DropNames(cs, doomed) == Evicted(cs)
  {
    if |cs| > 0 {
      assert cs[0] in cs;
      DropIsEviction(cs[1..], doomed);
    }
  }

  /** The names a sequence lists. */
  function NameSet(ns: seq<string>): (r: set<string>)
    ensures forall n :: n in r <==> n in ns
  {
    set n | n in ns
  }

  /** The names of `ns` other than `CACHE_NAME`, in order. */
  function Superseded(ns: seq<string>): (r: seq<string>)
    ensures forall n :: n in r <==> n in ns && n != CACHE_NAME
    decreases |ns|
  {
    if |ns| == 0 then []
    else
      var last := ns[|ns| - 1];
      var init := ns[..|ns| - 1];
      assert ns == init + [last];
      Superseded(init) + (if last != CACHE_NAME then [last] else [])
  }

  /** Extending the listed names by one extends the superseded ones by it
      unless it is current. */
  lemma SupersededStep(ns: seq<string>, i: int)
    requires 0 <= i < |ns|
    ensures Superseded(ns[..i + 1]) == Superseded(ns[..i]) + (if ns[i] != CACHE_NAME then [ns[i]] else [])
  {
    assert ns[..i + 1][..i] == ns[..i];
  }

  /** Deleting one more name extends the deleted list by it. */
  lemma DeleteStep(cs: Caches, deleted: seq<string>, n: string)
    ensures Delete(DropNames(cs, NameSet(deleted)), n) == DropNames(cs, NameSet(deleted + [n]))
  {
    DropNamesTwice(cs, NameSet(deleted), {n});
    assert NameSet(deleted) + {n} == NameSet(deleted + [n]);
  }

  /** After deleting exactly the names other than `CACHE_NAME`, the caches
      left are the eviction of the original ones, and they are all current. */
  lemma ActivationResult(cs: Caches)
    ensures DropNames(cs, NameSet(Superseded(Names(cs)))) == Evicted(cs)
    ensures forall n :: n in Names(Evicted(cs)) ==> n == CACHE_NAME
    ensures Find(Evicted(cs), CACHE_NAME) == Find(cs, CACHE_NAME)
  {
    var doomed := NameSet(Superseded(Names(cs)));
    forall c | c in cs ensures c.name in doomed <==> c.name != CACHE_NAME {
      var k :| 0 <= k < |cs| && cs[k] == c;
      assert Names(cs)[k] == c.name;
    }
    DropIsEviction(cs, doomed);
    var after := Evicted(cs);
    forall n | n in Names(after) ensures n == CACHE_NAME {
      var k :| 0 <= k < |after| && Names(after)[k] == n;
      assert after[k] in after;
    }
  }

  /** The activate handler (sw.js:51-66): list the cache names, delete each
      one that is not `CACHE_NAME`. Exactly the other names are deleted; the
      current generation keeps all its entries. */
  method Activate(cs: Caches) returns (after: Caches, deleted: seq<string>)
    ensures after == Evicted(cs)
    ensures forall n :: n in deleted <==> n in Names(cs) && n != CACHE_NAME
    ensures Find(after, CACHE_NAME) == Find(cs, CACHE_NAME)
    ensures forall n :: n in Names(after) ==> n == CACHE_NAME
  {
    var names := Names(cs);
    DropNothing(cs);
    assert NameSet([]) == {};
    after := cs;
    deleted := [];
    var i := 0;
    while i < |names|
      invariant 0 <= i <= |names|
      invariant deleted == Superseded(names[..i])
      invariant after == DropNames(cs, NameSet(deleted))
    {
      var n := names[i];
      SupersededStep(names, i);
      if n != CACHE_NAME {
        DeleteStep(cs, deleted, n);
        after := Delete(after, n);
        deleted := deleted + [n];
      }
      i := i + 1;
    }
    assert names[..i] == names;
    ActivationResult(cs);
  }
}
