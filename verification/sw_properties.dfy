/** Properties of the service worker that span several events: repeated
    fetches, eviction run twice, and install followed by activation. */
module SwProperties {
  import opened Wrappers
  import opened CacheStorage
  import opened ServiceWorker

  /** Only the current generation is left, as after activation. */
  predicate OnlyCurrent(cs: Caches) {
    forall c :: c in cs ==> c.name == CACHE_NAME
  }

  /** Evicting an already evicted storage changes nothing, so activating
      twice leaves the same caches as activating once. */
  lemma {:induction false} EvictionIdempotent(cs: Caches)
    ensures Evicted(Evicted(cs)) == Evicted(cs)
    ensures OnlyCurrent(Evicted(cs))
  {
    if |cs| > 0 {
      EvictionIdempotent(cs[1..]);
      var tail := Evicted(cs[1..]);
      if cs[0].name == CACHE_NAME {
        assert Evicted(cs) == [cs[0]] + tail;
        assert ([cs[0]] + tail)[1..] == tail;
      } else {
        assert Evicted(cs) == tail;
      }
    }
  }

  /** With unique names, eviction leaves exactly one cache when the current
      generation exists and none otherwise. */
  lemma {:induction false} EvictedCount(cs: Caches)
    requires NamesUnique(cs)
    ensures |Evicted(cs)| == if CACHE_NAME in Names(cs) then 1 else 0
  {
    if |cs| > 0 {
      var rest := cs[1..];
      assert NamesUnique(rest) by {
        forall i, j | 0 <= i < j < |rest| ensures rest[i].name != rest[j].name {
          assert rest[i] == cs[i + 1] && rest[j] == cs[j + 1];
        }
      }
      EvictedCount(rest);
      assert forall n :: n in Names(cs) <==> n == cs[0].name || n in Names(rest) by {
        forall n ensures n in Names(cs) <==> n == cs[0].name || n in Names(rest) {
          if n in Names(cs) && n != cs[0].name {
            var k :| 0 <= k < |cs| && Names(cs)[k] == n;
            assert Names(rest)[k - 1] == n;
          }
          if n in Names(rest) {
            var k :| 0 <= k < |rest| && Names(rest)[k] == n;
            assert Names(cs)[k + 1] == n;
          }
        }
      }
      if cs[0].name == CACHE_NAME {
        forall k | 0 <= k < |rest| ensures Names(rest)[k] != CACHE_NAME {
          assert rest[k] == cs[k + 1];
        }
      }
    }
  }

  /** Opening the current generation does not turn a miss into a hit. */
  lemma OpenKeepsMiss(cs: Caches, req: Request)
    requires Match(cs, req).None?
    ensures Match(Open(cs, CACHE_NAME), req).None?
  {
    var ready := Open(cs, CACHE_NAME);
    if req.verb == "GET" {
      forall i | 0 <= i < |ready| ensures req !in ready[i].entries {
        if i >= |cs| { assert ready == cs + [Cache(CACHE_NAME, map[])]; }
      }
    }
  }

  /** A fetch answered by the network, in a storage holding only the current
      generation, leaves only the current generation. The next lookup finds
      the network's response when the update stores it (a hit, or a miss
      with a null body); after a miss whose response has a body it is still
      a miss. */
  lemma RefreshedEntryServedNext(cs: Caches, req: Request, newer: Response)
    requires OnlyCurrent(cs) && Storable(req, newer)
    ensures OnlyCurrent(HandleFetch(cs, req, Delivered(newer)).caches)
    ensures Match(cs, req).Some? || newer.body.None? ==>
      Match(HandleFetch(cs, req, Delivered(newer)).caches, req) == Some(newer)
    ensures Match(cs, req).None? && newer.body.Some? ==>
      Match(HandleFetch(cs, req, Delivered(newer)).caches, req).None?
  {
    var ready := Open(cs, CACHE_NAME);
    OpenOnlyCurrent(cs);
    if Refreshes(cs, req, newer) {
      assert HandleFetch(cs, req, Delivered(newer)).caches == Merge(ready, CACHE_NAME, map[req := newer]);
      MergeOnlyCurrent(ready, map[req := newer]);
      assert ready[0] in ready;
      MergeAnswers(ready, req, newer);
    } else {
      assert HandleFetch(cs, req, Delivered(newer)).caches == ready;
      if Match(cs, req).None? { OpenKeepsMiss(cs, req); }
    }
  }

  /** Opening the current generation keeps only the current generation. */
  lemma OpenOnlyCurrent(cs: Caches)
    requires OnlyCurrent(cs)
    ensures OnlyCurrent(Open(cs, CACHE_NAME)) && |Open(cs, CACHE_NAME)| > 0
  {
    var ready := Open(cs, CACHE_NAME);
    forall i | 0 <= i < |ready| ensures ready[i].name == CACHE_NAME {
      if i < |cs| { assert ready[i] == cs[i] && cs[i] in cs; }
    }
  }

  /** Writing into the current generation keeps only the current generation. */
  lemma MergeOnlyCurrent(ready: Caches, incoming: Entries)
    requires OnlyCurrent(ready)
    ensures OnlyCurrent(Merge(ready, CACHE_NAME, incoming))
  {
    var after := Merge(ready, CACHE_NAME, incoming);
    assert |after| == |ready| && Names(after) == Names(ready);
    forall i | 0 <= i < |after| ensures after[i].name == CACHE_NAME {
      assert Names(after)[i] == Names(ready)[i];
      assert ready[i] in ready;
    }
  }

  /** Writing `req` into a storage whose oldest cache is the current
      generation makes the lookup of `req` answer the written response. */
  lemma MergeAnswers(ready: Caches, req: Request, newer: Response)
    requires |ready| > 0 && ready[0].name == CACHE_NAME && req.verb == "GET"
    ensures Match(Merge(ready, CACHE_NAME, map[req := newer]), req) == Some(newer)
  {
    var after := Merge(ready, CACHE_NAME, map[req := newer]);
    assert after[0].entries == ready[0].entries + map[req := newer];
    assert req in after[0].entries && after[0].entries[req] == newer;
    assert Lookup(after, req) == Some(newer);
  }

  /** The replies to one request fetched repeatedly, the network answering
      each time as listed. */
  function Replies(cs: Caches, req: Request, nets: seq<NetOutcome>): (rs: seq<Reply>)
    ensures |rs| == |nets|
    decreases |nets|
  {
    if |nets| == 0 then []
    else
      var o := HandleFetch(cs, req, nets[0]);
      [o.reply] + Replies(o.caches, req, nets[1..])
  }

  /** The first reply, and the storage the remaining requests see. */
  lemma RepliesStep(cs: Caches, req: Request, nets: seq<NetOutcome>)
    requires |nets| > 0
    ensures Replies(cs, req, nets)
         == [HandleFetch(cs, req, nets[0]).reply] + Replies(HandleFetch(cs, req, nets[0]).caches, req, nets[1..])
  {
  }

  /** `count` replies serving `r`. */
  function Served(count: nat, r: Response): (rs: seq<Reply>)
    ensures |rs| == count && forall i :: 0 <= i < count ==> rs[i] == Respond(r)
  {
    seq(count, _ => Respond(r))
  }

  /** While the network fails, the cached response is served and the storage stays as it is. */
  lemma {:induction false} FailuresServeCached(cs: Caches, req: Request, nets: seq<NetOutcome>, j: nat, stale: Response)
    requires Match(cs, req) == Some(stale)
    requires j <= |nets| && forall i :: 0 <= i < j ==> nets[i].NetworkError?
    ensures Replies(cs, req, nets) == Served(j, stale) + Replies(cs, req, nets[j..])
    decreases j
  {
    if j == 0 {
      assert nets[0..] == nets;
      assert Served(0, stale) == [];
    } else {
      var rest := nets[1..];
      var later := Replies(cs, req, nets[j..]);
      assert Replies(cs, req, nets) == [Respond(stale)] + Replies(cs, req, rest) by {
        RepliesStep(cs, req, nets);
        var o := HandleFetch(cs, req, nets[0]);
        assert o.caches == cs && o.reply == Respond(stale);
      }
      assert Replies(cs, req, rest) == Served(j - 1, stale) + later by {
        assert forall i :: 0 <= i < j - 1 ==> rest[i] == nets[i + 1];
        FailuresServeCached(cs, req, rest, j - 1, stale);
        assert rest[j - 1..] == nets[j..];
      }
      assert [Respond(stale)] + Served(j - 1, stale) == Served(j, stale);
      assert [Respond(stale)] + (Served(j - 1, stale) + later) == ([Respond(stale)] + Served(j - 1, stale)) + later;
    }
  }

  /** The replies up to and including the first request the network
      answers are all the cached response; the reply after that is the first
      reply the storage left by that request gives. */
  lemma {:induction false} StaleThrough(cs: Caches, req: Request, nets: seq<NetOutcome>, k: nat, stale: Response)
    requires Match(cs, req) == Some(stale)
    requires k < |nets| && forall i :: 0 <= i < k ==> nets[i].NetworkError?
    ensures forall i :: 0 <= i <= k ==> Replies(cs, req, nets)[i] == Respond(stale)
    ensures k + 1 < |nets| ==>
      Replies(cs, req, nets)[k + 1] == Replies(HandleFetch(cs, req, nets[k]).caches, req, nets[k + 1..])[0]
  {
    var rest := nets[k..];
    var tail := Replies(HandleFetch(cs, req, rest[0]).caches, req, rest[1..]);
    var all := Replies(cs, req, nets);
    assert Replies(cs, req, rest) == [Respond(stale)] + tail by {
      RepliesStep(cs, req, rest);
      assert HandleFetch(cs, req, rest[0]).reply == Respond(stale);
    }
    assert all == Served(k, stale) + ([Respond(stale)] + tail) by {
      FailuresServeCached(cs, req, nets, k, stale);
    }
    assert forall i :: 0 <= i <= k ==> all[i] == Respond(stale) by {
      assert forall i :: 0 <= i < k ==> all[i] == Served(k, stale)[i];
      assert all[k] == Respond(stale);
    }
    if k + 1 < |nets| {
      assert rest[1..] == nets[k + 1..];
      assert all[k + 1] == tail[0];
    }
  }

  /** Stale-while-revalidate over time: while the network fails, every
      request is served the cached response unchanged; the request whose
      background fetch succeeds is still served the old response, and the
      next one is served the new one. */
  lemma StaleUntilRevalidated(cs: Caches, req: Request, nets: seq<NetOutcome>,
                              k: nat, stale: Response, newer: Response)
    requires OnlyCurrent(cs) && Match(cs, req) == Some(stale)
    requires k < |nets| && nets[k] == Delivered(newer) && Storable(req, newer)
    requires forall i :: 0 <= i < k ==> nets[i].NetworkError?
    ensures forall i :: 0 <= i <= k ==> Replies(cs, req, nets)[i] == Respond(stale)
    ensures k + 1 < |nets| ==> Replies(cs, req, nets)[k + 1] == Respond(newer)
  {
    StaleThrough(cs, req, nets, k, stale);
    if k + 1 < |nets| {
      RefreshedEntryServedNext(cs, req, newer);
      RepliesStep(HandleFetch(cs, req, nets[k]).caches, req, nets[k + 1..]);
    }
  }

  /** When every cache holding `req` holds `v` for it and one does, the
      lookup answers `v`. */
  lemma LookupUniform(cs: Caches, req: Request, v: Response)
    requires forall i :: 0 <= i < |cs| && req in cs[i].entries ==> cs[i].entries[req] == v
    requires exists i :: 0 <= i < |cs| && req in cs[i].entries
    ensures Lookup(cs, req) == Some(v)
  {
  }

  /** After a miss is answered with a null body, every cache holding the
      request holds the network's response for it, and the current
      generation holds it. */
  lemma StoredOnlyAsAnswered(cs: Caches, req: Request, newer: Response)
    requires Match(cs, req).None? && Storable(req, newer) && newer.body.None?
    ensures var after := HandleFetch(cs, req, Delivered(newer)).caches;
      Lookup(after, req) == Some(newer)
  {
    var ready := Open(cs, CACHE_NAME);
    var after := Merge(ready, CACHE_NAME, map[req := newer]);
    assert HandleFetch(cs, req, Delivered(newer)).caches == after;
    assert forall i :: 0 <= i < |ready| ==> req !in ready[i].entries by {
      assert Lookup(cs, req).None?;
      if Find(cs, CACHE_NAME).None? { FindNames(cs, CACHE_NAME); }
    }
    forall i | 0 <= i < |after| && req in after[i].entries ensures after[i].entries[req] == newer {
      assert Names(after)[i] == Names(ready)[i];
    }
    assert exists i :: 0 <= i < |after| && req in after[i].entries by {
      assert req in Find(after, CACHE_NAME).value;
      FindIndex(after, CACHE_NAME);
    }
    LookupUniform(after, req, newer);
  }

  /** A cache that is found sits at some index. */
  lemma {:induction false} FindIndex(cs: Caches, name: string)
    requires Find(cs, name).Some?
    ensures exists k :: 0 <= k < |cs| && cs[k].name == name && Find(cs, name) == Some(cs[k].entries)
  {
    if cs[0].name != name {
      FindIndex(cs[1..], name);
      var k :| 0 <= k < |cs[1..]| && cs[1..][k].name == name && Find(cs[1..], name) == Some(cs[1..][k].entries);
      assert cs[k + 1] == cs[1..][k];
    }
  }

  /** A miss that the network answers is stored only when the response has
      a null body; the next request for it is then served from the cache,
      whatever the network does. A response with a body cannot be copied
      once `respondWith` holds it, so the request stays a miss and the next
      request is answered exactly as if the first had not happened. */
  lemma MissStoredOnlyWithoutBody(cs: Caches, req: Request, newer: Response, later: NetOutcome)
    requires Match(cs, req).None? && Storable(req, newer)
    ensures newer.body.None? ==>
      HandleFetch(HandleFetch(cs, req, Delivered(newer)).caches, req, later).reply == Respond(newer)
    ensures newer.body.Some? ==>
      HandleFetch(HandleFetch(cs, req, Delivered(newer)).caches, req, later).reply == HandleFetch(cs, req, later).reply
  {
    if newer.body.None? {
      StoredOnlyAsAnswered(cs, req, newer);
    } else {
      OpenKeepsMiss(cs, req);
    }
  }

  /** `caches.match` consults every cache, oldest first, so an older
      generation still holding the request keeps answering it and the
      refreshed copy written into the current generation stays unseen until
      activation deletes the older one. */
  lemma OlderGenerationShadows(cs: Caches, req: Request, net: NetOutcome)
    requires |cs| > 0 && cs[0].name != CACHE_NAME
    requires req.verb == "GET" && req in cs[0].entries
    ensures HandleFetch(cs, req, net).reply == Respond(cs[0].entries[req])
    ensures Match(HandleFetch(cs, req, net).caches, req) == Some(cs[0].entries[req])
  {
  }

  /** Install followed by activation. When every asset answers ok, the
      current generation becomes the only cache and answers every asset with
      the response fetched for it; otherwise the worker does not activate and
      every existing cache keeps its entries. */
  method Deploy(cs: Caches, network: Network) returns (after: Caches, active: bool)
    requires NamesUnique(cs)
    ensures active <==> AllFetchable(ASSETS_TO_CACHE, network)
    ensures active ==> |after| == 1 && after[0].name == CACHE_NAME
    ensures active ==> forall u :: u in ASSETS_TO_CACHE ==>
      Match(after, AssetRequest(u)) == Some(network(AssetRequest(u)).response)
    ensures !active ==> forall n :: n in Names(cs) ==> Find(after, n) == Find(cs, n)
    ensures !active ==> Names(after) == Names(Open(cs, CACHE_NAME))
  {
    var installed, fetched;
    after, installed, fetched := Install(cs, network);
    active := installed;
    if installed {
      var staged := after;
      var deleted;
      after, deleted := Activate(staged);
      EvictedCount(staged);
      assert after[0] in after;
      assert Find(after, CACHE_NAME) == Some(after[0].entries);
    } else {
      forall n | n in Names(cs) ensures Find(after, n) == Find(cs, n) {
        FindNames(cs, n);
      }
    }
  }
}
