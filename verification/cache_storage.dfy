/** The platform's Cache Storage as the service worker uses it: named
    caches kept in creation order, each mapping a request to a response.
    Only the behaviour the worker relies on is modelled: `open` creates a
    missing cache at the end of the order, `match` answers from the first
    cache in creation order that holds the request and only for GET, `put`
    refuses non-GET requests and partial (206) responses, and `delete`
    removes a cache by name. */
module CacheStorage {
  import opened Wrappers

  /** Request identity: the HTTP method (`verb`) and the URL. */
  datatype Request = Request(verb: string, url: string)
  /** A response; `body` is `None` for a null body (as for 204, 304 and
      opaque responses). */
  datatype Response = Response(status: int, body: Option<string>)
  type Entries = map<Request, Response>
  datatype Cache = Cache(name: string, entries: Entries)
  /** All caches of the origin, oldest first. */
  type Caches = seq<Cache>

  function Names(cs: Caches): (ns: seq<string>)
    ensures |ns| == |cs|
    ensures forall i :: 0 <= i < |cs| ==> ns[i] == cs[i].name
  {
    seq(|cs|, i requires 0 <= i < |cs| => cs[i].name)
  }

  /** No two caches share a name; every operation below keeps this. */
  predicate NamesUnique(cs: Caches) {
    forall i, j :: 0 <= i < j < |cs| ==> cs[i].name != cs[j].name
  }

  /** The entries of the cache called `name`, if there is one. */
  function Find(cs: Caches, name: string): Option<Entries> {
    if |cs| == 0 then None
    else if cs[0].name == name then Some(cs[0].entries)
    else Find(cs[1..], name)
  }

  /** A name is found exactly when some cache carries it. */
  lemma {:induction false} FindNames(cs: Caches, name: string)
    ensures Find(cs, name).Some? <==> name in Names(cs)
  {
    if |cs| > 0 && cs[0].name != name {
      FindNames(cs[1..], name);
      assert forall i :: 1 <= i < |cs| ==> Names(cs)[i] == Names(cs[1..])[i - 1];
      assert Names(cs)[0] != name;
      if name in Names(cs) {
        var k :| 0 <= k < |cs| && Names(cs)[k] == name;
        assert Names(cs[1..])[k - 1] == name;
      }
    }
  }

  /** A cache created after the existing ones is found only under its own
      name, and only when no older cache has that name. */
  lemma {:induction false} FindAppend(cs: Caches, c: Cache, name: string)
    ensures Find(cs + [c], name)
         == if Find(cs, name).Some? then Find(cs, name)
            else if c.name == name then Some(c.entries) else None
  {
    if |cs| > 0 {
      assert (cs + [c])[1..] == cs[1..] + [c];
      FindAppend(cs[1..], c, name);
    } else {
      assert [c][1..] == [];
    }
  }

  /** `caches.open(name)`: the named cache, created empty if missing. */
  function Open(cs: Caches, name: string): (r: Caches)
    ensures Find(r, name) == if Find(cs, name).Some? then Find(cs, name) else Some(map[])
    ensures forall n :: n != name ==> Find(r, n) == Find(cs, n)
    ensures Names(r) == if name in Names(cs) then Names(cs) else Names(cs) + [name]
    ensures NamesUnique(cs) ==> NamesUnique(r)
  {
    FindNames(cs, name);
    var r := if Find(cs, name).Some? then cs else cs + [Cache(name, map[])];
    forall n ensures Find(r, n) == if n == name && Find(cs, n).None? then Some(map[]) else Find(cs, n) {
      if Find(cs, name).None? { FindAppend(cs, Cache(name, map[]), n); }
    }
    r
  }

  /** Adds `incoming` to the entries of the cache called `name`, overwriting
      the requests it holds already; every other cache is left alone. */
  function Merge(cs: Caches, name: string, incoming: Entries): (r: Caches)
    ensures Names(r) == Names(cs)
    ensures forall n :: Find(r, n) == if n == name && Find(cs, n).Some? then Some(Find(cs, n).value + incoming) else Find(cs, n)
    ensures forall i :: 0 <= i < |cs| && cs[i].name != name ==> r[i] == cs[i]
    ensures forall i :: 0 <= i < |cs| && cs[i].name == name ==> r[i].entries == cs[i].entries + incoming
  {
    if |cs| == 0 then []
    else
      var head := if cs[0].name == name then Cache(name, cs[0].entries + incoming) else cs[0];
      var tail := Merge(cs[1..], name, incoming);
      assert ([head] + tail)[1..] == tail;
      [head] + tail
  }

  /** `cache.put` is refused for a non-GET request and for a partial response. */
  predicate Storable(req: Request, resp: Response) {
    req.verb == "GET" && resp.status != 206
  }

  /** The response the oldest cache holding `req` has for it. */
  function Lookup(cs: Caches, req: Request): (r: Option<Response>)
    ensures r.Some? <==> exists i :: 0 <= i < |cs| && req in cs[i].entries
    ensures r.Some? ==> exists i :: 0 <= i < |cs| && req in cs[i].entries && cs[i].entries[req] == r.value
                               && forall j :: 0 <= j < i ==> req !in cs[j].entries
  {
    if |cs| == 0 then None
    else if req in cs[0].entries then Some(cs[0].entries[req])
    else
      var r := Lookup(cs[1..], req);
      assert forall i :: 1 <= i < |cs| ==> cs[i] == cs[1..][i - 1];
      r
  }

  /** `caches.match(req)`: only GET requests are answered from a cache. */
  function Match(cs: Caches, req: Request): (r: Option<Response>)
    ensures req.verb != "GET" ==> r.None?
    ensures r.Some? <==> req.verb == "GET" && exists i :: 0 <= i < |cs| && req in cs[i].entries
    ensures r.Some? ==> exists i :: 0 <= i < |cs| && req in cs[i].entries && cs[i].entries[req] == r.value
                               && forall j :: 0 <= j < i ==> req !in cs[j].entries
  {
    if req.verb != "GET" then None else Lookup(cs, req)
  }

  /** The caches whose names are not in `doomed`, in their original order. */
  function DropNames(cs: Caches, doomed: set<string>): (r: Caches)
    ensures forall c :: c in r <==> c in cs && c.name !in doomed
    ensures forall n :: n !in doomed ==> Find(r, n) == Find(cs, n)
    ensures NamesUnique(cs) ==> NamesUnique(r)
  {
    if |cs| == 0 then []
    else
      var tail := DropNames(cs[1..], doomed);
      if cs[0].name in doomed then tail
      else
        assert ([cs[0]] + tail)[1..] == tail;
        [cs[0]] + tail
  }

  /** Dropping no name keeps every cache. */
  lemma {:induction false} DropNothing(cs: Caches)
    ensures DropNames(cs, {}) == cs
  {
    if |cs| > 0 {
      DropNothing(cs[1..]);
      assert [cs[0]] + cs[1..] == cs;
    }
  }

  /** Dropping in two steps drops the union. */
  lemma {:induction false} DropNamesTwice(cs: Caches, a: set<string>, b: set<string>)
    ensures DropNames(DropNames(cs, a), b) == DropNames(cs, a + b)
  {
    if |cs| > 0 {
      DropNamesTwice(cs[1..], a, b);
      var t := DropNames(cs[1..], a);
      if cs[0].name !in a {
        assert DropNames(cs, a) == [cs[0]] + t;
        assert ([cs[0]] + t)[1..] == t;
      }
    }
  }

  /** Dropping caches that do not hold `req` leaves its lookup unchanged. */
  lemma {:induction false} DropKeepsLookup(cs: Caches, doomed: set<string>, req: Request)
    requires forall c :: c in cs && c.name in doomed ==> req !in c.entries
    ensures Lookup(DropNames(cs, doomed), req) == Lookup(cs, req)
  {
    if |cs| > 0 {
      assert forall c :: c in cs[1..] ==> c in cs;
      DropKeepsLookup(cs[1..], doomed, req);
      var tail := DropNames(cs[1..], doomed);
      if cs[0].name !in doomed {
        assert ([cs[0]] + tail)[1..] == tail;
      }
    }
  }

  /** `caches.delete(name)`: the named cache goes, every other cache stays,
      and no request the deleted cache did not hold is answered differently. */
  function Delete(cs: Caches, name: string): (r: Caches)
    ensures name !in Names(r)
    ensures forall c :: c in r <==> c in cs && c.name != name
    ensures forall n :: n != name ==> Find(r, n) == Find(cs, n)
    ensures forall req :: (forall c :: c in cs && c.name == name ==> req !in c.entries) ==>
      Match(r, req) == Match(cs, req)
  {
    var r := DropNames(cs, {name});
    assert forall req :: (forall c :: c in cs && c.name == name ==> req !in c.entries) ==>
      Match(r, req) == Match(cs, req) by {
      forall req | forall c :: c in cs && c.name == name ==> req !in c.entries
        ensures Match(r, req) == Match(cs, req)
      {
        DropKeepsLookup(cs, {name}, req);
      }
    }
    r
  }
}
