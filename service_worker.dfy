/** sw.js, the service worker of the web front end, with its Promise and
    event wiring taken away: the choice of caching strategy per request,
    the network-first and cache-first strategies, the FIFO trimming of a
    cache (`limitCacheSize`) and the removal of old caches on activation.

    The browser's cache storage is modelled as a list of cache names in
    creation order and a map from each name to its entries in insertion
    order. The network is a parameter: the response `fetch` resolves to,
    or None when it rejects. */
module ServiceWorker {
  import opened Wrappers
  import opened Text

  const Version := "v2"
  const StaticCache := "spicy-static-v2"
  const ImageCache := "spicy-images-v2"
  const ApiCache := "spicy-api-v2"
  const MaxImageCache: nat := 100
  const MaxApiCache: nat := 50

  const ApiHost := "api.themoviedb.org"
  const ImageHost := "image.tmdb.org"
  const CdnHosts: seq<string> := ["cdn.tailwindcss.com", "cdnjs.cloudflare.com", "_vercel"]

  /** A request as the worker sees it: its URL and the URL's parsed host
      name and path. Cache lookups compare whole requests. */
  datatype Request = Request(href: string, hostname: string, pathname: string)

  datatype Response = Response(status: int, body: string) {
    /** `response.ok`. */
    predicate Ok() {
      200 <= status <= 299
    }
  }

  datatype Entry = Entry(request: Request, response: Response)

  // ---------------------------------------------------------------------
  // Routing

  datatype Strategy = NetworkFirst | CacheFirstImage | NetworkOnly | CacheFirstStatic

  /** The condition guarding each strategy's branch of the fetch handler,
      taken on its own. */
  predicate Guard(s: Strategy, r: Request) {
    match s
    case NetworkFirst => r.hostname == ApiHost
    case CacheFirstImage => r.hostname == ImageHost || EndsWith(r.pathname, ".jpg") || EndsWith(r.pathname, ".png")
    case NetworkOnly => r.hostname in CdnHosts
    case CacheFirstStatic => true
  }

  /** The order in which the handler tests the branches. */
  function Rank(s: Strategy): nat {
    match s
    case NetworkFirst => 0
    case CacheFirstImage => 1
    case NetworkOnly => 2
    case CacheFirstStatic => 3
  }

  /** The strategy the fetch handler picks: the first branch, in source
      order, whose guard holds. */
  function Route(r: Request): (s: Strategy)
    ensures Guard(s, r)
    ensures forall t: Strategy | Rank(t) < Rank(s) :: !Guard(t, r)
  {
    if r.hostname == ApiHost then NetworkFirst
    else if r.hostname == ImageHost || EndsWith(r.pathname, ".jpg") || EndsWith(r.pathname, ".png") then CacheFirstImage
    else if r.hostname in CdnHosts then NetworkOnly
    else CacheFirstStatic
  }

  /** The first-match rule picks exactly one strategy: any strategy whose
      guard holds while every earlier guard fails is the one routed to. */
  lemma RouteIsFirstMatch(r: Request, s: Strategy)
    requires Guard(s, r) && forall t: Strategy | Rank(t) < Rank(s) :: !Guard(t, r)
    ensures Route(r) == s
  {
    var s' := Route(r);
    assert Rank(s') < Rank(s) ==> !Guard(s', r);
    assert Rank(s) < Rank(s') ==> !Guard(s, r);
  }

  /** The API host is served network-first even for image paths. */
  lemma ApiImagesAreNetworkFirst(href: string, pathname: string)
    ensures Route(Request(href, ApiHost, pathname)) == NetworkFirst
  {
  }

  // ---------------------------------------------------------------------
  // The entries of one cache

  function Requests(entries: seq<Entry>): (rs: seq<Request>)
    ensures |rs| == |entries| && forall k | 0 <= k < |rs| :: rs[k] == entries[k].request
  {
    if entries == [] then [] else Requests(entries[..|entries| - 1]) + [entries[|entries| - 1].request]
  }

  /** No request is stored twice in one cache. */
  predicate UniqueRequests(entries: seq<Entry>) {
    forall i, j | 0 <= i < j < |entries| :: entries[i].request != entries[j].request
  }

  /** `cache.match(request)`: the stored response for `req`, if any. */
  function Lookup(entries: seq<Entry>, req: Request): (o: Option<Response>)
    ensures o.None? <==> forall k | 0 <= k < |entries| :: entries[k].request != req
    ensures o.Some? ==> exists k | 0 <= k < |entries| :: entries[k] == Entry(req, o.value)
  {
    if entries == [] then None
    else if entries[0].request == req then Some(entries[0].response)
    else Lookup(entries[1..], req)
  }

  /** `cache.delete(request)`: the entries without those for `req`, in their order. */
  function Remove(entries: seq<Entry>, req: Request): (r: seq<Entry>)
    ensures |r| <= |entries|
    ensures forall k | 0 <= k < |r| :: r[k].request != req
    ensures forall e | e in entries && e.request != req :: e in r
    ensures forall e | e in r :: e in entries
  {
    if entries == [] then []
    else if entries[0].request == req then Remove(entries[1..], req)
    else [entries[0]] + Remove(entries[1..], req)
  }

  /** `Remove` is the order-preserving filter: it distributes over
      concatenation (and keeps a single entry exactly when its request
      differs, RemoveSingle), so the other entries keep their order. */
  lemma {:induction false} RemoveAppend(a: seq<Entry>, b: seq<Entry>, req: Request)
    ensures Remove(a + b, req) == Remove(a, req) + Remove(b, req)
    decreases |a|
  {
    if a == [] {
      assert a + b == b;
    } else {
      assert (a + b)[0] == a[0] && (a + b)[1..] == a[1..] + b;
      RemoveAppend(a[1..], b, req);
      if a[0].request != req {
        AppendAssoc([a[0]], Remove(a[1..], req), Remove(b, req));
      }
    }
  }

  lemma RemoveSingle(e: Entry, req: Request)
    ensures Remove([e], req) == if e.request == req then [] else [e]
  {
    assert [e][1..] == [];
  }

  /** `cache.put(request, response)`: any entry for `req` is replaced, and
      the new one becomes the most recent. */
  function PutEntry(entries: seq<Entry>, req: Request, resp: Response): (r: seq<Entry>)
    ensures r != [] && r[|r| - 1] == Entry(req, resp)
  {
    Remove(entries, req) + [Entry(req, resp)]
  }

  /** What `limitCacheSize` leaves of a cache: the newest `maxItems`
      entries, or all of them when there are no more than that. */
  function Trimmed(entries: seq<Entry>, maxItems: nat): (r: seq<Entry>)
    ensures |r| == Min(|entries|, maxItems)
    ensures r == entries[|entries| - |r|..]
  {
    if |entries| > maxItems then entries[|entries| - maxItems..] else entries
  }

  lemma {:induction false} RemoveKeepsUnique(entries: seq<Entry>, req: Request)
    requires UniqueRequests(entries)
    ensures UniqueRequests(Remove(entries, req))
    decreases |entries|
  {
    if entries != [] {
      RemoveKeepsUnique(entries[1..], req);
      var rest := Remove(entries[1..], req);
      if entries[0].request != req {
        forall e | e in rest ensures e.request != entries[0].request {
          assert e in entries[1..];
        }
        var r := [entries[0]] + rest;
        forall i, j | 0 <= i < j < |r| ensures r[i].request != r[j].request {
          if i == 0 {
            assert r[j] in rest;
          } else {
            assert r[i] == rest[i - 1] && r[j] == rest[j - 1];
          }
        }
      }
    }
  }

  lemma PutKeepsUnique(entries: seq<Entry>, req: Request, resp: Response)
    requires UniqueRequests(entries)
    ensures UniqueRequests(PutEntry(entries, req, resp))
  {
    RemoveKeepsUnique(entries, req);
    var rest := Remove(entries, req);
    var r := rest + [Entry(req, resp)];
    forall i, j | 0 <= i < j < |r| ensures r[i].request != r[j].request {
      if j == |r| - 1 {
        assert r[i] == rest[i];
      } else {
        assert r[i] == rest[i] && r[j] == rest[j];
      }
    }
  }

  lemma TrimKeepsUnique(entries: seq<Entry>, maxItems: nat)
    requires UniqueRequests(entries)
    ensures UniqueRequests(Trimmed(entries, maxItems))
  {
    var r := Trimmed(entries, maxItems);
    var d := |entries| - |r|;
    forall i, j | 0 <= i < j < |r| ensures r[i].request != r[j].request {
      assert r[i] == entries[d + i] && r[j] == entries[d + j];
    }
  }

  /** With unique requests, deleting the oldest entry's request removes
      exactly that entry. */
  lemma {:induction false} RemoveOldest(entries: seq<Entry>)
    requires entries != [] && UniqueRequests(entries)
    ensures Remove(entries, entries[0].request) == entries[1..]
  {
    RemoveAbsent(entries[1..], entries[0].request);
  }

  lemma {:induction false} RemoveAbsent(entries: seq<Entry>, req: Request)
    requires forall k | 0 <= k < |entries| :: entries[k].request != req
    ensures Remove(entries, req) == entries
    decreases |entries|
  {
    if entries != [] {
      RemoveAbsent(entries[1..], req);
      assert [entries[0]] + entries[1..] == entries;
    }
  }

  /** A response just put is what the cache then returns for that request,
      and every other request keeps its response. */
  lemma {:induction false} PutThenLookup(entries: seq<Entry>, req: Request, resp: Response, other: Request)
    ensures Lookup(PutEntry(entries, req, resp), req) == Some(resp)
    ensures other != req ==> Lookup(PutEntry(entries, req, resp), other) == Lookup(entries, other)
    decreases |entries|
  {
    if entries != [] {
      PutThenLookup(entries[1..], req, resp, other);
      var tail := PutEntry(entries[1..], req, resp);
      if entries[0].request == req {
        assert PutEntry(entries, req, resp) == tail;
      } else {
        assert PutEntry(entries, req, resp) == [entries[0]] + tail;
        assert ([entries[0]] + tail)[1..] == tail;
      }
    } else {
      assert PutEntry(entries, req, resp) == [Entry(req, resp)];
    }
  }

  /** Trimming keeps the newest entry whenever it keeps anything, so a
      response just put survives `limitCacheSize` with a positive limit. */
  lemma PutSurvivesTrim(entries: seq<Entry>, req: Request, resp: Response, maxItems: nat)
    requires maxItems >= 1
    ensures Lookup(Trimmed(PutEntry(entries, req, resp), maxItems), req) == Some(resp)
  {
    var p := PutEntry(entries, req, resp);
    var t := Trimmed(p, maxItems);
    assert t[|t| - 1] == p[|p| - 1];
    var d := |p| - |t|;
    assert forall k | 0 <= k < |t| - 1 :: t[k] == p[d + k] && p[d + k] == Remove(entries, req)[d + k];
    LookupOnlyLast(t, req);
  }

  /** When only the newest entry is for `req`, that entry answers it. */
  lemma {:induction false} LookupOnlyLast(entries: seq<Entry>, req: Request)
    requires entries != [] && entries[|entries| - 1].request == req
    requires forall k | 0 <= k < |entries| - 1 :: entries[k].request != req
    ensures Lookup(entries, req) == Some(entries[|entries| - 1].response)
    decreases |entries|
  {
    if |entries| > 1 {
      LookupOnlyLast(entries[1..], req);
    }
  }

  /** `limitCacheSize` deletes exactly `length - maxItems` entries, the
      oldest ones, when the cache is over the limit, and nothing otherwise. */
  lemma TrimDeletesOldest(entries: seq<Entry>, maxItems: nat)
    ensures |entries| <= maxItems ==> Trimmed(entries, maxItems) == entries
    ensures |entries| > maxItems ==>
      |Trimmed(entries, maxItems)| == maxItems
      && entries == entries[..|entries| - maxItems] + Trimmed(entries, maxItems)
  {
  }

  // ---------------------------------------------------------------------
  // The cache storage

  /** The names of `caches.keys()`, in creation order, and each cache's entries. */
  datatype Storage = Storage(names: seq<string>, caches: map<string, seq<Entry>>)

  predicate Distinct(names: seq<string>) {
    forall i, j | 0 <= i < j < |names| :: names[i] != names[j]
  }

  predicate WellFormed(s: Storage) {
    Distinct(s.names)
    && (set n | n in s.names) == s.caches.Keys
    && forall n | n in s.caches :: UniqueRequests(s.caches[n])
  }

  function EntriesOf(s: Storage, name: string): seq<Entry> {
    if name in s.caches then s.caches[name] else []
  }

  /** `caches.open(name)`: creates an empty cache under a new name. */
  function Opened(s: Storage, name: string): (r: Storage)
    ensures name in r.caches && EntriesOf(r, name) == EntriesOf(s, name)
    ensures forall n | n != name :: EntriesOf(r, n) == EntriesOf(s, n)
  {
    if name in s.caches then s else Storage(s.names + [name], s.caches[name := []])
  }

  /** The storage with cache `name` holding `entries`, opening it if needed. */
  function WithEntries(s: Storage, name: string, entries: seq<Entry>): (r: Storage)
    ensures EntriesOf(r, name) == entries
    ensures forall n | n != name :: EntriesOf(r, n) == EntriesOf(s, n)
  {
    var o := Opened(s, name);
    Storage(o.names, o.caches[name := entries])
  }

  /** `caches.match(request)`: the first cache, in creation order, holding
      an entry for `req`. */
  function MatchAll(names: seq<string>, caches: map<string, seq<Entry>>, req: Request): (o: Option<Response>)
    ensures o.None? <==> forall k | 0 <= k < |names| :: names[k] in caches ==> Lookup(caches[names[k]], req).None?
    ensures o.Some? ==> exists k | 0 <= k < |names| ::
      names[k] in caches && Lookup(caches[names[k]], req) == o
      && forall k' | 0 <= k' < k :: names[k'] in caches ==> Lookup(caches[names[k']], req).None?
  {
    if names == [] then None
    else
      var first := if names[0] in caches then Lookup(caches[names[0]], req) else None;
      if first.Some? then first else MatchAll(names[1..], caches, req)
  }

  function Match(s: Storage, req: Request): Option<Response> {
    MatchAll(s.names, s.caches, req)
  }

  /** `caches.open(name).then(cache => { cache.put(req, resp); limitCacheSize(name, max) })`. */
  function Cached(s: Storage, name: string, req: Request, resp: Response, maxItems: nat): Storage {
    WithEntries(s, name, Trimmed(PutEntry(EntriesOf(s, name), req, resp), maxItems))
  }

  /** The old-cache filter of the activate handler. */
  predicate IsStale(name: string) {
    StartsWith(name, "spicy-") && !Contains(name, Version)
  }

  /** The names that survive activation, in their order. */
  function KeepCurrent(names: seq<string>): (r: seq<string>)
    ensures forall k | 0 <= k < |r| :: !IsStale(r[k]) && r[k] in names
    ensures forall n | n in names && !IsStale(n) :: n in r
    decreases |names|
  {
    if names == [] then []
    else
      var rest := KeepCurrent(names[..|names| - 1]);
      if IsStale(names[|names| - 1]) then rest else rest + [names[|names| - 1]]
  }

  /** The stale names among `names`. */
  function StaleNames(names: seq<string>): set<string> {
    set n | n in names && IsStale(n)
  }

  /** The storage after the activate handler: every stale cache deleted. */
  function Activated(s: Storage): Storage {
    Storage(KeepCurrent(s.names), s.caches - StaleNames(s.names))
  }

  /** `names` with every occurrence of `name` removed. */
  function Without(names: seq<string>, name: string): (r: seq<string>)
    ensures forall n :: n in r <==> n in names && n != name
    decreases |names|
  {
    if names == [] then []
    else if names[0] == name then Without(names[1..], name)
    else [names[0]] + Without(names[1..], name)
  }

  // ---------------------------------------------------------------------
  // The fetch handler, as a function of the storage and the network

  datatype Outcome = Outcome(storage: Storage, reply: Option<Response>)

  /** Strategy 1: the network response if there is one (cached first when
      ok), the cached entry when the network fails. */
  function NetworkFirstOutcome(s: Storage, req: Request, network: Option<Response>): Outcome {
    match network
    case Some(resp) =>
      Outcome(if resp.Ok() then Cached(s, ApiCache, req, resp, MaxApiCache) else s, network)
    case None => Outcome(s, Match(s, req))
  }

  /** Strategy 2: a cached hit as is; on a miss the network response,
      cached first when ok. */
  function CacheFirstImageOutcome(s: Storage, req: Request, network: Option<Response>): Outcome {
    var hit := Match(s, req);
    if hit.Some? then Outcome(s, hit)
    else match network
      case Some(resp) => Outcome(if resp.Ok() then Cached(s, ImageCache, req, resp, MaxImageCache) else s, network)
      case None => Outcome(s, None)
  }

  /** Strategy 4: `cached || fetch(request)`; nothing is stored. */
  function CacheFirstStaticOutcome(s: Storage, req: Request, network: Option<Response>): Outcome {
    var hit := Match(s, req);
    Outcome(s, if hit.Some? then hit else network)
  }

  function FetchOutcome(s: Storage, req: Request, network: Option<Response>): Outcome {
    match Route(req)
    case NetworkFirst => NetworkFirstOutcome(s, req, network)
    case CacheFirstImage => CacheFirstImageOutcome(s, req, network)
    case NetworkOnly => Outcome(s, network)
    case CacheFirstStatic => CacheFirstStaticOutcome(s, req, network)
  }

  // ---------------------------------------------------------------------
  // Properties of the handlers

  /** Only an ok response is ever stored, and only by the first two
      strategies; every other request leaves the storage as it was. */
  lemma StoresOnlyOkResponses(s: Storage, req: Request, network: Option<Response>)
    ensures FetchOutcome(s, req, network).storage != s ==>
      network.Some? && network.value.Ok() && (Route(req) == NetworkFirst || Route(req) == CacheFirstImage)
  {
  }

  /** A cached image is served without regard to the network. */
  lemma ImageHitIgnoresNetwork(s: Storage, req: Request, n1: Option<Response>, n2: Option<Response>)
    requires Route(req) == CacheFirstImage && Match(s, req).Some?
    ensures FetchOutcome(s, req, n1) == FetchOutcome(s, req, n2) == Outcome(s, Match(s, req))
  {
  }

  /** Network-first answers with whatever the network returned, ok or not,
      and falls back to the cache only when the network fails. */
  lemma NetworkFirstReply(s: Storage, req: Request, network: Option<Response>)
    requires Route(req) == NetworkFirst
    ensures network.Some? ==> FetchOutcome(s, req, network).reply == network
    ensures network.None? ==> FetchOutcome(s, req, network) == Outcome(s, Match(s, req))
  {
  }

  /** Cache-first for static files stores nothing; on a hit it answers
      with a response stored for the request in the first cache holding
      one, and on a miss with whatever the network returned. */
  lemma CacheFirstStaticReply(s: Storage, req: Request, network: Option<Response>)
    requires Route(req) == CacheFirstStatic
    ensures FetchOutcome(s, req, network).storage == s
    ensures Match(s, req).None? ==> FetchOutcome(s, req, network).reply == network
    ensures Match(s, req).Some? ==>
      var reply := FetchOutcome(s, req, network).reply;
      reply == Match(s, req)
      && exists k | 0 <= k < |s.names| :: s.names[k] in s.caches && Lookup(s.caches[s.names[k]], req) == reply
  {
  }

  /** After an ok response is cached by either strategy, its cache answers
      that request with it and holds no more than the cache's limit. */
  lemma CachedIsServed(s: Storage, name: string, req: Request, resp: Response, maxItems: nat)
    requires maxItems >= 1
    ensures Lookup(EntriesOf(Cached(s, name, req, resp, maxItems), name), req) == Some(resp)
    ensures |EntriesOf(Cached(s, name, req, resp, maxItems), name)| <= maxItems
    ensures forall n | n != name :: EntriesOf(Cached(s, name, req, resp, maxItems), n) == EntriesOf(s, n)
  {
    PutSurvivesTrim(EntriesOf(s, name), req, resp, maxItems);
  }

  /** The converse of StoresOnlyOkResponses: an ok answer to an API
      request is returned and then served by the API cache. */
  lemma OkApiResponseCached(s: Storage, req: Request, resp: Response)
    requires Route(req) == NetworkFirst && resp.Ok()
    ensures var o := FetchOutcome(s, req, Some(resp));
      o.reply == Some(resp) && Lookup(EntriesOf(o.storage, ApiCache), req) == Some(resp)
  {
    CachedIsServed(s, ApiCache, req, resp, MaxApiCache);
  }

  /** An image miss is answered with whatever the network returned, and an
      ok answer is then served by the image cache. */
  lemma ImageMissReply(s: Storage, req: Request, network: Option<Response>)
    requires Route(req) == CacheFirstImage && Match(s, req).None?
    ensures FetchOutcome(s, req, network).reply == network
    ensures network.Some? && network.value.Ok() ==>
      Lookup(EntriesOf(FetchOutcome(s, req, network).storage, ImageCache), req) == network
    ensures network.None? || !network.value.Ok() ==> FetchOutcome(s, req, network).storage == s
  {
    if network.Some? && network.value.Ok() {
      CachedIsServed(s, ImageCache, req, network.value, MaxImageCache);
    }
  }

  lemma CachedWellFormed(s: Storage, name: string, req: Request, resp: Response, maxItems: nat)
    requires WellFormed(s)
    ensures WellFormed(Cached(s, name, req, resp, maxItems))
  {
    PutKeepsUnique(EntriesOf(s, name), req, resp);
    TrimKeepsUnique(PutEntry(EntriesOf(s, name), req, resp), maxItems);
    var o := Opened(s, name);
    if name !in s.caches {
      assert (set n | n in o.names) == (set n | n in s.names) + {name};
    }
  }

  /** The caches of this version are kept. */
  lemma CurrentCachesKept()
    ensures !IsStale(StaticCache) && !IsStale(ImageCache) && !IsStale(ApiCache)
  {
    OccurrenceIsContained(StaticCache, Version, 13);
    OccurrenceIsContained(ImageCache, Version, 13);
    OccurrenceIsContained(ApiCache, Version, 10);
  }

  /** An earlier version's cache is removed. */
  lemma EarlierVersionStale()
    ensures IsStale("spicy-static-v1")
  {
    MissingCharNotContained("spicy-static-v1", Version, 1);
  }

  /** A cache whose name does not start with "spicy-" is never removed. */
  lemma ForeignCacheKept(name: string)
    requires !StartsWith(name, "spicy-")
    ensures !IsStale(name)
  {
  }

  /** The version test is a substring test: a later version ten, named with
      "v20", also counts as current. */
  lemma SubstringVersionTest()
    ensures !IsStale("spicy-static-v20")
  {
    OccurrenceIsContained("spicy-static-v20", Version, 13);
  }

  /** Activation deletes exactly the stale caches: every remaining cache is
      current, every current cache remains with its entries, and the
      creation order of the survivors is unchanged. */
  lemma ActivatedKeepsCurrent(s: Storage)
    requires WellFormed(s)
    ensures WellFormed(Activated(s))
    ensures forall n :: n in Activated(s).caches <==> n in s.caches && !IsStale(n)
    ensures forall n | n in Activated(s).caches :: Activated(s).caches[n] == s.caches[n]
  {
    var r := KeepCurrent(s.names);
    KeepCurrentDistinct(s.names);
    assert (set n | n in r) == Activated(s).caches.Keys;
  }

  lemma {:induction false} KeepCurrentDistinct(names: seq<string>)
    requires Distinct(names)
    ensures Distinct(KeepCurrent(names))
    decreases |names|
  {
    if names != [] {
      var init := names[..|names| - 1];
      assert Distinct(init);
      KeepCurrentDistinct(init);
      var rest := KeepCurrent(init);
      var last := names[|names| - 1];
      if !IsStale(last) {
        assert last !in init;
        var r := rest + [last];
        forall i, j | 0 <= i < j < |r| ensures r[i] != r[j] {
          if j == |r| - 1 {
            assert r[i] == rest[i] && rest[i] in init;
          } else {
            assert r[i] == rest[i] && r[j] == rest[j];
          }
        }
      }
    }
  }

  /** Survivors keep their relative order: the kept names of `a + b` are
      those of `a` followed by those of `b`. */
  lemma {:induction false} KeepCurrentAppend(a: seq<string>, b: seq<string>)
    ensures KeepCurrent(a + b) == KeepCurrent(a) + KeepCurrent(b)
    decreases |b|
  {
    if b == [] {
      assert a + b == a;
    } else {
      var b' := b[..|b| - 1];
      assert (a + b)[..|a + b| - 1] == a + b';
      KeepCurrentAppend(a, b');
    }
  }

  /** With distinct names, removing the name at position `i` leaves the
      names before it and the names after it. */
  lemma WithoutAt(pre: seq<string>, name: string, post: seq<string>)
    requires name !in pre && name !in post
    ensures Without(pre + [name] + post, name) == pre + post
  {
    WithoutAppend(pre, [name] + post, name);
    WithoutAbsent(pre, name);
    WithoutAbsent(post, name);
    assert ([name] + post)[1..] == post;
    assert pre + [name] + post == pre + ([name] + post);
  }

  lemma {:induction false} WithoutAppend(a: seq<string>, b: seq<string>, name: string)
    ensures Without(a + b, name) == Without(a, name) + Without(b, name)
    decreases |a|
  {
    if a != [] {
      assert (a + b)[1..] == a[1..] + b;
      WithoutAppend(a[1..], b, name);
    } else {
      assert a + b == b;
    }
  }

  lemma {:induction false} WithoutAbsent(names: seq<string>, name: string)
    requires name !in names
    ensures Without(names, name) == names
    decreases |names|
  {
    if names != [] {
      WithoutAbsent(names[1..], name);
      assert [names[0]] + names[1..] == names;
    }
  }

  lemma WithoutDistinct(names: seq<string>, name: string)
    requires Distinct(names)
    ensures Distinct(Without(names, name))
    decreases |names|
  {
    if names != [] {
      assert Distinct(names[1..]) by {
        forall i, j | 0 <= i < j < |names| - 1 ensures names[1..][i] != names[1..][j] {
          assert names[1..][i] == names[i + 1] && names[1..][j] == names[j + 1];
        }
      }
      WithoutDistinct(names[1..], name);
      if names[0] != name {
        var rest := Without(names[1..], name);
        var r := [names[0]] + rest;
        assert names[0] !in names[1..];
        forall i, j | 0 <= i < j < |r| ensures r[i] != r[j] {
          if i == 0 {
            assert r[j] == rest[j - 1] && rest[j - 1] in names[1..];
          } else {
            assert r[i] == rest[i - 1] && r[j] == rest[j - 1];
          }
        }
      }
    }
  }

  /** One step of the activate loop over the names `cn`: deleting the
      `i`-th name when it is stale. */
  lemma ActivateNamesStep(cn: seq<string>, i: nat)
    requires Distinct(cn) && i < |cn|
    ensures KeepCurrent(cn[..i + 1]) + cn[i + 1..]
      == if IsStale(cn[i]) then Without(KeepCurrent(cn[..i]) + cn[i..], cn[i])
         else KeepCurrent(cn[..i]) + cn[i..]
  {
    var name := cn[i];
    assert cn[..i + 1][..i] == cn[..i];
    assert cn[i..] == [name] + cn[i + 1..];
    if IsStale(name) {
      assert name !in cn[..i] by {
        forall k | 0 <= k < i ensures cn[..i][k] != name {
          assert cn[..i][k] == cn[k];
        }
      }
      assert name !in cn[i + 1..] by {
        forall k | i + 1 <= k < |cn| ensures cn[k] != name {
        }
      }
      WithoutAt(KeepCurrent(cn[..i]), name, cn[i + 1..]);
      assert KeepCurrent(cn[..i]) + [name] + cn[i + 1..] == KeepCurrent(cn[..i]) + cn[i..];
    } else {
      AppendAssoc(KeepCurrent(cn[..i]), [name], cn[i + 1..]);
    }
  }

  lemma ActivateCachesStep(caches: map<string, seq<Entry>>, cn: seq<string>, i: nat)
    requires i < |cn|
    ensures caches - StaleNames(cn[..i + 1])
      == if IsStale(cn[i]) then (caches - StaleNames(cn[..i])) - {cn[i]}
         else caches - StaleNames(cn[..i])
  {
    assert cn[..i + 1] == cn[..i] + [cn[i]];
    assert StaleNames(cn[..i + 1])
      == StaleNames(cn[..i]) + (if IsStale(cn[i]) then {cn[i]} else {});
  }

  /** The storage after the activate loop has looked at the first `i` of the
      names `cn`, starting from `caches`. */
  ghost function Activating(caches: map<string, seq<Entry>>, cn: seq<string>, i: nat): Storage
    requires i <= |cn|
  {
    Storage(KeepCurrent(cn[..i]) + cn[i..], caches - StaleNames(cn[..i]))
  }

  lemma ActivateStep(caches: map<string, seq<Entry>>, cn: seq<string>, i: nat)
    requires Distinct(cn) && i < |cn|
    ensures var s := Activating(caches, cn, i);
      Activating(caches, cn, i + 1)
      == if IsStale(cn[i]) then Storage(Without(s.names, cn[i]), s.caches - {cn[i]}) else s
  {
    ActivateNamesStep(cn, i);
    ActivateCachesStep(caches, cn, i);
  }

  lemma ActivatingDone(s: Storage)
    ensures Activating(s.caches, s.names, 0) == s
    ensures Activating(s.caches, s.names, |s.names|) == Activated(s)
  {
    assert s.names[..0] == [] && s.names[0..] == s.names;
    assert s.names[..|s.names|] == s.names;
    assert s.caches - {} == s.caches;
  }

  /** The storage after `limitCacheSize`'s loop has deleted the first `i`
      entries of the open cache `name`. */
  ghost function Trimming(s: Storage, name: string, i: nat): Storage
    requires name in s.caches && i <= |s.caches[name]|
  {
    Storage(s.names, s.caches[name := s.caches[name][i..]])
  }

  lemma TrimStep(s: Storage, name: string, i: nat)
    requires WellFormed(s) && name in s.caches && i < |s.caches[name]|
    ensures var t := Trimming(s, name, i);
      UniqueRequests(t.caches[name])
      && Trimming(s, name, i + 1)
         == Storage(t.names, t.caches[name := Remove(t.caches[name], s.caches[name][i].request)])
  {
    var e := s.caches[name];
    assert UniqueRequests(e[i..]) by {
      forall j, k | 0 <= j < k < |e[i..]| ensures e[i..][j].request != e[i..][k].request {
        assert e[i..][j] == e[i + j] && e[i..][k] == e[i + k];
      }
    }
    RemoveOldest(e[i..]);
    assert e[i..][1..] == e[i + 1..];
  }

  lemma TrimmingDone(s: Storage, name: string, maxItems: nat)
    ensures var o := Opened(s, name);
      Trimming(o, name, 0) == o
      && Trimming(o, name, |o.caches[name]| - Min(|o.caches[name]|, maxItems))
         == WithEntries(s, name, Trimmed(EntriesOf(s, name), maxItems))
  {
    var o := Opened(s, name);
    assert o.caches[name][0..] == o.caches[name];
  }

  /** `Cached` as the three steps the worker takes: open, put, trim. */
  lemma CachedInSteps(s: Storage, name: string, req: Request, resp: Response, maxItems: nat)
    ensures var o := Opened(s, name);
      var p := Storage(o.names, o.caches[name := PutEntry(o.caches[name], req, resp)]);
      WithEntries(p, name, Trimmed(EntriesOf(p, name), maxItems)) == Cached(s, name, req, resp, maxItems)
  {
    var o := Opened(s, name);
    var p := Storage(o.names, o.caches[name := PutEntry(o.caches[name], req, resp)]);
    assert Opened(p, name) == p;
    assert p.caches[name := Trimmed(EntriesOf(p, name), maxItems)]
      == o.caches[name := Trimmed(PutEntry(EntriesOf(s, name), req, resp), maxItems)];
  }

  // ---------------------------------------------------------------------
  // The worker's cache storage, updated in place

  /** `caches`: the cache names in creation order and each cache's entries.
      The handlers below change it only through `caches.open`, `put`,
      `delete` and `caches.delete`, as sw.js does. */
  class CacheStorage {
    var names: seq<string>
    var caches: map<string, seq<Entry>>

    ghost function State(): Storage
      reads this
    {
      Storage(names, caches)
    }

    ghost predicate Valid()
      reads this
    {
      WellFormed(State())
    }

    constructor ()
      ensures Valid() && State() == Storage([], map[])
    {
      names := [];
      caches := map[];
    }

    /** `caches.open(name)`. */
    method Open(name: string)
      requires Valid()
      modifies this
      ensures Valid() && State() == Opened(old(State()), name)
    {
      if name !in caches {
        assert (set n | n in names + [name]) == (set n | n in names) + {name};
        names := names + [name];
        caches := caches[name := []];
      }
    }

    /** `cache.put(req, resp)` on the open cache `name`. */
    method Put(name: string, req: Request, resp: Response)
      requires Valid() && name in caches
      modifies this
      ensures Valid() && names == old(names)
      ensures caches == old(caches)[name := PutEntry(old(caches)[name], req, resp)]
    {
      PutKeepsUnique(caches[name], req, resp);
      caches := caches[name := PutEntry(caches[name], req, resp)];
    }

    /** `cache.delete(req)` on the open cache `name`. */
    method DeleteEntry(name: string, req: Request)
      requires Valid() && name in caches
      modifies this
      ensures Valid() && names == old(names)
      ensures caches == old(caches)[name := Remove(old(caches)[name], req)]
    {
      RemoveKeepsUnique(caches[name], req);
      caches := caches[name := Remove(caches[name], req)];
    }

    /** `caches.delete(name)`. */
    method DeleteCache(name: string)
      requires Valid()
      modifies this
      ensures Valid() && names == Without(old(names), name) && caches == old(caches) - {name}
    {
      WithoutDistinct(names, name);
      names := Without(names, name);
      caches := caches - {name};
      assert (set n | n in names) == old((set n | n in names)) - {name};
    }

    /** `limitCacheSize(cacheName, maxItems)`: open the cache, and when it
        holds more than `maxItems` entries delete `keys[i]` for the first
        `length - maxItems` keys. */
    method LimitCacheSize(cacheName: string, maxItems: nat)
      requires Valid()
      modifies this
      ensures Valid()
      ensures State() == WithEntries(old(State()), cacheName, Trimmed(EntriesOf(old(State()), cacheName), maxItems))
    {
      Open(cacheName);
      ghost var s0 := State();
      var keys := Requests(caches[cacheName]);
      if |keys| > maxItems {
        for i := 0 to |keys| - maxItems
          invariant Valid() && State() == Trimming(s0, cacheName, i)
        {
          TrimStep(s0, cacheName, i);
          DeleteEntry(cacheName, keys[i]);
        }
      }
      TrimmingDone(old(State()), cacheName, maxItems);
    }

    /** `caches.open(name).then(cache => { cache.put(req, clone); limitCacheSize(name, max) })`,
        run to completion before the response is handed back. */
    method CacheResponse(name: string, req: Request, resp: Response, maxItems: nat)
      requires Valid()
      modifies this
      ensures Valid() && State() == Cached(old(State()), name, req, resp, maxItems)
    {
      Open(name);
      Put(name, req, resp);
      CachedInSteps(old(State()), name, req, resp, maxItems);
      LimitCacheSize(name, maxItems);
    }

    /** One iteration of the activate handler's `cacheNames.map`. */
    method DeleteIfStale(name: string)
      requires Valid()
      modifies this
      ensures Valid()
      ensures State() == if IsStale(name) then Storage(Without(old(names), name), old(caches) - {name}) else old(State())
    {
      if IsStale(name) {
        DeleteCache(name);
      }
    }

    /** The activate handler: every cache whose name is stale is deleted. */
    method Activate()
      requires Valid()
      modifies this
      ensures Valid() && State() == Activated(old(State()))
    {
      var cacheNames := names;
      for i := 0 to |cacheNames|
        invariant Valid() && State() == Activating(old(caches), cacheNames, i)
      {
        ActivateStep(old(caches), cacheNames, i);
        DeleteIfStale(cacheNames[i]);
      }
      ActivatingDone(old(State()));
      assert cacheNames[..|cacheNames|] == cacheNames;
    }

    /** Strategy 1, the branch for the API host. */
    method NetworkFirstFetch(req: Request, network: Option<Response>) returns (reply: Option<Response>)
      requires Valid()
      modifies this
      ensures Valid() && Outcome(State(), reply) == NetworkFirstOutcome(old(State()), req, network)
    {
      match network {
        case Some(resp) =>
          if resp.Ok() {
            CacheResponse(ApiCache, req, resp, MaxApiCache);
          }
          reply := network;
        case None =>
          reply := MatchAll(names, caches, req);
      }
    }

    /** Strategy 2, the branch for images. */
    method CacheFirstImageFetch(req: Request, network: Option<Response>) returns (reply: Option<Response>)
      requires Valid()
      modifies this
      ensures Valid() && Outcome(State(), reply) == CacheFirstImageOutcome(old(State()), req, network)
    {
      var cached := MatchAll(names, caches, req);
      if cached.Some? {
        return cached;
      }
      match network {
        case Some(resp) =>
          if resp.Ok() {
            CacheResponse(ImageCache, req, resp, MaxImageCache);
          }
          reply := network;
        case None =>
          reply := None;
      }
    }

    /** The fetch handler: route the request, then run its strategy. */
    method HandleFetch(req: Request, network: Option<Response>) returns (reply: Option<Response>)
      requires Valid()
      modifies this
      ensures Valid() && Outcome(State(), reply) == FetchOutcome(old(State()), req, network)
    {
      match Route(req) {
        case NetworkFirst =>
          reply := NetworkFirstFetch(req, network);
        case CacheFirstImage =>
          reply := CacheFirstImageFetch(req, network);
        case NetworkOnly =>
          reply := network;
        case CacheFirstStatic =>
          var cached := MatchAll(names, caches, req);
          reply := if cached.Some? then cached else network;
      }
    }
  }
}
