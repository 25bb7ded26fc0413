/**
 * The news API routes: each keeps its last upstream article list in a
 * module-level cache for 24 hours. A request refetches when there is no
 * cache or the cache is older than the window; a failed fetch answers with
 * an empty list and status 500 and leaves the cache alone. The three routes
 * differ only in topic and article count.
 */
module NewsCache {
  import opened Wrappers

  /** 24 hours in milliseconds. */
  const CACHE_DURATION: int := 24 * 60 * 60 * 1000

  /** An upstream article, kept opaque: the route passes articles through untouched. */
  type Article = string

  /** What the upstream fetch produced: a failure (network, JSON, or a null body), or a body whose `articles` may not be an array. */
  datatype Upstream = Unreachable | Payload(articles: Option<seq<Article>>)

  datatype Response = Response(status: int, body: seq<Article>)

  /** The module-level state of one route. */
  datatype CacheState = CacheState(cache: Option<seq<Article>>, lastFetch: int)

  const InitialCache := CacheState(None, 0)

  /** Refetch when there is no cache or more than 24 hours have passed; an empty list is a cache. */
  predicate NeedsRefresh(st: CacheState, now: int) {
    st.cache.None? || now - st.lastFetch > CACHE_DURATION
  }

  /** One `GET`: the new state and the response. */
  function Serve(st: CacheState, now: int, upstream: Upstream): (r: (CacheState, Response))
    ensures !NeedsRefresh(st, now) ==> r == (st, Response(200, st.cache.value))
    ensures NeedsRefresh(st, now) && upstream.Unreachable? ==> r == (st, Response(500, []))
    ensures NeedsRefresh(st, now) && upstream.Payload? ==>
              var list := upstream.articles.GetOr([]);
              r == (CacheState(Some(list), now), Response(200, list))
    ensures r.1.status == 200 ==> r.0.cache == Some(r.1.body)
  {
    if NeedsRefresh(st, now) then
      match upstream
      case Unreachable => (st, Response(500, []))
      case Payload(articles) =>
        var list := if articles.Some? then articles.value else [];
        (CacheState(Some(list), now), Response(200, list))
    else (st, Response(200, st.cache.value))
  }

  /** Within 24 hours of a refresh, including exactly 24 hours, every request is served from the cache without a fetch. */
  lemma {:induction false} NoRefetchWithinWindow(st: CacheState, t: int, up: Upstream, t': int, up': Upstream)
    requires up.Payload? && NeedsRefresh(st, t)
    requires t <= t' <= t + CACHE_DURATION
    ensures var (st1, resp1) := Serve(st, t, up);
            !NeedsRefresh(st1, t') && Serve(st1, t', up') == (st1, resp1)
  {
    var (st1, resp1) := Serve(st, t, up);
    assert st1.lastFetch == t && st1.cache.Some?;
  }

  /** A failed refresh leaves the state as it was, so the next request tries again. */
  lemma {:induction false} FailureRetries(st: CacheState, now: int, later: int)
    requires NeedsRefresh(st, now) && now <= later
    ensures Serve(st, now, Unreachable).0 == st
    ensures NeedsRefresh(Serve(st, now, Unreachable).0, later)
  {
  }

  /** A first request always fetches, whatever the clock says. */
  lemma FirstRequestFetches(now: int)
    ensures NeedsRefresh(InitialCache, now)
  {
  }

  /** One route: its topic and article count, and its cache. */
  class RouteCache {
    const topic: string
    const max: nat
    var cache: Option<seq<Article>>
    var lastFetch: int

    function State(): CacheState
      reads this
    {
      CacheState(cache, lastFetch)
    }

    /** The world headlines route (8 articles). */
    constructor World()
      ensures topic == "world" && max == 8 && State() == InitialCache
    {
      topic, max := "world", 8;
      cache, lastFetch := None, 0;
    }

    /** The technology headlines route (10 articles). */
    constructor Technology()
      ensures topic == "technology" && max == 10 && State() == InitialCache
    {
      topic, max := "technology", 10;
      cache, lastFetch := None, 0;
    }

    /** The sports headlines route (5 articles). */
    constructor Sports()
      ensures topic == "sports" && max == 5 && State() == InitialCache
    {
      topic, max := "sports", 5;
      cache, lastFetch := None, 0;
    }

    /** `GET`: `fetched` says whether the upstream was consulted. */
    method Get(now: int, upstream: Upstream) returns (resp: Response, fetched: bool)
      modifies this
      ensures fetched == NeedsRefresh(old(State()), now)
      ensures (State(), resp) == Serve(old(State()), now, upstream)
    {
      fetched := cache.None? || now - lastFetch > CACHE_DURATION;
      if fetched {
        match upstream {
          case Unreachable =>
            return Response(500, []), fetched;
          case Payload(articles) =>
            if articles.Some? {
              cache := articles;
            } else {
              cache := Some([]);
            }
            lastFetch := now;
        }
      }
      resp := Response(200, cache.value);
    }
  }
}
