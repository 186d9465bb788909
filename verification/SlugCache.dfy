/**
 Resolving a tenant's slug through the cache, with look-up and cache write as separate steps among others'.

 `tenants` are the active, undeleted tenants by slug; the application only ever adds one.  Times are milliseconds.
 */
module SlugCache {
  import opened Prelude

  const SLUG_TTL: nat := 300_000

  datatype Entry = Entry(id: string, expires: nat)

  datatype World = World(now: nat, tenants: map<string, string>,
                         cache: map<string, Entry>, found: map<int, (string, string)>)

  datatype Event =
    | Tick(ms: nat)
    | Create(slug: string, id: string)
    | LookUp(reader: int, slug: string)
    | Fill(reader: int)

  datatype Answer = NotYet | Answered(id: Option<string>)

  predicate Enabled(w: World, e: Event) {
    match e
    case Tick(_) => true
    case Create(slug, _) => slug !in w.tenants
    case LookUp(r, _) => r !in w.found
    case Fill(r) => r in w.found
  }

  function Uncached(w: World, slug: string): Option<string> {
    if slug in w.tenants then Some(w.tenants[slug]) else None
  }

  // A hit answers at once and so does a slug nobody has; a tenant found in the database is cached before it is
  // returned.
  function Step(w: World, e: Event): (World, Answer)
    requires Enabled(w, e)
  {
    match e
    case Tick(d) => (w.(now := w.now + d), NotYet)
    case Create(slug, id) => (w.(tenants := w.tenants[slug := id]), NotYet)
    case LookUp(r, slug) =>
      if slug in w.cache && w.now <= w.cache[slug].expires then (w, Answered(Some(w.cache[slug].id)))
      else if slug !in w.tenants then (w, Answered(None))
      else (w.(found := w.found[r := (slug, w.tenants[slug])]), NotYet)
    case Fill(r) =>
      var (slug, id) := w.found[r];
      (w.(cache := w.cache[slug := Entry(id, w.now + SLUG_TTL)], found := w.found - {r}), Answered(Some(id)))
  }

  function Asked(w: World, e: Event): string
    requires Enabled(w, e)
  {
    match e
    case LookUp(_, slug) => slug
    case Fill(r) => w.found[r].0
    case _ => ""
  }

  ghost predicate Inv(w: World) {
    && (forall s :: s in w.cache ==> Uncached(w, s) == Some(w.cache[s].id))
    && (forall r :: r in w.found ==> Uncached(w, w.found[r].0) == Some(w.found[r].1))
  }

  ghost predicate Legal(w: World, run: seq<Event>)
    decreases |run|
  {
    run == [] || (Enabled(w, run[0]) && Legal(Step(w, run[0]).0, run[1..]))
  }

  ghost function After(w: World, run: seq<Event>): World
    requires Legal(w, run)
    decreases |run|
  {
    if run == [] then w else After(Step(w, run[0]).0, run[1..])
  }

  lemma {:induction false} RunKeepsInv(w: World, run: seq<Event>)
    requires Inv(w) && Legal(w, run)
    ensures Inv(After(w, run))
    decreases |run|
  {
    if run != [] {
      RunKeepsInv(Step(w, run[0]).0, run[1..]);
    }
  }

  /** In every reachable state every answer is what the uncached look-up would return at that instant; in particular a
      tenant just created resolves at once, because only positive results are cached. */
  lemma CachedEqualsUncached(tenants: map<string, string>, run: seq<Event>, e: Event)
    requires Legal(World(0, tenants, map[], map[]), run) && Enabled(After(World(0, tenants, map[], map[]), run), e)
    ensures var w := After(World(0, tenants, map[], map[]), run);
            Step(w, e).1.Answered? ==> Step(w, e).1.id == Uncached(w, Asked(w, e))
  {
    RunKeepsInv(World(0, tenants, map[], map[]), run);
  }

  lemma {:induction false} TenantsStand(w: World, run: seq<Event>, slug: string)
    requires slug in w.tenants && Legal(w, run)
    ensures slug in After(w, run).tenants && After(w, run).tenants[slug] == w.tenants[slug]
    decreases |run|
  {
    if run != [] {
      TenantsStand(Step(w, run[0]).0, run[1..], slug);
    }
  }

  /** A tenant just created resolves at once, and for good: every answer for its slug, in every continuation, is its
      id. */
  lemma CreatedResolves(w: World, slug: string, id: string, run: seq<Event>, e: Event)
    requires Inv(w) && Enabled(w, Create(slug, id)) && Legal(Step(w, Create(slug, id)).0, run)
    requires Enabled(After(Step(w, Create(slug, id)).0, run), e)
    ensures var w' := After(Step(w, Create(slug, id)).0, run);
            Step(w', e).1.Answered? && Asked(w', e) == slug ==> Step(w', e).1.id == Some(id)
  {
    var w1 := Step(w, Create(slug, id)).0;
    RunKeepsInv(w1, run);
    TenantsStand(w1, run, slug);
  }

  /** A look-up is answered at once by a live cache entry or when nobody has the slug; otherwise the answer comes with
      the cache write, which lasts for five minutes. */
  lemma WhenAnswered(w: World, reader: int, slug: string)
    requires Inv(w) && reader !in w.found
    ensures var (w1, r) := Step(w, LookUp(reader, slug));
            && (r.Answered? <==> slug !in w.tenants || (slug in w.cache && w.now <= w.cache[slug].expires))
            && w1.tenants == w.tenants && w1.cache == w.cache
            && (r.NotYet? ==>
                  && Enabled(w1, Fill(reader)) && Asked(w1, Fill(reader)) == slug
                  && Step(w1, Fill(reader)).1 == Answered(Some(w.tenants[slug]))
                  && Step(w1, Fill(reader)).0.cache == w.cache[slug := Entry(w.tenants[slug], w.now + 300_000)])
  {
  }

  /** The resolver as one uninterrupted call, filling the cache in place. */
  class Resolver {
    var cache: map<string, Entry>
    const redis: bool

    constructor (redis: bool)
      ensures cache == map[] && this.redis == redis
    {
      cache := map[];
      this.redis := redis;
    }

    method Resolve(slug: string, tenants: map<string, string>, now: nat) returns (id: Option<string>)
      requires forall s :: s in cache ==> s in tenants && cache[s].id == tenants[s]
      modifies this
      ensures forall s :: s in cache ==> s in tenants && cache[s].id == tenants[s]
      ensures id == Uncached(World(now, tenants, old(cache), map[]), slug)
      ensures cache == if !redis || slug !in tenants || (slug in old(cache) && now <= old(cache)[slug].expires)
                       then old(cache) else old(cache)[slug := Entry(tenants[slug], now + SLUG_TTL)]
    {
      if redis && slug in cache && now <= cache[slug].expires {
        return Some(cache[slug].id);
      }
      if slug !in tenants {
        return None;
      }
      if redis {
        cache := cache[slug := Entry(tenants[slug], now + SLUG_TTL)];
      }
      id := Some(tenants[slug]);
    }
  }
}
