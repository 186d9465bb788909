/** The licensing service over its tables and its cache, both changed in place. */
module LicensingService {
  import opened Prelude
  import L = Licensing
  import LicenseCache

  datatype Cached = Cached(codes: set<string>, expires: nat)

  class Service {
    var modules: set<L.Module>
    var grants: set<L.Grant>
    var cache: map<string, Cached>
    const redis: bool  // whether a cache server is configured at all

    ghost function Value(): (t: L.Tables)
      reads this
    {
      L.Tables(modules, grants)
    }

    constructor (t: L.Tables, redis: bool)
      ensures Value() == t && cache == map[] && this.redis == redis
    {
      modules, grants, cache := t.modules, t.grants, map[];
      this.redis := redis;
    }

    method ComputeEnabled(tenant: string, now: nat) returns (codes: set<string>)
      requires L.Unique(Value())
      ensures codes == L.Entitled(Value(), tenant, now)
    {
      codes := L.EnabledQuery(L.Tables(modules, grants), tenant);
      var expired := L.ExpiredQuery(L.Tables(modules, grants), tenant, now);
      codes := codes - expired;
      codes := codes + L.CORE;
      L.ComputeIsEntitled(Value(), tenant, now);
    }

    /** One uninterrupted call: a live cache entry is returned as it is, anything else is computed and stored. */
    method EnabledCodes(tenant: string, now: nat) returns (codes: set<string>)
      requires L.Unique(Value())
      modifies `cache
      ensures var hit := redis && tenant in old(cache) && now <= old(cache)[tenant].expires;
              && codes == (if hit then old(cache)[tenant].codes else L.Entitled(Value(), tenant, now))
              && cache == (if hit || !redis then old(cache)
                           else old(cache)[tenant := Cached(codes, now + LicenseCache.CACHE_TTL)])
    {
      if redis {
        if tenant in cache && now <= cache[tenant].expires {
          return cache[tenant].codes;
        }
      }
      codes := ComputeEnabled(tenant, now);
      if redis {
        cache := cache[tenant := Cached(codes, now + LicenseCache.CACHE_TTL)];
      }
    }

    /** Core modules are answered without looking anything up. */
    method TenantHasModule(tenant: string, code: string, now: nat) returns (has: bool)
      requires L.Unique(Value())
      modifies `cache
      ensures var known := if redis && tenant in old(cache) && now <= old(cache)[tenant].expires
                           then old(cache)[tenant].codes else L.Entitled(Value(), tenant, now);
              has <==> (code in L.CORE || code in known)
      ensures code in L.CORE ==> cache == old(cache)
    {
      if code in L.CORE {
        return true;
      }
      var codes := EnabledCodes(tenant, now);
      has := code in codes;
    }

    method Invalidate(tenant: string)
      modifies `cache
      ensures cache == if redis then old(cache) - {tenant} else old(cache)
    {
      if redis {
        cache := cache - {tenant};
      }
    }

    method SetModule(tenant: string, code: string, enabled: bool, now: nat) returns (r: Result<L.Grant, string>)
      requires L.Unique(Value())
      modifies `grants, `cache
      ensures L.Unique(Value())
      ensures var spec := L.SetModule(old(Value()), L.Change(tenant, code, enabled, now));
              && (r.Ok? <==> spec.Ok?)
              && Value() == (if spec.Ok? then spec.value else old(Value()))
              && (r.Ok? ==> r.value in grants && r.value.tenant == tenant && r.value.enabled == enabled)
              && cache == (if r.Ok? && redis then old(cache) - {tenant} else old(cache))
    {
      L.SetModuleKeepsUnique(Value(), L.Change(tenant, code, enabled, now));
      var found := set m | m in modules && m.code == code;
      assert forall m :: m in modules && m.code == code ==> m in found;
      if found == {} {
        return Err("not in catalog");
      }
      var m :| m in found;
      L.SetModuleFinds(Value(), L.Change(tenant, code, enabled, now), m);
      var rows := set g | g in grants && g.tenant == tenant && g.moduleId == m.id;
      var tm;
      assert forall g :: g in grants && g.tenant == tenant && g.moduleId == m.id ==> g in rows;
      if rows == {} {
        tm := L.Grant(tenant, m.id, enabled, if enabled then Some(now) else None, None);
        grants := grants + {tm};
      } else {
        var g :| g in rows;
        tm := g.(enabled := enabled, enabledAt := if enabled then Some(now) else g.enabledAt);
        grants := grants - {g} + {tm};
      }
      Invalidate(tenant);
      r := Ok(tm);
    }
  }
}
