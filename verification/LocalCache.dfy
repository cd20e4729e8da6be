/** `LocalMemCacheBackend`: two dictionaries, a default ttl and a key prefix. */
module LocalCache {
  import opened Prelude
  import opened CacheKeys
  import opened CacheSpec

  class LocalMemCacheBackend {
    const cfg: Config
    var cache: map<Key, Value>
    var expireTrack: map<Key, real>

    ghost function Contents(): Store
      reads this
    {
      Store(cache, expireTrack)
    }

    /** The state of the code between operations. */
    ghost predicate Valid()
      reads this
    {
      cache.Keys == expireTrack.Keys
    }

    constructor (prefix: Option<string>, version: Option<int>, ttl: Option<int>)
      ensures Valid() && Contents() == EmptyStore && cfg == MakeConfig(prefix, version, ttl)
    {
      cfg := MakeConfig(prefix, version, ttl);
      cache := map[];
      expireTrack := map[];
    }

    /** `_has_expired`: a key without a deadline counts as expired. */
    method Expired(key: Key, now: Instant) returns (b: bool)
      ensures b == HasExpired(Contents(), key, now)
    {
      var exp := -1.0;
      if key in expireTrack {
        exp := expireTrack[key];
      }
      b := exp <= now;
    }

    /** `_delete`. */
    method Remove(key: Key) returns (b: bool)
      modifies this
      ensures old(Valid()) ==> Valid()
      ensures (Contents(), b) == Pop(old(Contents()), key)
    {
      if key !in cache {
        return false;
      }
      cache := cache - {key};
      if key !in expireTrack {
        return false;
      }
      expireTrack := expireTrack - {key};
      return true;
    }

    method GetAsync(name: string, version: Option<string>, now: Instant) returns (r: Reply)
      requires Valid()
      modifies this
      ensures Valid() && r.Found?
      ensures (Contents(), r) == Run(cfg, old(Contents()), MakeKey(cfg, name, version), Get, now, now)
    {
      var key := MakeKey(cfg, name, version);
      var expired := Expired(key, now);
      if expired {
        var _ := Remove(key);
        return Found(Nil);
      }
      return Found(cache[key]);
    }

    method HasKeyAsync(name: string, version: Option<string>, now: Instant) returns (b: bool)
      requires Valid()
      modifies this
      ensures Valid()
      ensures (Contents(), Flag(b)) == Run(cfg, old(Contents()), MakeKey(cfg, name, version), HasKey, now, now)
    {
      var key := MakeKey(cfg, name, version);
      var expired := Expired(key, now);
      if expired {
        var _ := Remove(key);
        return false;
      }
      return true;
    }

    method DeleteAsync(name: string, version: Option<string>, now: Instant) returns (b: bool)
      requires Valid()
      modifies this
      ensures Valid() && b == (MakeKey(cfg, name, version) in old(cache))
      ensures (Contents(), Flag(b)) == Run(cfg, old(Contents()), MakeKey(cfg, name, version), Delete, now, now)
    {
      b := Remove(MakeKey(cfg, name, version));
    }

    method SetAsync(name: string, value: Value, ttl: Option<real>, version: Option<string>, now: Instant)
      returns (b: bool)
      requires Valid()
      modifies this
      ensures Valid()
      ensures (Contents(), Flag(b)) ==
              Run(cfg, old(Contents()), MakeKey(cfg, name, version), Set(value, ttl), now, now)
    {
      var key := MakeKey(cfg, name, version);
      cache := cache[key := value];
      expireTrack := expireTrack[key := Deadline(cfg, ttl, now)];
      return true;
    }

    /** The clock is read for the test and again for the new deadline. */
    method TouchAsync(name: string, ttl: Option<real>, version: Option<string>, t1: Instant, t2: Instant)
      returns (b: bool)
      requires Valid()
      modifies this
      ensures Valid()
      ensures (Contents(), Flag(b)) ==
              Run(cfg, old(Contents()), MakeKey(cfg, name, version), Touch(ttl), t1, t2)
    {
      var key := MakeKey(cfg, name, version);
      var expired := Expired(key, t1);
      if expired {
        return false;
      }
      expireTrack := expireTrack[key := Deadline(cfg, ttl, t2)];
      return true;
    }

    /** `_incr_decr_action`: the entry must be there; its value need not be a number. */
    method IncrDecrAction(key: Key, delta: int) returns (r: Reply)
      requires Valid() && key in cache
      modifies this
      ensures Valid()
      ensures (Contents(), r) == Add(old(Contents()), key, delta)
    {
      match cache[key] {
        case Int(n) =>
          cache := cache[key := Int(n + delta)];
          return Number(n + delta);
        case _ =>
          return NotANumber;
      }
    }

    method IncrAsync(name: string, delta: int, version: Option<string>, now: Instant) returns (r: Reply)
      requires Valid()
      modifies this
      ensures Valid() && r != MissingEntry
      ensures (Contents(), r) == Run(cfg, old(Contents()), MakeKey(cfg, name, version), Incr(delta), now, now)
    {
      var key := MakeKey(cfg, name, version);
      var expired := Expired(key, now);
      if expired {
        var _ := Remove(key);
        return KeyNotFound;
      }
      r := IncrDecrAction(key, delta);
    }

    method DecrAsync(name: string, delta: int, version: Option<string>, now: Instant) returns (r: Reply)
      requires Valid()
      modifies this
      ensures Valid() && r != MissingEntry
      ensures (Contents(), r) == Run(cfg, old(Contents()), MakeKey(cfg, name, version), Decr(delta), now, now)
    {
      var key := MakeKey(cfg, name, version);
      var expired := Expired(key, now);
      if expired {
        var _ := Remove(key);
        return KeyNotFound;
      }
      r := IncrDecrAction(key, delta * -1);
      if r.Number? && r.n < 0 {
        r := IncrDecrAction(key, r.n * -1);
      }
    }
  }
}
