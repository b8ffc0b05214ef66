/** The deduplication half of the alerting object, and the cleaner task that shares its cache. */
module AlertingShim {
  import opened Base
  import opened Alerting

  class Shim {
    const window: nat
    var dedupCache: map<Key, int>
    var inFlight: Option<Alert>
    var alertsDeduplicated: nat

    ghost function Abs(): State
      reads this
    {
      State(dedupCache, inFlight, alertsDeduplicated)
    }

    constructor (window: nat)
      ensures this.window == window && Abs() == FRESH
    {
      this.window := window;
      dedupCache, inFlight, alertsDeduplicated := map[], None, 0;
    }

    method IsDuplicateAlert(alert: Alert, now: int) returns (duplicate: bool)
      ensures duplicate <==> IsDuplicate(window, dedupCache, DedupKey(alert), now)
    {
      var key := DedupKey(alert);
      duplicate := false;
      if key in dedupCache {
        duplicate := now - dedupCache[key] < window;
      }
    }

    /** The first half of `process_alert`: suppress, or go on to record and deliver. */
    method Begin(alert: Alert, now: int) returns (accepted: bool)
      requires inFlight.None?
      modifies this`inFlight, this`alertsDeduplicated
      ensures Abs() == Step(window, old(Abs()), At(now, Check(alert)))
      ensures accepted <==> !IsDuplicate(window, dedupCache, DedupKey(alert), now)
    {
      var duplicate := IsDuplicateAlert(alert, now);
      if duplicate {
        alertsDeduplicated := alertsDeduplicated + 1;
        return false;
      }
      inFlight := Some(alert);
      return true;
    }

    method RecordAlert(now: int)
      requires inFlight.Some?
      modifies this`dedupCache, this`inFlight
      ensures Abs() == Step(window, old(Abs()), At(now, Record))
    {
      dedupCache := dedupCache[DedupKey(inFlight.value) := now];
      inFlight := None;
    }

    /** The cleaner's `retain` over the cache, entry by entry. */
    method CleanUp(now: int)
      modifies this`dedupCache
      ensures Abs() == Step(window, old(Abs()), At(now, Sweep))
      ensures forall k :: k in dedupCache <==> k in old(dedupCache) && now - old(dedupCache)[k] < window
    {
      ghost var before := dedupCache;
      var rest := dedupCache.Keys;
      while rest != {}
        invariant rest <= dedupCache.Keys <= before.Keys
        invariant forall k :: k in dedupCache ==> dedupCache[k] == before[k]
        invariant forall k :: k in before && k !in rest ==> (k in dedupCache <==> now - before[k] < window)
        decreases rest
      {
        var k :| k in rest;
        if !(now - dedupCache[k] < window) {
          dedupCache := dedupCache - {k};
        }
        rest := rest - {k};
      }
    }

    method ClearCache(now: int)
      modifies this`dedupCache
      ensures Abs() == Step(window, old(Abs()), At(now, Clear))
    {
      dedupCache := map[];
    }
  }
}
