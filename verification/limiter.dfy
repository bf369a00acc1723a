/** The limiter itself: a map from addresses to entry objects whose counters are updated in place. */
module NotaryRateLimiters {
  import opened LimiterModel

  class Entry {
    var count: nat
    var resetAt: nat

    constructor (count: nat, resetAt: nat)
      ensures this.count == count && this.resetAt == resetAt
    {
      this.count, this.resetAt := count, resetAt;
    }
  }

  class NotaryRateLimiter {
    var store: map<string, Entry>

    /** No two addresses share an entry. */
    ghost predicate Valid()
      reads this
    {
      forall a, b :: a in store && b in store && store[a] == store[b] ==> a == b
    }

    ghost function Model(): Store
      reads this, store.Values
    {
      map ip | ip in store :: Slot(store[ip].count, store[ip].resetAt)
    }

    constructor ()
      ensures Valid() && Model() == map[] && store == map[]
    {
      store := map[];
    }

    /** The address's entry; a new one if there is none or its window has ended. */
    method EntryFor(ip: string, now: nat) returns (entry: Entry)
      requires Valid()
      modifies this
      ensures Valid() && fresh(store.Values - old(store.Values))
      ensures ip in store && store[ip] == entry && now < entry.resetAt
      ensures Model() == old(Model())[ip := Slot(entry.count, entry.resetAt)]
      ensures Slot(entry.count + 1, entry.resetAt) == Visit(Lookup(old(Model()), ip), now)
    {
      if ip !in store || store[ip].resetAt <= now {
        var window := new Entry(0, now + WINDOW_MS);
        store := store[ip := window];
      }
      entry := store[ip];
    }

    method Limit(ip: string, now: nat) returns (response: Response)
      requires Valid()
      modifies this, store.Values
      ensures Valid() && fresh(store.Values - old(store.Values))
      ensures (Model(), response) == Handle(old(Model()), Request(ip, now))
    {
      var entry := EntryFor(ip, now);
      entry.count := entry.count + 1;
      assert Model() == old(Model())[ip := Slot(entry.count, entry.resetAt)];
      if entry.count > MAX_REQUESTS {
        return TooManyRequests(CeilSeconds(entry.resetAt - now));
      }
      return Allowed(MAX_REQUESTS - entry.count);
    }
  }
}
