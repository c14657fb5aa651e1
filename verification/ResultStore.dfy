/** The optional job-result store: one owner-scoped, expiring record per job id. */
module ResultStore {
  import opened Wrappers
  import opened WireFormat

  /** `expires` is the first instant, in milliseconds, at which the key is gone. */
  datatype Entry = Entry(owner: string, record: Payload, expires: nat)

  type Entries = map<string, Entry>

  /** A write, swallowed when the store is disabled or the backend fails. */
  function Stored(entries: Entries, ttl: nat, now: nat, jobId: string, owner: string, record: Payload,
                  reachable: bool): Entries {
    if ttl > 0 && reachable then entries[jobId := Entry(owner, record, now + ttl * 1000)] else entries
  }

  /** A read: None when disabled, failing, unknown, expired or another caller's. */
  function Fetched(entries: Entries, ttl: nat, now: nat, jobId: string, owner: string,
                   reachable: bool): Option<Payload> {
    if ttl > 0 && reachable && jobId in entries && now < entries[jobId].expires && entries[jobId].owner == owner
    then Some(entries[jobId].record)
    else None
  }

  class Store {
    const ttl: nat
    var entries: Entries
    var now: nat

    constructor (ttl: nat)
      ensures this.ttl == ttl && entries == map[] && now == 0
    {
      this.ttl := ttl;
      entries := map[];
      now := 0;
    }

    predicate Enabled() {
      ttl > 0
    }

    method Record(jobId: string, owner: string, record: Payload, reachable: bool)
      modifies this`entries
      ensures entries == Stored(old(entries), ttl, now, jobId, owner, record, reachable)
      ensures ttl > 0 && reachable ==> entries == old(entries)[jobId := Entry(owner, record, now + 1000 * ttl)]
      ensures !(ttl > 0 && reachable) ==> entries == old(entries)
    {
      if !Enabled() {
        return;
      }
      if reachable {
        entries := entries[jobId := Entry(owner, record, now + ttl * 1000)];
      }
    }

    method Fetch(jobId: string, owner: string, reachable: bool) returns (r: Option<Payload>)
      ensures r == Fetched(entries, ttl, now, jobId, owner, reachable)
      ensures r.Some? <==>
        ttl > 0 && reachable && jobId in entries && now < entries[jobId].expires && entries[jobId].owner == owner
      ensures r.Some? ==> r.value == entries[jobId].record
    {
      if !Enabled() || !reachable {
        return None;
      }
      if jobId !in entries || now >= entries[jobId].expires {
        return None;
      }
      var wrapper := entries[jobId];
      if wrapper.owner != owner {
        return None;
      }
      return Some(wrapper.record);
    }

    /** Time passes; the backend may drop keys whose time has come, and no others. */
    method Advance(later: nat)
      requires later >= now
      modifies this
      ensures now == later
      ensures entries == map k | k in old(entries) && later < old(entries)[k].expires :: old(entries)[k]
    {
      now := later;
      entries := map k | k in entries && later < entries[k].expires :: entries[k];
    }
  }

  /** The same records, as far as they have not expired. */
  ghost predicate SameLive(a: Entries, b: Entries, now: nat) {
    forall k :: Live(a, k, now) == Live(b, k, now)
  }

  function Live(entries: Entries, k: string, now: nat): Option<Entry> {
    if k in entries && now < entries[k].expires then Some(entries[k]) else None
  }

  /** What a backend does with expired keys is not observable: stores that agree on the
      rest are read alike, now and after any further write or lapse of time. */
  lemma EvictionUnobservable(a: Entries, b: Entries, ttl: nat, now: nat, jobId: string, owner: string, reachable: bool,
                             record: Payload, later: nat)
    requires SameLive(a, b, now) && later >= now
    ensures Fetched(a, ttl, now, jobId, owner, reachable) == Fetched(b, ttl, now, jobId, owner, reachable)
    ensures SameLive(Stored(a, ttl, now, jobId, owner, record, reachable),
                     Stored(b, ttl, now, jobId, owner, record, reachable), now)
    ensures SameLive(map k | k in a && later < a[k].expires :: a[k], b, later)
  {
    assert Live(a, jobId, now) == Live(b, jobId, now);
    var x := Stored(a, ttl, now, jobId, owner, record, reachable);
    var y := Stored(b, ttl, now, jobId, owner, record, reachable);
    forall k ensures Live(x, k, now) == Live(y, k, now) {
      assert Live(a, k, now) == Live(b, k, now);
    }
    forall k ensures Live(map k | k in a && later < a[k].expires :: a[k], k, later) == Live(b, k, later) {
      assert Live(a, k, now) == Live(b, k, now);
    }
  }
}
