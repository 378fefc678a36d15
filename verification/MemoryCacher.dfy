/**
 The in-memory store as the server keeps it: two collections updated in place.
 Every method is one critical section; `now` is the clock it read inside.
 */
module MemoryStore {
  import opened Wrappers
  import opened CacheStore

  /** What one look of `polling_get` finds: the entry of its key. */
  type Look = Option<Entry>

  datatype PollResult = Value(value: Bytes) | NoLock | Timeout

  /** A look that makes the poller wait another round. */
  predicate StillPending(look: Look) {
    look.Some? && look.value.value == []
  }

  /** What `polling_get` returns when its looks are those of `looks`: the first decisive one decides. */
  function PollOutcome(looks: seq<Look>): (r: PollResult) {
    if looks == [] then Timeout
    else if StillPending(looks[0]) then PollOutcome(looks[1..])
    else if looks[0].None? then NoLock
    else Value(looks[0].value.value)
  }

  lemma {:induction false} PollOutcomeMeaning(looks: seq<Look>, i: nat)
    requires forall j | 0 <= j < i < |looks| :: StillPending(looks[j])
    ensures i < |looks| && looks[i].None? ==> PollOutcome(looks) == NoLock
    ensures i < |looks| && looks[i].Some? && looks[i].value.value != [] ==>
              PollOutcome(looks) == Value(looks[i].value.value)
    ensures (forall j | 0 <= j < |looks| :: StillPending(looks[j])) <==> PollOutcome(looks) == Timeout
  {
    if looks != [] {
      if StillPending(looks[0]) {
        PollOutcomeMeaning(looks[1..], if i == 0 then 0 else i - 1);
        assert forall j | 1 <= j < |looks| :: looks[j] == looks[1..][j - 1];
      } else {
        assert i < |looks| ==> i == 0;
      }
    }
  }

  class MemoryCacher {
    var kv: map<string, Entry>
    var pq: set<PriorityKey>

    function Contents(): Store
      reads this
    {
      Store(kv, pq)
    }

    constructor ()
      ensures Contents() == EMPTY_STORE
    {
      kv := map[];
      pq := {};
    }

    /** Remove and return the first queue entry. */
    method PopFirst() returns (p: PriorityKey)
      requires pq != {}
      modifies this`pq
      ensures IsFirst(old(pq), p)
      ensures pq == old(pq) - {p}
    {
      FirstExists(pq);
      assert exists p :: p in pq && forall q :: q in pq ==> Le(p, q) by {
        var p :| IsFirst(pq, p);
      }
      p :| p in pq && forall q :: q in pq ==> Le(p, q);
      pq := pq - {p};
    }

    method CleanExpiredValues(now: nat)
      modifies this
      ensures Contents() == Sweep(old(Contents()), now)
    {
      ghost var before := Contents();
      while pq != {}
        invariant pq <= before.pq
        invariant forall p :: p in before.pq && p.expireAt > now ==> p in pq
        invariant forall k :: k in kv <==> k in before.kv && forall p :: p in before.pq && p !in pq ==> p.key != k
        invariant forall k :: k in kv ==> kv[k] == before.kv[k]
        decreases pq
      {
        label Pop:
        var p := PopFirst();
        if p.expireAt > now {
          pq := pq + {p};
          assert forall q :: q in pq ==> q.expireAt > now;
          break;
        }
        kv := kv - {p.key};
      }
      assert pq == Sweep(before, now).pq;
    }

    method Obtain(key: string, now: nat, ttl: nat) returns (ok: bool)
      modifies this
      ensures (Contents(), ok) == CacheStore.Obtain(old(Contents()), key, now, ttl)
    {
      if key in kv {
        if kv[key].expireAt > now {
          return false;
        }
        pq := pq - {PriorityKey(kv[key].expireAt, key)};
        kv := kv[key := Entry(now + ttl, [])];
        pq := pq + {PriorityKey(now + ttl, key)};
        return true;
      } else {
        kv := kv[key := Entry(now + ttl, [])];
        pq := pq + {PriorityKey(now + ttl, key)};
        return true;
      }
    }

    /** One look of `polling_get`; `clean` tells whether it spawned a cleaner. It reads and never writes. */
    method LookUp(key: string, now: nat) returns (look: Look, clean: bool)
      ensures look == Find(Contents(), key)
      ensures clean <==> key in kv && !Live(Contents(), key, now)
    {
      if key !in kv {
        return None, false;
      }
      return Some(kv[key]), kv[key].expireAt <= now;
    }

    /** The cleaner that the expired branch spawns is a separate task: see `clean`. */
    method Set(key: string, val: Bytes, now: nat, ttl: nat) returns (r: SetResult, clean: bool)
      modifies this
      ensures (Contents(), r) == CacheStore.Set(old(Contents()), key, val, now, ttl)
      ensures clean <==> r == ValueExpired
    {
      if key in kv {
        if kv[key].expireAt <= now {
          kv := kv - {key};
          return ValueExpired, true;
        }
        pq := pq - {PriorityKey(kv[key].expireAt, key)};
        kv := kv[key := Entry(now + ttl, val)];
        pq := pq + {PriorityKey(now + ttl, key)};
        return Stored, false;
      }
      return NotObtained, false;
    }

    /** Always spawns a cleaner. */
    method Del(key: string)
      modifies this
      ensures Contents() == CacheStore.Del(old(Contents()), key)
    {
      if key in kv {
        var val := kv[key];
        kv := kv - {key};
        pq := pq - {PriorityKey(val.expireAt, key)};
      }
    }
  }

  /**
   The polling loop. Other tasks run between its looks, so what each look finds is given;
   `looked` is how many looks it made before it returned.
   */
  method PollingGet(looks: seq<Look>, counter: nat) returns (r: PollResult, looked: nat)
    requires counter <= |looks|
    ensures r == PollOutcome(looks[..counter])
    ensures looked <= counter
    ensures forall i | 0 <= i < looked - 1 :: StillPending(looks[i])
    ensures r == Timeout ==> looked == counter
  {
    var left := counter;
    looked := 0;
    while left > 0
      invariant looked == counter - left
      invariant forall i | 0 <= i < looked :: StillPending(looks[i])
    {
      var look := looks[looked];
      looked := looked + 1;
      match look {
        case None =>
          PollOutcomeMeaning(looks[..counter], looked - 1);
          return NoLock, looked;
        case Some(entry) =>
          if entry.value != [] {
            PollOutcomeMeaning(looks[..counter], looked - 1);
            return Value(entry.value), looked;
          }
      }
      left := left - 1;
    }
    PollOutcomeMeaning(looks[..counter], 0);
    return Timeout, looked;
  }
}
