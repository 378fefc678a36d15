/**
 The contents of the in-memory idempotency store as a value: a map from key to
 (expiry, value) and an ordered set of (expiry, key) pairs used as an expiry queue.

 A key with an empty value is a lock that has been obtained but not yet answered.
 */
module CacheStore {
  import opened Wrappers

  datatype Entry = Entry(expireAt: nat, value: Bytes)

  datatype PriorityKey = PriorityKey(expireAt: nat, key: string)

  datatype Store = Store(kv: map<string, Entry>, pq: set<PriorityKey>)

  const EMPTY_STORE := Store(map[], {})

  /******* The order of the expiry queue *******/

  /** Lexicographic order on keys. */
  predicate StringLe(a: string, b: string) {
    a == [] || (b != [] && (a[0] < b[0] || (a[0] == b[0] && StringLe(a[1..], b[1..]))))
  }

  /** The derived order of queue entries: expiry first, then key. */
  predicate Le(p: PriorityKey, q: PriorityKey) {
    p.expireAt < q.expireAt || (p.expireAt == q.expireAt && StringLe(p.key, q.key))
  }

  lemma {:induction false} StringLeTotal(a: string, b: string)
    ensures StringLe(a, b) || StringLe(b, a)
  {
    if a != [] && b != [] && a[0] == b[0] {
      StringLeTotal(a[1..], b[1..]);
    }
  }

  lemma {:induction false} StringLeTransitive(a: string, b: string, c: string)
    requires StringLe(a, b) && StringLe(b, c)
    ensures StringLe(a, c)
  {
    if a != [] && a[0] == b[0] && b[0] == c[0] {
      StringLeTransitive(a[1..], b[1..], c[1..]);
    }
  }

  ghost predicate IsFirst(pq: set<PriorityKey>, p: PriorityKey) {
    p in pq && forall q :: q in pq ==> Le(p, q)
  }

  lemma LeTotal(p: PriorityKey, q: PriorityKey)
    ensures Le(p, q) || Le(q, p)
  {
    StringLeTotal(p.key, q.key);
  }

  lemma LeTransitive(p: PriorityKey, q: PriorityKey, r: PriorityKey)
    requires Le(p, q) && Le(q, r)
    ensures Le(p, r)
  {
    if p.expireAt == q.expireAt == r.expireAt {
      StringLeTransitive(p.key, q.key, r.key);
    }
  }

  lemma {:induction false} StringLeAfterPrefix(prefix: string, a: string, b: string)
    ensures StringLe(prefix + a, prefix + b) <==> StringLe(a, b)
  {
    if prefix == [] {
      assert prefix + a == a && prefix + b == b;
    } else {
      assert (prefix + a)[1..] == prefix[1..] + a && (prefix + b)[1..] == prefix[1..] + b;
      StringLeAfterPrefix(prefix[1..], a, b);
    }
  }

  /**
   What the derived order is: the earlier expiry first; then the key that has the smaller character
   where they part, or that ends there.
   */
  lemma LeMeaning(p: PriorityKey, q: PriorityKey, prefix: string, a: string, b: string)
    ensures p.expireAt < q.expireAt ==> Le(p, q) && !Le(q, p)
    ensures p.expireAt == q.expireAt && p.key == prefix + a && q.key == prefix + b ==>
              && (a == [] ==> Le(p, q)) && (a == [] && b != [] ==> !Le(q, p))
              && (a != [] && b != [] && a[0] < b[0] ==> Le(p, q) && !Le(q, p))
  {
    StringLeAfterPrefix(prefix, a, b);
    StringLeAfterPrefix(prefix, b, a);
  }

  /** A nonempty queue has a first entry. */
  lemma {:induction false} FirstExists(pq: set<PriorityKey>)
    requires pq != {}
    ensures exists p :: IsFirst(pq, p)
    decreases pq
  {
    var x :| x in pq;
    var rest := pq - {x};
    LeTotal(x, x);
    if rest == {} {
      assert pq == {x};
      assert IsFirst(pq, x);
    } else {
      FirstExists(rest);
      var p :| IsFirst(rest, p);
      LeTotal(p, x);
      if Le(p, x) {
        assert IsFirst(pq, p);
      } else {
        forall q | q in rest ensures Le(x, q) {
          LeTransitive(x, p, q);
        }
        assert IsFirst(pq, x);
      }
    }
  }

  /******* What each operation does *******/

  datatype SetResult = Stored | ValueExpired | NotObtained

  /** Is there an entry for `key` that has not expired at `now`? */
  predicate Live(s: Store, key: string, now: nat) {
    key in s.kv && s.kv[key].expireAt > now
  }

  function Find(s: Store, key: string): Option<Entry> {
    if key in s.kv then Some(s.kv[key]) else None
  }

  function Index(s: Store, key: string): PriorityKey
    requires key in s.kv
  {
    PriorityKey(s.kv[key].expireAt, key)
  }

  /** Write `entry` at `key`, replacing the key's queue entry. */
  function Write(s: Store, key: string, entry: Entry): Store {
    Store(s.kv[key := entry],
          (if key in s.kv then s.pq - {Index(s, key)} else s.pq) + {PriorityKey(entry.expireAt, key)})
  }

  function Obtain(s: Store, key: string, now: nat, ttl: nat): (r: (Store, bool)) {
    if Live(s, key, now) then (s, false) else (Write(s, key, Entry(now + ttl, [])), true)
  }

  function Set(s: Store, key: string, val: Bytes, now: nat, ttl: nat): (r: (Store, SetResult)) {
    if key !in s.kv then (s, NotObtained)
    else if s.kv[key].expireAt <= now then (s.(kv := s.kv - {key}), ValueExpired)
    else (Write(s, key, Entry(now + ttl, val)), Stored)
  }

  function Del(s: Store, key: string): Store {
    if key in s.kv then Store(s.kv - {key}, s.pq - {Index(s, key)}) else s
  }

  /** Some queue entry of `key` is due at `now`. */
  ghost predicate Due(s: Store, key: string, now: nat) {
    exists p :: p in s.pq && p.key == key && p.expireAt <= now
  }

  /** The filter a cleaner run amounts to. */
  ghost function Sweep(s: Store, now: nat): Store {
    Store(map k | k in s.kv && !Due(s, k, now) :: s.kv[k],
          set p | p in s.pq && p.expireAt > now)
  }

  /******* Agreement of map and queue *******/

  /** The map entry of `key`, if any, has its queue entry. */
  predicate CoveredAt(s: Store, key: string) {
    key in s.kv ==> Index(s, key) in s.pq
  }

  ghost predicate Covered(s: Store) {
    forall k :: CoveredAt(s, k)
  }

  /** A queue entry that does not describe the map. */
  predicate Stale(s: Store, p: PriorityKey) {
    p in s.pq && (p.key !in s.kv || Index(s, p.key) != p)
  }

  /** Map and queue agree on `key` exactly. */
  ghost predicate ExactAt(s: Store, key: string) {
    CoveredAt(s, key) && forall p :: p in s.pq && p.key == key ==> !Stale(s, p)
  }

  /** The queue is exactly the index of the map. */
  ghost predicate Exact(s: Store) {
    forall k :: ExactAt(s, k)
  }

  lemma ExactIsIndex(s: Store)
    ensures Exact(s) <==> s.pq == set k | k in s.kv :: Index(s, k)
  {
    var index := set k | k in s.kv :: Index(s, k);
    if Exact(s) {
      forall p | p in s.pq ensures p in index {
        assert ExactAt(s, p.key);
      }
      forall p | p in index ensures p in s.pq {
        assert ExactAt(s, p.key);
      }
    }
    if s.pq == index {
      forall k ensures ExactAt(s, k) {
        if k in s.kv {
          assert Index(s, k) in index;
        }
      }
    }
  }

  /** `obtain` and `set` on a live entry leave map and queue agreeing on every key they agreed on. */
  lemma WriteKeepsExact(s: Store, key: string, entry: Entry, k: string)
    ensures CoveredAt(s, k) ==> CoveredAt(Write(s, key, entry), k)
    ensures ExactAt(s, k) ==> ExactAt(Write(s, key, entry), k)
  {
  }

  lemma DelKeepsExact(s: Store, key: string, k: string)
    ensures CoveredAt(s, k) ==> CoveredAt(Del(s, key), k)
    ensures ExactAt(s, k) ==> ExactAt(Del(s, key), k)
  {
  }

  /**
   The branch of `set` that finds its entry expired drops the map entry and nothing else:
   it keeps coverage, and it breaks agreement on its own key and no other.
   */
  lemma SetExactIff(s: Store, key: string, val: Bytes, now: nat, ttl: nat, k: string)
    requires ExactAt(s, k)
    ensures ExactAt(Set(s, key, val, now, ttl).0, k) <==> (k == key ==> Set(s, key, val, now, ttl).1 != ValueExpired)
  {
  }

  lemma SetKeepsCovered(s: Store, key: string, val: Bytes, now: nat, ttl: nat, k: string)
    requires CoveredAt(s, k)
    ensures CoveredAt(Set(s, key, val, now, ttl).0, k)
  {
  }

  /** A sweep never loses coverage: whatever it leaves in the map was not due. */
  lemma SweepKeepsCovered(s: Store, now: nat, k: string)
    requires CoveredAt(s, k)
    ensures CoveredAt(Sweep(s, now), k)
  {
  }

  lemma SweepKeepsExact(s: Store, now: nat, k: string)
    requires ExactAt(s, k)
    ensures ExactAt(Sweep(s, now), k)
    ensures k in Sweep(s, now).kv <==> k in s.kv && s.kv[k].expireAt > now
  {
  }

  /**
   Exactly when a sweep leaves map and queue in agreement: every stale queue entry is due,
   and none of them drags a later entry of its key out of the map.
   */
  lemma SweepRestoresExactIff(s: Store, now: nat)
    requires Covered(s)
    ensures Exact(Sweep(s, now)) <==>
            forall p :: Stale(s, p) ==> p.expireAt <= now && (p.key in s.kv ==> s.kv[p.key].expireAt <= now)
  {
    var s' := Sweep(s, now);
    if forall p :: Stale(s, p) ==> p.expireAt <= now && (p.key in s.kv ==> s.kv[p.key].expireAt <= now) {
      forall k ensures ExactAt(s', k) {
        assert CoveredAt(s, k);
        SweepKeepsCovered(s, now, k);
        forall p | p in s'.pq && p.key == k ensures !Stale(s', p) {
          assert !Stale(s, p);
        }
      }
    } else {
      var p :| Stale(s, p) && !(p.expireAt <= now && (p.key in s.kv ==> s.kv[p.key].expireAt <= now));
      if p.expireAt > now {
        assert Stale(s', p);
      } else {
        assert CoveredAt(s, p.key);
        assert Due(s, p.key, now);
        assert Stale(s', Index(s, p.key));
      }
      assert !ExactAt(s', p.key);
    }
  }

  /** With an exact queue, a clock read before the locks were granted only ever removes expired entries. */
  lemma SweepRemovesExactlyExpired(s: Store, sampled: nat, now: nat)
    requires Exact(s) && sampled <= now
    ensures forall k :: k in s.kv ==> (k in Sweep(s, sampled).kv <==> s.kv[k].expireAt > sampled)
    ensures forall k :: Live(s, k, now) ==> Live(Sweep(s, sampled), k, now)
  {
    forall k | k in s.kv ensures k in Sweep(s, sampled).kv <==> s.kv[k].expireAt > sampled {
      assert ExactAt(s, k);
      SweepKeepsExact(s, sampled, k);
    }
  }

  /** In general a sweep removes a live entry exactly when a stale queue entry of that key is due. */
  lemma SweepRemovesLiveIff(s: Store, sampled: nat, now: nat, key: string)
    requires CoveredAt(s, key) && sampled <= now && Live(s, key, now)
    ensures !Live(Sweep(s, sampled), key, now) <==> exists p :: Stale(s, p) && p.key == key && p.expireAt <= sampled
  {
  }

  /******* The lock a caller sees *******/

  /** One key of any store at one moment: free, obtained and unanswered, or answered. */
  datatype Cell = Absent | Pending(expireAt: nat) | Ready(expireAt: nat, value: Bytes)

  function AsOf(c: Cell, now: nat): Cell {
    if c.Absent? || c.expireAt <= now then Absent else c
  }

  function MakeCell(expireAt: nat, value: Bytes): Cell {
    if value == [] then Pending(expireAt) else Ready(expireAt, value)
  }

  function View(s: Store, key: string, now: nat): Cell {
    if key in s.kv then AsOf(MakeCell(s.kv[key].expireAt, s.kv[key].value), now) else Absent
  }

  function CellObtain(c: Cell, now: nat, ttl: nat): (Cell, bool) {
    if c.Absent? then (AsOf(Pending(now + ttl), now), true) else (c, false)
  }

  function CellSet(c: Cell, val: Bytes, now: nat, ttl: nat): (Cell, bool) {
    if c.Absent? then (c, false) else (AsOf(MakeCell(now + ttl, val), now), true)
  }

  /** `obtain` is the cell's `obtain` on its own key and nothing on any other. */
  lemma ObtainRefinesCell(s: Store, key: string, now: nat, ttl: nat, k: string)
    ensures var (s', ok) := Obtain(s, key, now, ttl);
            var (c', okc) := CellObtain(View(s, key, now), now, ttl);
            ok == okc && View(s', k, now) == if k == key then c' else View(s, k, now)
  {
  }

  lemma SetRefinesCell(s: Store, key: string, val: Bytes, now: nat, ttl: nat, k: string)
    ensures var (s', r) := Set(s, key, val, now, ttl);
            var (c', okc) := CellSet(View(s, key, now), val, now, ttl);
            (r == Stored) == okc && View(s', k, now) == if k == key then c' else View(s, k, now)
  {
  }

  lemma DelRefinesCell(s: Store, key: string, now: nat, k: string)
    ensures View(Del(s, key), k, now) == if k == key then Absent else View(s, k, now)
  {
  }

  /** A delayed sweep is invisible at every key on which map and queue agree. */
  lemma SweepRefinesCell(s: Store, sampled: nat, now: nat, k: string)
    requires ExactAt(s, k) && sampled <= now
    ensures View(Sweep(s, sampled), k, now) == View(s, k, now)
  {
  }
}
