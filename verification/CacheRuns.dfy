/**
 Runs of the in-memory store: any number of keys, calls in any order, and cleaners that may act
 on a clock reading taken long before they were granted their locks.
 */
module CacheRuns {
  import opened Wrappers
  import opened CacheStore

  datatype Action =
    | DoObtain(key: string, ttl: nat)
    | DoSet(key: string, val: Bytes, ttl: nat)
    | DoDel(key: string)
    | DoClean(sampled: nat)
    | Tick(ms: nat)

  datatype World = World(store: Store, now: nat)

  ghost function Apply(w: World, a: Action): World {
    match a
    case DoObtain(key, ttl) => w.(store := Obtain(w.store, key, w.now, ttl).0)
    case DoSet(key, val, ttl) => w.(store := Set(w.store, key, val, w.now, ttl).0)
    case DoDel(key) => w.(store := Del(w.store, key))
    case DoClean(sampled) => w.(store := Sweep(w.store, sampled))
    case Tick(ms) => w.(now := w.now + ms)
  }

  /** A cleaner cannot have read a later clock. */
  predicate Possible(w: World, a: Action) {
    a.DoClean? ==> a.sampled <= w.now
  }

  ghost function Run(w: World, run: seq<Action>): World {
    if run == [] then w else Apply(Run(w, run[..|run| - 1]), run[|run| - 1])
  }

  /** The world before action `i`. */
  ghost function At(w: World, run: seq<Action>, i: nat): World
    requires i <= |run|
  {
    Run(w, run[..i])
  }

  lemma AtStep(w: World, run: seq<Action>, i: nat)
    requires i < |run|
    ensures At(w, run, i + 1) == Apply(At(w, run, i), run[i])
  {
    assert run[..i + 1][..i] == run[..i];
  }

  lemma RunOne(w: World, a: Action)
    ensures Run(w, [a]) == Apply(w, a)
  {
    assert [a][..0] == [];
  }

  ghost predicate PossibleRun(w: World, run: seq<Action>) {
    forall i | 0 <= i < |run| :: Possible(At(w, run, i), run[i])
  }

  /** `a` is a `set` on `key` that finds its entry expired. */
  predicate LateSet(w: World, a: Action, key: string) {
    a.DoSet? && a.key == key && key in w.store.kv && w.store.kv[key].expireAt <= w.now
  }

  ghost predicate NoLateSet(w: World, run: seq<Action>, key: string) {
    forall i | 0 <= i < |run| :: !LateSet(At(w, run, i), run[i], key)
  }

  lemma PrefixRuns(w: World, run: seq<Action>, n: nat)
    requires n <= |run|
    ensures forall i | 0 <= i <= n :: At(w, run[..n], i) == At(w, run, i)
    ensures PossibleRun(w, run) ==> PossibleRun(w, run[..n])
    ensures forall key :: NoLateSet(w, run, key) ==> NoLateSet(w, run[..n], key)
  {
    forall i | 0 <= i <= n ensures At(w, run[..n], i) == At(w, run, i) {
      assert run[..n][..i] == run[..i];
    }
  }

  /******* Agreement of map and queue over runs *******/

  lemma StepKeepsCovered(w: World, a: Action, k: string)
    requires CoveredAt(w.store, k)
    ensures CoveredAt(Apply(w, a).store, k)
  {
    match a
    case DoObtain(key, ttl) => WriteKeepsExact(w.store, key, Entry(w.now + ttl, []), k);
    case DoSet(key, val, ttl) => SetKeepsCovered(w.store, key, val, w.now, ttl, k);
    case DoDel(key) => DelKeepsExact(w.store, key, k);
    case DoClean(sampled) => SweepKeepsCovered(w.store, sampled, k);
    case Tick(_) =>
  }

  lemma {:induction false} AlwaysCoveredAt(w: World, run: seq<Action>, k: string)
    requires CoveredAt(w.store, k)
    ensures CoveredAt(Run(w, run).store, k)
  {
    if run != [] {
      AlwaysCoveredAt(w, run[..|run| - 1], k);
      StepKeepsCovered(Run(w, run[..|run| - 1]), run[|run| - 1], k);
    }
  }

  /** In every reachable state each map entry has its queue entry. */
  lemma AlwaysCovered(w: World, run: seq<Action>)
    requires Covered(w.store)
    ensures Covered(Run(w, run).store)
  {
    forall k ensures CoveredAt(Run(w, run).store, k) {
      assert CoveredAt(w.store, k);
      AlwaysCoveredAt(w, run, k);
    }
  }

  /** One step keeps exact agreement on a key if and only if it is not a late `set` on that key. */
  lemma StepExactIff(w: World, a: Action, k: string)
    requires ExactAt(w.store, k)
    ensures ExactAt(Apply(w, a).store, k) <==> !LateSet(w, a, k)
  {
  }

  ghost predicate ExactThroughout(w: World, run: seq<Action>, k: string) {
    forall i | 0 <= i <= |run| :: ExactAt(At(w, run, i).store, k)
  }

  lemma {:induction false} ExactWhileNoLateSet(w: World, run: seq<Action>, k: string, n: nat)
    requires ExactAt(w.store, k) && NoLateSet(w, run, k) && n <= |run|
    ensures ExactAt(At(w, run, n).store, k)
  {
    if n > 0 {
      ExactWhileNoLateSet(w, run, k, n - 1);
      AtStep(w, run, n - 1);
      assert !LateSet(At(w, run, n - 1), run[n - 1], k);
      StepExactIff(At(w, run, n - 1), run[n - 1], k);
    }
  }

  /** Agreement on a key holds all along exactly the runs without a late `set` on it, whatever happens to other keys. */
  lemma ExactThroughoutIff(w: World, run: seq<Action>, k: string)
    requires ExactAt(w.store, k)
    ensures ExactThroughout(w, run, k) <==> NoLateSet(w, run, k)
  {
    if NoLateSet(w, run, k) {
      forall i | 0 <= i <= |run| ensures ExactAt(At(w, run, i).store, k) {
        ExactWhileNoLateSet(w, run, k, i);
      }
    } else {
      var i :| 0 <= i < |run| && LateSet(At(w, run, i), run[i], k);
      AtStep(w, run, i);
      if ExactAt(At(w, run, i).store, k) {
        StepExactIff(At(w, run, i), run[i], k);
      }
    }
  }

  /** The key of `p` is not in the map, and `p` is the one queue entry of that key. */
  predicate Leftover(s: Store, p: PriorityKey) {
    p.key !in s.kv && p in s.pq && forall q | q in s.pq :: q.key == p.key ==> q == p
  }

  /** The key is gone from both collections. */
  predicate Gone(s: Store, key: string) {
    key !in s.kv && forall q | q in s.pq :: q.key != key
  }

  /** A late `set` leaves exactly its old queue entry behind. */
  lemma LateSetLeavesOne(w: World, a: Action, key: string)
    requires ExactAt(w.store, key) && LateSet(w, a, key)
    ensures Leftover(Apply(w, a).store, Index(w.store, key))
  {
    forall q | q in w.store.pq && q.key == key ensures q == Index(w.store, key) {
      assert !Stale(w.store, q);
    }
  }

  /** Some sweep of the run has reached the expiry of `p`. */
  predicate SweptPast(run: seq<Action>, p: PriorityKey) {
    exists i | 0 <= i < |run| :: run[i].DoClean? && p.expireAt <= run[i].sampled
  }

  lemma SweptPastStep(run: seq<Action>, p: PriorityKey)
    requires run != []
    ensures var n := |run| - 1;
            SweptPast(run, p) <==> SweptPast(run[..n], p) || (run[n].DoClean? && p.expireAt <= run[n].sampled)
  {
  }

  /**
   What a late `set` left stays, alone, until the first sweep whose clock has reached it, and
   then nothing of the key is left; unless the key is obtained again before that. Whatever
   else happens, late `set`s on other keys included, has no part in it.
   */
  lemma {:induction false} NextDueSweepRestores(w: World, run: seq<Action>, p: PriorityKey)
    requires Leftover(w.store, p)
    requires forall i | 0 <= i < |run| :: !(run[i].DoObtain? && run[i].key == p.key)
    ensures if SweptPast(run, p) then Gone(Run(w, run).store, p.key) else Leftover(Run(w, run).store, p)
    ensures ExactAt(Run(w, run).store, p.key) <==> SweptPast(run, p)
  {
    if run != [] {
      var n := |run| - 1;
      NextDueSweepRestores(w, run[..n], p);
      SweptPastStep(run, p);
    }
    if !SweptPast(run, p) {
      assert Stale(Run(w, run).store, p);
    }
  }

  /******* One key of the store is one cell *******/

  datatype CellWorld = CellWorld(cell: Cell, now: nat)

  /** What an action means to the holder of `key`. Cleaners and other keys mean nothing. */
  function CellApply(c: CellWorld, a: Action, key: string): CellWorld {
    match a
    case DoObtain(k, ttl) => if k == key then c.(cell := CellObtain(c.cell, c.now, ttl).0) else c
    case DoSet(k, val, ttl) => if k == key then c.(cell := CellSet(c.cell, val, c.now, ttl).0) else c
    case DoDel(k) => if k == key then c.(cell := Absent) else c
    case DoClean(_) => c
    case Tick(ms) => CellWorld(AsOf(c.cell, c.now + ms), c.now + ms)
  }

  function CellRun(c: CellWorld, run: seq<Action>, key: string): CellWorld {
    if run == [] then c else CellApply(CellRun(c, run[..|run| - 1], key), run[|run| - 1], key)
  }

  function CellOf(w: World, key: string): CellWorld {
    CellWorld(View(w.store, key, w.now), w.now)
  }

  lemma StepRefinesCell(w: World, a: Action, key: string)
    requires ExactAt(w.store, key) && Possible(w, a)
    ensures CellOf(Apply(w, a), key) == CellApply(CellOf(w, key), a, key)
  {
  }

  /**
   As long as no `set` on `key` is late, the store behaves at `key` as a lone cell: what other
   keys do, and when cleaners run and on how old a clock, cannot be seen.
   */
  lemma {:induction false} RunRefinesCell(w: World, run: seq<Action>, key: string)
    requires ExactAt(w.store, key) && PossibleRun(w, run) && NoLateSet(w, run, key)
    ensures ExactAt(Run(w, run).store, key)
    ensures CellOf(Run(w, run), key) == CellRun(CellOf(w, key), run, key)
  {
    if run != [] {
      var n := |run| - 1;
      PrefixRuns(w, run, n);
      RunRefinesCell(w, run[..n], key);
      var w1 := Run(w, run[..n]);
      assert w1 == At(w, run, n);
      assert Possible(w1, run[n]) && !LateSet(w1, run[n], key);
      StepExactIff(w1, run[n], key);
      StepRefinesCell(w1, run[n], key);
    }
  }

  /******* Exclusion *******/

  /** Action `i` is a successful `obtain` of `key`. */
  ghost predicate Obtains(w: World, run: seq<Action>, i: int, key: string) {
    0 <= i < |run| && run[i].DoObtain? && run[i].key == key && !Live(At(w, run, i).store, key, At(w, run, i).now)
  }

  /** The lease on `key` after `a`, when it ended at `lease` before. */
  ghost function Renew(w: World, a: Action, key: string, lease: nat): nat {
    if a.DoObtain? && a.key == key && !Live(w.store, key, w.now) then w.now + a.ttl
    else if a.DoSet? && a.key == key && Live(w.store, key, w.now) then w.now + a.ttl
    else lease
  }

  /** The expiry that the successful `obtain` at `i` stands at by action `j`, as later calls have moved it. */
  ghost function LeaseEnd(w: World, run: seq<Action>, key: string, i: nat, j: nat): nat
    requires i < j <= |run| && run[i].DoObtain?
  {
    if j == i + 1 then At(w, run, i).now + run[i].ttl
    else Renew(At(w, run, j - 1), run[j - 1], key, LeaseEnd(w, run, key, i, j - 1))
  }

  /** The lease is over, or the entry stands in the map with exactly that expiry. */
  predicate LeaseHolds(w: World, key: string, lease: nat) {
    lease <= w.now || (key in w.store.kv && w.store.kv[key].expireAt == lease)
  }

  /** A sweep on clock `sampled` takes a live entry of `key` out of the map: a stale queue entry of it is due. */
  predicate Evicts(w: World, a: Action, key: string) {
    && a.DoClean? && Live(w.store, key, w.now)
    && exists p | p in w.store.pq :: Stale(w.store, p) && p.key == key && p.expireAt <= a.sampled
  }

  lemma StepKeepsLease(w: World, a: Action, key: string, lease: nat)
    requires CoveredAt(w.store, key) && Possible(w, a) && !Evicts(w, a, key) && a != DoDel(key)
    requires LeaseHolds(w, key, lease)
    ensures LeaseHolds(Apply(w, a), key, Renew(w, a, key, lease))
  {
    if a.DoClean? && Live(w.store, key, w.now) {
      SweepRemovesLiveIff(w.store, a.sampled, w.now, key);
    }
  }

  /** A lease stands until a `del`, an eviction, or its expiry as it has been moved. */
  lemma {:induction false} LeaseHeld(w: World, run: seq<Action>, key: string, i: nat, j: nat)
    requires CoveredAt(w.store, key) && PossibleRun(w, run)
    requires i < j <= |run| && Obtains(w, run, i, key)
    requires forall m | i < m < j :: run[m] != DoDel(key) && !Evicts(At(w, run, m), run[m], key)
    ensures LeaseHolds(At(w, run, j), key, LeaseEnd(w, run, key, i, j))
    decreases j
  {
    if j == i + 1 {
      LeaseStarts(w, run, key, i);
    } else {
      LeaseHeld(w, run, key, i, j - 1);
      AlwaysCoveredAt(w, run[..j - 1], key);
      assert Possible(At(w, run, j - 1), run[j - 1]);
      LeaseHeldStep(w, run, key, i, j);
    }
  }

  lemma LeaseStarts(w: World, run: seq<Action>, key: string, i: nat)
    requires i < |run| && Obtains(w, run, i, key)
    ensures LeaseHolds(At(w, run, i + 1), key, LeaseEnd(w, run, key, i, i + 1))
  {
    AtStep(w, run, i);
  }

  lemma LeaseHeldStep(w: World, run: seq<Action>, key: string, i: nat, j: nat)
    requires i + 1 < j <= |run| && run[i].DoObtain?
    requires CoveredAt(At(w, run, j - 1).store, key) && Possible(At(w, run, j - 1), run[j - 1])
    requires run[j - 1] != DoDel(key) && !Evicts(At(w, run, j - 1), run[j - 1], key)
    requires LeaseHolds(At(w, run, j - 1), key, LeaseEnd(w, run, key, i, j - 1))
    ensures LeaseHolds(At(w, run, j), key, LeaseEnd(w, run, key, i, j))
  {
    AtStep(w, run, j - 1);
    StepKeepsLease(At(w, run, j - 1), run[j - 1], key, LeaseEnd(w, run, key, i, j - 1));
  }

  /** After an eviction the key stays free until it is obtained again. */
  lemma {:induction false} EvictedStaysFree(w: World, run: seq<Action>, key: string, m: nat, j: nat)
    requires m < j <= |run| && Evicts(At(w, run, m), run[m], key)
    requires forall n | m < n < j :: !Obtains(w, run, n, key)
    ensures key !in At(w, run, j).store.kv
    decreases j
  {
    AtStep(w, run, j - 1);
    if j == m + 1 {
      assert Due(At(w, run, m).store, key, run[m].sampled);
    } else {
      EvictedStaysFree(w, run, key, m, j - 1);
      assert !Obtains(w, run, j - 1, key);
    }
  }

  /**
   Exclusion, exactly. Within a lease, as later calls have moved it, and with no `del` of the key,
   the next caller is granted the key if and only if a sweep has met the live entry together
   with a due stale queue entry of that key. Other keys and the age of a cleaner's clock play no part.
   */
  lemma ExclusionFailsIff(w: World, run: seq<Action>, key: string, i: nat, j: nat)
    requires CoveredAt(w.store, key) && PossibleRun(w, run)
    requires i < j < |run| && Obtains(w, run, i, key) && run[j].DoObtain? && run[j].key == key
    requires forall m | i < m < j :: run[m] != DoDel(key) && !Obtains(w, run, m, key)
    requires At(w, run, j).now < LeaseEnd(w, run, key, i, j)
    ensures Obtains(w, run, j, key) <==> exists m | i < m < j :: Evicts(At(w, run, m), run[m], key)
  {
    if m :| i < m < j && Evicts(At(w, run, m), run[m], key) {
      EvictedStaysFree(w, run, key, m, j);
    } else {
      LeaseHeld(w, run, key, i, j);
    }
  }

  /**
   In a run without late `set`s on the key nothing is ever evicted: two successful `obtain`
   calls on it are separated by a `del` of that key or by the expiry as it then stood.
   */
  lemma Exclusion(w: World, run: seq<Action>, key: string, i: nat, j: nat)
    requires ExactAt(w.store, key) && PossibleRun(w, run) && NoLateSet(w, run, key)
    requires i < j && Obtains(w, run, i, key) && Obtains(w, run, j, key)
    ensures (exists m | i < m < j :: run[m] == DoDel(key)) || LeaseEnd(w, run, key, i, j) <= At(w, run, j).now
  {
    if forall m | i < m < j :: run[m] != DoDel(key) {
      forall m | i < m < j ensures !Evicts(At(w, run, m), run[m], key) {
        ExactWhileNoLateSet(w, run, key, m);
      }
      LeaseHeld(w, run, key, i, j);
    }
  }

  /** No call of the run deletes `key` or sets it. */
  predicate LeavesAlone(run: seq<Action>, key: string) {
    forall i | 0 <= i < |run| :: run[i] != DoDel(key) && !(run[i].DoSet? && run[i].key == key)
  }

  /** No stale queue entry of `key` expires before `lease`. */
  predicate NoEarlyStale(s: Store, key: string, lease: nat) {
    forall p | p in s.pq && p.key == key :: Stale(s, p) ==> lease <= p.expireAt
  }

  /** The lease is over, or it stands and no stale queue entry can cut it short. */
  predicate LeaseSafe(w: World, key: string, lease: nat) {
    lease <= w.now || (LeaseHolds(w, key, lease) && CoveredAt(w.store, key) && NoEarlyStale(w.store, key, lease))
  }

  lemma {:induction false} SafeLeaseStands(w: World, run: seq<Action>, key: string, lease: nat)
    requires LeaseSafe(w, key, lease) && PossibleRun(w, run) && LeavesAlone(run, key)
    ensures LeaseSafe(Run(w, run), key, lease)
  {
    if run != [] {
      var n := |run| - 1;
      PrefixRuns(w, run, n);
      SafeLeaseStands(w, run[..n], key, lease);
      var w1 := Run(w, run[..n]);
      assert w1 == At(w, run, n) && Possible(w1, run[n]);
      StepKeepsSafe(w1, run[n], key, lease);
    }
  }

  lemma StepKeepsSafe(w: World, a: Action, key: string, lease: nat)
    requires LeaseSafe(w, key, lease) && Possible(w, a) && a != DoDel(key) && !(a.DoSet? && a.key == key)
    ensures LeaseSafe(Apply(w, a), key, lease)
  {
    if w.now < lease {
      StepKeepsCovered(w, a, key);
      StepKeepsLease(w, a, key, lease);
    }
  }

  lemma TwoSteps(w: World, a: Action, b: Action)
    ensures Run(w, [a, b]) == Apply(Apply(w, a), b)
    ensures PossibleRun(w, [a, b]) <==> Possible(w, a) && Possible(Apply(w, a), b)
  {
    var run := [a, b];
    AtStep(w, run, 0);
    AtStep(w, run, 1);
    assert run[..0] == [] && run[..2] == run;
    assert At(w, run, 0) == w && At(w, run, 1) == Apply(w, a);
    assert run[0] == a && run[1] == b;
  }

  /** Wait until the stale entry is due, then sweep. */
  lemma EarlyStaleCutsShort(w: World, key: string, lease: nat, p: PriorityKey)
    requires p in w.store.pq && Stale(w.store, p) && p.key == key && p.expireAt < lease && w.now < lease
    ensures var due := if p.expireAt <= w.now then w.now else p.expireAt;
            var run := [Tick(due - w.now), DoClean(due)];
            PossibleRun(w, run) && LeavesAlone(run, key) && !LeaseHolds(Run(w, run), key, lease)
  {
    var due := if p.expireAt <= w.now then w.now else p.expireAt;
    TwoSteps(w, Tick(due - w.now), DoClean(due));
    assert Due(w.store, key, due);
  }

  /**
   What a caller can see when it is granted the key: its lease will stand, in every continuation
   that neither deletes nor sets the key, if and only if the queue then holds no stale entry of
   the key that expires before the lease does.
   */
  lemma GrantStandsIff(w: World, key: string, ttl: nat)
    requires CoveredAt(w.store, key) && !Live(w.store, key, w.now) && ttl > 0
    ensures var w1 := Apply(w, DoObtain(key, ttl));
            (forall run | PossibleRun(w1, run) && LeavesAlone(run, key) :: LeaseHolds(Run(w1, run), key, w.now + ttl))
            <==> NoEarlyStale(w1.store, key, w.now + ttl)
  {
    var w1, lease := Apply(w, DoObtain(key, ttl)), w.now + ttl;
    if NoEarlyStale(w1.store, key, lease) {
      StepKeepsCovered(w, DoObtain(key, ttl), key);
      forall run | PossibleRun(w1, run) && LeavesAlone(run, key) ensures LeaseHolds(Run(w1, run), key, lease) {
        SafeLeaseStands(w1, run, key, lease);
      }
    } else {
      var p :| p in w1.store.pq && p.key == key && Stale(w1.store, p) && p.expireAt < lease;
      EarlyStaleCutsShort(w1, key, lease, p);
    }
  }

  /**
   A run that does evict: a late `set` leaves a stale queue entry, the key is obtained again for
   100 ms, a sweep then acts on the stale entry, and a second caller obtains the key at once.
   */
  lemma LateSetBreaksExclusion(key: string, val: Bytes)
    ensures var run := [DoObtain(key, 10), Tick(10), DoSet(key, val, 10),
                        DoObtain(key, 100), DoClean(10), DoObtain(key, 100)];
            var w := World(EMPTY_STORE, 0);
            && PossibleRun(w, run)
            && Obtains(w, run, 3, key) && Obtains(w, run, 5, key)
            && run[4] != DoDel(key)
            && LeaseEnd(w, run, key, 3, 5) == 110 && At(w, run, 5).now == 10
  {
    var run := [DoObtain(key, 10), Tick(10), DoSet(key, val, 10), DoObtain(key, 100), DoClean(10), DoObtain(key, 100)];
    var w := World(EMPTY_STORE, 0);
    assert At(w, run, 0) == w;
    AtStep(w, run, 0);
    AtStep(w, run, 1);
    AtStep(w, run, 2);
    AtStep(w, run, 3);
    AtStep(w, run, 4);
    var w3 := At(w, run, 3);
    assert w3 == World(Store(map[], {PriorityKey(10, key)}), 10);
    var w4 := At(w, run, 4);
    assert PriorityKey(10, key) in w4.store.pq;
    assert Due(w4.store, key, 10);
    assert key !in At(w, run, 5).store.kv;
    assert LeaseEnd(w, run, key, 3, 4) == 110;
  }
}
