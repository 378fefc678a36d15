/**
 The proxy's protocol over the Redis store. Everything but the store is as over the in-memory
 store, and one reply differs: a leader whose `set` is refused is not told so and replies Ok.

 `log` is the protocol's record; its own store stays empty.
 */
module RedisProtocol {
  import opened Wrappers
  import opened Protocol
  import opened RedisStore
  import CS = CacheStore

  datatype RedisSystem = RedisSystem(data: Data, log: System)

  const REDIS_IDLE := RedisSystem(map[], IDLE)

  /** A stored response is longer than the marker of a lock. */
  ghost predicate SoundForRedis(cfg: Config) {
    Sound(cfg) && forall r :: |cfg.encode(r)| > 1
  }

  ghost function RedisStep(cfg: Config, s: RedisSystem, e: Event): RedisSystem
    requires Enabled(s.log, e) && cfg.pollInterval > 0
  {
    match e
    case TryObtain(id) => RedisStepObtain(cfg, s, id, s.log.requests[id].key)
    case Keep(id) => RedisStepKeep(cfg, s, id, s.log.requests[id].key)
    case Release(id) =>
      RedisSystem(s.data - {s.log.requests[id].key}, StepRelease(s.log, id, s.log.requests[id].key))
    case Poll(id) => s.(log := RedisStepPoll(cfg, s, id, s.log.requests[id].key))
    case Clean(_) => s
    case _ => s.(log := Step(cfg, s.log, e))
  }

  function RedisStepObtain(cfg: Config, s: RedisSystem, id: nat, key: string): RedisSystem
    requires cfg.pollInterval > 0
  {
    var now, epochs := s.log.now, Epochs(s.log, key);
    var (data, ok) := RedisObtain(s.data, key, now, cfg.ttl);
    RedisSystem(data,
      if ok then
        Move(s.log, id, key, Leading(|epochs|, now + cfg.ttl))
        .(history := s.log.history[key := epochs + [Epoch(id, now, now + cfg.ttl, 0, None)]])
      else
        Move(s.log, id, key, Following(if epochs == [] then 0 else |epochs| - 1, cfg.ttl / cfg.pollInterval)))
  }

  /** The refusal of `set` is an Ok(false) that nobody looks at. */
  function RedisStepKeep(cfg: Config, s: RedisSystem, id: nat, key: string): RedisSystem
    requires id in s.log.requests && s.log.requests[id].phase.Answered?
  {
    var Answered(n, expireAt, response) := s.log.requests[id].phase;
    var (data, stored) := RedisSet(s.data, key, cfg.encode(response), s.log.now, cfg.ttl);
    var log := Move(s.log, id, key, Served(n, n, response));
    RedisSystem(data,
      if stored && n < |Epochs(log, key)|
      then Note(log, key, n, Epochs(log, key)[n].(leaseEnd := log.now + cfg.ttl, response := Some(response)))
      else log)
  }

  function RedisStepPoll(cfg: Config, s: RedisSystem, id: nat, key: string): System
    requires id in s.log.requests && s.log.requests[id].phase.Following?
  {
    var Following(since, counter) := s.log.requests[id].phase;
    if counter == 0 then Move(s.log, id, key, Failed)
    else
      match RedisVerdict(s.data, key, s.log.now)
      case NoLock => Move(s.log, id, key, Failed)
      case Wait => Move(s.log, id, key, Following(since, counter - 1))
      case Answer(value) =>
        match cfg.decode(value)
        case None => Move(s.log, id, key, Failed)
        case Some(response) =>
          var epochs := Epochs(s.log, key);
          Move(s.log, id, key, Served(if epochs == [] then 0 else |epochs| - 1, since, response))
  }

  /** A finishing call that is timely, or a `del` of a key that does not exist. */
  predicate RedisGood(s: RedisSystem, e: Event, key: string) {
    && Enabled(s.log, e)
    && (OnKey(s.log, e, key) ==> Timely(s.log, e) || (e.Release? && !Exists(s.data, key, s.log.now)))
  }

  ghost predicate GoodRedisRun(cfg: Config, s: RedisSystem, run: seq<Event>, key: string)
    requires cfg.pollInterval > 0
    decreases |run|, 0
  {
    run == [] ||
    var shorter := run[..|run| - 1];
    GoodRedisRun(cfg, s, shorter, key) && RedisGood(AfterRedis(cfg, s, shorter, key), run[|run| - 1], key)
  }

  ghost function AfterRedis(cfg: Config, s: RedisSystem, run: seq<Event>, key: string): RedisSystem
    requires cfg.pollInterval > 0 && GoodRedisRun(cfg, s, run, key)
    decreases |run|, 1
  {
    if run == [] then s
    else RedisStep(cfg, AfterRedis(cfg, s, run[..|run| - 1], key), run[|run| - 1])
  }

  /******* The same protocol, seen through the cells *******/

  function Unmark(e: CS.Entry): CS.Entry {
    if |e.value| > 1 then e else e.(value := [])
  }

  /** The in-memory store that would hold what exists in Redis. */
  function AsStore(d: Data, now: nat): CS.Store {
    var kv := map k | k in d && d[k].expireAt > now :: Unmark(d[k]);
    CS.Store(kv, set k | k in kv :: CS.PriorityKey(kv[k].expireAt, k))
  }

  function AsMemory(s: RedisSystem): System {
    s.log.(store := AsStore(s.data, s.log.now))
  }

  ghost predicate RedisInv(cfg: Config, s: RedisSystem, key: string) {
    Inv(cfg, AsMemory(s), key)
  }

  /** What a Redis step is in the in-memory protocol; time also sweeps what it lets expire. */
  ghost function MemoryStep(cfg: Config, s: System, e: Event): System
    requires Enabled(s, e) && cfg.pollInterval > 0
  {
    match e
    case Elapse(ms) => Step(cfg, Step(cfg, s, e), Clean(s.now + ms))
    case Clean(_) => s
    case _ => Step(cfg, s, e)
  }

  /** A leader whose `set` Redis refuses. */
  predicate RefusedSet(s: RedisSystem, e: Event)
    requires Enabled(s.log, e)
  {
    e.Keep? && !Exists(s.data, s.log.requests[e.id].key, s.log.now)
  }

  lemma SameStores(a: CS.Store, b: CS.Store)
    requires a.kv == b.kv && CS.Exact(a) && CS.Exact(b)
    ensures a == b
  {
    CS.ExactIsIndex(a);
    CS.ExactIsIndex(b);
  }

  lemma AsStoreIsExact(d: Data, now: nat)
    ensures CS.Exact(AsStore(d, now))
  {
    CS.ExactIsIndex(AsStore(d, now));
  }

  /** Writing an entry that has not expired is writing it in memory. */
  lemma WriteSimulates(d: Data, now: nat, key: string, e: CS.Entry)
    requires e.expireAt > now
    ensures AsStore(d[key := e], now) == CS.Write(AsStore(d, now), key, Unmark(e))
  {
    AsStoreIsExact(d, now);
    AsStoreIsExact(d[key := e], now);
    WriteIsExact(AsStore(d, now), key, Unmark(e));
    SameStores(AsStore(d[key := e], now), CS.Write(AsStore(d, now), key, Unmark(e)));
  }

  lemma ObtainSimulates(cfg: Config, s: RedisSystem, id: nat, key: string)
    requires SoundForRedis(cfg) && Enabled(s.log, TryObtain(id)) && s.log.requests[id].key == key
    ensures AsMemory(RedisStepObtain(cfg, s, id, key)) == StepObtain(cfg, AsMemory(s), id, key)
  {
    LockSimulates(s.data, s.log.now, key, cfg.ttl);
  }

  /** `obtain` gives the same answer and the same store. */
  lemma LockSimulates(d: Data, now: nat, key: string, ttl: nat)
    requires ttl > 0
    ensures var (data, ok) := RedisObtain(d, key, now, ttl);
            var (store, ok') := CS.Obtain(AsStore(d, now), key, now, ttl);
            ok == ok' && AsStore(data, now) == store
  {
    WriteSimulates(d, now, key, CS.Entry(now + ttl, MARKER));
  }

  lemma WriteIsExact(m: CS.Store, key: string, e: CS.Entry)
    requires CS.Exact(m)
    ensures CS.Exact(CS.Write(m, key, e))
  {
    forall k ensures CS.ExactAt(CS.Write(m, key, e), k) {
      assert CS.ExactAt(m, k);
      CS.WriteKeepsExact(m, key, e, k);
    }
  }

  lemma KeepSimulates(cfg: Config, s: RedisSystem, id: nat, key: string)
    requires SoundForRedis(cfg) && Enabled(s.log, Keep(id)) && s.log.requests[id].key == key
    requires Exists(s.data, key, s.log.now)
    ensures AsMemory(RedisStepKeep(cfg, s, id, key)) == StepKeep(cfg, AsMemory(s), id, key)
  {
    var val := cfg.encode(s.log.requests[id].phase.response);
    WriteSimulates(s.data, s.log.now, key, CS.Entry(s.log.now + cfg.ttl, val));
    assert CS.Live(AsStore(s.data, s.log.now), key, s.log.now);
  }

  lemma ReleaseSimulates(cfg: Config, s: RedisSystem, id: nat, key: string)
    requires cfg.pollInterval > 0 && Enabled(s.log, Release(id)) && s.log.requests[id].key == key
    ensures AsMemory(RedisStep(cfg, s, Release(id))) == StepRelease(AsMemory(s), id, key)
  {
    var m, data := AsStore(s.data, s.log.now), s.data - {key};
    AsStoreIsExact(s.data, s.log.now);
    AsStoreIsExact(data, s.log.now);
    forall k ensures CS.ExactAt(CS.Del(m, key), k) {
      assert CS.ExactAt(m, k);
      CS.DelKeepsExact(m, key, k);
    }
    SameStores(AsStore(data, s.log.now), CS.Del(m, key));
  }

  /** Letting entries expire is sweeping them. */
  lemma ElapseSimulates(d: Data, now: nat, later: nat)
    requires now <= later
    ensures AsStore(d, later) == CS.Sweep(AsStore(d, now), later)
  {
    var m := AsStore(d, now);
    AsStoreIsExact(d, now);
    AsStoreIsExact(d, later);
    forall k
      ensures CS.ExactAt(CS.Sweep(m, later), k)
      ensures k in CS.Sweep(m, later).kv <==> k in m.kv && m.kv[k].expireAt > later
    {
      assert CS.ExactAt(m, k);
      CS.SweepKeepsExact(m, later, k);
    }
    assert AsStore(d, later).kv == CS.Sweep(m, later).kv;
    SameStores(AsStore(d, later), CS.Sweep(m, later));
  }

  lemma TimeInMemory(cfg: Config, m: System, ms: nat)
    requires cfg.pollInterval > 0
    ensures MemoryStep(cfg, m, Elapse(ms)) == m.(now := m.now + ms, store := CS.Sweep(m.store, m.now + ms))
  {
  }

  lemma TimeInRedis(cfg: Config, s: RedisSystem, ms: nat)
    requires cfg.pollInterval > 0
    ensures RedisStep(cfg, s, Elapse(ms)) == s.(log := s.log.(now := s.log.now + ms))
  {
  }

  lemma SameAtLater(log: System, later: nat, a: CS.Store, b: CS.Store, m: System)
    requires a == b && m == log.(store := m.store)
    ensures log.(now := later).(store := a) == m.(now := later, store := b)
  {
  }

  lemma TimeSimulates(s: RedisSystem, later: nat, s': RedisSystem)
    requires s.log.now <= later && s' == s.(log := s.log.(now := later))
    ensures AsMemory(s') == AsMemory(s).(now := later, store := CS.Sweep(AsMemory(s).store, later))
  {
    var m := AsMemory(s);
    ElapseSimulates(s.data, s.log.now, later);
    SameAtLater(s.log, later, AsStore(s.data, later), CS.Sweep(m.store, later), m);
  }

  /** The calls of a request on the store. */
  lemma CallSimulates(cfg: Config, s: RedisSystem, e: Event)
    requires SoundForRedis(cfg) && Enabled(s.log, e) && !RefusedSet(s, e)
    requires e.TryObtain? || e.Keep? || e.Release? || e.Poll?
    ensures AsMemory(RedisStep(cfg, s, e)) == MemoryStep(cfg, AsMemory(s), e)
  {
    match e
    case TryObtain(id) => ObtainSimulates(cfg, s, id, s.log.requests[id].key);
    case Keep(id) => KeepSimulates(cfg, s, id, s.log.requests[id].key);
    case Release(id) => ReleaseSimulates(cfg, s, id, s.log.requests[id].key);
    case Poll(id) => PollSimulates(cfg, s, id, s.log.requests[id].key);
  }

  lemma ElapsedSimulates(cfg: Config, s: RedisSystem, ms: nat)
    requires cfg.pollInterval > 0
    ensures AsMemory(RedisStep(cfg, s, Elapse(ms))) == MemoryStep(cfg, AsMemory(s), Elapse(ms))
  {
    var s' := RedisStep(cfg, s, Elapse(ms));
    TimeInRedis(cfg, s, ms);
    TimeSimulates(s, s.log.now + ms, s');
    TimeInMemory(cfg, AsMemory(s), ms);
  }

  /** Unless Redis refuses a `set`, a step over Redis is a step over the in-memory store. */
  lemma StepSimulates(cfg: Config, s: RedisSystem, e: Event)
    requires SoundForRedis(cfg) && Enabled(s.log, e) && !RefusedSet(s, e)
    ensures AsMemory(RedisStep(cfg, s, e)) == MemoryStep(cfg, AsMemory(s), e)
  {
    if e.TryObtain? || e.Keep? || e.Release? || e.Poll? {
      CallSimulates(cfg, s, e);
    } else if e.Elapse? {
      ElapsedSimulates(cfg, s, e.ms);
    } else {
      QuietSimulates(cfg, s, e);
    }
  }

  lemma QuietSimulates(cfg: Config, s: RedisSystem, e: Event)
    requires SoundForRedis(cfg) && Enabled(s.log, e)
    requires e.Arrive? || e.Forward? || e.Upstream? || e.Abandon? || e.Clean?
    ensures AsMemory(RedisStep(cfg, s, e)) == MemoryStep(cfg, AsMemory(s), e)
  {
  }

  lemma PollSimulates(cfg: Config, s: RedisSystem, id: nat, key: string)
    requires SoundForRedis(cfg) && Enabled(s.log, Poll(id)) && s.log.requests[id].key == key
    ensures AsMemory(s.(log := RedisStepPoll(cfg, s, id, key))) == StepPoll(cfg, AsMemory(s), id, key)
  {
  }

  /******* What the store being Redis changes *******/

  /** A refused `set` on another key changes nothing about this one. */
  lemma RefusedElsewhere(cfg: Config, s: RedisSystem, e: Event, key: string)
    requires SoundForRedis(cfg) && Enabled(s.log, e) && RefusedSet(s, e) && s.log.requests[e.id].key != key
    ensures SameAt(AsMemory(s), AsMemory(RedisStep(cfg, s, e)), key)
  {
  }

  /** Where the invariant holds a leader whose lock has not expired is not refused. */
  lemma TimelySetIsStored(cfg: Config, s: RedisSystem, e: Event)
    requires Enabled(s.log, e) && e.Keep? && RedisInv(cfg, s, s.log.requests[e.id].key) && Timely(s.log, e)
    ensures !RefusedSet(s, e)
  {
    LockIsInTheMap(cfg, AsMemory(s), e.id);
  }

  lemma MemoryStepKeepsInv(cfg: Config, s: System, e: Event, key: string)
    requires Sound(cfg) && Inv(cfg, s, key) && Good(s, e, key)
    ensures Inv(cfg, MemoryStep(cfg, s, e), key)
  {
    if !e.Clean? {
      StepKeepsInv(cfg, s, e, key);
    }
    if e.Elapse? {
      StepKeepsInv(cfg, Step(cfg, s, e), Clean(s.now + e.ms), key);
    }
  }

  lemma GoodInMemory(s: RedisSystem, e: Event, key: string)
    requires RedisGood(s, e, key)
    ensures Good(AsMemory(s), e, key)
  {
  }

  lemma RedisStepKeepsInv(cfg: Config, s: RedisSystem, e: Event, key: string)
    requires SoundForRedis(cfg) && RedisInv(cfg, s, key) && RedisGood(s, e, key)
    ensures RedisInv(cfg, RedisStep(cfg, s, e), key)
  {
    var m := AsMemory(s);
    if e.Keep? && s.log.requests[e.id].key == key {
      TimelySetIsStored(cfg, s, e);
    }
    if RefusedSet(s, e) {
      RefusedElsewhere(cfg, s, e, key);
      SameKeepsInv(cfg, m, AsMemory(RedisStep(cfg, s, e)), key);
    } else {
      StepSimulates(cfg, s, e);
      GoodInMemory(s, e, key);
      MemoryStepKeepsInv(cfg, m, e, key);
    }
  }

  lemma {:induction false} RedisRunKeepsInv(cfg: Config, s: RedisSystem, run: seq<Event>, key: string)
    requires SoundForRedis(cfg) && RedisInv(cfg, s, key) && GoodRedisRun(cfg, s, run, key)
    ensures RedisInv(cfg, AfterRedis(cfg, s, run, key), key)
  {
    if run != [] {
      var shorter := run[..|run| - 1];
      RedisRunKeepsInv(cfg, s, shorter, key);
      RedisStepKeepsInv(cfg, AfterRedis(cfg, s, shorter, key), run[|run| - 1], key);
    }
  }

  /** Idempotency over Redis: what is promised speaks of the record alone. */
  lemma RedisStaysIdempotent(cfg: Config, s: RedisSystem, run: seq<Event>, key: string)
    requires SoundForRedis(cfg) && RedisInv(cfg, s, key) && GoodRedisRun(cfg, s, run, key)
    ensures Idempotent(AfterRedis(cfg, s, run, key).log, key)
  {
    RedisRunKeepsInv(cfg, s, run, key);
    var m := AsMemory(AfterRedis(cfg, s, run, key));
    var none: seq<Event> := [];
    assert GoodRun(cfg, m, none, key) && After(cfg, m, none) == m;
    StaysIdempotent(cfg, m, none, key);
    SameRecord(AfterRedis(cfg, s, run, key), key);
  }

  lemma SameRecord(s: RedisSystem, key: string)
    ensures Idempotent(AsMemory(s), key) <==> Idempotent(s.log, key)
  {
    var m := AsMemory(s);
    assert Epochs(m, key) == Epochs(s.log, key);
    assert forall a :: LeadsUnexpired(m, a, key) <==> LeadsUnexpired(s.log, a, key);
    assert forall a :: ServedOn(m, a, key) <==> ServedOn(s.log, a, key);
    assert OneUnexpiredLeader(m, key) <==> OneUnexpiredLeader(s.log, key);
    assert OneAnswerPerEpoch(m, key) <==> OneAnswerPerEpoch(s.log, key);
    assert AnswersAreCurrent(m, key) <==> AnswersAreCurrent(s.log, key);
  }

  lemma RedisOneForwardOneAnswer(cfg: Config, run: seq<Event>, key: string)
    requires SoundForRedis(cfg) && GoodRedisRun(cfg, REDIS_IDLE, run, key)
    ensures Idempotent(AfterRedis(cfg, REDIS_IDLE, run, key).log, key)
  {
    assert AsMemory(REDIS_IDLE).store == CS.EMPTY_STORE;
    IdleInv(cfg, key);
    RedisStaysIdempotent(cfg, REDIS_IDLE, run, key);
  }

  /** A late leader whose `set` is refused replies Ok with a response that was never stored. */
  lemma RefusedSetBreaks(cfg: Config, s: RedisSystem, e: Event, key: string)
    requires SoundForRedis(cfg) && Enabled(s.log, e) && OnKey(s.log, e, key) && RedisInv(cfg, s, key)
    requires RefusedSet(s, e)
    ensures var s' := RedisStep(cfg, s, e);
            && s'.data == s.data
            && ServedOn(s'.log, e.id, key)
            && var n := s'.log.requests[e.id].phase.epoch;
            && n < |Epochs(s'.log, key)| && Epochs(s'.log, key)[n].response == None
            && !AnswersAreCurrent(s'.log, key)
  {
    assert FitsAt(AsMemory(s), e.id, key);
    assert ServedOn(RedisStep(cfg, s, e).log, e.id, key);
  }

  lemma GoodSnoc(cfg: Config, s: RedisSystem, run: seq<Event>, key: string, e: Event)
    requires cfg.pollInterval > 0 && GoodRedisRun(cfg, s, run, key)
    requires RedisGood(AfterRedis(cfg, s, run, key), e, key)
    ensures GoodRedisRun(cfg, s, run + [e], key)
    ensures AfterRedis(cfg, s, run + [e], key) == RedisStep(cfg, AfterRedis(cfg, s, run, key), e)
  {
    assert (run + [e])[..|run|] == run;
  }

  /** A late `del` of another leader's lock: a newcomer's lease overlaps that leader's. */
  lemma LateDelBreaks(cfg: Config, s: RedisSystem, e: Event, key: string) returns (run: seq<Event>)
    requires SoundForRedis(cfg) && Enabled(s.log, e) && OnKey(s.log, e, key) && RedisInv(cfg, s, key)
    requires e.Release? && !Timely(s.log, e) && Exists(s.data, key, s.log.now)
    ensures GoodRedisRun(cfg, RedisStep(cfg, s, e), run, key)
    ensures !Idempotent(AfterRedis(cfg, RedisStep(cfg, s, e), run, key).log, key)
  {
    assert FitsAt(AsMemory(s), e.id, key);
    var s' := RedisStep(cfg, s, e);
    var id := FreshId(s'.log.requests);
    run := [];
    GoodSnoc(cfg, s', run, key, Arrive(id, key));
    run := run + [Arrive(id, key)];
    GoodSnoc(cfg, s', run, key, TryObtain(id));
    run := run + [TryObtain(id)];
    var before, epochs := Epochs(s'.log, key), Epochs(AfterRedis(cfg, s', run, key).log, key);
    assert epochs[|before| - 1].leaseEnd > epochs[|before|].start;
  }

  /** A late `set` on another leader's lock: its own, past epoch gets a lease in that leader's. */
  lemma LateSetBreaks(cfg: Config, s: RedisSystem, e: Event, key: string)
    requires SoundForRedis(cfg) && Enabled(s.log, e) && OnKey(s.log, e, key) && RedisInv(cfg, s, key)
    requires e.Keep? && !Timely(s.log, e) && !RefusedSet(s, e)
    ensures !Idempotent(RedisStep(cfg, s, e).log, key)
  {
    assert FitsAt(AsMemory(s), e.id, key);
    var n, epochs := s.log.requests[e.id].phase.epoch, Epochs(RedisStep(cfg, s, e).log, key);
    assert epochs[n].leaseEnd > epochs[|epochs| - 1].start;
  }

  /** A finishing call that is not good breaks the promise in some good continuation. */
  lemma BadFinishBreaks(cfg: Config, s: RedisSystem, e: Event, key: string) returns (run: seq<Event>)
    requires SoundForRedis(cfg) && Enabled(s.log, e) && OnKey(s.log, e, key) && RedisInv(cfg, s, key)
    requires !RedisGood(s, e, key)
    ensures GoodRedisRun(cfg, RedisStep(cfg, s, e), run, key)
    ensures !Idempotent(AfterRedis(cfg, RedisStep(cfg, s, e), run, key).log, key)
  {
    if e.Release? {
      run := LateDelBreaks(cfg, s, e, key);
    } else {
      run := [];
      if RefusedSet(s, e) {
        RefusedSetBreaks(cfg, s, e, key);
      } else {
        LateSetBreaks(cfg, s, e, key);
      }
    }
  }

  /**
   Exactly when a finishing call keeps the promise over Redis: it comes before its own lock
   expires, or it is a `del` of a key that does not exist. A late `set` is never harmless here.
   */
  lemma RedisFinishKeepsPromiseIff(cfg: Config, s: RedisSystem, e: Event, key: string)
    requires SoundForRedis(cfg) && Enabled(s.log, e) && OnKey(s.log, e, key) && RedisInv(cfg, s, key)
    ensures var s' := RedisStep(cfg, s, e);
            (forall run | GoodRedisRun(cfg, s', run, key) :: Idempotent(AfterRedis(cfg, s', run, key).log, key))
            <==> Timely(s.log, e) || (e.Release? && !Exists(s.data, key, s.log.now))
  {
    var s' := RedisStep(cfg, s, e);
    if RedisGood(s, e, key) {
      RedisStepKeepsInv(cfg, s, e, key);
      forall run | GoodRedisRun(cfg, s', run, key) ensures Idempotent(AfterRedis(cfg, s', run, key).log, key) {
        RedisStaysIdempotent(cfg, s', run, key);
      }
    } else {
      var run := BadFinishBreaks(cfg, s, e, key);
    }
  }

  /** A good run to a leader that has its answer and whose lock has just expired. */
  lemma LateAnswerIsReachable(cfg: Config, key: string, r: ResponseData) returns (run: seq<Event>)
    requires SoundForRedis(cfg) && Cacheable(r.status)
    ensures GoodRedisRun(cfg, REDIS_IDLE, run, key)
    ensures var s := AfterRedis(cfg, REDIS_IDLE, run, key);
            Enabled(s.log, Keep(0)) && OnKey(s.log, Keep(0), key) && !Timely(s.log, Keep(0)) && RefusedSet(s, Keep(0))
  {
    run := [];
    GoodSnoc(cfg, REDIS_IDLE, run, key, Arrive(0, key));
    run := run + [Arrive(0, key)];
    GoodSnoc(cfg, REDIS_IDLE, run, key, TryObtain(0));
    run := run + [TryObtain(0)];
    GoodSnoc(cfg, REDIS_IDLE, run, key, Forward(0));
    run := run + [Forward(0)];
    GoodSnoc(cfg, REDIS_IDLE, run, key, Upstream(0, r));
    run := run + [Upstream(0, r)];
    GoodSnoc(cfg, REDIS_IDLE, run, key, Elapse(cfg.ttl));
    run := run + [Elapse(cfg.ttl)];
  }
}
