/**
 The proxy's leader/follower protocol over the in-memory store: any number of requests on any
 keys, upstream servers that answer anything or nothing, requests that give up, cleaners, time.

 `history` is a ghost record. Each successful `obtain` of a key opens an epoch of that key;
 the record keeps who leads it, the lease `[start, leaseEnd)`, how often the request was
 forwarded in it, and the response stored in it.
 */
module Protocol {
  import opened Wrappers
  import opened CacheStore

  datatype ResponseData = ResponseData(status: nat, headers: seq<(string, string)>, body: Bytes, mime: string)

  /** `ttl` is the request timeout; the codec is the CBOR encoding of a response. */
  datatype Config = Config(
    ttl: nat,
    pollInterval: nat,
    encode: ResponseData -> Bytes,
    decode: Bytes -> Option<ResponseData>)

  /** Encoding is never empty and decoding undoes it; the server starts with these bounds on its settings. */
  ghost predicate Sound(cfg: Config) {
    && cfg.ttl >= 1000 && cfg.pollInterval >= 10
    && forall r :: cfg.encode(r) != [] && cfg.decode(cfg.encode(r)) == Some(r)
  }

  datatype Phase =
    | Arrived
    | Leading(epoch: nat, expireAt: nat)                          // holds the lock, nothing sent yet
    | Forwarded(epoch: nat, expireAt: nat)                        // waiting for the upstream server
    | Answered(epoch: nat, expireAt: nat, response: ResponseData) // about to `set`
    | Refused(epoch: nat, expireAt: nat)                          // about to `del`
    | Following(epoch: nat, counter: nat)                         // was refused the lock in `epoch`
    | Served(epoch: nat, since: nat, response: ResponseData)      // replied Ok, from `epoch`, refused in `since`
    | Failed

  datatype Request = Request(key: string, phase: Phase)

  datatype Epoch = Epoch(leader: nat, start: nat, leaseEnd: nat, forwards: nat, response: Option<ResponseData>)

  datatype System = System(store: Store, now: nat, requests: map<nat, Request>, history: map<string, seq<Epoch>>)

  const IDLE := System(EMPTY_STORE, 0, map[], map[])

  datatype Event =
    | Arrive(id: nat, key: string)
    | TryObtain(id: nat)
    | Forward(id: nat)
    | Upstream(id: nat, response: ResponseData)
    | Keep(id: nat)
    | Release(id: nat)
    | Abandon(id: nat)
    | Poll(id: nat)
    | Clean(sampled: nat)
    | Elapse(ms: nat)

  function Epochs(s: System, key: string): seq<Epoch> {
    if key in s.history then s.history[key] else []
  }

  predicate HoldsLock(p: Phase) {
    p.Leading? || p.Forwarded? || p.Answered? || p.Refused?
  }

  /** The upstream itself has answered, and its answer is kept. */
  predicate Cacheable(status: nat) {
    200 <= status <= 500
  }

  predicate Enabled(s: System, e: Event) {
    match e
    case Arrive(id, _) => id !in s.requests
    case TryObtain(id) => id in s.requests && s.requests[id].phase.Arrived?
    case Forward(id) => id in s.requests && s.requests[id].phase.Leading?
    case Upstream(id, _) => id in s.requests && s.requests[id].phase.Forwarded?
    case Keep(id) => id in s.requests && s.requests[id].phase.Answered?
    case Release(id) => id in s.requests && s.requests[id].phase.Refused?
    case Abandon(id) => id in s.requests && (s.requests[id].phase.Following? || HoldsLock(s.requests[id].phase))
    case Poll(id) => id in s.requests && s.requests[id].phase.Following?
    case Clean(sampled) => sampled <= s.now
    case Elapse(_) => true
  }

  /** Requests come, time passes and cleaners run at any time; a request can give up wherever it waits. */
  lemma AlwaysPossible(s: System, id: nat, key: string, ms: nat)
    ensures Enabled(s, Elapse(ms)) && (forall sampled: nat :: Enabled(s, Clean(sampled)) <==> sampled <= s.now)
    ensures id !in s.requests ==> Enabled(s, Arrive(id, key))
    ensures id in s.requests ==>
              var p := s.requests[id].phase;
              Enabled(s, Abandon(id)) <==> !p.Arrived? && !p.Served? && !p.Failed?
  {
  }

  function Move(s: System, id: nat, key: string, p: Phase): System {
    s.(requests := s.requests[id := Request(key, p)])
  }

  /** Change the record of epoch `n` of `key`. */
  function Note(s: System, key: string, n: nat, e: Epoch): System {
    if n < |Epochs(s, key)| then s.(history := s.history[key := Epochs(s, key)[n := e]]) else s
  }

  ghost function Step(cfg: Config, s: System, e: Event): System
    requires Enabled(s, e) && cfg.pollInterval > 0
  {
    match e
    case Arrive(id, key) => Move(s, id, key, Arrived)
    case TryObtain(id) => StepObtain(cfg, s, id, s.requests[id].key)
    case Forward(id) =>
      var Request(key, Leading(n, expireAt)) := s.requests[id];
      var s' := Move(s, id, key, Forwarded(n, expireAt));
      if n < |Epochs(s, key)|
      then Note(s', key, n, Epochs(s, key)[n].(forwards := Epochs(s, key)[n].forwards + 1))
      else s'
    case Upstream(id, response) =>
      var Request(key, Forwarded(n, expireAt)) := s.requests[id];
      Move(s, id, key, if Cacheable(response.status) then Answered(n, expireAt, response) else Refused(n, expireAt))
    case Keep(id) => StepKeep(cfg, s, id, s.requests[id].key)
    case Release(id) => StepRelease(s, id, s.requests[id].key)
    case Abandon(id) => Move(s, id, s.requests[id].key, Failed)
    case Poll(id) => StepPoll(cfg, s, id, s.requests[id].key)
    case Clean(sampled) => s.(store := Sweep(s.store, sampled))
    case Elapse(ms) => s.(now := s.now + ms)
  }

  function StepObtain(cfg: Config, s: System, id: nat, key: string): System
    requires cfg.pollInterval > 0
  {
    var (store, ok) := Obtain(s.store, key, s.now, cfg.ttl);
    if ok then
      var epochs := Epochs(s, key);
      Move(s, id, key, Leading(|epochs|, s.now + cfg.ttl))
      .(store := store,
        history := s.history[key := epochs + [Epoch(id, s.now, s.now + cfg.ttl, 0, None)]])
    else
      Move(s, id, key, Following(if Epochs(s, key) == [] then 0 else |Epochs(s, key)| - 1, cfg.ttl / cfg.pollInterval))
  }

  /** `set`, then the reply: a refused `set` is answered 502. */
  function StepKeep(cfg: Config, s: System, id: nat, key: string): System
    requires id in s.requests && s.requests[id].phase.Answered?
  {
    var Answered(n, expireAt, response) := s.requests[id].phase;
    var (store, r) := Set(s.store, key, cfg.encode(response), s.now, cfg.ttl);
    if r == Stored then
      var s' := Move(s, id, key, Served(n, n, response)).(store := store);
      if n < |Epochs(s, key)|
      then Note(s', key, n, Epochs(s, key)[n].(leaseEnd := s.now + cfg.ttl, response := Some(response)))
      else s'
    else Move(s, id, key, Failed).(store := store)
  }

  /** `del`, then the upstream's error: the lease ends now, if it has not ended. */
  function StepRelease(s: System, id: nat, key: string): System
    requires id in s.requests && s.requests[id].phase.Refused?
  {
    var n := s.requests[id].phase.epoch;
    var s' := Move(s, id, key, Failed).(store := Del(s.store, key));
    if n < |Epochs(s, key)| && s.now < Epochs(s, key)[n].leaseEnd
    then Note(s', key, n, Epochs(s, key)[n].(leaseEnd := s.now))
    else s'
  }

  function StepPoll(cfg: Config, s: System, id: nat, key: string): System
    requires id in s.requests && s.requests[id].phase.Following?
  {
    var Following(since, counter) := s.requests[id].phase;
    if counter == 0 || key !in s.store.kv then Move(s, id, key, Failed)
    else if s.store.kv[key].value == [] then Move(s, id, key, Following(since, counter - 1))
    else
      match cfg.decode(s.store.kv[key].value)
      case None => Move(s, id, key, Failed)
      case Some(response) =>
        Move(s, id, key, Served(if Epochs(s, key) == [] then 0 else |Epochs(s, key)| - 1, since, response))
  }

  /** The leader finishes before its own lock expires. */
  predicate Timely(s: System, e: Event)
    requires Enabled(s, e)
  {
    e.Keep? || e.Release? ==> s.now < s.requests[e.id].phase.expireAt
  }

  /** The finishing call touches no live lock and no leftover: checked by looking the key up first. */
  predicate Harmless(s: System, e: Event)
    requires Enabled(s, e)
  {
    (e.Keep? ==> s.requests[e.id].key !in s.store.kv)
    && (e.Release? ==> View(s.store, s.requests[e.id].key, s.now) == Absent)
  }

  predicate OnKey(s: System, e: Event, key: string)
    requires Enabled(s, e)
  {
    (e.Keep? || e.Release?) && s.requests[e.id].key == key
  }

  /******* What holds of one key in every state *******/

  /** Leases of a key follow one another without overlap. */
  predicate LeasesDisjoint(epochs: seq<Epoch>, now: nat) {
    && (forall i, j | 0 <= i < j < |epochs| :: epochs[i].leaseEnd <= epochs[j].start)
    && (forall i | 0 <= i < |epochs| :: epochs[i].start <= now)
  }

  predicate ForwardedAtMostOnce(epochs: seq<Epoch>) {
    forall i | 0 <= i < |epochs| :: epochs[i].forwards <= 1
  }

  /** The map entry of `key` is the lock or the answer of the last epoch; with no entry that lease is over. */
  predicate EntryIsLastEpoch(cfg: Config, s: System, key: string) {
    var epochs := Epochs(s, key);
    if key in s.store.kv then
      && epochs != []
      && var last := epochs[|epochs| - 1];
      && last.leaseEnd == s.store.kv[key].expireAt
      && s.store.kv[key].value == (if last.response.Some? then cfg.encode(last.response.value) else [])
    else
      epochs != [] ==> epochs[|epochs| - 1].leaseEnd <= s.now
  }

  /** A request that holds the lock leads its own epoch, which has no answer yet; a reply is its epoch's answer. */
  predicate RequestFits(epochs: seq<Epoch>, id: nat, p: Phase) {
    match p
    case Arrived => true
    case Following(since, _) => since < |epochs|
    case Served(n, since, response) => since <= n < |epochs| && epochs[n].response == Some(response)
    case Failed => true
    case _ =>
      && p.epoch < |epochs|
      && epochs[p.epoch].leader == id
      && epochs[p.epoch].response == None
      && epochs[p.epoch].leaseEnd == p.expireAt
      && epochs[p.epoch].forwards == if p.Leading? then 0 else 1
  }

  predicate FitsAt(s: System, id: nat, key: string) {
    id in s.requests && s.requests[id].key == key ==> RequestFits(Epochs(s, key), id, s.requests[id].phase)
  }

  ghost predicate Inv(cfg: Config, s: System, key: string) {
    && ExactAt(s.store, key)
    && LeasesDisjoint(Epochs(s, key), s.now)
    && ForwardedAtMostOnce(Epochs(s, key))
    && EntryIsLastEpoch(cfg, s, key)
    && forall id :: FitsAt(s, id, key)
  }

  lemma IdleInv(cfg: Config, key: string)
    ensures Inv(cfg, IDLE, key)
  {
  }

  /** A request whose lock has not expired holds the map entry, and its epoch is the last. */
  lemma LockIsInTheMap(cfg: Config, s: System, id: nat)
    requires id in s.requests && HoldsLock(s.requests[id].phase)
    requires Inv(cfg, s, s.requests[id].key) && s.now < s.requests[id].phase.expireAt
    ensures var Request(key, p) := s.requests[id];
            && p.epoch == |Epochs(s, key)| - 1
            && key in s.store.kv && s.store.kv[key] == Entry(p.expireAt, [])
  {
    assert FitsAt(s, id, s.requests[id].key);
  }

  /** Nothing about `key` differs between the two states. */
  ghost predicate SameAt(s: System, s': System, key: string) {
    && s'.now == s.now
    && Epochs(s', key) == Epochs(s, key)
    && (key in s'.store.kv <==> key in s.store.kv)
    && (key in s.store.kv ==> s'.store.kv[key] == s.store.kv[key])
    && (ExactAt(s.store, key) ==> ExactAt(s'.store, key))
    && forall id | id in s'.requests && s'.requests[id].key == key ::
         id in s.requests && s.requests[id] == s'.requests[id]
  }

  lemma SameKeepsInv(cfg: Config, s: System, s': System, key: string)
    requires Inv(cfg, s, key) && SameAt(s, s', key)
    ensures Inv(cfg, s', key)
  {
    forall id ensures FitsAt(s', id, key) {
      assert FitsAt(s, id, key);
    }
  }

  lemma OtherKeyCall(cfg: Config, s: System, e: Event, key: string)
    requires Sound(cfg) && Enabled(s, e) && (e.TryObtain? || e.Keep? || e.Release?) && s.requests[e.id].key != key
    ensures SameAt(s, Step(cfg, s, e), key)
  {
  }

  /** A request changes nothing about a key other than its own. */
  lemma OtherKeyUnchanged(cfg: Config, s: System, e: Event, key: string)
    requires Sound(cfg) && Enabled(s, e)
    requires !e.Arrive? && !e.Clean? && !e.Elapse? && s.requests[e.id].key != key
    ensures SameAt(s, Step(cfg, s, e), key)
  {
    if e.TryObtain? || e.Keep? || e.Release? {
      OtherKeyCall(cfg, s, e, key);
    }
  }

  lemma BackgroundKeepsInv(cfg: Config, s: System, e: Event, key: string)
    requires Sound(cfg) && Enabled(s, e) && Inv(cfg, s, key)
    requires e.Arrive? || e.Clean? || e.Elapse?
    ensures Inv(cfg, Step(cfg, s, e), key)
  {
    var s' := Step(cfg, s, e);
    if e.Clean? {
      SweepKeepsExact(s.store, e.sampled, key);
    }
    forall id ensures FitsAt(s', id, key) {
      assert FitsAt(s, id, key);
    }
  }

  /** A request that only changes phase, to one that fits the same epochs. */
  lemma MoveKeepsInv(cfg: Config, s: System, id: nat, key: string, p: Phase)
    requires Inv(cfg, s, key) && id in s.requests && s.requests[id].key == key
    requires RequestFits(Epochs(s, key), id, p)
    ensures Inv(cfg, Move(s, id, key, p), key)
  {
    var s' := Move(s, id, key, p);
    assert Epochs(s', key) == Epochs(s, key);
    forall i ensures FitsAt(s', i, key) {
      assert FitsAt(s, i, key);
    }
  }

  lemma MoreEpochsFit(epochs: seq<Epoch>, e: Epoch, id: nat, p: Phase)
    requires RequestFits(epochs, id, p)
    ensures RequestFits(epochs + [e], id, p)
  {
  }

  lemma GrantKeepsInv(cfg: Config, s: System, id: nat, key: string)
    requires Sound(cfg) && Enabled(s, TryObtain(id)) && s.requests[id].key == key && Inv(cfg, s, key)
    requires !Live(s.store, key, s.now)
    ensures Inv(cfg, StepObtain(cfg, s, id, key), key)
  {
    var s' := StepObtain(cfg, s, id, key);
    var e := Epoch(id, s.now, s.now + cfg.ttl, 0, None);
    assert Epochs(s', key) == Epochs(s, key) + [e];
    WriteKeepsExact(s.store, key, Entry(s.now + cfg.ttl, []), key);
    forall i ensures FitsAt(s', i, key) {
      assert FitsAt(s, i, key);
      if i != id && i in s.requests && s.requests[i].key == key {
        MoreEpochsFit(Epochs(s, key), e, i, s.requests[i].phase);
      }
    }
  }

  lemma ObtainKeepsInv(cfg: Config, s: System, id: nat, key: string)
    requires Sound(cfg) && Enabled(s, TryObtain(id)) && s.requests[id].key == key && Inv(cfg, s, key)
    ensures Inv(cfg, StepObtain(cfg, s, id, key), key)
  {
    if Live(s.store, key, s.now) {
      MoveKeepsInv(cfg, s, id, key, Following(|Epochs(s, key)| - 1, cfg.ttl / cfg.pollInterval));
    } else {
      GrantKeepsInv(cfg, s, id, key);
    }
  }

  lemma ForwardKeepsInv(cfg: Config, s: System, id: nat, key: string)
    requires Sound(cfg) && Enabled(s, Forward(id)) && s.requests[id].key == key && Inv(cfg, s, key)
    ensures Inv(cfg, Step(cfg, s, Forward(id)), key)
  {
    var s' := Step(cfg, s, Forward(id));
    var n := s.requests[id].phase.epoch;
    assert FitsAt(s, id, key);
    assert Epochs(s', key) == Epochs(s, key)[n := Epochs(s, key)[n].(forwards := 1)];
    forall i ensures FitsAt(s', i, key) {
      assert FitsAt(s, i, key);
    }
  }

  lemma PollKeepsInv(cfg: Config, s: System, id: nat, key: string)
    requires Sound(cfg) && Enabled(s, Poll(id)) && s.requests[id].key == key && Inv(cfg, s, key)
    ensures Inv(cfg, StepPoll(cfg, s, id, key), key)
  {
    assert FitsAt(s, id, key);
    MoveKeepsInv(cfg, s, id, key, StepPoll(cfg, s, id, key).requests[id].phase);
  }

  lemma QuietStepKeepsInv(cfg: Config, s: System, e: Event, key: string)
    requires Sound(cfg) && Enabled(s, e) && Inv(cfg, s, key)
    requires (e.Forward? || e.Upstream? || e.Abandon? || e.Poll?) && s.requests[e.id].key == key
    ensures Inv(cfg, Step(cfg, s, e), key)
  {
    assert FitsAt(s, e.id, key);
    match e
    case Forward(id) => ForwardKeepsInv(cfg, s, id, key);
    case Poll(id) => PollKeepsInv(cfg, s, id, key);
    case Upstream(id, _) => MoveKeepsInv(cfg, s, id, key, Step(cfg, s, e).requests[id].phase);
    case Abandon(id) => MoveKeepsInv(cfg, s, id, key, Failed);
  }

  lemma TimelyFinishKeepsInv(cfg: Config, s: System, e: Event, key: string)
    requires Sound(cfg) && Enabled(s, e) && Inv(cfg, s, key)
    requires OnKey(s, e, key) && Timely(s, e)
    ensures Inv(cfg, Step(cfg, s, e), key)
  {
    var s' := Step(cfg, s, e);
    LockIsInTheMap(cfg, s, e.id);
    assert FitsAt(s, e.id, key);
    if e.Keep? {
      SetExactIff(s.store, key, cfg.encode(s.requests[e.id].phase.response), s.now, cfg.ttl, key);
    } else {
      DelKeepsExact(s.store, key, key);
    }
    forall id ensures FitsAt(s', id, key) {
      assert FitsAt(s, id, key);
    }
  }

  lemma HarmlessFinishKeepsInv(cfg: Config, s: System, e: Event, key: string)
    requires Sound(cfg) && Enabled(s, e) && Inv(cfg, s, key)
    requires OnKey(s, e, key) && !Timely(s, e) && Harmless(s, e)
    ensures Inv(cfg, Step(cfg, s, e), key)
  {
    var s' := Step(cfg, s, e);
    assert FitsAt(s, e.id, key);
    DelKeepsExact(s.store, key, key);
    forall id ensures FitsAt(s', id, key) {
      assert FitsAt(s, id, key);
    }
  }

  lemma HarmfulFinishBreaksInv(cfg: Config, s: System, e: Event, key: string)
    requires Sound(cfg) && Enabled(s, e) && Inv(cfg, s, key)
    requires OnKey(s, e, key) && !Timely(s, e) && !Harmless(s, e)
    ensures !Inv(cfg, Step(cfg, s, e), key)
  {
    assert FitsAt(s, e.id, key);
    var epochs := Epochs(s, key);
    var n, last := s.requests[e.id].phase.epoch, |epochs| - 1;
    if e.Keep? {
      SetExactIff(s.store, key, cfg.encode(s.requests[e.id].phase.response), s.now, cfg.ttl, key);
      if Live(s.store, key, s.now) {
        assert n < last;
        var epochs' := Epochs(Step(cfg, s, e), key);
        assert epochs'[n].leaseEnd == s.now + cfg.ttl > epochs'[last].start;
      }
    } else {
      assert n < last;
    }
  }

  /** A finishing call keeps the protocol's invariant exactly when it is timely or harmless. */
  lemma FinishKeepsInvIff(cfg: Config, s: System, e: Event, key: string)
    requires Sound(cfg) && Enabled(s, e) && Inv(cfg, s, key) && OnKey(s, e, key)
    ensures Inv(cfg, Step(cfg, s, e), key) <==> Timely(s, e) || Harmless(s, e)
  {
    if Timely(s, e) {
      TimelyFinishKeepsInv(cfg, s, e, key);
    } else if Harmless(s, e) {
      HarmlessFinishKeepsInv(cfg, s, e, key);
    } else {
      HarmfulFinishBreaksInv(cfg, s, e, key);
    }
  }

  lemma StepKeepsInv(cfg: Config, s: System, e: Event, key: string)
    requires Sound(cfg) && Enabled(s, e) && Inv(cfg, s, key)
    requires OnKey(s, e, key) ==> Timely(s, e) || Harmless(s, e)
    ensures Inv(cfg, Step(cfg, s, e), key)
  {
    if e.Arrive? || e.Clean? || e.Elapse? {
      BackgroundKeepsInv(cfg, s, e, key);
    } else if s.requests[e.id].key != key {
      OtherKeyUnchanged(cfg, s, e, key);
      SameKeepsInv(cfg, s, Step(cfg, s, e), key);
    } else {
      match e
      case TryObtain(id) => ObtainKeepsInv(cfg, s, id, key);
      case Keep(_) => FinishKeepsInvIff(cfg, s, e, key);
      case Release(_) => FinishKeepsInvIff(cfg, s, e, key);
      case _ => QuietStepKeepsInv(cfg, s, e, key);
    }
  }

  /******* Runs *******/

  ghost predicate EnabledRun(cfg: Config, s: System, run: seq<Event>)
    requires cfg.pollInterval > 0
    decreases |run|, 0
  {
    run == [] ||
    var shorter := run[..|run| - 1];
    EnabledRun(cfg, s, shorter) && Enabled(After(cfg, s, shorter), run[|run| - 1])
  }

  ghost function After(cfg: Config, s: System, run: seq<Event>): System
    requires cfg.pollInterval > 0 && EnabledRun(cfg, s, run)
    decreases |run|, 1
  {
    if run == [] then s
    else Step(cfg, After(cfg, s, run[..|run| - 1]), run[|run| - 1])
  }

  /** Every event is possible, and every call that finishes a request on `key` is timely or harmless. */
  ghost predicate GoodRun(cfg: Config, s: System, run: seq<Event>, key: string)
    requires cfg.pollInterval > 0
  {
    && EnabledRun(cfg, s, run)
    && (run == [] ||
        var shorter := run[..|run| - 1];
        GoodRun(cfg, s, shorter, key) && Good(After(cfg, s, shorter), run[|run| - 1], key))
  }

  predicate Good(s: System, e: Event, key: string) {
    Enabled(s, e) && (OnKey(s, e, key) ==> Timely(s, e) || Harmless(s, e))
  }

  lemma {:induction false} RunKeepsInv(cfg: Config, s: System, run: seq<Event>, key: string)
    requires Sound(cfg) && GoodRun(cfg, s, run, key) && Inv(cfg, s, key)
    ensures Inv(cfg, After(cfg, s, run), key)
  {
    if run != [] {
      var shorter := run[..|run| - 1];
      RunKeepsInv(cfg, s, shorter, key);
      StepKeepsInv(cfg, After(cfg, s, shorter), run[|run| - 1], key);
    }
  }

  predicate LeadsUnexpired(s: System, id: nat, key: string) {
    && id in s.requests && s.requests[id].key == key && HoldsLock(s.requests[id].phase)
    && s.now < s.requests[id].phase.expireAt
  }

  predicate ServedOn(s: System, id: nat, key: string) {
    id in s.requests && s.requests[id].key == key && s.requests[id].phase.Served?
  }

  ghost predicate OneUnexpiredLeader(s: System, key: string) {
    forall a, b :: LeadsUnexpired(s, a, key) && LeadsUnexpired(s, b, key) ==> a == b
  }

  ghost predicate OneAnswerPerEpoch(s: System, key: string) {
    forall a, b | ServedOn(s, a, key) && ServedOn(s, b, key) ::
      s.requests[a].phase.epoch == s.requests[b].phase.epoch ==>
          s.requests[a].phase.response == s.requests[b].phase.response
  }

  /**
   A reply is what the leader of its epoch stored, and that epoch is no earlier than the one that
   refused the request.
   */
  ghost predicate AnswersAreCurrent(s: System, key: string) {
    forall a | ServedOn(s, a, key) ::
      var p := s.requests[a].phase;
      p.since <= p.epoch < |Epochs(s, key)| && Epochs(s, key)[p.epoch].response == Some(p.response)
  }

  /**
   What the proxy promises of one key: no epoch is forwarded twice, leases do not overlap, at most
   one unexpired lock is held, replies served from one epoch are the same response, and nobody is
   served from an epoch before the one that refused it.
   */
  ghost predicate Idempotent(s: System, key: string) {
    && ForwardedAtMostOnce(Epochs(s, key))
    && LeasesDisjoint(Epochs(s, key), s.now)
    && OneUnexpiredLeader(s, key)
    && OneAnswerPerEpoch(s, key)
    && AnswersAreCurrent(s, key)
  }

  lemma UnexpiredLeaderIsUnique(cfg: Config, s: System, key: string)
    requires Inv(cfg, s, key)
    ensures OneUnexpiredLeader(s, key)
  {
    forall a, b | LeadsUnexpired(s, a, key) && LeadsUnexpired(s, b, key) ensures a == b {
      LockIsInTheMap(cfg, s, a);
      LockIsInTheMap(cfg, s, b);
      assert FitsAt(s, a, key) && FitsAt(s, b, key);
    }
  }

  lemma AnswersAgree(cfg: Config, s: System, key: string)
    requires Inv(cfg, s, key)
    ensures OneAnswerPerEpoch(s, key) && AnswersAreCurrent(s, key)
  {
    forall a | ServedOn(s, a, key)
      ensures RequestFits(Epochs(s, key), a, s.requests[a].phase)
    {
      assert FitsAt(s, a, key);
    }
  }

  /**
   Idempotency, from any state with the invariant. Whatever happens on other keys, it holds after
   every run in which each leader of `key` that finishes does so before its lock expires, or
   touches nothing.
   */
  lemma StaysIdempotent(cfg: Config, s: System, run: seq<Event>, key: string)
    requires Sound(cfg) && GoodRun(cfg, s, run, key) && Inv(cfg, s, key)
    ensures Idempotent(After(cfg, s, run), key)
  {
    RunKeepsInv(cfg, s, run, key);
    UnexpiredLeaderIsUnique(cfg, After(cfg, s, run), key);
    AnswersAgree(cfg, After(cfg, s, run), key);
  }

  /** ... and so from the start. */
  lemma OneForwardOneAnswer(cfg: Config, run: seq<Event>, key: string)
    requires Sound(cfg) && GoodRun(cfg, IDLE, run, key)
    ensures Idempotent(After(cfg, IDLE, run), key)
  {
    IdleInv(cfg, key);
    StaysIdempotent(cfg, IDLE, run, key);
  }

  /******* A finishing call that is neither timely nor harmless *******/

  lemma RunSnoc(cfg: Config, s: System, run: seq<Event>, e: Event)
    requires cfg.pollInterval > 0 && EnabledRun(cfg, s, run) && Enabled(After(cfg, s, run), e)
    ensures EnabledRun(cfg, s, run + [e])
    ensures After(cfg, s, run + [e]) == Step(cfg, After(cfg, s, run), e)
    ensures forall key ::
              GoodRun(cfg, s, run + [e], key) <==> GoodRun(cfg, s, run, key) && Good(After(cfg, s, run), e, key)
  {
    assert (run + [e])[..|run|] == run;
  }

  lemma FreshId(requests: map<nat, Request>) returns (id: nat)
    ensures forall i | i in requests :: i < id
  {
    var ids := requests.Keys;
    id := 0;
    while ids != {}
      invariant ids <= requests.Keys
      invariant forall i | i in requests :: i in ids || i < id
      decreases ids
    {
      var i :| i in ids;
      ids := ids - {i};
      id := if i < id then id else i + 1;
    }
  }

  lemma NewcomerObtains(cfg: Config, s: System, key: string, id: nat)
    requires Sound(cfg) && id !in s.requests && !Live(s.store, key, s.now)
    ensures var s' := StepObtain(cfg, Step(cfg, s, Arrive(id, key)), id, key);
            && s'.now == s.now
            && s'.store == Write(s.store, key, Entry(s.now + cfg.ttl, []))
            && Epochs(s', key) == Epochs(s, key) + [Epoch(id, s.now, s.now + cfg.ttl, 0, None)]
  {
  }

  /** A newcomer asks for `key` at a moment when no entry of it is live. */
  lemma Newcomer(cfg: Config, s: System, run: seq<Event>, key: string, id: nat)
    requires Sound(cfg) && GoodRun(cfg, s, run, key)
    requires var s1 := After(cfg, s, run); id !in s1.requests && !Live(s1.store, key, s1.now)
    ensures var run' := run + [Arrive(id, key)] + [TryObtain(id)];
            var s1 := After(cfg, s, run);
            && GoodRun(cfg, s, run', key)
            && After(cfg, s, run') == StepObtain(cfg, Step(cfg, s1, Arrive(id, key)), id, key)
  {
    RunSnoc(cfg, s, run, Arrive(id, key));
    RunSnoc(cfg, s, run + [Arrive(id, key)], TryObtain(id));
  }

  /** If the last lease is not over and yet the key is free, a newcomer's lease overlaps it. */
  lemma NewcomerOverlaps(cfg: Config, s: System, run: seq<Event>, key: string) returns (longer: seq<Event>)
    requires Sound(cfg) && GoodRun(cfg, s, run, key)
    requires var s1 := After(cfg, s, run);
             && !Live(s1.store, key, s1.now)
             && Epochs(s1, key) != [] && s1.now < Epochs(s1, key)[|Epochs(s1, key)| - 1].leaseEnd
    ensures GoodRun(cfg, s, longer, key) && !Idempotent(After(cfg, s, longer), key)
  {
    var s1 := After(cfg, s, run);
    var id := FreshId(s1.requests);
    Newcomer(cfg, s, run, key, id);
    NewcomerObtains(cfg, s1, key, id);
    longer := run + [Arrive(id, key)] + [TryObtain(id)];
    var before, epochs := Epochs(s1, key), Epochs(After(cfg, s, longer), key);
    assert epochs[|before| - 1].leaseEnd > epochs[|before|].start;
  }

  /** A late `del` of a live lock frees the key inside its successor's lease. */
  lemma LateReleaseBreaks(cfg: Config, s: System, id: nat, key: string) returns (run: seq<Event>)
    requires Sound(cfg) && Enabled(s, Release(id)) && s.requests[id].key == key && Inv(cfg, s, key)
    requires !Timely(s, Release(id)) && !Harmless(s, Release(id))
    ensures GoodRun(cfg, Step(cfg, s, Release(id)), run, key)
    ensures !Idempotent(After(cfg, Step(cfg, s, Release(id)), run), key)
  {
    assert FitsAt(s, id, key);
    run := NewcomerOverlaps(cfg, Step(cfg, s, Release(id)), [], key);
  }

  /** A late `set` on a live entry gives its own, past epoch a lease in its successor's. */
  lemma LateKeepOnLiveBreaks(cfg: Config, s: System, id: nat, key: string) returns (run: seq<Event>)
    requires Sound(cfg) && Enabled(s, Keep(id)) && s.requests[id].key == key && Inv(cfg, s, key)
    requires !Timely(s, Keep(id)) && Live(s.store, key, s.now)
    ensures GoodRun(cfg, Step(cfg, s, Keep(id)), run, key)
    ensures !Idempotent(After(cfg, Step(cfg, s, Keep(id)), run), key)
  {
    run := [];
    assert FitsAt(s, id, key);
    var n, epochs := s.requests[id].phase.epoch, Epochs(Step(cfg, s, Keep(id)), key);
    assert epochs[n].leaseEnd > epochs[|epochs| - 1].start;
  }

  /**
   A late `set` on an expired entry leaves its queue entry behind: the next lease is granted, a
   sweep acts on what was left, and a newcomer's lease overlaps that one.
   */
  lemma LateKeepOnExpiredBreaks(cfg: Config, s: System, id: nat, key: string) returns (run: seq<Event>)
    requires Sound(cfg) && Enabled(s, Keep(id)) && s.requests[id].key == key && Inv(cfg, s, key)
    requires key in s.store.kv && !Live(s.store, key, s.now)
    ensures GoodRun(cfg, Step(cfg, s, Keep(id)), run, key)
    ensures !Idempotent(After(cfg, Step(cfg, s, Keep(id)), run), key)
  {
    var s', left := Step(cfg, s, Keep(id)), Index(s.store, key);
    assert left in s'.store.pq && key !in s'.store.kv;
    var next := FreshId(s'.requests);
    Newcomer(cfg, s', [], key, next);
    NewcomerObtains(cfg, s', key, next);
    run := [] + [Arrive(next, key)] + [TryObtain(next)];
    assert left in After(cfg, s', run).store.pq;
    assert Due(After(cfg, s', run).store, key, s.now);
    RunSnoc(cfg, s', run, Clean(s.now));
    run := NewcomerOverlaps(cfg, s', run + [Clean(s.now)], key);
  }

  /**
   Exactly when a finishing call keeps the promise: after it the key is idempotent in every
   continuation whose own finishing calls are timely or harmless, if and only if it was itself
   timely or harmless.
   */
  lemma FinishKeepsPromiseIff(cfg: Config, s: System, e: Event, key: string)
    requires Sound(cfg) && Enabled(s, e) && Inv(cfg, s, key) && OnKey(s, e, key)
    ensures var s' := Step(cfg, s, e);
            (forall run | GoodRun(cfg, s', run, key) :: Idempotent(After(cfg, s', run), key))
            <==> Timely(s, e) || Harmless(s, e)
  {
    var s' := Step(cfg, s, e);
    if Timely(s, e) || Harmless(s, e) {
      FinishKeepsInvIff(cfg, s, e, key);
      forall run | GoodRun(cfg, s', run, key) ensures Idempotent(After(cfg, s', run), key) {
        StaysIdempotent(cfg, s', run, key);
      }
    } else if e.Release? {
      var run := LateReleaseBreaks(cfg, s, e.id, key);
    } else if Live(s.store, key, s.now) {
      var run := LateKeepOnLiveBreaks(cfg, s, e.id, key);
    } else {
      var run := LateKeepOnExpiredBreaks(cfg, s, e.id, key);
    }
  }

  /******* Replay *******/

  /** The last epoch of `key` has an answer and its lease is not over. */
  predicate AnswerIsLive(s: System, key: string) {
    && Epochs(s, key) != []
    && var last := Epochs(s, key)[|Epochs(s, key)| - 1];
    last.response.Some? && s.now < last.leaseEnd
  }

  lemma NobodyLeadsPastAnAnswer(cfg: Config, s: System, key: string, other: nat)
    requires Inv(cfg, s, key) && AnswerIsLive(s, key)
    ensures !LeadsUnexpired(s, other, key)
  {
    assert FitsAt(s, other, key);
    if LeadsUnexpired(s, other, key) {
      LockIsInTheMap(cfg, s, other);
    }
  }

  /**
   While the last epoch's answer is live, a new request is refused the lock, its first look
   serves it that very answer, and nobody holds an unexpired lock.
   */
  lemma AnswerIsReplayed(cfg: Config, run: seq<Event>, key: string, id: nat)
    requires Sound(cfg) && GoodRun(cfg, IDLE, run, key) && cfg.pollInterval <= cfg.ttl
    requires var s := After(cfg, IDLE, run);
             id in s.requests && s.requests[id] == Request(key, Arrived) && AnswerIsLive(s, key)
    ensures var s := After(cfg, IDLE, run);
            var n := |Epochs(s, key)| - 1;
            var s1 := Step(cfg, s, TryObtain(id));
            && s1.store == s.store
            && s1.requests[id].phase.Following?
            && Step(cfg, s1, Poll(id)).requests[id].phase == Served(n, n, Epochs(s, key)[n].response.value)
            && forall other :: !LeadsUnexpired(s, other, key)
  {
    IdleInv(cfg, key);
    RunKeepsInv(cfg, IDLE, run, key);
    var s := After(cfg, IDLE, run);
    forall other ensures !LeadsUnexpired(s, other, key) {
      NobodyLeadsPastAnAnswer(cfg, s, key, other);
    }
    FirstLookServes(cfg, s, key, id);
  }

  lemma FirstLookServes(cfg: Config, s: System, key: string, id: nat)
    requires Sound(cfg) && cfg.pollInterval <= cfg.ttl && Inv(cfg, s, key) && AnswerIsLive(s, key)
    requires id in s.requests && s.requests[id] == Request(key, Arrived)
    ensures var n := |Epochs(s, key)| - 1;
            var s1 := StepObtain(cfg, s, id, key);
            && s1.store == s.store
            && s1.requests[id].phase.Following?
            && StepPoll(cfg, s1, id, key).requests[id].phase == Served(n, n, Epochs(s, key)[n].response.value)
  {
  }

  /** Request 0 is refused upstream and is slow to say so; meanwhile its lock expires and request 1 obtains the key. */
  function SlowLeader(cfg: Config, key: string): System {
    System(
      Store(map[key := Entry(cfg.ttl + cfg.ttl, [])], {PriorityKey(cfg.ttl + cfg.ttl, key)}),
      cfg.ttl,
      map[0 := Request(key, Refused(0, cfg.ttl)), 1 := Request(key, Leading(1, cfg.ttl + cfg.ttl))],
      map[key := [Epoch(0, 0, cfg.ttl, 1, None), Epoch(1, cfg.ttl, cfg.ttl + cfg.ttl, 0, None)]])
  }

  /** Request 0 has just heard its refusal. */
  function RefusedLeader(cfg: Config, key: string): System {
    System(
      Store(map[key := Entry(cfg.ttl, [])], {PriorityKey(cfg.ttl, key)}),
      0,
      map[0 := Request(key, Refused(0, cfg.ttl))],
      map[key := [Epoch(0, 0, cfg.ttl, 1, None)]])
  }

  lemma RefusedLeaderIsReachable(cfg: Config, key: string, refusal: ResponseData) returns (run: seq<Event>)
    requires Sound(cfg) && refusal.status > 500
    ensures GoodRun(cfg, IDLE, run, key) && After(cfg, IDLE, run) == RefusedLeader(cfg, key)
  {
    run := [];
    RunSnoc(cfg, IDLE, run, Arrive(0, key));
    run := run + [Arrive(0, key)];
    RunSnoc(cfg, IDLE, run, TryObtain(0));
    run := run + [TryObtain(0)];
    RunSnoc(cfg, IDLE, run, Forward(0));
    run := run + [Forward(0)];
    RunSnoc(cfg, IDLE, run, Upstream(0, refusal));
    run := run + [Upstream(0, refusal)];
    var s, refused := After(cfg, IDLE, run), RefusedLeader(cfg, key);
    assert s.store == refused.store;
    assert s.requests == refused.requests;
    assert Epochs(s, key) == Epochs(refused, key);
    assert s.history == refused.history;
  }

  /** Its lock expires, and request 1 obtains the key. */
  lemma LockExpires(cfg: Config, key: string)
    requires Sound(cfg)
    ensures var s := RefusedLeader(cfg, key);
            var s1 := Step(cfg, Step(cfg, s, Elapse(cfg.ttl)), Arrive(1, key));
            s1.requests == map[0 := Request(key, Refused(0, cfg.ttl)), 1 := Request(key, Arrived)]
            && StepObtain(cfg, s1, 1, key) == SlowLeader(cfg, key)
  {
    var s, slow := RefusedLeader(cfg, key), SlowLeader(cfg, key);
    var s1 := Step(cfg, Step(cfg, s, Elapse(cfg.ttl)), Arrive(1, key));
    var s2 := StepObtain(cfg, s1, 1, key);
    assert s2.store.kv == slow.store.kv;
    assert s2.store.pq == slow.store.pq;
    assert s2.requests == slow.requests;
    assert Epochs(s2, key) == Epochs(slow, key);
    assert s2.history == slow.history;
  }

  lemma SlowLeaderIsReachable(cfg: Config, key: string, refusal: ResponseData) returns (run: seq<Event>)
    requires Sound(cfg) && refusal.status > 500
    ensures GoodRun(cfg, IDLE, run, key) && After(cfg, IDLE, run) == SlowLeader(cfg, key)
  {
    run := RefusedLeaderIsReachable(cfg, key, refusal);
    LockExpires(cfg, key);
    RunSnoc(cfg, IDLE, run, Elapse(cfg.ttl));
    run := run + [Elapse(cfg.ttl)];
    RunSnoc(cfg, IDLE, run, Arrive(1, key));
    run := run + [Arrive(1, key)];
    RunSnoc(cfg, IDLE, run, TryObtain(1));
    run := run + [TryObtain(1)];
  }

  /**
   The hypothesis is needed: neither `set` nor `del` checks who holds the lock. When the slow
   leader calls `del` it releases its successor's lock, and a third request obtains the key beside it.
   */
  lemma LateReleaseAdmitsTwo(cfg: Config, key: string)
    requires Sound(cfg)
    ensures var s := SlowLeader(cfg, key);
            && Enabled(s, Release(0)) && !Timely(s, Release(0)) && !Harmless(s, Release(0))
            && var s1 := Step(cfg, Step(cfg, s, Release(0)), Arrive(2, key));
            var s2 := Step(cfg, s1, TryObtain(2));
            LeadsUnexpired(s2, 1, key) && LeadsUnexpired(s2, 2, key)
  {
  }
}
