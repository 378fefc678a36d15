/**
 The proxy handler from the idempotency key onward, as the sequence of effects it has on the
 in-memory store. The protocol machine interleaves these effects; here one request runs through.
 */
module Handler {
  import opened Wrappers
  import opened CacheStore
  import opened MemoryStore
  import opened Protocol

  /** What the upstream server does with a forwarded request. */
  datatype Exchange = NoReply | Reply(response: ResponseData)

  const BAD_GATEWAY := 502

  datatype Outcome = Replied(response: ResponseData) | Error(status: nat)

  function FollowerOutcome(cfg: Config, r: PollResult): Outcome {
    if r.Value? && cfg.decode(r.value).Some? then Replied(cfg.decode(r.value).value) else Error(BAD_GATEWAY)
  }

  /** How store and request end when the key, free, is obtained at `asked` and the exchange ends at `answered`. */
  function LeaderEnd(store: Store, cfg: Config, key: string, asked: nat, exchange: Exchange, answered: nat)
    : (Store, Outcome)
  {
    var locked := Obtain(store, key, asked, cfg.ttl).0;
    match exchange
    case NoReply => (locked, Error(BAD_GATEWAY))
    case Reply(r) =>
      if !Cacheable(r.status) then (Del(locked, key), Error(r.status))
      else (Set(locked, key, cfg.encode(r), answered, cfg.ttl).0,
            if answered < asked + cfg.ttl then Replied(r) else Error(BAD_GATEWAY))
  }

  /**
   One request: `asked` is the clock when it tries the lock, `looks` what its polling would find,
   `exchange` what the upstream does, `answered` the clock when it finishes.
   */
  method Proxy(c: MemoryCacher, cfg: Config, key: string, asked: nat, looks: seq<Look>,
               exchange: Exchange, answered: nat)
    returns (outcome: Outcome, forwarded: bool)
    requires cfg.pollInterval > 0 && |looks| >= cfg.ttl / cfg.pollInterval
    modifies c
    ensures forwarded <==> !Live(old(c.Contents()), key, asked)
    ensures !forwarded ==>
              && c.Contents() == old(c.Contents())
              && outcome == FollowerOutcome(cfg, PollOutcome(looks[..cfg.ttl / cfg.pollInterval]))
    ensures forwarded ==> (c.Contents(), outcome) == LeaderEnd(old(c.Contents()), cfg, key, asked, exchange, answered)
  {
    var lock := c.Obtain(key, asked, cfg.ttl);
    if !lock {
      var r, _ := PollingGet(looks, cfg.ttl / cfg.pollInterval);
      return FollowerOutcome(cfg, r), false;
    }
    forwarded := true;
    match exchange {
      case NoReply =>
        outcome := Error(BAD_GATEWAY);
      case Reply(response) =>
        if Cacheable(response.status) {
          var r, _ := c.Set(key, cfg.encode(response), answered, cfg.ttl);
          outcome := if r == Stored then Replied(response) else Error(BAD_GATEWAY);
        } else {
          c.Del(key);
          outcome := Error(response.status);
        }
    }
  }

  /**
   What a leader leaves to others, in figures. An upstream status from 200 to 500 is replied and
   stored when it comes within the lease, and answered 502 when it comes later, with nothing live
   left; any other status is passed on and frees the key; no reply at all is answered 502 and
   leaves the lock standing.
   */
  lemma LeaderEndMeaning(store: Store, cfg: Config, key: string, asked: nat, exchange: Exchange, answered: nat)
    requires Sound(cfg) && !Live(store, key, asked) && asked <= answered
    ensures var (store', outcome) := LeaderEnd(store, cfg, key, asked, exchange, answered);
            var left := View(store', key, answered);
            match exchange
            case NoReply =>
              outcome == Error(502) && left == if answered < asked + cfg.ttl then Pending(asked + cfg.ttl) else Absent
            case Reply(r) =>
              if 200 <= r.status <= 500 then
                if answered < asked + cfg.ttl
                then outcome == Replied(r) && left == Ready(answered + cfg.ttl, cfg.encode(r))
                else outcome == Error(502) && left == Absent
              else outcome == Error(r.status) && left == Absent
  {
  }

  /** A follower replies the answer it finds if it can read it; whatever else happens to it is answered 502. */
  lemma FollowerOutcomeMeaning(cfg: Config, r: PollResult, response: ResponseData)
    ensures FollowerOutcome(cfg, r) == Replied(response) <==> r.Value? && cfg.decode(r.value) == Some(response)
    ensures FollowerOutcome(cfg, r).Error? ==> FollowerOutcome(cfg, r).status == 502
  {
  }

  /**
   Asking again: the second of two requests with one key, made before the first one's answer
   expires, is not forwarded and is given the first one's response, though the upstream would
   by then have said something else.
   */
  method ProxyTwice(c: MemoryCacher, cfg: Config, key: string, first: Exchange, second: Exchange,
                    asked: nat, answered: nat, again: nat)
    returns (outcome: Outcome, forwarded: bool)
    requires Sound(cfg) && cfg.pollInterval <= cfg.ttl
    requires !Live(c.Contents(), key, asked)
    requires first.Reply? && 200 <= first.response.status <= 500
    requires asked <= answered < asked + cfg.ttl && answered <= again < answered + cfg.ttl
    modifies c
    ensures outcome == Replied(first.response) && !forwarded
    ensures View(c.Contents(), key, again) == Ready(answered + cfg.ttl, cfg.encode(first.response))
  {
    var counter := cfg.ttl / cfg.pollInterval;
    var noLooks := seq(counter, _ => None);
    var o1, f1 := Proxy(c, cfg, key, asked, noLooks, first, answered);
    var look, _ := c.LookUp(key, again);
    var looks := seq(counter, _ => look);
    assert looks[..counter][0] == look;
    outcome, forwarded := Proxy(c, cfg, key, again, looks, second, again);
  }

  /** Asking again after a status that is not kept: the second request is forwarded and gets its own answer. */
  method ProxyAgain(c: MemoryCacher, cfg: Config, key: string, first: Exchange, second: Exchange,
                    asked: nat, answered: nat, again: nat, reanswered: nat)
    returns (outcome: Outcome, forwarded: bool)
    requires Sound(cfg) && cfg.pollInterval <= cfg.ttl
    requires !Live(c.Contents(), key, asked)
    requires first.Reply? && !(200 <= first.response.status <= 500)
    requires second.Reply? && 200 <= second.response.status <= 500
    requires asked <= answered <= again <= reanswered < again + cfg.ttl
    modifies c
    ensures outcome == Replied(second.response) && forwarded
    ensures View(c.Contents(), key, reanswered) == Ready(reanswered + cfg.ttl, cfg.encode(second.response))
  {
    var noLooks := seq(cfg.ttl / cfg.pollInterval, _ => None);
    var o1, f1 := Proxy(c, cfg, key, asked, noLooks, first, answered);
    LeaderEndMeaning(c.Contents(), cfg, key, again, second, reanswered);
    outcome, forwarded := Proxy(c, cfg, key, again, noLooks, second, reanswered);
  }

  /******* The handler's effects are the protocol's steps *******/

  /** The request has ended as `outcome` says. */
  predicate EndedAs(s: System, id: nat, outcome: Outcome) {
    id in s.requests &&
    if outcome.Replied? then s.requests[id].phase.Served? && s.requests[id].phase.response == outcome.response
    else s.requests[id].phase.Failed?
  }

  /** The events of a leader that is alone: its exchange takes `ms`. */
  function LeaderEvents(id: nat, key: string, exchange: Exchange, ms: nat): seq<Event> {
    [Arrive(id, key)] + [TryObtain(id)] + [Forward(id)] + [Elapse(ms)] + Finale(id, exchange)
  }

  /** What a leader does after its exchange. */
  function Finale(id: nat, exchange: Exchange): seq<Event> {
    match exchange
    case NoReply => [Abandon(id)]
    case Reply(r) => [Upstream(id, r)] + [LastEvent(id, r)]
  }

  function LastEvent(id: nat, r: ResponseData): Event {
    if Cacheable(r.status) then Keep(id) else Release(id)
  }

  lemma LeaderOpens(cfg: Config, s: System, id: nat, key: string, ms: nat)
    requires Sound(cfg) && id !in s.requests && !Live(s.store, key, s.now)
    ensures var run := [Arrive(id, key)] + [TryObtain(id)] + [Forward(id)] + [Elapse(ms)];
            && EnabledRun(cfg, s, run)
            && var s' := After(cfg, s, run);
            && s'.store == Obtain(s.store, key, s.now, cfg.ttl).0 && s'.now == s.now + ms
            && id in s'.requests && s'.requests[id].key == key && s'.requests[id].phase.Forwarded?
  {
    var run: seq<Event> := [];
    RunSnoc(cfg, s, run, Arrive(id, key));
    run := run + [Arrive(id, key)];
    RunSnoc(cfg, s, run, TryObtain(id));
    run := run + [TryObtain(id)];
    RunSnoc(cfg, s, run, Forward(id));
    run := run + [Forward(id)];
    RunSnoc(cfg, s, run, Elapse(ms));
  }

  lemma LeaderCloses(cfg: Config, s: System, id: nat, key: string, r: ResponseData)
    requires Sound(cfg) && id in s.requests && s.requests[id].key == key && s.requests[id].phase.Forwarded?
    ensures Enabled(s, Upstream(id, r)) && Enabled(Step(cfg, s, Upstream(id, r)), LastEvent(id, r))
    ensures var s' := Step(cfg, Step(cfg, s, Upstream(id, r)), LastEvent(id, r));
            if 200 <= r.status <= 500 then
              var (store, stored) := Set(s.store, key, cfg.encode(r), s.now, cfg.ttl);
              s'.store == store && EndedAs(s', id, if stored == Stored then Replied(r) else Error(502))
            else s'.store == Del(s.store, key) && EndedAs(s', id, Error(r.status))
  {
  }

  /** A leader's part of the handler, from any state of the protocol: same store, same outcome. */
  lemma LeaderIsARun(cfg: Config, s: System, id: nat, key: string, exchange: Exchange, ms: nat)
    requires Sound(cfg) && id !in s.requests && !Live(s.store, key, s.now)
    ensures var run := LeaderEvents(id, key, exchange, ms);
            var (store, outcome) := LeaderEnd(s.store, cfg, key, s.now, exchange, s.now + ms);
            && EnabledRun(cfg, s, run)
            && After(cfg, s, run).store == store && EndedAs(After(cfg, s, run), id, outcome)
  {
    LeaderOpens(cfg, s, id, key, ms);
    var run := [Arrive(id, key)] + [TryObtain(id)] + [Forward(id)] + [Elapse(ms)];
    match exchange
    case NoReply => RunSnoc(cfg, s, run, Abandon(id));
    case Reply(r) =>
      LeaderCloses(cfg, After(cfg, s, run), id, key, r);
      RunSnoc(cfg, s, run, Upstream(id, r));
      RunSnoc(cfg, s, run + [Upstream(id, r)], LastEvent(id, r));
      assert run + [Upstream(id, r)] + [LastEvent(id, r)] == LeaderEvents(id, key, exchange, ms);
  }

  /** A step of another request, a cleaner or the clock leaves a request where it is. */
  lemma OthersLeaveIt(cfg: Config, s: System, e: Event, id: nat)
    requires cfg.pollInterval > 0 && Enabled(s, e) && id in s.requests
    requires e.Clean? || e.Elapse? || e.id != id
    ensures Unmoved(s, Step(cfg, s, e), id)
  {
  }

  predicate Unmoved(s: System, s': System, id: nat) {
    id in s.requests && id in s'.requests && s'.requests[id] == s.requests[id]
  }

  /** The four moments of a leader: asking for the key, sending the request, hearing of it, and ending. */
  datatype Moments = Moments(asks: System, sends: System, hears: System, ends: System)

  /** From one moment to the next anything may happen, except to the leader itself. */
  ghost predicate Leads(cfg: Config, m: Moments, id: nat, key: string, r: ResponseData)
    requires cfg.pollInterval > 0
  {
    && id in m.asks.requests && m.asks.requests[id] == Request(key, Arrived) && !Live(m.asks.store, key, m.asks.now)
    && Unmoved(Step(cfg, m.asks, TryObtain(id)), m.sends, id)
    && Enabled(m.sends, Forward(id)) && Unmoved(Step(cfg, m.sends, Forward(id)), m.hears, id)
    && Enabled(m.hears, Upstream(id, r)) && Unmoved(Step(cfg, m.hears, Upstream(id, r)), m.ends, id)
  }

  /**
   A leader's part of the handler among others. Its last event is possible, makes the handler's
   call on the store it then finds, and ends the request as that call says; and where the protocol's
   invariant holds, a leader that ends within its lease replies what it heard.
   */
  lemma LeaderAmongOthers(cfg: Config, m: Moments, id: nat, key: string, r: ResponseData)
    requires Sound(cfg) && Leads(cfg, m, id, key, r)
    ensures Enabled(m.ends, LastEvent(id, r))
    ensures var s, s' := m.ends, Step(cfg, m.ends, LastEvent(id, r));
            if 200 <= r.status <= 500 then
              var (store, stored) := Set(s.store, key, cfg.encode(r), s.now, cfg.ttl);
              && s'.store == store
              && EndedAs(s', id, if stored == Stored then Replied(r) else Error(502))
              && (Inv(cfg, s, key) && s.now < m.asks.now + cfg.ttl ==> stored == Stored)
            else s'.store == Del(s.store, key) && EndedAs(s', id, Error(r.status))
  {
    assert m.ends.requests[id].phase.expireAt == m.asks.now + cfg.ttl;
    if Inv(cfg, m.ends, key) && m.ends.now < m.asks.now + cfg.ttl {
      LockIsInTheMap(cfg, m.ends, id);
    }
  }

  /** What a poller finds in a state. */
  function LookIn(s: System, key: string): Look {
    Find(s.store, key)
  }

  /** The states in which a follower looks, one after the other; anything may happen between two looks. */
  predicate LooksAt(cfg: Config, before: seq<System>, id: nat, key: string) {
    && (forall k | 0 <= k < |before| ::
          id in before[k].requests && before[k].requests[id].key == key && before[k].requests[id].phase.Following?)
    && (forall k | 0 < k < |before| ::
          before[k].requests[id] == StepPoll(cfg, before[k - 1], id, key).requests[id])
  }

  lemma {:induction false} LooksWerePending(cfg: Config, before: seq<System>, id: nat, key: string, k: nat)
    requires LooksAt(cfg, before, id, key) && k < |before|
    ensures before[k].requests[id].phase.counter + k == before[0].requests[id].phase.counter
    ensures forall j | 0 <= j < k :: StillPending(LookIn(before[j], key))
  {
    if k > 0 {
      LooksWerePending(cfg, before, id, key, k - 1);
    }
  }

  /**
   A follower's part of the handler: refused the key, it looks as often as the timeout has polling
   intervals, and ends as the polling loop's outcome over what it found says.
   */
  lemma FollowerIsARun(cfg: Config, asks: System, before: seq<System>, id: nat, key: string, looks: seq<Look>)
    requires cfg.pollInterval > 0 && id in asks.requests && asks.requests[id] == Request(key, Arrived)
    requires Live(asks.store, key, asks.now)
    requires before != [] && Unmoved(Step(cfg, asks, TryObtain(id)), before[0], id) && LooksAt(cfg, before, id, key)
    requires var n := cfg.ttl / cfg.pollInterval;
             && |looks| == (if |before| <= n then |before| else n)
             && forall k | 0 <= k < |looks| && k < |before| :: looks[k] == LookIn(before[k], key)
    requires !StepPoll(cfg, before[|before| - 1], id, key).requests[id].phase.Following?
    ensures EndedAs(StepPoll(cfg, before[|before| - 1], id, key), id, FollowerOutcome(cfg, PollOutcome(looks)))
  {
    var last := |before| - 1;
    LooksWerePending(cfg, before, id, key, last);
    PollOutcomeMeaning(looks, if last < |looks| then last else 0);
  }
}
