/**
 The Cloudflare worker's requests for one key, over its Durable Object: leaders, followers, the
 upstream, and the `del` that a request which has failed sends without waiting for it.
 */
module Worker {
  import opened Wrappers
  import DO = DurableObject
  import Protocol

  /** How often a follower looks, and the encoding of a stored response. */
  datatype Config = Config(looks: nat, encode: Protocol.ResponseData -> Bytes,
      decode: Bytes -> Option<Protocol.ResponseData>)

  datatype Phase =
    | Leading                          // holds the key, waits for the upstream
    | Following(left: nat)             // was refused the key
    | Clearing                         // has replied with an error; its `del` is on the way
    | Served(response: Protocol.ResponseData)   // has replied Ok
    | Failed                           // has replied with an error, and its `del` has arrived

  datatype System = System(cacher: DO.Object, requests: map<nat, Phase>)

  const START := System(DO.NEW, map[])

  datatype Event =
    | Ask(id: nat)
    | Poll(id: nat)
    | Respond(id: nat, response: Protocol.ResponseData, alarm: nat)
    | Break(id: nat)                                           // the exchange or the filtering throws
    | Clear(id: nat)
    | Alarm
    | Rebuild

  predicate Enabled(s: System, e: Event) {
    match e
    case Ask(id) => id !in s.requests
    case Poll(id) => id in s.requests && s.requests[id].Following?
    case Respond(id, _, _) => id in s.requests && s.requests[id].Leading?
    case Break(id) => id in s.requests && s.requests[id].Leading?
    case Clear(id) => id in s.requests && s.requests[id].Clearing?
    case _ => true
  }

  /** The call that the event makes on the object, if any; looking changes nothing and is left out. */
  function CallOf(cfg: Config, e: Event): seq<DO.Call> {
    match e
    case Ask(_) => [DO.Obtain]
    case Respond(_, response, alarm) =>
      if Protocol.Cacheable(response.status) then [DO.Set(cfg.encode(response), alarm)] else []
    case Clear(_) => [DO.Del]
    case Alarm => [DO.Alarm]
    case Rebuild => [DO.Rebuild]
    case _ => []
  }

  function LookAfter(cfg: Config, left: nat, got: DO.Got): Phase
    requires left > 0
  {
    match got
    case NotObtained => Clearing
    case Pending => Following(left - 1)
    case Value(value) => if cfg.decode(value).Some? then Served(cfg.decode(value).value) else Clearing
  }

  function PhaseAfter(cfg: Config, s: System, e: Event): Phase
    requires Enabled(s, e) && !e.Alarm? && !e.Rebuild?
  {
    match e
    case Ask(_) => if DO.DoObtain(s.cacher).1 then Leading else Following(cfg.looks)
    case Poll(id) =>
      if s.requests[id].left == 0 then Clearing
      else LookAfter(cfg, s.requests[id].left, DO.DoGet(s.cacher))
    case Respond(_, response, _) => if Protocol.Cacheable(response.status) then Served(response) else Clearing
    case Break(_) => Clearing
    case Clear(_) => Failed
  }

  function Step(cfg: Config, s: System, e: Event): System
    requires Enabled(s, e)
  {
    var cacher := if CallOf(cfg, e) == [] then s.cacher else DO.Apply(s.cacher, CallOf(cfg, e)[0]);
    if e.Alarm? || e.Rebuild? then s.(cacher := cacher)
    else System(cacher, s.requests[e.id := PhaseAfter(cfg, s, e)])
  }

  /** A new request can come, the alarm can go off and the object can be rebuilt at any time. */
  lemma AlwaysPossible(s: System, id: nat)
    ensures Enabled(s, Alarm) && Enabled(s, Rebuild) && (id !in s.requests ==> Enabled(s, Ask(id)))
  {
  }

  /** Where a request can be after each of its events, in figures. */
  lemma LeaderEnds(cfg: Config, s: System, id: nat, response: Protocol.ResponseData, alarm: nat)
    requires id in s.requests && s.requests[id].Leading?
    ensures var s' := Step(cfg, s, Respond(id, response, alarm));
            if 200 <= response.status <= 500 then
              && s'.requests[id] == Served(response)
              && DO.DoGet(s'.cacher) == DO.Value(cfg.encode(response)) && s'.cacher.alarm == Some(alarm)
            else s'.cacher == s.cacher && Enabled(s', Clear(id))
    ensures var s' := Step(cfg, s, Break(id)); s'.cacher == s.cacher && Enabled(s', Clear(id))
  {
  }

  /** A `del` that arrives resets the object, whoever sent it, and is not sent again. */
  lemma ClearResets(cfg: Config, s: System, id: nat)
    requires Enabled(s, Clear(id))
    ensures !Enabled(Step(cfg, s, Clear(id)), Clear(id))
    ensures DO.DoObtain(Step(cfg, s, Clear(id)).cacher).1 && Step(cfg, s, Clear(id)).cacher.storage == DO.NO_STORAGE
  {
  }

  /**
   A follower is served exactly when it has a look left and finds a value it can decode; it looks
   again exactly when it has a look left and finds none yet; in every other case its `del` is on the way.
   */
  lemma FollowerEnds(cfg: Config, s: System, id: nat)
    requires Enabled(s, Poll(id))
    ensures var s', left, got := Step(cfg, s, Poll(id)), s.requests[id].left, DO.DoGet(s.cacher);
            && s'.cacher == s.cacher
            && (forall r :: s'.requests[id] == Served(r) <==>
                left > 0 && got.Value? && cfg.decode(got.value) == Some(r))
            && (forall n: nat :: s'.requests[id] == Following(n) <==> left == n + 1 && got == DO.Pending)
            && (Enabled(s', Clear(id)) <==> !s'.requests[id].Served? && !s'.requests[id].Following?)
  {
  }

  predicate EnabledRun(cfg: Config, s: System, run: seq<Event>)
    decreases |run|, 0
  {
    run == [] || (EnabledRun(cfg, s, run[..|run| - 1]) && Enabled(After(cfg, s, run[..|run| - 1]), run[|run| - 1]))
  }

  function After(cfg: Config, s: System, run: seq<Event>): System
    requires EnabledRun(cfg, s, run)
    decreases |run|, 1
  {
    if run == [] then s else Step(cfg, After(cfg, s, run[..|run| - 1]), run[|run| - 1])
  }

  function Calls(cfg: Config, run: seq<Event>): seq<DO.Call> {
    if run == [] then [] else Calls(cfg, run[..|run| - 1]) + CallOf(cfg, run[|run| - 1])
  }

  lemma StepIsCall(cfg: Config, s: System, e: Event)
    requires Enabled(s, e)
    ensures Step(cfg, s, e).cacher == if CallOf(cfg, e) == [] then s.cacher else DO.Apply(s.cacher, CallOf(cfg, e)[0])
  {
  }

  lemma CallsSnoc(cfg: Config, shorter: seq<Event>, e: Event, run: seq<Event>)
    requires run == shorter + [e]
    ensures Calls(cfg, run) == if CallOf(cfg, e)
        == [] then Calls(cfg, shorter) else Calls(cfg, shorter) + [CallOf(cfg, e)[0]]
  {
    assert run[..|run| - 1] == shorter;
    assert Calls(cfg, shorter) + [] == Calls(cfg, shorter);
  }

  /** A run of the worker is a run of its object. */
  lemma {:induction false} WorkerRunsTheObject(cfg: Config, run: seq<Event>)
    requires EnabledRun(cfg, START, run)
    ensures After(cfg, START, run).cacher == DO.Run(DO.NEW, Calls(cfg, run))
  {
    if run != [] {
      var shorter, e := run[..|run| - 1], run[|run| - 1];
      WorkerRunsTheObject(cfg, shorter);
      assert After(cfg, START, run) == Step(cfg, After(cfg, START, shorter), e);
      StepIsCall(cfg, After(cfg, START, shorter), e);
      CallsSnoc(cfg, shorter, e, run);
      if CallOf(cfg, e) != [] {
        DO.RunSnoc(DO.NEW, Calls(cfg, shorter), CallOf(cfg, e)[0]);
      }
    }
  }

  /**
   Exactly when a request is forwarded: nothing but rebuilds has reached the object since the
   last reset. So a key is forwarded again exactly as often as it is asked for first after a reset.
   */
  lemma ForwardedIff(cfg: Config, run: seq<Event>, id: nat)
    requires EnabledRun(cfg, START, run) && Enabled(After(cfg, START, run), Ask(id))
    ensures Step(cfg, After(cfg, START, run), Ask(id)).requests[id].Leading? <==> DO.Untouched(Calls(cfg, run))
  {
    WorkerRunsTheObject(cfg, run);
    DO.GrantedIff(Calls(cfg, run));
  }

  /** A follower that is served is given the response of the last `set` since the last reset. */
  lemma ServedIsStored(cfg: Config, run: seq<Event>, id: nat)
    requires EnabledRun(cfg, START, run) && Enabled(After(cfg, START, run), Poll(id))
    ensures var phase := Step(cfg, After(cfg, START, run), Poll(id)).requests[id];
            phase.Served? ==>
              && DO.LastSet(Calls(cfg, run)).Some?
              && cfg.decode(DO.LastSet(Calls(cfg, run)).value) == Some(phase.response)
  {
    WorkerRunsTheObject(cfg, run);
    DO.GetReturnsLastSet(Calls(cfg, run));
    FollowerEnds(cfg, After(cfg, START, run), id);
  }

  function Looks(id: nat, n: nat): seq<Event> {
    seq(n, _ => Poll(id))
  }

  /** Looking at a pending object changes nothing but the follower's counter. */
  lemma {:induction false} LooksCountDown(cfg: Config, s: System, id: nat, n: nat)
    requires id in s.requests && s.requests[id].Following? && n <= s.requests[id].left && s.cacher.status == 1
    ensures EnabledRun(cfg, s, Looks(id, n))
    ensures After(cfg, s, Looks(id, n)) == s.(requests := s.requests[id := Following(s.requests[id].left - n)])
  {
    if n > 0 {
      LooksCountDown(cfg, s, id, n - 1);
      assert Looks(id, n)[..n - 1] == Looks(id, n - 1);
    }
  }

  lemma {:induction false} AfterAppend(cfg: Config, s: System, run: seq<Event>, more: seq<Event>)
    requires EnabledRun(cfg, s, run) && EnabledRun(cfg, After(cfg, s, run), more)
    ensures EnabledRun(cfg, s, run + more) && After(cfg, s, run + more) == After(cfg, After(cfg, s, run), more)
  {
    if more == [] {
      assert run + more == run;
    } else {
      AfterAppend(cfg, s, run, more[..|more| - 1]);
      assert (run + more)[..|run + more| - 1] == run + more[..|more| - 1];
    }
  }

  lemma OneEvent(cfg: Config, s: System, e: Event)
    requires Enabled(s, e)
    ensures EnabledRun(cfg, s, [e]) && After(cfg, s, [e]) == Step(cfg, s, e)
  {
    var run, none: seq<Event> := [e], [];
    assert run[..|run| - 1] == none && run[|run| - 1] == e;
    assert After(cfg, s, none) == s;
  }

  /** A follower that finds the object pending as often as it may look gives up, and its `del` is on the way. */
  lemma FollowerGivesUp(cfg: Config, s: System, id: nat) returns (run: seq<Event>)
    requires id !in s.requests && s.cacher.status == 1
    ensures EnabledRun(cfg, s, run) && After(cfg, s, run) == s.(requests := s.requests[id := Clearing])
  {
    OneEvent(cfg, s, Ask(id));
    var s1 := Step(cfg, s, Ask(id));
    LooksCountDown(cfg, s1, id, cfg.looks);
    AfterAppend(cfg, s, [Ask(id)], Looks(id, cfg.looks));
    run := [Ask(id)] + Looks(id, cfg.looks);
    OneEvent(cfg, After(cfg, s, run), Poll(id));
    AfterAppend(cfg, s, run, [Poll(id)]);
    run := run + [Poll(id)];
  }

  /**
   The worker does not forward once per key. In every state in which a leader waits for the
   upstream, whatever the number of looks, a follower can give up; its `del` frees the key, and
   the next request leads beside the first.
   */
  lemma FollowerTimeoutFreesTheKey(cfg: Config, s: System, leader: nat, follower: nat, next: nat)
    returns (run: seq<Event>)
    requires leader in s.requests && s.requests[leader].Leading? && s.cacher.status == 1
    requires follower !in s.requests && next !in s.requests && follower != next
    ensures EnabledRun(cfg, s, run)
    ensures var s' := After(cfg, s, run);
            && leader != next && leader in s'.requests && next in s'.requests
            && s'.requests[leader].Leading? && s'.requests[next].Leading?
  {
    run := FollowerGivesUp(cfg, s, follower);
    var s1 := After(cfg, s, run);
    OneEvent(cfg, s1, Clear(follower));
    AfterAppend(cfg, s, run, [Clear(follower)]);
    run := run + [Clear(follower)];
    var s2 := After(cfg, s, run);
    assert s2.cacher == DO.NEW && next !in s2.requests;
    OneEvent(cfg, s2, Ask(next));
    AfterAppend(cfg, s, run, [Ask(next)]);
    run := run + [Ask(next)];
  }
}
