/**
 The store as the proxy's protocol uses it: a run of the protocol makes nothing but calls on the store,
 and its store ends as that run of calls ends.
 */
module Layers {
  import opened Protocol
  import CR = CacheRuns
  import L = Locks
  import P = Pollers

  /** The call that an event makes on the store, if any; looking changes nothing and is left out. */
  function StoreCall(cfg: Config, s: System, e: Event): seq<CR.Action>
    requires Enabled(s, e)
  {
    match e
    case TryObtain(id) => [CR.DoObtain(s.requests[id].key, cfg.ttl)]
    case Keep(id) => [CR.DoSet(s.requests[id].key, cfg.encode(s.requests[id].phase.response), cfg.ttl)]
    case Release(id) => [CR.DoDel(s.requests[id].key)]
    case Clean(sampled) => [CR.DoClean(sampled)]
    case Elapse(ms) => [CR.Tick(ms)]
    case _ => []
  }

  function StoreOf(s: System): CR.World {
    CR.World(s.store, s.now)
  }

  lemma StepIsStoreCall(cfg: Config, s: System, e: Event)
    requires cfg.pollInterval > 0 && Enabled(s, e)
    ensures var calls := StoreCall(cfg, s, e);
            if calls == [] then StoreOf(Step(cfg, s, e)) == StoreOf(s)
            else CR.Possible(StoreOf(s), calls[0]) && StoreOf(Step(cfg, s, e)) == CR.Apply(StoreOf(s), calls[0])
  {
  }

  ghost function StoreCalls(cfg: Config, s: System, run: seq<Event>): seq<CR.Action>
    requires cfg.pollInterval > 0 && EnabledRun(cfg, s, run)
  {
    if run == [] then []
    else
      var shorter := run[..|run| - 1];
      StoreCalls(cfg, s, shorter) + StoreCall(cfg, After(cfg, s, shorter), run[|run| - 1])
  }

  /** The protocol does nothing to the store but make calls on it. */
  lemma {:induction false} ProtocolRunsAreStoreRuns(cfg: Config, s: System, run: seq<Event>)
    requires cfg.pollInterval > 0 && EnabledRun(cfg, s, run)
    ensures var calls := StoreCalls(cfg, s, run);
            CR.PossibleRun(StoreOf(s), calls) && StoreOf(After(cfg, s, run)) == CR.Run(StoreOf(s), calls)
  {
    if run != [] {
      var shorter, e := run[..|run| - 1], run[|run| - 1];
      ProtocolRunsAreStoreRuns(cfg, s, shorter);
      var s1 := After(cfg, s, shorter);
      StepIsStoreCall(cfg, s1, e);
      var calls, call := StoreCalls(cfg, s, shorter), StoreCall(cfg, s1, e);
      if call == [] {
        assert calls + call == calls;
      } else {
        assert call == [call[0]];
        L.RunSnoc(StoreOf(s), calls, call[0]);
      }
    }
  }

  /**
   From locks to idempotency. When the calls that tasks make under the locks are those of a good
   run of the protocol, in whatever interleaving of lock operations, the visible store is the
   protocol's, the key is idempotent, and every caller is told, and every poller finds, what the
   store of that run says at some moment of it.
   */
  lemma LocksServeTheProtocol(order: L.CleanerOrder, locks: seq<L.Event>, cfg: Config, run: seq<Event>, key: string)
    requires Sound(cfg) && GoodRun(cfg, IDLE, run, key)
    requires L.EnabledRun(L.Start(order), locks) && L.WholeCalls(L.Start(order), locks)
    requires L.Calls(L.Start(order), locks) == StoreCalls(cfg, IDLE, run)
    ensures var s0, s, calls := L.Start(order), L.After(L.Start(order), locks), StoreCalls(cfg, IDLE, run);
            && L.Visible(s) == After(cfg, IDLE, run).store && s.now == After(cfg, IDLE, run).now
            && Idempotent(After(cfg, IDLE, run), key)
            && (forall id :: L.ToldRight(StoreOf(IDLE), calls, L.Doers(s0, locks), s, id))
            && (forall id :: P.LookedRight(StoreOf(IDLE), calls, s, id))
  {
    ProtocolRunsAreStoreRuns(cfg, IDLE, run);
    L.LockRunsRefineCalls(order, locks);
    OneForwardOneAnswer(cfg, run, key);
    forall id
      ensures L.ToldRight(StoreOf(IDLE), StoreCalls(cfg, IDLE, run), L.Doers(L.Start(order), locks),
                          L.After(L.Start(order), locks), id)
    {
      L.AnswersRefineCalls(order, locks, id);
    }
    forall id ensures P.LookedRight(StoreOf(IDLE), StoreCalls(cfg, IDLE, run), L.After(L.Start(order), locks), id) {
      P.LooksRefineCalls(order, locks, id);
    }
  }
}
