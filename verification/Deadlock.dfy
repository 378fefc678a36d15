/** When tasks under the store's locks wait for each other for ever. */
module Deadlock {
  import opened Wrappers
  import opened CacheStore
  import opened Locks

  /** Some task is engaged and none of the engaged tasks can do its next thing. */
  ghost predicate Stuck(s: System) {
    && (exists id :: id in s.tasks && Engaged(s.tasks[id]))
    && (forall id | id in s.tasks && Engaged(s.tasks[id]) :: !CanAdvance(s, id))
  }

  /** `caller` holds the map and waits for the queue; `cleaner` holds the queue and waits for the map. */
  predicate Embrace(s: System, caller: nat, cleaner: nat) {
    && s.mapWriter == Some(caller) && s.queueOwner == Some(cleaner)
    && caller in s.tasks && s.tasks[caller].Writer? && s.tasks[caller].wpc.WantQueue?
    && cleaner in s.tasks && s.tasks[cleaner].Cleaner? && s.tasks[cleaner].cpc.HoldFirst?
  }

  lemma ReadersMove(s: System)
    requires LocksAgree(s) && s.mapReaders != {}
    ensures !Stuck(s)
  {
    var r :| r in s.mapReaders;
    assert AgreesAt(s, r);
    assert Engaged(s.tasks[r]) && CanAdvance(s, r);
  }

  /**
   With the cleaner's order as coded, the stuck states are exactly those in which a caller and a
   cleaner wait for each other.
   */
  lemma StuckIff(s: System)
    requires LocksAgree(s) && s.order == QueueFirst
    ensures Stuck(s) <==> exists caller, cleaner :: Embrace(s, caller, cleaner)
  {
    if s.mapReaders != {} {
      ReadersMove(s);
    } else if s.mapWriter.None? {
      if s.queueOwner.Some? {
        var id := s.queueOwner.value;
        assert AgreesAt(s, id);
        assert Engaged(s.tasks[id]) && CanAdvance(s, id);
      } else {
        assert forall id | id in s.tasks && Engaged(s.tasks[id]) :: CanAdvance(s, id);
      }
    } else {
      var id := s.mapWriter.value;
      assert AgreesAt(s, id);
      assert Engaged(s.tasks[id]);
      if !CanAdvance(s, id) {
        assert AgreesAt(s, s.queueOwner.value);
        assert Embrace(s, id, s.queueOwner.value);
      }
    }
    if exists caller, cleaner :: Embrace(s, caller, cleaner) {
      var caller, cleaner :| Embrace(s, caller, cleaner);
      assert Engaged(s.tasks[caller]);
      forall id | id in s.tasks && Engaged(s.tasks[id]) ensures !CanAdvance(s, id) {
        assert AgreesAt(s, id);
      }
    }
  }

  /** Taking the cleaner's locks in the order everyone else uses leaves no stuck state. */
  lemma MapFirstNeverStuck(run: seq<Event>)
    requires EnabledRun(Start(MapFirst), run)
    ensures !Stuck(After(Start(MapFirst), run))
  {
    LocksAlwaysAgree(MapFirst, run);
    var s := After(Start(MapFirst), run);
    if s.mapReaders != {} {
      ReadersMove(s);
    } else if s.queueOwner.Some? {
      var id := s.queueOwner.value;
      assert AgreesAt(s, id);
      assert Engaged(s.tasks[id]) && CanAdvance(s, id);
    } else if s.mapWriter.Some? {
      var id := s.mapWriter.value;
      assert AgreesAt(s, id);
      assert Engaged(s.tasks[id]) && CanAdvance(s, id);
    } else {
      assert forall id | id in s.tasks && Engaged(s.tasks[id]) :: CanAdvance(s, id);
    }
  }

  lemma StepKeepsEmbrace(s: System, e: Event, caller: nat, cleaner: nat)
    requires LocksAgree(s) && s.order == QueueFirst && Embrace(s, caller, cleaner) && Enabled(s, e)
    requires e != Drop(caller)
    ensures Step(s, e).order == QueueFirst && Embrace(Step(s, e), caller, cleaner) && Step(s, e).store == s.store
  {
    if e.Advance? || e.Drop? {
      assert AgreesAt(s, e.id);
    }
  }

  /** Only the end of the caller's handler ends the embrace: the cleaner can then go on. */
  lemma DropFreesTheCleaner(s: System, caller: nat, cleaner: nat)
    requires LocksAgree(s) && s.order == QueueFirst && Embrace(s, caller, cleaner)
    ensures Enabled(s, Drop(caller)) && CanAdvance(Step(s, Drop(caller)), cleaner)
  {
  }

  /**
   Once two tasks wait for each other they do so for ever, unless the caller is dropped, and the store
   never changes again.
   */
  lemma {:induction false} EmbraceIsForEver(s: System, run: seq<Event>, caller: nat, cleaner: nat)
    requires LocksAgree(s) && s.order == QueueFirst && Embrace(s, caller, cleaner) && EnabledRun(s, run)
    requires Drop(caller) !in run
    ensures var s' := After(s, run);
            LocksAgree(s') && s'.order == QueueFirst && Embrace(s', caller, cleaner) && s'.store == s.store
  {
    if run != [] {
      var shorter, e := run[..|run| - 1], run[|run| - 1];
      EmbraceIsForEver(s, shorter, caller, cleaner);
      StepKeepsLocks(After(s, shorter), e);
      StepKeepsEmbrace(After(s, shorter), e, caller, cleaner);
    }
  }

  /** A `del` has left a cleaner behind, and an `obtain` comes. */
  lemma DelThenObtain(key: string, ttl: nat) returns (run: seq<Event>)
    ensures EnabledRun(Start(QueueFirst), run)
    ensures After(Start(QueueFirst), run)
            == Start(QueueFirst).(tasks := map[0 := Writer(DelOp(key), Returned(Deleted)), 1 := Cleaner(Unsampled),
                                               2 := Writer(ObtainOp(key, ttl), WantMap)])
  {
    var s0 := Start(QueueFirst);
    run := [];
    RunSnocEvent(s0, run, Submit(0, Writer(DelOp(key), WantMap)));
    run := run + [Submit(0, Writer(DelOp(key), WantMap))];
    RunSnocEvent(s0, run, Advance(0, 1));
    run := run + [Advance(0, 1)];
    RunSnocEvent(s0, run, Advance(0, 1));
    run := run + [Advance(0, 1)];
    RunSnocEvent(s0, run, Submit(2, Writer(ObtainOp(key, ttl), WantMap)));
    run := run + [Submit(2, Writer(ObtainOp(key, ttl), WantMap))];
  }

  /** The code does get stuck: the cleaner takes the queue just before the `obtain` takes the map. */
  lemma CodeCanGetStuck(key: string, ttl: nat) returns (run: seq<Event>)
    ensures EnabledRun(Start(QueueFirst), run) && Embrace(After(Start(QueueFirst), run), 2, 1)
  {
    var s0 := Start(QueueFirst);
    run := DelThenObtain(key, ttl);
    RunSnocEvent(s0, run, Advance(1, 3));
    run := run + [Advance(1, 3)];
    RunSnocEvent(s0, run, Advance(1, 3));
    run := run + [Advance(1, 3)];
    RunSnocEvent(s0, run, Advance(2, 3));
    run := run + [Advance(2, 3)];
    RunSnocEvent(s0, run, Advance(2, 3));
    run := run + [Advance(2, 3)];
  }
}
