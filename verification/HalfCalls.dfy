/**
 What becomes of the store when a handler is dropped while its call waits for the queue's lock:
 the call has already been at the map, and never gets to the queue.
 */
module HalfCalls {
  import opened Wrappers
  import opened CacheStore
  import opened Locks
  import CR = CacheRuns

  /** A half-done `obtain` of a key that had no entry: the map has its entry, the queue does not yet. */
  predicate HalfObtained(rest: Rest) {
    rest.write.None? && rest.drop.None? && rest.add.Some?
  }

  /** What a waiting call knows of the store it has left behind. */
  predicate RestFits(op: Op, rest: Rest, s: Store) {
    if rest.write.Some? then
      && op.key in s.kv && CoveredAt(s, op.key)
      && rest.drop == Some(Index(s, op.key)) && rest.add == Some(PriorityKey(rest.write.value.expireAt, op.key))
    else if rest.drop.Some? then op.key !in s.kv && rest.drop.value.key == op.key && rest.add.None?
    else op.key in s.kv && rest.add == Some(Index(s, op.key))
  }

  /** The visible store is covered, and a waiting call's rest fits. */
  ghost predicate Sound(s: System) {
    && Covered(Visible(s))
    && forall id | s.mapWriter == Some(id) && Waits(s, id) ::
         RestFits(s.tasks[id].op, s.tasks[id].wpc.rest, s.store)
  }

  /** A drop that leaves a map entry without its queue entry. */
  predicate Uncovers(s: System, e: Event) {
    && CutsShort(s, e)
    && var rest := s.tasks[e.id].wpc.rest;
    HalfObtained(rest) && rest.add.value !in s.store.pq
  }

  lemma DecisionFits(op: Op, s: Store, now: nat)
    requires Covered(s) && Decide(op, s, now).NeedQueue?
    ensures RestFits(op, Decide(op, s, now).rest, Decide(op, s, now).store)
  {
    assert CoveredAt(s, op.key);
  }

  /** What a drop right after the decision does to the agreement of map and queue, by operation. */
  lemma DropAfterDecisionIff(op: Op, s: Store, now: nat)
    requires ExactAt(s, op.key) && Decide(op, s, now).NeedQueue?
    ensures var left := Decide(op, s, now).store;
            && (CoveredAt(left, op.key) <==> !(op.ObtainOp? && op.key !in s.kv))
            && (ExactAt(left, op.key) <==> op.SetOp? || (op.ObtainOp? && op.key in s.kv))
  {
    if op.DelOp? {
      assert Stale(Decide(op, s, now).store, Index(s, op.key));
    }
  }

  /** A call left half done keeps coverage, except for such an `obtain`. */
  lemma CutShortCoversIff(s: System, e: Event)
    requires LocksAgree(s) && Sound(s) && Enabled(s, e) && CutsShort(s, e)
    ensures Covered(Visible(Step(s, e))) <==> !Uncovers(s, e)
  {
    assert AgreesAt(s, e.id);
    var op, rest := s.tasks[e.id].op, s.tasks[e.id].wpc.rest;
    assert s.mapWriter == Some(e.id) && Visible(s) == Finish(s.store, op.key, rest);
    assert Visible(Step(s, e)) == s.store;
    forall k | k != op.key ensures CoveredAt(s.store, k) {
      assert CoveredAt(Visible(s), k);
    }
    if Uncovers(s, e) {
      assert !CoveredAt(s.store, op.key);
    }
  }

  /** One step keeps the visible store covered if and only if it is not the drop of such an `obtain`. */
  lemma StepCoversIff(s: System, e: Event)
    requires LocksAgree(s) && Sound(s) && Enabled(s, e)
    ensures Covered(Visible(Step(s, e))) <==> !Uncovers(s, e)
    ensures !Uncovers(s, e) ==> Sound(Step(s, e))
  {
    if CutsShort(s, e) {
      CutShortCoversIff(s, e);
      assert AgreesAt(s, e.id);
    } else {
      StepRefines(s, e);
      if Meaning(s, e) != [] {
        CR.AlwaysCovered(Abstract(s), [Meaning(s, e)[0]]);
        CR.RunOne(Abstract(s), Meaning(s, e)[0]);
      }
      StepFits(s, e);
    }
  }

  lemma StepFits(s: System, e: Event)
    requires LocksAgree(s) && Sound(s) && Enabled(s, e) && !CutsShort(s, e)
    ensures var s' := Step(s, e);
            forall id | s'.mapWriter == Some(id) && Waits(s', id) ::
              RestFits(s'.tasks[id].op, s'.tasks[id].wpc.rest, s'.store)
  {
    var s' := Step(s, e);
    forall id | s'.mapWriter == Some(id) && Waits(s', id)
      ensures RestFits(s'.tasks[id].op, s'.tasks[id].wpc.rest, s'.store)
    {
      assert AgreesAt(s, id);
      if e.Advance? {
        assert AgreesAt(s, e.id);
      }
      if Deciding(s, e, id) {
        DecisionFits(s.tasks[id].op, s.store, s.now);
      }
    }
  }

  /** The visible store is covered after every part of the run. */
  ghost predicate CoveredThroughout(s: System, run: seq<Event>)
    requires EnabledRun(s, run)
  {
    Covered(Visible(After(s, run))) && (run == [] || CoveredThroughout(s, run[..|run| - 1]))
  }

  ghost predicate NothingUncovers(s: System, run: seq<Event>)
    requires EnabledRun(s, run)
  {
    run == [] ||
    (NothingUncovers(s, run[..|run| - 1]) && !Uncovers(After(s, run[..|run| - 1]), run[|run| - 1]))
  }

  /**
   At the level of locks each map entry has its queue entry, all along a run, if and only if no
   handler is dropped while its `obtain` of a key without an entry waits to queue it (unless that
   very queue entry has been left there by an earlier call).
   */
  lemma {:induction false} CoveredThroughoutIff(order: CleanerOrder, run: seq<Event>)
    requires EnabledRun(Start(order), run)
    ensures CoveredThroughout(Start(order), run) <==> NothingUncovers(Start(order), run)
    ensures NothingUncovers(Start(order), run) ==> Sound(After(Start(order), run))
  {
    if run != [] {
      var s0, shorter, e := Start(order), run[..|run| - 1], run[|run| - 1];
      CoveredThroughoutIff(order, shorter);
      LocksAlwaysAgree(order, shorter);
      if NothingUncovers(s0, shorter) {
        StepCoversIff(After(s0, shorter), e);
      }
    }
  }

  /** Such a drop is possible from the start: an `obtain` takes the map, decides, and its client goes away. */
  lemma ClientGoesAway(order: CleanerOrder, key: string, ttl: nat) returns (run: seq<Event>)
    ensures EnabledRun(Start(order), run)
    ensures var s := After(Start(order), run); Enabled(s, Drop(0)) && Uncovers(s, Drop(0))
  {
    var s0 := Start(order);
    run := [];
    RunSnocEvent(s0, run, Submit(0, Writer(ObtainOp(key, ttl), WantMap)));
    run := run + [Submit(0, Writer(ObtainOp(key, ttl), WantMap))];
    RunSnocEvent(s0, run, Advance(0, 1));
    run := run + [Advance(0, 1)];
    RunSnocEvent(s0, run, Advance(0, 1));
    run := run + [Advance(0, 1)];
  }
}
