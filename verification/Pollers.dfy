/**
 The pollers among the tasks under the store's locks: each runs its polling loop to the end, over
 looks at the visible store.
 */
module Pollers {
  import opened Wrappers
  import opened CacheStore
  import opened Locks
  import opened MemoryStore
  import CR = CacheRuns

  /******* The loop *******/

  predicate AllPending(looks: seq<Look>) {
    forall i | 0 <= i < |looks| :: StillPending(looks[i])
  }

  /**
   A poller goes on as long as all it has found is pending and it has looks left; what it leaves with
   is the loop's outcome.
   */
  predicate PollFits(t: Task) {
    t.Reader? ==>
      match t.rpc
      case WantRead => AllPending(t.looks) && |t.looks| < t.counter
      case Reading => AllPending(t.looks) && |t.looks| < t.counter
      case Slept => AllPending(t.looks) && |t.looks| <= t.counter
      case Left(r) =>
        && r == PollOutcome(t.looks) && |t.looks| <= t.counter
        && (AllPending(t.looks) ==> r == Timeout && |t.looks| == t.counter)
        && (t.looks != [] ==> AllPending(t.looks[..|t.looks| - 1]))
      case Gone => true
  }

  lemma LookFits(looks: seq<Look>, look: Look)
    requires AllPending(looks)
    ensures StillPending(look) <==> AllPending(looks + [look])
    ensures !StillPending(look) ==>
              PollOutcome(looks + [look]) == if look.None? then NoLock else Value(look.value.value)
    ensures PollOutcome(looks) == Timeout
  {
    PollOutcomeMeaning(looks + [look], |looks|);
    PollOutcomeMeaning(looks, |looks|);
    assert AllPending(looks + [look]) ==> StillPending((looks + [look])[|looks|]);
  }

  lemma StepPollFits(s: System, e: Event, id: nat)
    requires Enabled(s, e) && id in Step(s, e).tasks && (id in s.tasks ==> PollFits(s.tasks[id]))
    ensures PollFits(Step(s, e).tasks[id])
  {
    if (e.Advance? || e.Drop?) && e.id == id {
      var t := s.tasks[id];
      if e.Advance? && t.Reader? {
        if t.rpc == Reading {
          LookFits(t.looks, Find(s.store, t.key));
          assert (t.looks + [Find(s.store, t.key)])[..|t.looks|] == t.looks;
        } else if t.rpc == Slept {
          LookFits(t.looks, None);
        }
      }
    } else {
      OtherTasks(s, e, id);
    }
  }

  /**
   In every run a poller leaves exactly as the polling loop would over what it has found: it looks
   again as long as the entry is pending and it has looks left, and never hands out a pending entry.
   */
  lemma {:induction false} PollersFollowTheLoop(order: CleanerOrder, run: seq<Event>, id: nat)
    requires EnabledRun(Start(order), run) && id in After(Start(order), run).tasks
    ensures var t := After(Start(order), run).tasks[id];
            && PollFits(t)
            && (t.Reader? && t.rpc.Left? && t.rpc.result.Value? ==> t.rpc.result.value != [])
  {
    if run != [] {
      var shorter := run[..|run| - 1];
      var s := After(Start(order), shorter);
      if id in s.tasks {
        PollersFollowTheLoop(order, shorter, id);
      }
      StepPollFits(s, run[|run| - 1], id);
      var t := After(Start(order), run).tasks[id];
      if t.Reader? && t.rpc.Left? {
        OutcomeIsAnswer(t.looks);
      }
    }
  }

  lemma {:induction false} OutcomeIsAnswer(looks: seq<Look>)
    ensures PollOutcome(looks).Value? ==> PollOutcome(looks).value != []
  {
    if looks != [] {
      OutcomeIsAnswer(looks[1..]);
    }
  }

  /******* What the looks are *******/

  /**
   The `j`-th look is what the store held before call `at[j]` of the run of whole calls; later looks
   are at later moments.
   */
  ghost predicate SeenAt(w: CR.World, calls: seq<CR.Action>, key: string, looks: seq<Look>, at: seq<nat>) {
    && |at| == |looks|
    && (forall j | 0 <= j < |at| :: at[j] <= |calls| && looks[j] == Find(CR.At(w, calls, at[j]).store, key))
    && (forall i, j | 0 <= i < j < |at| :: at[i] <= at[j])
  }

  ghost predicate LookedRight(w: CR.World, calls: seq<CR.Action>, s: System, id: nat) {
    id in s.tasks && s.tasks[id].Reader? ==>
        exists at: seq<nat> :: SeenAt(w, calls, s.tasks[id].key, s.tasks[id].looks, at)
  }

  /**
   A poller that looks holds the map, so nothing is half done: it sees the visible store. Nothing else
   adds a look.
   */
  lemma StepLooks(s: System, e: Event, id: nat)
    requires LocksAgree(s) && Enabled(s, e) && id in Step(s, e).tasks && Step(s, e).tasks[id].Reader?
    ensures var t' := Step(s, e).tasks[id];
            if id !in s.tasks then t'.looks == []
            else
              var t := s.tasks[id];
              && t.Reader? && t'.key == t.key
              && t'.looks == if e.Advance? && e.id == id && t.rpc == Reading
                             then t.looks + [Find(Visible(s), t.key)] else t.looks
  {
    if e.Advance? && e.id == id {
      OwnStepLooks(s, e);
    } else if !(e.Drop? && e.id == id) {
      OtherTasks(s, e, id);
    }
  }

  lemma OwnStepLooks(s: System, e: Event)
    requires LocksAgree(s) && Enabled(s, e) && e.Advance? && Step(s, e).tasks[e.id].Reader?
    ensures var t, t' := s.tasks[e.id], Step(s, e).tasks[e.id];
            && t.Reader? && t'.key == t.key
            && t'.looks == if t.rpc == Reading then t.looks + [Find(Visible(s), t.key)] else t.looks
  {
    assert AgreesAt(s, e.id);
  }

  lemma SeenGrows(w: CR.World, calls: seq<CR.Action>, more: seq<CR.Action>, key: string, looks: seq<Look>, at: seq<nat>)
    requires SeenAt(w, calls, key, looks, at)
    ensures SeenAt(w, calls + more, key, looks, at)
  {
    forall j | 0 <= j < |at| ensures looks[j] == Find(CR.At(w, calls + more, at[j]).store, key) {
      assert (calls + more)[..at[j]] == calls[..at[j]];
    }
  }

  lemma StepLooksRight(w: CR.World, calls: seq<CR.Action>, s: System, e: Event, id: nat)
    requires LocksAgree(s) && Enabled(s, e) && Abstract(s) == CR.Run(w, calls) && LookedRight(w, calls, s, id)
    ensures LookedRight(w, calls + Meaning(s, e), Step(s, e), id)
  {
    var s', calls' := Step(s, e), calls + Meaning(s, e);
    if id in s'.tasks && s'.tasks[id].Reader? {
      StepLooks(s, e, id);
      var t' := s'.tasks[id];
      if id !in s.tasks {
        assert SeenAt(w, calls', t'.key, t'.looks, []);
      } else {
        var t := s.tasks[id];
        var at: seq<nat> :| SeenAt(w, calls, t.key, t.looks, at);
        SeenGrows(w, calls, Meaning(s, e), t.key, t.looks, at);
        if t'.looks != t.looks {
          assert calls'[..|calls|] == calls;
          assert SeenAt(w, calls', t'.key, t'.looks, at + [|calls|]);
        }
      }
    }
  }

  /**
   In every run that leaves no call half done, what a poller finds is what the store holds at later and
   later moments of the run of whole calls.
   */
  lemma {:induction false} LooksRefineCalls(order: CleanerOrder, run: seq<Event>, id: nat)
    requires EnabledRun(Start(order), run) && WholeCalls(Start(order), run)
    ensures LookedRight(Abstract(Start(order)), Calls(Start(order), run), After(Start(order), run), id)
  {
    if run != [] {
      var s0, shorter := Start(order), run[..|run| - 1];
      LooksRefineCalls(order, shorter, id);
      LocksAlwaysAgree(order, shorter);
      LockRunsRefineCalls(order, shorter);
      StepLooksRight(Abstract(s0), Calls(s0, shorter), After(s0, shorter), run[|run| - 1], id);
    }
  }
}
