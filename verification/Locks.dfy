/**
 The locks under the in-memory store. A caller of `obtain`, `set` or `del` takes the map's lock
 and then, if it needs to, the queue's; the cleaner takes the queue's lock and then the map's.
 Tasks advance one lock operation or one piece of code between two lock operations at a time.
 */
module Locks {
  import opened Wrappers
  import opened CacheStore
  import CR = CacheRuns
  import MS = MemoryStore

  datatype Op = ObtainOp(key: string, ttl: nat) | SetOp(key: string, val: Bytes, ttl: nat) | DelOp(key: string)

  /** What a caller still has to write once it is given the queue. */
  datatype Rest = Rest(write: Option<Entry>, drop: Option<PriorityKey>, add: Option<PriorityKey>)

  /** What a caller is told. */
  datatype Answer = Granted(ok: bool) | SetTo(result: SetResult) | Deleted

  /**
   `answer` is settled when the caller reads the clock, and told when it returns. A caller may be
   dropped while it waits.
   */
  datatype WriterPc =
    | WantMap
    | HoldMap
    | WantQueue(rest: Rest, answer: Answer)
    | HoldBoth(rest: Rest, answer: Answer)
    | Returned(answer: Answer)
    | Dropped

  datatype ReaderPc = WantRead | Reading | Slept | Left(result: MS.PollResult) | Gone

  datatype CleanerPc = Unsampled | WantFirst(sampled: nat) | HoldFirst(sampled: nat) | HoldAll(sampled: nat) | Swept

  datatype Task =
    | Writer(op: Op, wpc: WriterPc)
    | Reader(key: string, counter: nat, looks: seq<MS.Look>, rpc: ReaderPc)  // `looks` is what it has found so far
    | Cleaner(cpc: CleanerPc)

  /** `QueueFirst` is the code; `MapFirst` is the order everyone else uses. */
  datatype CleanerOrder = QueueFirst | MapFirst

  datatype System = System(
    order: CleanerOrder,
    store: Store,
    now: nat,
    mapWriter: Option<nat>,
    mapReaders: set<nat>,
    queueOwner: Option<nat>,
    tasks: map<nat, Task>)

  function Start(order: CleanerOrder): System {
    System(order, EMPTY_STORE, 0, None, {}, None, map[])
  }

  datatype Event =
    | Submit(id: nat, task: Task)
    | Advance(id: nat, spawn: nat)
    | Elapse(ms: nat)
    | Drop(id: nat)      // the handler is gone: its client has disconnected

  /******* The code between two lock operations *******/

  datatype Decision =
    | Return(store: Store, answer: Answer, clean: bool)
    | NeedQueue(store: Store, answer: Answer, rest: Rest)

  /** What a caller does between taking the map's lock and wanting the queue's. */
  function Decide(op: Op, s: Store, now: nat): Decision {
    match op
    case ObtainOp(key, ttl) =>
      var queued := Some(PriorityKey(now + ttl, key));
      if Live(s, key, now) then Return(s, Granted(false), false)
      else if key in s.kv then
        NeedQueue(s, Granted(true), Rest(Some(Entry(now + ttl, [])), Some(Index(s, key)), queued))
      else
        NeedQueue(s.(kv := s.kv[key := Entry(now + ttl, [])]), Granted(true), Rest(None, None, queued))
    case SetOp(key, val, ttl) =>
      var queued := Some(PriorityKey(now + ttl, key));
      if key !in s.kv then Return(s, SetTo(NotObtained), false)
      else if s.kv[key].expireAt <= now then Return(s.(kv := s.kv - {key}), SetTo(ValueExpired), true)
      else NeedQueue(s, SetTo(Stored), Rest(Some(Entry(now + ttl, val)), Some(Index(s, key)), queued))
    case DelOp(key) =>
      if key in s.kv then NeedQueue(s.(kv := s.kv - {key}), Deleted, Rest(None, Some(Index(s, key)), None))
      else Return(s, Deleted, true)
  }

  /** What it does once it holds the queue too. */
  function Finish(s: Store, key: string, rest: Rest): Store {
    var pq := if rest.drop.Some? then s.pq - {rest.drop.value} else s.pq;
    Store(if rest.write.Some? then s.kv[key := rest.write.value] else s.kv,
          if rest.add.Some? then pq + {rest.add.value} else pq)
  }

  function Atomic(op: Op): CR.Action {
    match op
    case ObtainOp(key, ttl) => CR.DoObtain(key, ttl)
    case SetOp(key, val, ttl) => CR.DoSet(key, val, ttl)
    case DelOp(key) => CR.DoDel(key)
  }

  /** The answer of the call taken as one step. */
  function CallAnswer(op: Op, w: CR.World): Answer {
    match op
    case ObtainOp(key, ttl) => Granted(Obtain(w.store, key, w.now, ttl).1)
    case SetOp(key, val, ttl) => SetTo(Set(w.store, key, val, w.now, ttl).1)
    case DelOp(_) => Deleted
  }

  /** The two pieces of a call add up to the call taken as one step at the moment of the first, answer included. */
  lemma PiecesMakeTheCall(op: Op, s: Store, now: nat)
    ensures var d := Decide(op, s, now);
            && d.answer == CallAnswer(op, CR.World(s, now))
            && CR.Apply(CR.World(s, now), Atomic(op))
               == CR.World(if d.Return? then d.store else Finish(d.store, op.key, d.rest), now)
  {
  }

  /******* Steps *******/

  function Put(s: System, id: nat, t: Task): System {
    s.(tasks := s.tasks[id := t])
  }

  function SpawnCleaner(s: System, spawn: nat): System {
    Put(s, spawn, Cleaner(Unsampled))
  }

  predicate QueueFree(s: System) { s.queueOwner.None? }

  predicate MapFree(s: System) { s.mapWriter.None? && s.mapReaders == {} }

  /** Can task `id` do its next thing? It cannot while it waits for a lock that is taken. */
  predicate CanAdvance(s: System, id: nat) {
    id in s.tasks && match s.tasks[id]
      case Writer(_, pc) =>
        (match pc
         case WantMap => MapFree(s)
         case HoldMap => true
         case WantQueue(_, _) => QueueFree(s)
         case HoldBoth(_, _) => true
         case Returned(_) => false
         case Dropped => false)
      case Reader(_, _, _, pc) =>
        (match pc
         case WantRead => s.mapWriter.None?
         case Reading => true
         case Slept => true
         case Left(_) => false
         case Gone => false)
      case Cleaner(pc) =>
        (match pc
         case Unsampled => true
         case WantFirst(_) => if s.order == QueueFirst then QueueFree(s) else MapFree(s)
         case HoldFirst(_) => if s.order == QueueFirst then MapFree(s) else QueueFree(s)
         case HoldAll(_) => true
         case Swept => false)
  }

  predicate IsFresh(t: Task) {
    match t
    case Writer(_, pc) => pc == WantMap
    case Reader(_, counter, looks, pc) => looks == [] && pc == if counter > 0 then WantRead else Left(MS.Timeout)
    case Cleaner(pc) => pc == Unsampled
  }

  predicate Enabled(s: System, e: Event) {
    match e
    case Submit(id, t) => id !in s.tasks && IsFresh(t)
    case Advance(id, spawn) => CanAdvance(s, id) && spawn !in s.tasks
    case Elapse(_) => true
    case Drop(id) => id in s.tasks && !s.tasks[id].Cleaner? && Engaged(s.tasks[id])
  }

  /** The task has begun to use the locks and has not finished. */
  predicate Engaged(t: Task) {
    match t
    case Writer(_, pc) => !pc.Returned? && !pc.Dropped?
    case Reader(_, _, _, pc) => !pc.Left? && !pc.Gone?
    case Cleaner(pc) => pc != Swept && pc != Unsampled
  }

  ghost function Step(s: System, e: Event): System
    requires Enabled(s, e)
  {
    match e
    case Submit(id, t) => Put(s, id, t)
    case Elapse(ms) => s.(now := s.now + ms)
    case Drop(id) => StepDrop(s, id)
    case Advance(id, spawn) =>
      match s.tasks[id]
      case Writer(op, pc) => StepWriter(s, id, op, pc, spawn)
      case Reader(_, _, _, _) => StepReader(s, id, s.tasks[id], spawn)
      case Cleaner(pc) => StepCleaner(s, id, pc)
  }

  /** Dropping a handler lets go of its locks and does nothing else, whatever it still had to do. */
  function StepDrop(s: System, id: nat): System
    requires id in s.tasks
  {
    match s.tasks[id]
    case Writer(op, _) =>
      Put(s, id, Writer(op, Dropped))
      .(mapWriter := if s.mapWriter == Some(id) then None else s.mapWriter,
        queueOwner := if s.queueOwner == Some(id) then None else s.queueOwner)
    case Reader(_, _, _, _) => Put(s, id, s.tasks[id].(rpc := Gone)).(mapReaders := s.mapReaders - {id})
    case Cleaner(_) => s
  }

  function StepWriter(s: System, id: nat, op: Op, pc: WriterPc, spawn: nat): System {
    match pc
    case WantMap => Put(s, id, Writer(op, HoldMap)).(mapWriter := Some(id))
    case HoldMap =>
      (match Decide(op, s.store, s.now)
       case Return(store, answer, clean) =>
         var s' := Put(s, id, Writer(op, Returned(answer))).(store := store, mapWriter := None);
         if clean then SpawnCleaner(s', spawn) else s'
       case NeedQueue(store, answer, rest) =>
         Put(s, id, Writer(op, WantQueue(rest, answer))).(store := store))
    case WantQueue(rest, answer) => Put(s, id, Writer(op, HoldBoth(rest, answer))).(queueOwner := Some(id))
    case HoldBoth(rest, answer) =>
      var s' := Put(s, id, Writer(op, Returned(answer)))
                .(store := Finish(s.store, op.key, rest), mapWriter := None, queueOwner := None);
      if op.DelOp? then SpawnCleaner(s', spawn) else s'
    case Returned(_) => s
    case Dropped => s
  }

  /**
   A poller keeps its read lock while it sleeps, and lets go of it before the next look. It spends
   one of its looks each time.
   */
  function StepReader(s: System, id: nat, t: Task, spawn: nat): System
    requires t.Reader?
  {
    match t.rpc
    case WantRead => Put(s, id, t.(rpc := Reading)).(mapReaders := s.mapReaders + {id})
    case Reading =>
      var look := Find(s.store, t.key);
      var t' := t.(looks := t.looks + [look]);
      if look.None? then Put(s, id, t'.(rpc := Left(MS.NoLock))).(mapReaders := s.mapReaders - {id})
      else
        var s' := if look.value.value != []
                  then Put(s, id, t'.(rpc := Left(MS.Value(look.value.value)))).(mapReaders := s.mapReaders - {id})
                  else Put(s, id, t'.(rpc := Slept));
        if look.value.expireAt <= s.now then SpawnCleaner(s', spawn) else s'
    case Slept =>
      Put(s, id, t.(rpc := if |t.looks| < t.counter then WantRead else Left(MS.Timeout)))
      .(mapReaders := s.mapReaders - {id})
    case Left(_) => s
    case Gone => s
  }

  ghost function StepCleaner(s: System, id: nat, pc: CleanerPc): System {
    match pc
    case Unsampled => Put(s, id, Cleaner(WantFirst(s.now)))
    case WantFirst(sampled) =>
      if s.order == QueueFirst
      then Put(s, id, Cleaner(HoldFirst(sampled))).(queueOwner := Some(id))
      else Put(s, id, Cleaner(HoldFirst(sampled))).(mapWriter := Some(id))
    case HoldFirst(sampled) => Put(s, id, Cleaner(HoldAll(sampled))).(mapWriter := Some(id), queueOwner := Some(id))
    case HoldAll(sampled) =>
      Put(s, id, Cleaner(Swept)).(store := Sweep(s.store, sampled), mapWriter := None, queueOwner := None)
    case Swept => s
  }

  ghost predicate EnabledRun(s: System, run: seq<Event>)
    decreases |run|, 0
  {
    run == [] || (EnabledRun(s, run[..|run| - 1]) && Enabled(After(s, run[..|run| - 1]), run[|run| - 1]))
  }

  ghost function After(s: System, run: seq<Event>): System
    requires EnabledRun(s, run)
    decreases |run|, 1
  {
    if run == [] then s else Step(After(s, run[..|run| - 1]), run[|run| - 1])
  }

  lemma RunSnocEvent(s: System, run: seq<Event>, e: Event)
    requires EnabledRun(s, run) && Enabled(After(s, run), e)
    ensures EnabledRun(s, run + [e]) && After(s, run + [e]) == Step(After(s, run), e)
  {
  }

  /******* Who holds what *******/

  predicate HoldsMap(t: Task, order: CleanerOrder) {
    match t
    case Writer(_, pc) => pc == HoldMap || pc.WantQueue? || pc.HoldBoth?
    case Reader(_, _, _, _) => false
    case Cleaner(pc) => pc.HoldAll? || (pc.HoldFirst? && order == MapFirst)
  }

  predicate HoldsQueue(t: Task, order: CleanerOrder) {
    match t
    case Writer(_, pc) => pc.HoldBoth?
    case Reader(_, _, _, _) => false
    case Cleaner(pc) => pc.HoldAll? || (pc.HoldFirst? && order == QueueFirst)
  }

  predicate HoldsRead(t: Task) {
    t.Reader? && (t.rpc == Reading || t.rpc == Slept)
  }

  /** Task `id` holds exactly the locks it thinks it holds, and its clock reading is in the past. */
  predicate Agrees(t: Task, id: nat, order: CleanerOrder, mapWriter: Option<nat>, mapReaders: set<nat>,
                   queueOwner: Option<nat>, now: nat)
  {
    && (HoldsMap(t, order) <==> mapWriter == Some(id))
    && (HoldsRead(t) <==> id in mapReaders)
    && (HoldsQueue(t, order) <==> queueOwner == Some(id))
    && (t.Cleaner? && (t.cpc.WantFirst? || t.cpc.HoldFirst? || t.cpc.HoldAll?) ==> t.cpc.sampled <= now)
  }

  predicate AgreesAt(s: System, id: nat) {
    id in s.tasks ==> Agrees(s.tasks[id], id, s.order, s.mapWriter, s.mapReaders, s.queueOwner, s.now)
  }

  /** Every lock is held by a task that thinks so, and writers exclude readers. */
  ghost predicate LocksAgree(s: System) {
    && (forall id :: AgreesAt(s, id))
    && (s.mapWriter.Some? ==> s.mapWriter.value in s.tasks && s.mapReaders == {})
    && s.mapReaders <= s.tasks.Keys
    && (s.queueOwner.Some? ==> s.queueOwner.value in s.tasks)
  }

  lemma WriterStepAgrees(s: System, id: nat, spawn: nat, other: nat)
    requires LocksAgree(s) && CanAdvance(s, id) && spawn !in s.tasks && s.tasks[id].Writer?
    ensures AgreesAt(StepWriter(s, id, s.tasks[id].op, s.tasks[id].wpc, spawn), other)
  {
    assert AgreesAt(s, id) && AgreesAt(s, other);
  }

  lemma ReaderStepAgrees(s: System, id: nat, spawn: nat, other: nat)
    requires LocksAgree(s) && CanAdvance(s, id) && spawn !in s.tasks && s.tasks[id].Reader?
    ensures AgreesAt(StepReader(s, id, s.tasks[id], spawn), other)
  {
    assert AgreesAt(s, id) && AgreesAt(s, other);
  }

  lemma CleanerStepAgrees(s: System, id: nat, other: nat)
    requires LocksAgree(s) && CanAdvance(s, id) && s.tasks[id].Cleaner?
    ensures AgreesAt(StepCleaner(s, id, s.tasks[id].cpc), other)
  {
    assert AgreesAt(s, id) && AgreesAt(s, other);
  }

  lemma DropAgrees(s: System, id: nat, other: nat)
    requires LocksAgree(s) && id in s.tasks && !s.tasks[id].Cleaner?
    ensures AgreesAt(StepDrop(s, id), other)
  {
    assert AgreesAt(s, id) && AgreesAt(s, other);
  }

  lemma StepKeepsLocks(s: System, e: Event)
    requires LocksAgree(s) && Enabled(s, e)
    ensures LocksAgree(Step(s, e))
  {
    var s' := Step(s, e);
    forall id ensures AgreesAt(s', id) {
      match e
      case Submit(_, _) => assert AgreesAt(s, id);
      case Elapse(_) => assert AgreesAt(s, id);
      case Drop(dropped) => DropAgrees(s, dropped, id);
      case Advance(mover, spawn) =>
        match s.tasks[mover]
        case Writer(_, _) => WriterStepAgrees(s, mover, spawn, id);
        case Reader(_, _, _, _) => ReaderStepAgrees(s, mover, spawn, id);
        case Cleaner(_) => CleanerStepAgrees(s, mover, id);
    }
    if e.Advance? {
      assert AgreesAt(s, e.id);
    }
  }

  lemma {:induction false} LocksAlwaysAgree(order: CleanerOrder, run: seq<Event>)
    requires EnabledRun(Start(order), run)
    ensures LocksAgree(After(Start(order), run)) && After(Start(order), run).order == order
  {
    if run != [] {
      var shorter := run[..|run| - 1];
      LocksAlwaysAgree(order, shorter);
      StepKeepsLocks(After(Start(order), shorter), run[|run| - 1]);
    }
  }

  /******* Lock-level runs refine runs of whole calls *******/

  /** The store as the rest of the world is entitled to see it: a call that has decided has happened. */
  function Visible(s: System): Store {
    if s.mapWriter.Some? && s.mapWriter.value in s.tasks then
      match s.tasks[s.mapWriter.value]
      case Writer(op, WantQueue(rest, _)) => Finish(s.store, op.key, rest)
      case Writer(op, HoldBoth(rest, _)) => Finish(s.store, op.key, rest)
      case _ => s.store
    else s.store
  }

  function Abstract(s: System): CR.World {
    CR.World(Visible(s), s.now)
  }

  /** The whole-call actions that one lock-level event stands for: at most one. */
  function Meaning(s: System, e: Event): seq<CR.Action>
    requires Enabled(s, e)
  {
    match e
    case Submit(_, _) => []
    case Elapse(ms) => [CR.Tick(ms)]
    case Drop(_) => []
    case Advance(id, _) =>
      match s.tasks[id]
      case Writer(op, HoldMap) => [Atomic(op)]
      case Cleaner(HoldAll(sampled)) => [CR.DoClean(sampled)]
      case _ => []
  }

  /** The call of task `id` has decided and still waits for the queue, or has just been given it. */
  predicate Waits(s: System, id: nat) {
    id in s.tasks && s.tasks[id].Writer? && (s.tasks[id].wpc.WantQueue? || s.tasks[id].wpc.HoldBoth?)
  }

  /** A drop that leaves a call half done. */
  predicate CutsShort(s: System, e: Event) {
    e.Drop? && Waits(s, e.id)
  }

  /** No call of the run is left half done. */
  ghost predicate WholeCalls(s: System, run: seq<Event>)
    requires EnabledRun(s, run)
  {
    run == [] ||
    (WholeCalls(s, run[..|run| - 1]) && !CutsShort(After(s, run[..|run| - 1]), run[|run| - 1]))
  }

  /** Task `id` is a caller that has decided. */
  predicate Settled(s: System, id: nat) {
    Waits(s, id) || (id in s.tasks && s.tasks[id].Writer? && s.tasks[id].wpc.Returned?)
  }

  function AnswerOf(s: System, id: nat): Answer
    requires Settled(s, id)
  {
    s.tasks[id].wpc.answer
  }

  predicate SameCall(s: System, s': System, id: nat)
    requires Settled(s, id) && Settled(s', id)
  {
    s'.tasks[id].op == s.tasks[id].op && AnswerOf(s', id) == AnswerOf(s, id)
  }

  /** This step is where the call of task `id` takes effect. */
  predicate Deciding(s: System, e: Event, id: nat) {
    e.Advance? && e.id == id && id in s.tasks && s.tasks[id].Writer? && s.tasks[id].wpc == HoldMap
  }

  /** A step changes its own task, and besides it only starts new ones. */
  lemma OtherTasks(s: System, e: Event, id: nat)
    requires Enabled(s, e) && id in Step(s, e).tasks && !((e.Advance? || e.Drop?) && e.id == id)
    ensures IsFresh(Step(s, e).tasks[id]) || (id in s.tasks && Step(s, e).tasks[id] == s.tasks[id])
  {
  }

  /**
   A task that is at its end stays there, and a task that has not begun can be handed in at any time,
   as time can pass.
   */
  lemma AlwaysPossible(s: System, id: nat, t: Task, ms: nat)
    ensures Enabled(s, Elapse(ms))
    ensures id !in s.tasks && IsFresh(t) ==> Enabled(s, Submit(id, t))
    ensures id in s.tasks && !Engaged(s.tasks[id]) && s.tasks[id] != Cleaner(Unsampled) ==> !CanAdvance(s, id)
    ensures id in s.tasks && s.tasks[id] == Cleaner(Unsampled) ==> CanAdvance(s, id)
  {
  }

  /** A step starts a cleaner exactly when a `set` or a poller has met an expired entry, or a `del` ends. */
  lemma SpawnsIff(s: System, id: nat, spawn: nat)
    requires Enabled(s, Advance(id, spawn))
    ensures var s' := Step(s, Advance(id, spawn));
            && (spawn in s'.tasks ==> s'.tasks[spawn] == Cleaner(Unsampled))
            && (spawn in s'.tasks <==>
                  match s.tasks[id]
                  case Writer(SetOp(key, _, _), HoldMap) => key in s.store.kv && !Live(s.store, key, s.now)
                  case Writer(DelOp(key), HoldMap) => key !in s.store.kv
                  case Writer(DelOp(_), HoldBoth(_, _)) => true
                  case Reader(key, _, _, Reading) => key in s.store.kv && !Live(s.store, key, s.now)
                  case _ => false)
  {
  }

  /** The clock reading that a cleaner has taken and not yet used. */
  function Sampled(t: Task): Option<nat> {
    if t.Cleaner? && (t.cpc.WantFirst? || t.cpc.HoldFirst? || t.cpc.HoldAll?) then Some(t.cpc.sampled) else None
  }

  lemma StepSamples(s: System, e: Event, id: nat)
    requires Enabled(s, e) && id in s.tasks && s.tasks[id].Cleaner?
    ensures var s' := Step(s, e);
            && s.now <= s'.now && id in s'.tasks && s'.tasks[id].Cleaner?
            && (Sampled(s'.tasks[id]).Some? ==>
                  Sampled(s'.tasks[id]) == if s.tasks[id].cpc.Unsampled? then Some(s.now) else Sampled(s.tasks[id]))
  {
  }

  /**
   A cleaner reads its clock after it has been started and before it sweeps, so its sweep reaches the
   expired entry that called for it.
   */
  lemma {:induction false} SampledAfterStart(s: System, run: seq<Event>, id: nat)
    requires EnabledRun(s, run) && id in s.tasks && s.tasks[id] == Cleaner(Unsampled)
    ensures var s' := After(s, run);
            && s.now <= s'.now && id in s'.tasks && s'.tasks[id].Cleaner?
            && (Sampled(s'.tasks[id]).Some? ==> s.now <= Sampled(s'.tasks[id]).value <= s'.now)
  {
    if run != [] {
      SampledAfterStart(s, run[..|run| - 1], id);
      StepSamples(After(s, run[..|run| - 1]), run[|run| - 1], id);
    }
  }

  /** Whoever decides is told what the whole call answers at that moment, and no answer changes later. */
  lemma StepAnswers(s: System, e: Event, id: nat)
    requires LocksAgree(s) && Enabled(s, e) && Settled(Step(s, e), id)
    ensures if Settled(s, id) then SameCall(s, Step(s, e), id)
            else
              && Deciding(s, e, id) && Step(s, e).tasks[id].op == s.tasks[id].op
              && AnswerOf(Step(s, e), id) == CallAnswer(s.tasks[id].op, Abstract(s))
  {
    if (e.Advance? || e.Drop?) && e.id == id {
      OwnStepAnswers(s, e);
    } else {
      OtherTasks(s, e, id);
    }
  }

  lemma OwnStepAnswers(s: System, e: Event)
    requires LocksAgree(s) && Enabled(s, e) && (e.Advance? || e.Drop?) && Settled(Step(s, e), e.id)
    ensures if Settled(s, e.id) then SameCall(s, Step(s, e), e.id)
            else
              && Deciding(s, e, e.id) && Step(s, e).tasks[e.id].op == s.tasks[e.id].op
              && AnswerOf(Step(s, e), e.id) == CallAnswer(s.tasks[e.id].op, Abstract(s))
  {
    assert AgreesAt(s, e.id);
    if s.tasks[e.id].Writer? && !Settled(s, e.id) {
      PiecesMakeTheCall(s.tasks[e.id].op, s.store, s.now);
    }
  }

  /** A step is invisible, or it is exactly one whole call or one whole sweep. */
  lemma StepRefines(s: System, e: Event)
    requires LocksAgree(s) && Enabled(s, e) && !CutsShort(s, e)
    ensures var m := Meaning(s, e);
            if m == [] then Abstract(Step(s, e)) == Abstract(s)
            else CR.Possible(Abstract(s), m[0]) && Abstract(Step(s, e)) == CR.Apply(Abstract(s), m[0])
  {
    if e.Drop? {
      assert AgreesAt(s, e.id);
    } else if e.Advance? {
      var t := s.tasks[e.id];
      assert AgreesAt(s, e.id);
      if t.Writer? && t.wpc == HoldMap {
        PiecesMakeTheCall(t.op, s.store, s.now);
      } else if HoldsMap(t, s.order) {
        assert s.mapWriter == Some(e.id);
      }
    }
  }

  ghost function Calls(s: System, run: seq<Event>): seq<CR.Action>
    requires EnabledRun(s, run)
  {
    if run == [] then []
    else
      var shorter := run[..|run| - 1];
      Calls(s, shorter) + Meaning(After(s, shorter), run[|run| - 1])
  }

  lemma RunSnoc(w: CR.World, calls: seq<CR.Action>, a: CR.Action)
    requires CR.PossibleRun(w, calls) && CR.Possible(CR.Run(w, calls), a)
    ensures CR.Run(w, calls + [a]) == CR.Apply(CR.Run(w, calls), a)
    ensures CR.PossibleRun(w, calls + [a])
  {
    var longer := calls + [a];
    assert longer[..|calls|] == calls;
    forall i | 0 <= i < |longer| ensures CR.Possible(CR.At(w, longer, i), longer[i]) {
      assert longer[..i] == calls[..i];
      if i < |calls| {
        assert CR.Possible(CR.At(w, calls, i), calls[i]);
      } else {
        assert calls[..i] == calls;
      }
    }
  }

  /**
   Every interleaving of lock operations that leaves no call half done is a run of whole calls with the
   same visible result.
   */
  lemma {:induction false} LockRunsRefineCalls(order: CleanerOrder, run: seq<Event>)
    requires EnabledRun(Start(order), run) && WholeCalls(Start(order), run)
    ensures var s0 := Start(order);
            && CR.PossibleRun(Abstract(s0), Calls(s0, run))
            && Abstract(After(s0, run)) == CR.Run(Abstract(s0), Calls(s0, run))
  {
    if run != [] {
      var s0 := Start(order);
      var shorter, e := run[..|run| - 1], run[|run| - 1];
      LockRunsRefineCalls(order, shorter);
      LocksAlwaysAgree(order, shorter);
      var s := After(s0, shorter);
      StepRefines(s, e);
      var m := Meaning(s, e);
      if m == [] {
        assert Calls(s0, run) == Calls(s0, shorter);
      } else {
        assert m == [m[0]];
        RunSnoc(Abstract(s0), Calls(s0, shorter), m[0]);
      }
    }
  }

  /** The task behind each call of `Calls`; the clock has none. */
  ghost function Doers(s: System, run: seq<Event>): (r: seq<Option<nat>>)
    requires EnabledRun(s, run)
    ensures |r| == |Calls(s, run)|
  {
    if run == [] then []
    else
      var shorter := run[..|run| - 1];
      Doers(s, shorter) + DoersOf(After(s, shorter), run[|run| - 1])
  }

  function DoersOf(s: System, e: Event): (r: seq<Option<nat>>)
    requires Enabled(s, e)
    ensures |r| == |Meaning(s, e)|
  {
    if Meaning(s, e) == [] then [] else if e.Advance? then [Some(e.id)] else [None]
  }

  /** The `i`-th call of the abstract run is task `id`'s `op`, and `answer` is what it answers there. */
  ghost predicate AnsweredAt(w: CR.World, calls: seq<CR.Action>, doers: seq<Option<nat>>, i: nat,
                             id: nat, op: Op, answer: Answer)
    requires |doers| == |calls|
  {
    && i < |calls| && doers[i] == Some(id) && calls[i] == Atomic(op)
    && answer == CallAnswer(op, CR.At(w, calls, i))
  }

  /** What `AnswersRefineCalls` says of one caller. */
  ghost predicate ToldRight(w: CR.World, calls: seq<CR.Action>, doers: seq<Option<nat>>, s: System, id: nat)
    requires |doers| == |calls|
  {
    Settled(s, id) ==> exists i: nat :: AnsweredAt(w, calls, doers, i, id, s.tasks[id].op, AnswerOf(s, id))
  }

  lemma StepTellsRight(w: CR.World, calls: seq<CR.Action>, doers: seq<Option<nat>>, s: System, e: Event, id: nat)
    requires LocksAgree(s) && Enabled(s, e) && !CutsShort(s, e) && Abstract(s) == CR.Run(w, calls)
    requires |doers| == |calls| && ToldRight(w, calls, doers, s, id)
    ensures ToldRight(w, calls + Meaning(s, e), doers + DoersOf(s, e), Step(s, e), id)
  {
    var s', calls', doers' := Step(s, e), calls + Meaning(s, e), doers + DoersOf(s, e);
    if Settled(s', id) {
      StepAnswers(s, e, id);
      if Settled(s, id) {
        var i: nat :| AnsweredAt(w, calls, doers, i, id, s.tasks[id].op, AnswerOf(s, id));
        assert calls'[..i] == calls[..i];
        assert AnsweredAt(w, calls', doers', i, id, s'.tasks[id].op, AnswerOf(s', id));
      } else {
        assert calls'[..|calls|] == calls;
        assert AnsweredAt(w, calls', doers', |calls|, id, s'.tasks[id].op, AnswerOf(s', id));
      }
    }
  }

  /** ... and every caller is told what its own call answers in that run of whole calls. */
  lemma {:induction false} AnswersRefineCalls(order: CleanerOrder, run: seq<Event>, id: nat)
    requires EnabledRun(Start(order), run) && WholeCalls(Start(order), run)
    ensures var s0 := Start(order);
            ToldRight(Abstract(s0), Calls(s0, run), Doers(s0, run), After(s0, run), id)
  {
    if run != [] {
      var s0, shorter := Start(order), run[..|run| - 1];
      AnswersRefineCalls(order, shorter, id);
      LocksAlwaysAgree(order, shorter);
      LockRunsRefineCalls(order, shorter);
      StepTellsRight(Abstract(s0), Calls(s0, shorter), Doers(s0, shorter), After(s0, shorter), run[|run| - 1], id);
    }
  }

  /** Both collections change only in the hands of the task that holds the map's write lock. */
  lemma OnlyMapHolderWrites(s: System, e: Event)
    requires LocksAgree(s) && Enabled(s, e) && Step(s, e).store != s.store
    ensures e.Advance? && s.mapWriter == Some(e.id) && s.mapReaders == {}
  {
    assert e.Advance?;
    assert AgreesAt(s, e.id);
  }
}
