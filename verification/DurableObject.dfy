/**
 The Cloudflare worker's store: one Durable Object per key, with a status in memory, a copy of
 it and the value in storage, and an alarm that resets it.
 */
module DurableObject {
  import opened Wrappers

  /** `s` and `v` as kept in storage; a key that was never put, or was deleted, is None. */
  datatype Storage = Storage(s: Option<nat>, v: Option<Bytes>)

  const NO_STORAGE := Storage(None, None)

  /** What `get` answers. */
  datatype Got = NotObtained | Pending | Value(value: Bytes)

  /** The object between two calls. */
  datatype Object = Object(status: nat, storage: Storage, alarm: Option<nat>)

  const NEW := Object(0, NO_STORAGE, None)

  predicate Valid(o: Object) {
    && o.status <= 2
    && o.status == (if o.storage.s.Some? then o.storage.s.value else 0)
    && (o.storage.v.Some? <==> o.status == 2)
  }

  class Cacher {
    var status: nat
    var storage: Storage
    var alarm: Option<nat>
    const ttl: nat

    function Contents(): Object
      reads this
    {
      Object(status, storage, alarm)
    }

    /** Wake the object up over what storage holds. */
    constructor (ttl: nat, storage: Storage, alarm: Option<nat>)
      ensures this.ttl == ttl
      ensures Contents() == Wake(storage, alarm)
    {
      this.ttl := ttl;
      this.storage := storage;
      this.alarm := alarm;
      this.status := if storage.s.Some? then storage.s.value else 0;
    }

    method Obtain() returns (ok: bool)
      modifies this
      ensures (Contents(), ok) == DoObtain(old(Contents()))
    {
      if status == 0 {
        status := 1;
        storage := storage.(s := Some(status));
        return true;
      }
      return false;
    }

    method Get() returns (r: Got)
      ensures r == DoGet(Contents())
      ensures r == NotObtained <==> status == 0
      ensures Valid(Contents()) ==> (r.Value? <==> status == 2) && (r.Value? ==> storage.v == Some(r.value))
    {
      if status == 0 {
        return NotObtained;
      } else if status != 2 {
        return Pending;
      }
      return if storage.v.Some? then Value(storage.v.value) else Pending;
    }

    method Set(value: Bytes, now: nat)
      modifies this
      ensures Contents() == DoSet(old(Contents()), value, now + ttl)
    {
      status := 2;
      alarm := Some(now + ttl);
      storage := Storage(Some(status), Some(value));
    }

    method Del()
      modifies this
      ensures Contents() == NEW
    {
      status := 0;
      alarm := None;
      storage := NO_STORAGE;
    }
  }

  function Wake(storage: Storage, alarm: Option<nat>): Object {
    Object(if storage.s.Some? then storage.s.value else 0, storage, alarm)
  }

  function DoObtain(o: Object): (Object, bool) {
    if o.status == 0 then (o.(status := 1, storage := o.storage.(s := Some(1))), true) else (o, false)
  }

  function DoGet(o: Object): Got {
    if o.status == 0 then NotObtained
    else if o.status != 2 || o.storage.v.None? then Pending
    else Value(o.storage.v.value)
  }

  function DoSet(o: Object, value: Bytes, alarm: nat): Object {
    Object(2, Storage(Some(2), Some(value)), Some(alarm))
  }

  /******* Runs of one object *******/

  /** `Rebuild` is an eviction followed by a wake-up: memory is lost, storage and alarm are not. */
  datatype Call = Obtain | Set(value: Bytes, alarm: nat) | Del | Alarm | Rebuild

  predicate Resets(c: Call) { c.Del? || c.Alarm? }

  function Apply(o: Object, c: Call): Object {
    match c
    case Obtain => DoObtain(o).0
    case Set(value, alarm) => DoSet(o, value, alarm)
    case Del => NEW
    case Alarm => NEW
    case Rebuild => Wake(o.storage, o.alarm)
  }

  function Run(o: Object, run: seq<Call>): Object {
    if run == [] then o else Apply(Run(o, run[..|run| - 1]), run[|run| - 1])
  }

  lemma RunStep(o: Object, run: seq<Call>, i: nat)
    requires i < |run|
    ensures Run(o, run[..i + 1]) == Apply(Run(o, run[..i]), run[i])
  {
    assert run[..i + 1][..i] == run[..i];
  }

  lemma RunSnoc(o: Object, run: seq<Call>, c: Call)
    ensures Run(o, run + [c]) == Apply(Run(o, run), c)
  {
    assert (run + [c])[..|run|] == run;
  }

  /** In every reachable state memory agrees with storage, and the value is there exactly when the status is 2. */
  lemma {:induction false} AlwaysValid(o: Object, run: seq<Call>)
    requires Valid(o)
    ensures Valid(Run(o, run))
  {
    if run != [] {
      AlwaysValid(o, run[..|run| - 1]);
    }
  }

  /** An eviction forgets the status in memory and nothing else: what it was makes no difference. */
  lemma RebuildForgetsMemory(storage: Storage, alarm: Option<nat>, status: nat, other: nat)
    ensures Apply(Object(status, storage, alarm), Rebuild) == Apply(Object(other, storage, alarm), Rebuild)
    ensures Apply(Object(status, storage, alarm), Rebuild).storage == storage
    ensures Apply(Object(status, storage, alarm), Rebuild).alarm == alarm
  {
  }

  /** The run without its evictions. */
  function Kept(run: seq<Call>): seq<Call> {
    if run == [] then []
    else Kept(run[..|run| - 1]) + (if run[|run| - 1].Rebuild? then [] else [run[|run| - 1]])
  }

  /** Evictions cannot be seen: any run ends where the run without them ends. */
  lemma {:induction false} RebuildsAreInvisible(o: Object, run: seq<Call>)
    requires Valid(o)
    ensures Run(o, run) == Run(o, Kept(run))
  {
    if run != [] {
      var n := |run| - 1;
      RebuildsAreInvisible(o, run[..n]);
      AlwaysValid(o, run[..n]);
      if !run[n].Rebuild? {
        assert Kept(run)[..|Kept(run)| - 1] == Kept(run[..n]);
      } else {
        assert Kept(run) == Kept(run[..n]);
      }
    }
  }

  lemma {:induction false} StaysTaken(o: Object, run: seq<Call>, i: nat, j: nat)
    requires Valid(o) && i <= j <= |run|
    requires Run(o, run[..i]).status != 0
    requires forall m | i <= m < j :: !Resets(run[m])
    ensures Run(o, run[..j]).status != 0
    decreases j
  {
    if i < j {
      StaysTaken(o, run, i, j - 1);
      RunStep(o, run, j - 1);
      AlwaysValid(o, run[..j - 1]);
    }
  }

  /** Nothing but rebuilds since the last reset, or since the beginning. */
  predicate Untouched(run: seq<Call>) {
    run == [] ||
    var last := run[|run| - 1];
    Resets(last) || (last.Rebuild? && Untouched(run[..|run| - 1]))
  }

  /** Exactly when `obtain` is granted. */
  lemma {:induction false} GrantedIff(run: seq<Call>)
    ensures DoObtain(Run(NEW, run)).1 <==> Untouched(run)
  {
    if run != [] {
      GrantedIff(run[..|run| - 1]);
      AlwaysValid(NEW, run[..|run| - 1]);
    }
  }

  /** Two `obtain` calls that both succeed have a reset between them. */
  lemma OneObtainBetweenResets(o: Object, run: seq<Call>, i: nat, j: nat)
    requires Valid(o) && i < j < |run| && run[i].Obtain? && run[j].Obtain?
    requires DoObtain(Run(o, run[..i])).1 && DoObtain(Run(o, run[..j])).1
    ensures exists m | i < m < j :: Resets(run[m])
  {
    if forall m | i < m < j :: !Resets(run[m]) {
      RunStep(o, run, i);
      StaysTaken(o, run, i + 1, j);
    }
  }

  /** The last value set since the last reset. */
  function LastSet(run: seq<Call>): Option<Bytes> {
    if run == [] then None
    else
      var last := run[|run| - 1];
      if Resets(last) then None
      else if last.Set? then Some(last.value)
      else LastSet(run[..|run| - 1])
  }

  /** `get` answers with a value exactly when one was set since the last reset, and then with the last one. */
  lemma {:induction false} GetReturnsLastSet(run: seq<Call>)
    ensures DoGet(Run(NEW, run)).Value? <==> LastSet(run).Some?
    ensures LastSet(run).Some? ==> DoGet(Run(NEW, run)) == Value(LastSet(run).value)
  {
    if run != [] {
      GetReturnsLastSet(run[..|run| - 1]);
      AlwaysValid(NEW, run[..|run| - 1]);
    }
  }

  /** The alarm of the last `set` since the last reset. */
  function LastAlarm(run: seq<Call>): Option<nat> {
    if run == [] then None
    else
      var last := run[|run| - 1];
      if Resets(last) then None
      else if last.Set? then Some(last.alarm)
      else LastAlarm(run[..|run| - 1])
  }

  /** An alarm stands exactly while a value does, at the time that came with it. */
  lemma {:induction false} AlarmStandsForTheValue(run: seq<Call>)
    ensures Run(NEW, run).alarm == LastAlarm(run)
    ensures Run(NEW, run).alarm.Some? <==> Run(NEW, run).status == 2
  {
    if run != [] {
      AlarmStandsForTheValue(run[..|run| - 1]);
      AlwaysValid(NEW, run[..|run| - 1]);
    }
  }

  /******* Polling *******/

  datatype PollResult = Found(value: Bytes) | Threw | TimedOut

  /** The worker's polling loop; `looks` are the successive answers of `get`. */
  method PollingGet(looks: seq<Got>, counter: nat) returns (r: PollResult)
    requires counter <= |looks|
    ensures r == TimedOut <==> forall i | 0 <= i < counter :: looks[i] == Pending
    ensures r != TimedOut ==> exists n | 0 <= n < counter ::
              && (forall i | 0 <= i < n :: looks[i] == Pending)
              && looks[n] != Pending
              && r == (if looks[n].Value? then Found(looks[n].value) else Threw)
  {
    var left: nat := counter;
    while left > 0
      invariant left <= counter
      invariant forall i | 0 <= i < counter - left :: looks[i] == Pending
    {
      match looks[counter - left] {
        case NotObtained => return Threw;
        case Value(value) => return Found(value);
        case Pending =>
      }
      left := left - 1;
    }
    return TimedOut;
  }
}
