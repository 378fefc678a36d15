/**
 The Redis store and the in-memory store are two implementations of one cell per key. Redis
 marks an unanswered lock by the single byte 0 and tells it from an answer by length.

 Redis itself is an expiring map: a key whose time has come does not exist.
 */
module RedisStore {
  import opened Wrappers
  import CS = CacheStore
  import opened CacheRuns

  type Data = map<string, CS.Entry>

  const MARKER: Bytes := [0]

  predicate Exists(d: Data, key: string, now: nat) {
    key in d && d[key].expireAt > now
  }

  class RedisClient {
    var data: Data

    constructor ()
      ensures data == map[]
    {
      data := map[];
    }

    /** SET key \0 NX PX ttl */
    method Obtain(key: string, now: nat, ttl: nat) returns (ok: bool)
      modifies this
      ensures (data, ok) == RedisObtain(old(data), key, now, ttl)
      ensures ok ==> data[key] == CS.Entry(now + ttl, [0])
    {
      ok := !Exists(data, key, now);
      if ok {
        data := data[key := CS.Entry(now + ttl, MARKER)];
      }
    }

    /** SET key val XX PX ttl */
    method Set(key: string, val: Bytes, now: nat, ttl: nat) returns (ok: bool)
      modifies this
      ensures (data, ok) == RedisSet(old(data), key, val, now, ttl)
    {
      ok := Exists(data, key, now);
      if ok {
        data := data[key := CS.Entry(now + ttl, val)];
      }
    }

    method Del(key: string)
      modifies this
      ensures data == old(data) - {key}
    {
      data := data - {key};
    }

    /** GET key */
    method Get(key: string, now: nat) returns (r: Option<Bytes>)
      ensures r.Some? <==> key in data && data[key].expireAt > now
      ensures r.Some? ==> r.value == data[key].value
    {
      r := if Exists(data, key, now) then Some(data[key].value) else None;
    }
  }

  function RedisObtain(d: Data, key: string, now: nat, ttl: nat): (Data, bool) {
    if Exists(d, key, now) then (d, false) else (d[key := CS.Entry(now + ttl, MARKER)], true)
  }

  function RedisSet(d: Data, key: string, val: Bytes, now: nat, ttl: nat): (Data, bool) {
    if Exists(d, key, now) then (d[key := CS.Entry(now + ttl, val)], true) else (d, false)
  }

  function RedisGet(d: Data, key: string, now: nat): Option<Bytes> {
    if Exists(d, key, now) then Some(d[key].value) else None
  }

  /** What one look of a poller concludes. */
  datatype Verdict = NoLock | Wait | Answer(value: Bytes)

  function RedisVerdict(d: Data, key: string, now: nat): Verdict {
    match RedisGet(d, key, now)
    case None => NoLock
    case Some(v) => if |v| > 1 then Answer(v) else Wait
  }

  /** The in-memory poller does not ask whether the entry has expired. */
  function MemoryVerdict(s: CS.Store, key: string): Verdict {
    if key !in s.kv then NoLock
    else if s.kv[key].value == [] then Wait
    else Answer(s.kv[key].value)
  }

  /** Keep looking until a look decides or the counter runs out; `looks` are the successive replies to GET. */
  method PollingGet(looks: seq<Option<Bytes>>, counter: nat) returns (v: Verdict)
    requires counter <= |looks|
    ensures v == NoLock <==> exists i | 0 <= i < counter :: looks[i].None? && Unanswered(looks[..i])
    ensures forall val :: v == Answer(val) <==>
              |val| > 1 && exists i | 0 <= i < counter :: looks[i] == Some(val) && Unanswered(looks[..i])
    ensures v == Wait <==> Unanswered(looks[..counter])
  {
    var left: nat := counter;
    while left > 0
      invariant left <= counter
      invariant Unanswered(looks[..counter - left])
    {
      ghost var n := counter - left;
      match looks[counter - left] {
        case None =>
          assert forall i | n < i <= counter :: !Unanswered(looks[..i]) by { NotPast(looks, n, counter); }
          return NoLock;
        case Some(v0) =>
          if |v0| > 1 {
            assert forall i | n < i <= counter :: !Unanswered(looks[..i]) by { NotPast(looks, n, counter); }
            return Answer(v0);
          }
      }
      left := left - 1;
      assert looks[..n + 1] == looks[..n] + [looks[n]];
    }
    assert forall i | 0 <= i < counter :: looks[i] == looks[..counter][i];
    return Wait;
  }

  ghost predicate Unanswered(looks: seq<Option<Bytes>>) {
    forall i | 0 <= i < |looks| :: looks[i].Some? && |looks[i].value| <= 1
  }

  lemma NotPast(looks: seq<Option<Bytes>>, n: nat, counter: nat)
    requires n < counter <= |looks| && !(looks[n].Some? && |looks[n].value| <= 1)
    ensures forall i | n < i <= counter :: !Unanswered(looks[..i])
  {
  }

  function RedisView(d: Data, key: string, now: nat): CS.Cell {
    if !Exists(d, key, now) then CS.Absent
    else if |d[key].value| > 1 then CS.Ready(d[key].expireAt, d[key].value)
    else CS.Pending(d[key].expireAt)
  }

  datatype RedisWorld = RedisWorld(data: Data, now: nat)

  function RedisApply(w: RedisWorld, a: Action): RedisWorld {
    match a
    case DoObtain(key, ttl) => w.(data := RedisObtain(w.data, key, w.now, ttl).0)
    case DoSet(key, val, ttl) => w.(data := RedisSet(w.data, key, val, w.now, ttl).0)
    case DoDel(key) => w.(data := w.data - {key})
    case DoClean(_) => w
    case Tick(ms) => w.(now := w.now + ms)
  }

  function RedisRun(w: RedisWorld, run: seq<Action>): RedisWorld {
    if run == [] then w else RedisApply(RedisRun(w, run[..|run| - 1]), run[|run| - 1])
  }

  function RedisCell(w: RedisWorld, key: string): CellWorld {
    CellWorld(RedisView(w.data, key, w.now), w.now)
  }

  /** One Redis command is one step of the cell, exactly when it does not store a single byte. */
  lemma RedisStepRefinesCellIff(w: RedisWorld, a: Action, key: string)
    ensures RedisCell(RedisApply(w, a), key) == CellApply(RedisCell(w, key), a, key) <==>
            !(a.DoSet? && a.key == key && |a.val| == 1 && a.ttl > 0 && Exists(w.data, key, w.now))
  {
  }

  predicate NoSingleByte(run: seq<Action>, key: string) {
    forall i | 0 <= i < |run| :: run[i].DoSet? && run[i].key == key ==> |run[i].val| != 1
  }

  lemma {:induction false} RedisRunRefinesCell(w: RedisWorld, run: seq<Action>, key: string)
    requires NoSingleByte(run, key)
    ensures RedisCell(RedisRun(w, run), key) == CellRun(RedisCell(w, key), run, key)
  {
    if run != [] {
      RedisRunRefinesCell(w, run[..|run| - 1], key);
      RedisStepRefinesCellIff(RedisRun(w, run[..|run| - 1]), run[|run| - 1], key);
    }
  }

  /**
   The two stores are the same cell. After any run of calls that stores no single byte on the
   key and has no late `set` on it, from equal views, the views are equal and the next `obtain`
   and the next `set` succeed in both stores or are refused in both; and the next look of a
   poller concludes the same in both if and only if the in-memory map holds no expired leftover.
   */
  lemma MemoryAndRedisAgree(m: World, r: RedisWorld, run: seq<Action>, key: string, val: Bytes, ttl: nat)
    requires CS.ExactAt(m.store, key) && PossibleRun(m, run) && NoLateSet(m, run, key) && NoSingleByte(run, key)
    requires CellOf(m, key) == RedisCell(r, key)
    ensures var m', r' := Run(m, run), RedisRun(r, run);
            && CellOf(m', key) == RedisCell(r', key)
            && CS.Obtain(m'.store, key, m'.now, ttl).1 == RedisObtain(r'.data, key, r'.now, ttl).1
            && (CS.Set(m'.store, key, val, m'.now, ttl).1 == CS.Stored) == RedisSet(r'.data, key, val, r'.now, ttl).1
            && (MemoryVerdict(m'.store, key) == RedisVerdict(r'.data, key, r'.now) <==>
                  (key in m'.store.kv ==> CS.Live(m'.store, key, m'.now)))
  {
    RunRefinesCell(m, run, key);
    RedisRunRefinesCell(r, run, key);
  }
}
