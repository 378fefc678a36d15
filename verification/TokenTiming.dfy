/**
 When a stored token can be expired. The timer starts a refresh every `interval` seconds; each
 signs its tokens at some moments and writes them at a later one, within `limit` of its start;
 refreshes may overlap and finish in any order. Clocks are in nanoseconds and the canister's and the
 verifier's agree; both sides then drop to whole seconds.
 */
module TokenTiming {
  import opened Wrappers
  import opened Tokens

  /** The verifier's allowance, in seconds. */
  const PERMITTED_DRIFT := 10

  const NANOS_PER_MILLI := 1_000_000

  /** The verifier's test, on a clock in milliseconds. */
  predicate Expired(expireAt: nat, unixMs: nat) {
    expireAt + PERMITTED_DRIFT < unixMs / 1000
  }

  /** One run of the signing loop: its list, what the signer answered and when, and when the list was written back. */
  datatype Refresh = Refresh(list: seq<Agent>, signings: seq<Signing>, finishedAt: nat)

  datatype Schedule = Schedule(first: nat, refresh: nat -> Refresh)

  /** Refresh `i` starts `i` periods after the first. */
  function Started(s: Schedule, period: nat, i: nat): nat {
    s.first + i * period
  }

  function FinishedAt(s: Schedule, i: nat): nat {
    s.refresh(i).finishedAt
  }

  /** A refresh that started at `start`: it signs while it runs, and ends in time. */
  predicate InTime(r: Refresh, interval: nat, start: nat, limit: nat) {
    && |r.list| <= |r.signings| && SignAll(r.list, interval, r.signings).Some?
    && (forall j | 0 <= j < |r.signings| :: start <= r.signings[j].askedNs <= r.finishedAt)
    && start <= r.finishedAt <= start + limit
  }

  ghost predicate Keeps(s: Schedule, interval: nat, limit: nat) {
    forall i: nat :: InTime(s.refresh(i), interval, Started(s, Period(interval), i), limit)
  }

  /** At `t` the stored list is refresh `m`'s: it has been written, and nobody wrote after it and before `t`. */
  ghost predicate Stored(s: Schedule, m: nat, t: nat) {
    FinishedAt(s, m) <= t && forall i: nat :: FinishedAt(s, i) < t ==> FinishedAt(s, i) <= FinishedAt(s, m)
  }

  /** The list that refresh `m` wrote. */
  function ListOf(s: Schedule, interval: nat, m: nat): seq<Agent> {
    var written := SignAll(s.refresh(m).list, interval, s.refresh(m).signings);
    if written.Some? then written.value else []
  }

  /** No agent of the stored list ever has a token that the verifier finds expired. */
  ghost predicate AlwaysFresh(s: Schedule, interval: nat) {
    forall m: nat, t: nat | Stored(s, m, t) :: ListFresh(ListOf(s, interval, m), t)
  }

  predicate ListFresh(list: seq<Agent>, t: nat) {
    forall a | a in list :: a.token.Some? && !Expired(a.token.value.expireAt, t / NANOS_PER_MILLI)
  }

  /**
   The verifier's test on the loop's own output: each token lasts until 130 s and the interval after it
   was asked for.
   */
  lemma TokenLastsUntil(list: seq<Agent>, interval: nat, signings: seq<Signing>, i: nat) returns (j: nat)
    requires |list| <= |signings| && i < |list| && SignAll(list, interval, signings).Some?
    ensures var after := SignAll(list, interval, signings).value;
            && |after| == |list| && after[i].token.Some?
            && j < |signings| && signings[j].signature == Some(after[i].token.value.signature)
            && forall ms: nat :: Expired(after[i].token.value.expireAt, ms) <==>
                            ms / 1000 > signings[j].askedNs / 1_000_000_000 + interval + 130
  {
    SignAllMeaning(list, interval, signings);
    var after := SignAll(list, interval, signings).value;
    assert BareList(after) == BareList(list);
    j :| 0 <= j < |Names(list)| && SignedBy(signings, j, interval, after[i].token.value);
  }

  /** Slow refreshes may finish after `limit / period` later ones; this is how stale that can get. */
  predicate WithinMargin(period: nat, limit: nat)
    requires period > 0
  {
    limit + (limit / period) * period <= 130 * NANOS
  }

  function Period(interval: nat): nat {
    interval * NANOS
  }

  lemma MillisToSeconds(t: nat)
    ensures (t / NANOS_PER_MILLI) / 1000 == t / NANOS
  {
  }

  /** Dropping to whole seconds on both sides loses nothing when the gap is at most a whole number of seconds. */
  lemma FloorKeepsGap(t: nat, u: nat, n: nat)
    requires t <= u + n * NANOS
    ensures t / NANOS <= u / NANOS + n
  {
  }

  lemma Product(a: nat, b: nat, c: nat)
    requires a <= b
    ensures a * c <= b * c
    ensures (b - a) * c == b * c - a * c
    ensures (b + 1) * c == b * c + c
  {
  }

  lemma LastMultiple(n: nat, d: nat) returns (q: nat)
    requires d > 0
    ensures q * d <= n < (q + 1) * d && q == n / d
  {
    q := n / d;
    assert n == q * d + n % d;
    Product(q, q, d);
  }

  lemma MultiplesFit(n: nat, period: nat, limit: nat)
    requires period > 0 && n * period <= limit
    ensures n * period <= (limit / period) * period
  {
    var k := LastMultiple(limit, period);
    if n > k {
      Product(k + 1, n, period);
    } else {
      Product(n, k, period);
    }
  }

  /** A token that was written after refresh `p`'s was signed at most `limit / period` periods before `p` started. */
  lemma SignedNotLongBefore(first: nat, period: nat, limit: nat, p: nat, m: nat, written: nat)
    requires period > 0
    requires first + p * period <= written <= first + m * period + limit
    ensures first + p * period <= first + m * period + (limit / period) * period
  {
    if m >= p {
      Product(p, m, period);
      Product(0, limit / period, period);
    } else {
      Product(m, p, period);
      MultiplesFit(p - m, period, limit);
    }
  }

  /** How long ago the stored refresh can have started. */
  lemma AgeBound(s: Schedule, interval: nat, limit: nat, m: nat, t: nat)
    requires interval > 0 && Keeps(s, interval, limit) && Stored(s, m, t)
    ensures var period := Period(interval);
            t <= Started(s, period, m) + period + limit + (limit / period) * period
  {
    var period := Period(interval);
    assert InTime(s.refresh(m), interval, Started(s, period, m), limit);
    Product(0, m, period);
    Product(0, limit / period, period);
    if t > s.first + limit {
      var p := LastMultiple(t - limit - s.first - 1, period);
      assert InTime(s.refresh(p), interval, Started(s, period, p), limit);
      assert FinishedAt(s, p) < t;
      assert FinishedAt(s, p) <= FinishedAt(s, m);
      Product(p, p, period);
      SignedNotLongBefore(s.first, period, limit, p, m, FinishedAt(s, m));
    }
  }

  lemma MarginSuffices(s: Schedule, interval: nat, limit: nat)
    requires interval > 0 && Keeps(s, interval, limit) && WithinMargin(Period(interval), limit)
    ensures AlwaysFresh(s, interval)
  {
    forall m: nat, t: nat | Stored(s, m, t) ensures ListFresh(ListOf(s, interval, m), t) {
      AgeBound(s, interval, limit, m, t);
      StoredIsFresh(s, interval, limit, m, t);
    }
  }

  lemma StoredIsFresh(s: Schedule, interval: nat, limit: nat, m: nat, t: nat)
    requires interval > 0 && Keeps(s, interval, limit) && WithinMargin(Period(interval), limit)
    requires var period := Period(interval);
             t <= Started(s, period, m) + period + limit + (limit / period) * period
    ensures ListFresh(ListOf(s, interval, m), t)
  {
    var r, period := s.refresh(m), Period(interval);
    assert InTime(r, interval, Started(s, period, m), limit);
    SignAllMeaning(r.list, interval, r.signings);
    var list := ListOf(s, interval, m);
    forall a | a in list ensures a.token.Some? && !Expired(a.token.value.expireAt, t / NANOS_PER_MILLI) {
      var i :| 0 <= i < |list| && list[i] == a;
      assert BareList(list) == BareList(r.list);
      var j := TokenLastsUntil(r.list, interval, r.signings, i);
      FloorKeepsGap(t, r.signings[j].askedNs, interval + 130);
      MillisToSeconds(t);
    }
  }

  /** Refresh 0 is slow and lands on top of the ones that started during it; the next one is slow too. */
  function SlowFirst(period: nat, limit: nat): Schedule
    requires period > 0
  {
    var first := NANOS - 1;
    Schedule(
      first,
      (i: nat) => Refresh(
        [Agent("", "", 0, None)],
        [Signing(first + i * period, Some(0))],
        if i == 0 || i > limit / period then first + i * period + limit else first + i * period))
  }

  /** The list of that first refresh is still the stored one when refresh `limit / period + 1` is about to land. */
  lemma SlowFirstStored(interval: nat, limit: nat)
    requires interval > 0
    ensures var s, period := SlowFirst(Period(interval), limit), Period(interval);
            && Keeps(s, interval, limit)
            && Stored(s, 0, s.first + (limit / period + 1) * period + limit)
  {
    var period := Period(interval);
    var s := SlowFirst(period, limit);
    var k := LastMultiple(limit, period);
    var t: nat := s.first + (k + 1) * period + limit;
    forall i: nat ensures InTime(s.refresh(i), interval, Started(s, period, i), limit) {
      OneAgentSigned(s.refresh(i).signings[0], interval);
    }
    forall i: nat | FinishedAt(s, i) < t ensures FinishedAt(s, i) <= FinishedAt(s, 0) {
      if i > k {
        Product(k + 1, i, period);
      } else {
        Product(i, k, period);
      }
    }
  }

  lemma OneAgentSigned(signing: Signing, interval: nat)
    requires signing.signature.Some?
    ensures var a := Agent("", "", 0, None);
            var written := SignAll([a], interval, [signing]);
            && written.Some? && |written.value| == 1 && written.value[0].token.Some?
            && written.value[0].token.value.expireAt == signing.askedNs / 1_000_000_000 + interval + 120
  {
    var a := Agent("", "", 0, None);
    var list, signings := [a], [signing];
    SignAllMeaning(list, interval, signings);
    assert Names(list) <= {a.name} && list[0].name in Names(list);
    assert Names(list) == {a.name};
    var after := SignAll(list, interval, signings);
    var j :| 0 <= j < |Names(list)| && SignedBy(signings, j, interval, after.value[0].token.value);
    assert BareList(after.value) == BareList(list);
  }

  lemma SlowFirstIsStale(interval: nat, limit: nat)
    requires interval > 0 && !WithinMargin(Period(interval), limit)
    ensures var s := SlowFirst(Period(interval), limit);
            Keeps(s, interval, limit) && !AlwaysFresh(s, interval)
  {
    var period := Period(interval);
    var s, k := SlowFirst(period, limit), limit / period;
    var t: nat := s.first + (k + 1) * period + limit;
    SlowFirstStored(interval, limit);
    Product(k, k, period);
    assert t >= s.first + (interval + 130) * NANOS + 1;
    MillisToSeconds(t);
    OneAgentSigned(s.refresh(0).signings[0], interval);
    var list := ListOf(s, interval, 0);
    assert list[0] in list && Expired(list[0].token.value.expireAt, t / NANOS_PER_MILLI);
    assert !ListFresh(list, t);
  }

  /**
   The exact bound. Refreshes that each finish within `limit` never let the verifier see an
   expired token, whatever the lists, the overlaps and the order in which they finish, if and only
   if `limit` plus the whole intervals it contains is at most 130 s: the margin and the drift.
   */
  lemma NeverExpiredIff(interval: nat, limit: nat)
    requires interval > 0
    ensures (forall s: Schedule :: Keeps(s, interval, limit) ==> AlwaysFresh(s, interval))
            <==> WithinMargin(Period(interval), limit)
  {
    if WithinMargin(Period(interval), limit) {
      forall s: Schedule | Keeps(s, interval, limit) ensures AlwaysFresh(s, interval) {
        MarginSuffices(s, interval, limit);
      }
    } else {
      SlowFirstIsStale(interval, limit);
    }
  }

  /**
   Sixty-five seconds are always enough; a hundred and thirty are when refreshes do not overlap.
   Sixty-six are not: with an interval of sixty-six seconds a token can be seen expired.
   */
  lemma RoundBounds(period: nat, limit: nat)
    requires period > 0
    ensures limit <= 65 * NANOS ==> WithinMargin(period, limit)
    ensures limit < period ==> (WithinMargin(period, limit) <==> limit <= 130 * NANOS)
    ensures !WithinMargin(Period(66), 66 * NANOS)
  {
  }

  /** The interval the canister runs with: what it was given, or an hour if that is under ten seconds. */
  function RefreshInterval(given: nat): (r: nat)
    ensures r >= 10
    ensures r == given || (given < 10 && r == 3600)
  {
    if given >= 10 then given else 3600
  }
}
