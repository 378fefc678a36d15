/**
 The calls of ProxyCalls are runs of the ledger machine: in any machine state, with any other
 calls in flight, the segments of a call taken one after another leave the books that the call
 leaves. What the machine keeps over all interleavings is thus kept by the endpoints.
 */
module CallRuns {
  import opened Wrappers
  import opened Cycles
  import opened Ledger
  import opened ProxyCalls

  /** One HTTP request with what it is charged by. */
  datatype Job = Job(q: Request, prices: Calculator, ingressBytes: nat, http: HttpRequest) {
    ghost predicate Valid() {
      q.tariff == TariffFor(prices, ingressBytes, http)
    }

    function AsCall(kind: Kind): Call {
      Call(q.caller, kind, q.attached, ingressBytes, prices.RequestBytes(http))
    }

    function Answer(r: AgentResult): Option<nat> {
      if r.Ok? then Some(prices.ResponseBytes(r.res)) else None
    }
  }

  function BooksAfter(end: CallEnd): Books {
    match end
    case Undone(books) => books
    case Returned(frame, _) => frame.books
  }

  /** Deliver the agents' answers to flight `id`, one segment each, until the call has ended. */
  function Deliver(m: Machine, id: nat, job: Job, results: seq<AgentResult>): Machine
    decreases |results|
  {
    if results == [] || id !in m.flights then m
    else Deliver(StepSettle(m, id, job.Answer(results[0]), job.q.finishMs), id, job, results[1..])
  }

  /** Flight `id` is `job`'s, and its ledger stands at `f`. */
  ghost predicate FliesAt(m: Machine, id: nat, job: Job, kind: Kind, f: Frame) {
    && id in m.flights && m.books == f.books && f.available <= job.q.attached
    && var fl := m.flights[id];
    && fl.call == job.AsCall(kind) && fl.prices == PricesOf(job.prices) && fl.available == f.available
  }

  /** What the sequential loop does once `results[0]`'s request is paid for. */
  function AwaitFirst(q: Request, f: Frame, results: seq<AgentResult>): CallEnd
    requires f.available <= q.attached && results != []
  {
    match results[0]
    case Ok(res) => Finish(q, Receive(f, q.Answering(res, 1), true).value, res)
    case Err(res) => SequentialFrom(q, f.books, f, results[1..], Some(res))
  }

  lemma AnswerEndsSequential(m: Machine, id: nat, job: Job, f: Frame, res: HttpResponse)
    requires job.Valid() && FliesAt(m, id, job, Sequential, f) && Fits(f.books)
    ensures var m' := StepSettle(m, id, job.Answer(Ok(res)), job.q.finishMs);
            id !in m'.flights && m'.books == BooksAfter(AwaitFirst(job.q, f, [Ok(res)]))
  {
  }

  lemma {:induction false} DeliverIsTheLoop(m: Machine, id: nat, job: Job, f: Frame, results: seq<AgentResult>)
    requires job.Valid() && FliesAt(m, id, job, Sequential, f) && Fits(f.books)
    requires results != [] && m.flights[id].asked + |results| == m.flights[id].agents + 1
    ensures var m' := Deliver(m, id, job, results);
            id !in m'.flights && m'.books == BooksAfter(AwaitFirst(job.q, f, results))
    decreases |results|
  {
    var q, tail := job.q, results[1..];
    var m1 := StepSettle(m, id, job.Answer(results[0]), q.finishMs);
    if results[0].Ok? {
      AnswerEndsSequential(m, id, job, f, results[0].res);
    } else if tail != [] {
      ReceiveMeaning(f, q.Asking(1), false);
      var g := Receive(f, q.Asking(1), false);
      if g.Some? {
        assert FliesAt(m1, id, job, Sequential, g.value);
        DeliverIsTheLoop(m1, id, job, g.value, tail);
        assert AwaitFirst(q, f, results) == AwaitFirst(q, g.value, tail);
      }
    }
  }

  /** `proxy_http_request`, in any state of the machine. */
  lemma SequentialCallIsARun(m: Machine, id: nat, job: Job, results: seq<AgentResult>)
    requires job.Valid() && m.prices == PricesOf(job.prices) && m.agents == |results| && Fits(m.books)
    requires Enabled(m, Begin(id, job.AsCall(Sequential)))
    ensures var m' := Deliver(Step(m, Begin(id, job.AsCall(Sequential))), id, job, results);
            id !in m'.flights && m'.books == BooksAfter(SequentialCall(job.q, m.books, results))
  {
    var q, call := job.q, job.AsCall(Sequential);
    var f0 := Frame(m.books, q.attached);
    if q.caller in m.books.callers && results != [] {
      ReceiveMeaning(f0, q.Ingress(), false);
      var f := Receive(f0, q.Ingress(), false);
      if f.Some? {
        ReceiveMeaning(f.value, q.Asking(1), false);
        var g := Receive(f.value, q.Asking(1), false);
        if g.Some? {
          var m1 := Step(m, Begin(id, call));
          assert FliesAt(m1, id, job, Sequential, g.value);
          DeliverIsTheLoop(m1, id, job, g.value, results);
        }
      }
    }
  }

  /** The joint answer of agents asked at once: what the response phase is charged for, if anything. */
  function AllOkAnswer(job: Job, results: seq<AgentResult>, order: seq<nat>): Option<nat>
    requires results != [] && CompletionOrder(order, |results|)
  {
    if FirstErr(results, order).Some? then None else Some(job.prices.ResponseBytes(results[0].res))
  }

  function AnyOkAnswer(job: Job, results: seq<AgentResult>, order: seq<nat>): Option<nat>
    requires results != [] && CompletionOrder(order, |results|)
  {
    job.Answer(FirstOk(results, order))
  }

  ghost function Joint(m: Machine, id: nat, job: Job, answer: Option<nat>): Machine
    requires Enabled(m, Begin(id, job.AsCall(Parallel)))
  {
    var m1 := Step(m, Begin(id, job.AsCall(Parallel)));
    if id in m1.flights then StepSettle(m1, id, answer, job.q.finishMs) else m1
  }

  /** The joint answer settles the whole call. */
  lemma JointSettles(m: Machine, id: nat, job: Job, f: Frame, res: HttpResponse)
    requires job.Valid() && FliesAt(m, id, job, Parallel, f) && Fits(f.books)
    ensures var m' := StepSettle(m, id, Some(job.prices.ResponseBytes(res)), job.q.finishMs);
            var g := Receive(f, job.q.Answering(res, m.flights[id].agents), true);
            && g.Some? && g.value.available <= f.available
            && id !in m'.flights && m'.books == Finish(job.q, g.value, res).frame.books
    ensures var m' := StepSettle(m, id, None, job.q.finishMs);
            id !in m'.flights && m'.books == Finish(job.q, f, res).frame.books
  {
  }

  /** The first segment of a parallel call. */
  lemma ParallelOpens(m: Machine, id: nat, job: Job, agents: nat)
    requires job.Valid() && m.prices == PricesOf(job.prices) && m.agents == agents > 0 && Fits(m.books)
    requires Enabled(m, Begin(id, job.AsCall(Parallel)))
    ensures var m1 := Step(m, Begin(id, job.AsCall(Parallel)));
            match Receive(Frame(m.books, job.q.attached), job.q.Ingress() + job.q.Asking(agents), false)
            case None => m1 == m
            case Some(f) =>
              if job.q.caller !in m.books.callers then m1 == m
              else FliesAt(m1, id, job, Parallel, f) && m1.flights[id].agents == agents && Fits(f.books)
  {
  }

  /** The joint answers settle what the endpoints charge in their response phase. */
  lemma JointAnswersSettle(m: Machine, id: nat, job: Job, f: Frame, results: seq<AgentResult>, order: seq<nat>)
    requires job.Valid() && FliesAt(m, id, job, Parallel, f) && Fits(f.books)
    requires results != [] && CompletionOrder(order, |results|) && m.flights[id].agents == |results|
    ensures var m' := StepSettle(m, id, AllOkAnswer(job, results, order), job.q.finishMs);
            id !in m'.flights
            && m'.books == Finish(job.q, AllOkPays(job.q, f, results, order), results[0].res).frame.books
    ensures var m' := StepSettle(m, id, AnyOkAnswer(job, results, order), job.q.finishMs);
            id !in m'.flights
            && m'.books == Finish(job.q, AnyOkPays(job.q, f, results, order), results[0].res).frame.books
  {
    JointSettles(m, id, job, f, results[0].res);
    JointSettles(m, id, job, f, FirstOk(results, order).res);
  }

  lemma ParallelBooks(q: Request, books: Books, f: Frame, results: seq<AgentResult>, order: seq<nat>,
                      encode: seq<HttpResponse> -> Bytes)
    requires CompletionOrder(order, |results|) && results != [] && q.caller in books.callers
    requires Receive(Frame(books, q.attached), q.Ingress() + q.Asking(|results|), false) == Some(f)
    ensures f.available <= q.attached
    ensures BooksAfter(AllOkCall(q, books, results, order, encode))
            == Finish(q, AllOkPays(q, f, results, order), results[0].res).frame.books
    ensures BooksAfter(AnyOkCall(q, books, results, order))
            == Finish(q, AnyOkPays(q, f, results, order), results[0].res).frame.books
  {
    AllOkEnds(q, books, f, results, order, encode);
    AnyOkEnds(q, books, f, results, order);
  }

  /** `parallel_call_all_ok` and `parallel_call_any_ok`, for every completion order, in any state of the machine. */
  lemma ParallelCallsAreRuns(m: Machine, id: nat, job: Job, results: seq<AgentResult>, order: seq<nat>,
                             encode: seq<HttpResponse> -> Bytes)
    requires job.Valid() && m.prices == PricesOf(job.prices) && m.agents == |results| && Fits(m.books)
    requires results != [] && CompletionOrder(order, |results|)
    requires Enabled(m, Begin(id, job.AsCall(Parallel)))
    ensures var m' := Joint(m, id, job, AllOkAnswer(job, results, order));
            id !in m'.flights && m'.books == BooksAfter(AllOkCall(job.q, m.books, results, order, encode))
    ensures var m' := Joint(m, id, job, AnyOkAnswer(job, results, order));
            id !in m'.flights && m'.books == BooksAfter(AnyOkCall(job.q, m.books, results, order))
  {
    var q, n := job.q, |results|;
    ParallelOpens(m, id, job, n);
    var f := Receive(Frame(m.books, q.attached), q.Ingress() + q.Asking(n), false);
    if q.caller in m.books.callers && f.Some? {
      ParallelBooks(q, m.books, f.value, results, order, encode);
      JointAnswersSettle(Step(m, Begin(id, job.AsCall(Parallel))), id, job, f.value, results, order);
    }
  }

  /******* Other calls and admin steps between the segments *******/

  lemma PurseMeaning(f: Frame, cycles: nat, ignoreInsufficient: bool)
    ensures Receive(f, cycles, ignoreInsufficient).None? <==> !ignoreInsufficient && cycles > f.available
    ensures Receive(f, cycles, ignoreInsufficient).Some? ==>
              Receive(f, cycles, ignoreInsufficient).value.available == f.available - Min(cycles, f.available)
  {
  }

  /** What the first segment asks for. */
  function Deposit(job: Job, kind: Kind, agents: nat): nat {
    job.q.Ingress() + job.q.Asking(if kind == Sequential then 1 else agents)
  }

  /** The flight of `job` when its first segment has been paid for. */
  ghost predicate Opened(fl: Flight, job: Job, kind: Kind, agents: nat) {
    && fl.call == job.AsCall(kind) && fl.prices == PricesOf(job.prices) && fl.agents == agents
    && fl.asked == (if kind == Sequential then 1 else agents)
    && Deposit(job, kind, agents) <= job.q.attached
    && fl.available == job.q.attached - Deposit(job, kind, agents)
  }

  /** A call takes off exactly when its purse covers the first segment. */
  lemma BeginOpens(m: Machine, id: nat, job: Job, kind: Kind)
    requires job.Valid() && m.prices == PricesOf(job.prices) && m.agents > 0 && job.q.caller in m.books.callers
    requires Enabled(m, Begin(id, job.AsCall(kind)))
    ensures var m' := Step(m, Begin(id, job.AsCall(kind)));
            && (id in m'.flights <==> Deposit(job, kind, m.agents) <= job.q.attached)
            && (id in m'.flights ==> Opened(m'.flights[id], job, kind, m.agents))
  {
  }

  /** New agents and prices hold for the calls that begin after them. */
  lemma SettingsTakeEffect(m: Machine, agents: nat, prices: Prices, id: nat, call: Call)
    requires Enabled(m, Begin(id, call))
    ensures var m' := Step(Step(Step(m, SetAgents(agents)), Configure(prices)), Begin(id, call));
            && m'.agents == agents && m'.prices == prices
            && (id in m'.flights ==> m'.flights[id].agents == agents && m'.flights[id].prices == prices)
  {
  }

  /** A step that is not about call `id` leaves its flight as it is. */
  lemma OthersLeaveIt(m: Machine, e: Event, id: nat)
    requires Enabled(m, e) && id in m.flights && !((e.Begin? || e.Settle? || e.Crash?) && e.id == id)
    ensures id in Step(m, e).flights && Step(m, e).flights[id] == m.flights[id]
  {
  }

  /**
   The machine just before each answer of call `id` is delivered: between two of them anything may
   happen to others.
   */
  ghost predicate Delivers(before: seq<Machine>, id: nat, job: Job, results: seq<AgentResult>) {
    && 0 < |before| <= |results|
    && (forall k | 0 <= k < |before| :: id in before[k].flights)
    && (forall k | 0 < k < |before| ::
          var m := StepSettle(before[k - 1], id, job.Answer(results[k - 1]), job.q.finishMs);
          id in m.flights && m.flights[id] == before[k].flights[id])
  }

  /** Before answer `k` the call has paid for `k + 1` requests, all answered ones having failed. */
  lemma {:induction false} PaidSoFar(before: seq<Machine>, id: nat, job: Job, results: seq<AgentResult>, k: nat)
    requires job.Valid() && Delivers(before, id, job, results) && k < |before|
    requires Opened(before[0].flights[id], job, Sequential, |results|)
    ensures var fl, spent := before[k].flights[id], job.q.Ingress() + (k + 1) * job.q.Asking(1);
            && fl.call == job.AsCall(Sequential) && fl.prices == PricesOf(job.prices) && fl.agents == |results|
            && fl.asked == k + 1 && spent <= job.q.attached && fl.available == job.q.attached - spent
    ensures forall i | 0 <= i < k :: results[i].Err?
  {
    if k > 0 {
      PaidSoFar(before, id, job, results, k - 1);
      var m := before[k - 1];
      PurseMeaning(Frame(m.books, m.flights[id].available), job.q.Asking(1), false);
      OneMore(k, job.q.Asking(1));
    }
  }

  /** How the sequential call ends is how its bill says it ended. */
  predicate BillMatches(b: Bill, q: Request, end: CallEnd) {
    match end
    case Undone(_) => b.ending.Trapped?
    case Returned(frame, _) => !b.ending.Trapped? && b.accepted == q.attached - frame.available
  }

  lemma LastAnswer(m: Machine, id: nat, job: Job, books: Books, results: seq<AgentResult>, k: nat)
    requires job.Valid() && k < |results| && id in m.flights && forall i | 0 <= i < k :: results[i].Err?
    requires job.q.caller in books.callers && Fits(books)
    requires var fl, spent := m.flights[id], job.q.Ingress() + (k + 1) * job.q.Asking(1);
             && fl.call == job.AsCall(Sequential) && fl.prices == PricesOf(job.prices) && fl.agents == |results|
             && fl.asked == k + 1 && spent <= job.q.attached && fl.available == job.q.attached - spent
    requires id !in StepSettle(m, id, job.Answer(results[k]), job.q.finishMs).flights
    ensures var m' := StepSettle(m, id, job.Answer(results[k]), job.q.finishMs);
            id in m'.bills && BillMatches(m'.bills[id], job.q, SequentialCall(job.q, books, results))
  {
    var q, fl, price := job.q, m.flights[id], job.q.Asking(1);
    SequentialCallBilling(q, books, results);
    if results[k].Ok? {
      assert Asked(results) == k + 1;
      PurseMeaning(Frame(m.books, fl.available), q.Answering(results[k].res, 1), true);
    } else if k + 1 < |results| {
      PurseMeaning(Frame(m.books, fl.available), price, false);
      OneMore(k + 1, price);
      MulMono(k + 2, price, Asked(results), price);
    } else {
      assert Asked(results) == k + 1;
    }
  }

  /**
   `proxy_http_request` among others: whatever other calls and admin steps come between its
   segments, the call traps exactly when it would have alone, and otherwise takes the same cycles.
   */
  lemma SequentialCallAmongOthers(before: seq<Machine>, id: nat, job: Job, results: seq<AgentResult>, books: Books)
    requires job.Valid() && Delivers(before, id, job, results)
    requires Opened(before[0].flights[id], job, Sequential, |results|)
    requires job.q.caller in books.callers && Fits(books)
    requires var k := |before| - 1;
             id !in StepSettle(before[k], id, job.Answer(results[k]), job.q.finishMs).flights
    ensures var k := |before| - 1;
            var m' := StepSettle(before[k], id, job.Answer(results[k]), job.q.finishMs);
            id in m'.bills && BillMatches(m'.bills[id], job.q, SequentialCall(job.q, books, results))
  {
    PaidSoFar(before, id, job, results, |before| - 1);
    LastAnswer(before[|before| - 1], id, job, books, results, |before| - 1);
  }

  /** The two parallel calls among others: between their segments anything may happen to others. */
  lemma AllOkCallAmongOthers(m: Machine, id: nat, job: Job, results: seq<AgentResult>, order: seq<nat>,
                             encode: seq<HttpResponse> -> Bytes, books: Books)
    requires job.Valid() && results != [] && CompletionOrder(order, |results|)
    requires id in m.flights && Opened(m.flights[id], job, Parallel, |results|)
    requires job.q.caller in books.callers
    ensures var m' := StepSettle(m, id, AllOkAnswer(job, results, order), job.q.finishMs);
            id in m'.bills && BillMatches(m'.bills[id], job.q, AllOkCall(job.q, books, results, order, encode))
  {
    var q, fl := job.q, m.flights[id];
    var f0, cost := Frame(books, q.attached), q.Answering(results[0].res, |results|);
    PurseMeaning(f0, q.Ingress() + q.Asking(|results|), false);
    var f := Receive(f0, q.Ingress() + q.Asking(|results|), false).value;
    PurseMeaning(f, cost, true);
    PurseMeaning(Frame(m.books, fl.available), cost, true);
  }

  lemma AnyOkCallAmongOthers(m: Machine, id: nat, job: Job, results: seq<AgentResult>, order: seq<nat>, books: Books)
    requires job.Valid() && results != [] && CompletionOrder(order, |results|)
    requires id in m.flights && Opened(m.flights[id], job, Parallel, |results|)
    requires job.q.caller in books.callers
    ensures var m' := StepSettle(m, id, AnyOkAnswer(job, results, order), job.q.finishMs);
            id in m'.bills && BillMatches(m'.bills[id], job.q, AnyOkCall(job.q, books, results, order))
  {
    var q, fl := job.q, m.flights[id];
    var f0, cost := Frame(books, q.attached), q.Answering(FirstOk(results, order).res, |results|);
    PurseMeaning(f0, q.Ingress() + q.Asking(|results|), false);
    var f := Receive(f0, q.Ingress() + q.Asking(|results|), false).value;
    PurseMeaning(f, cost, true);
    PurseMeaning(Frame(m.books, fl.available), cost, true);
  }
}
