/**
 The canister's cycle ledger, and every interleaving of proxied calls, traps and admin calls.

 A message runs up to its next await and then commits; a trap undoes the message's own segment
 and nothing before it. Cycles a call has been charged in committed segments stay with the canister.
 */
module Ledger {
  import opened Wrappers
  import opened Cycles
  import opened Sums

  type Principal = nat

  const U128_MAX: nat := U128 - 1

  function SatAdd(a: nat, b: nat): nat {
    if a + b > U128_MAX then U128_MAX else a + b
  }

  function Min(a: nat, b: nat): nat {
    if a <= b then a else b
  }

  datatype Account = Account(cycles: nat, lastMs: nat)

  datatype Books = Books(callers: map<Principal, Account>, incoming: nat, uncollectible: nat)

  /** The ledger together with the cycles still attached to the running call. */
  datatype Frame = Frame(books: Books, available: nat)

  /** `receive_cycles`: None is a trap. */
  function Receive(f: Frame, cycles: nat, ignoreInsufficient: bool): Option<Frame> {
    if cycles == 0 then Some(f)
    else
      var received := Min(cycles, f.available);
      var books := f.books.(incoming := SatAdd(f.books.incoming, received));
      if cycles <= received then Some(Frame(books, f.available - received))
      else if ignoreInsufficient then
        Some(Frame(books.(uncollectible := SatAdd(books.uncollectible, cycles - received)), f.available - received))
      else None
  }

  /** `update_caller_state`: a caller removed in the meantime is not brought back. */
  function Credit(b: Books, caller: Principal, cycles: nat, nowMs: nat): Books {
    if caller in b.callers
    then b.(callers := b.callers[caller := Account(SatAdd(b.callers[caller].cycles, cycles), nowMs)])
    else b
  }

  /** The ledger as the canister keeps it: updated in place. */
  class State {
    var callers: map<Principal, Account>
    var incoming: nat
    var uncollectible: nat
    /** cycles still attached to the message being executed */
    var available: nat

    function Contents(): Frame
      reads this
    {
      Frame(Books(callers, incoming, uncollectible), available)
    }

    constructor ()
      ensures Contents() == Frame(Books(map[], 0, 0), 0)
    {
      callers := map[];
      incoming, uncollectible, available := 0, 0, 0;
    }

    /** A trap is reported by `ok == false`; whoever drives the message then restores the last commit. */
    method ReceiveCycles(cycles: nat, ignoreInsufficient: bool) returns (ok: bool)
      modifies this
      ensures ok <==> Receive(old(Contents()), cycles, ignoreInsufficient).Some?
      ensures ok ==> Receive(old(Contents()), cycles, ignoreInsufficient) == Some(Contents())
    {
      if cycles == 0 {
        return true;
      }
      var received := Min(cycles, available);
      available := available - received;
      incoming := SatAdd(incoming, received);
      if cycles > received {
        uncollectible := SatAdd(uncollectible, cycles - received);
        if !ignoreInsufficient {
          return false;
        }
      }
      return true;
    }

    method UpdateCallerState(caller: Principal, cycles: nat, nowMs: nat)
      modifies this
      ensures Contents() == Frame(Credit(old(Contents()).books, caller, cycles, nowMs), old(available))
    {
      if caller in callers {
        callers := callers[caller := Account(SatAdd(callers[caller].cycles, cycles), nowMs)];
      }
    }

    method AddCallers(ids: set<Principal>)
      modifies this
      ensures Contents() == Frame(WithCallers(old(Contents()).books, ids), old(available))
    {
      callers := (map p | p in ids :: Account(0, 0)) + callers;
      assert callers == WithCallers(old(Contents()).books, ids).callers;
    }

    method RemoveCallers(ids: set<Principal>)
      modifies this
      ensures Contents() == Frame(WithoutCallers(old(Contents()).books, ids), old(available))
    {
      callers := callers - ids;
    }

    method Rollback(f: Frame)
      modifies this
      ensures Contents() == f
    {
      callers, incoming, uncollectible := f.books.callers, f.books.incoming, f.books.uncollectible;
      available := f.available;
    }
  }

  /** New callers start at zero; a caller that is already there keeps its entry. */
  function WithCallers(b: Books, ids: set<Principal>): Books {
    b.(callers := b.callers + (map p | p in ids - b.callers.Keys :: Account(0, 0)))
  }

  function WithoutCallers(b: Books, ids: set<Principal>): Books {
    b.(callers := b.callers - ids)
  }

  /******* Interleaved calls *******/

  /** The endpoint: one agent after another, or all at once (all-equal and first-ok charge alike). */
  datatype Kind = Sequential | Parallel

  datatype Call = Call(caller: Principal, kind: Kind, attached: nat, ingressBytes: nat, requestBytes: nat)

  /** A call between two segments: `asked` agents have been asked and one answer (or the joint one) is awaited. */
  datatype Flight = Flight(call: Call, prices: Prices, agents: nat, available: nat, asked: nat)

  datatype Ending = Answered(bytes: nat) | AllFailed | Trapped

  /** What a finished call came to. `credited` tells whether its caller was still there to be told. */
  datatype Bill = Bill(flight: Flight, ending: Ending, accepted: nat, uncollected: nat, credited: bool)

  datatype Machine = Machine(
    books: Books,
    agents: nat,
    prices: Prices,
    flights: map<nat, Flight>,
    bills: map<nat, Bill>,
    removed: nat)

  datatype Event =
    | Begin(id: nat, call: Call)
    | Settle(id: nat, answer: Option<nat>, nowMs: nat)  // Some: the bytes of the response; None: an error
    | Crash(id: nat)                                    // the resumed segment traps for a reason of its own
    | AddCallers(ids: set<Principal>)
    | RemoveCallers(ids: set<Principal>)
    | SetAgents(agents: nat)
    | Configure(prices: Prices)

  predicate Enabled(m: Machine, e: Event) {
    match e
    case Begin(id, _) => id !in m.flights && id !in m.bills
    case Settle(id, _, _) => id in m.flights && id !in m.bills
    case Crash(id) => id in m.flights && id !in m.bills
    case _ => true
  }

  /** The charges of the first segment. */
  function Open(f: Frame, call: Call, prices: Prices, agents: nat): Option<Frame> {
    match call.kind
    case Sequential =>
      (match Receive(f, prices.ingress(call.ingressBytes), false)
       case None => None
       case Some(g) => Receive(g, prices.request(call.requestBytes, 1), false))
    case Parallel =>
      Receive(f, prices.ingress(call.ingressBytes) + prices.request(call.requestBytes, agents), false)
  }

  function Duplicates(fl: Flight): nat {
    if fl.call.kind == Sequential then 1 else fl.agents
  }

  function Close(m: Machine, id: nat, books: Books, bill: Bill): Machine {
    m.(books := books, flights := m.flights - {id}, bills := m.bills[id := bill])
  }

  ghost function Step(m: Machine, e: Event): Machine
    requires Enabled(m, e)
  {
    match e
    case Begin(id, call) =>
      if call.caller !in m.books.callers || m.agents == 0 then m
      else (match Open(Frame(m.books, call.attached), call, m.prices, m.agents)
            case None => m
            case Some(f) =>
              m.(books := f.books,
                 flights := m.flights[id := Flight(call, m.prices, m.agents, f.available,
                                                   if call.kind == Sequential then 1 else m.agents)]))
    case Settle(id, answer, nowMs) => StepSettle(m, id, answer, nowMs)
    case Crash(id) =>
      var fl := m.flights[id];
      Close(m, id, m.books, Bill(fl, Trapped, Accepted(fl), 0, false))
    case AddCallers(ids) => m.(books := WithCallers(m.books, ids))
    case RemoveCallers(ids) =>
      m.(books := WithoutCallers(m.books, ids),
         removed := m.removed + Sum(map p | p in m.books.callers && p in ids :: m.books.callers[p].cycles))
    case SetAgents(agents) => m.(agents := agents)
    case Configure(prices) => m.(prices := prices)
  }

  function Accepted(fl: Flight): nat {
    if fl.available <= fl.call.attached then fl.call.attached - fl.available else 0
  }

  function StepSettle(m: Machine, id: nat, answer: Option<nat>, nowMs: nat): Machine
    requires id in m.flights
  {
    var fl := m.flights[id];
    var caller := fl.call.caller;
    var known := caller in m.books.callers;
    match answer
    case Some(bytes) =>
      var cost := fl.prices.response(bytes, Duplicates(fl));
      var f := Receive(Frame(m.books, fl.available), cost, true).value;
      var total := Accepted(fl.(available := f.available));
      Close(m, id, Credit(f.books, caller, total, nowMs),
            Bill(fl, Answered(bytes), total, cost - (total - Accepted(fl)), known))
    case None =>
      if fl.call.kind == Sequential && fl.asked < fl.agents then
        (match Receive(Frame(m.books, fl.available), fl.prices.request(fl.call.requestBytes, 1), false)
         case None => Close(m, id, m.books, Bill(fl, Trapped, Accepted(fl), 0, false))
         case Some(f) =>
           m.(books := f.books, flights := m.flights[id := fl.(available := f.available, asked := fl.asked + 1)]))
      else
        Close(m, id, Credit(m.books, caller, Accepted(fl), nowMs), Bill(fl, AllFailed, Accepted(fl), 0, known))
  }

  /******* Billing and conservation *******/

  function Balances(b: Books): map<nat, nat> {
    map p | p in b.callers :: b.callers[p].cycles
  }

  function InFlight(m: Machine): map<nat, nat> {
    map id | id in m.flights :: Accepted(m.flights[id])
  }

  /** Cycles of calls that trapped after an await, or whose caller was gone when they finished. */
  function Uncredited(m: Machine): map<nat, nat> {
    map id | id in m.bills && !m.bills[id].credited :: m.bills[id].accepted
  }

  function Shortfalls(m: Machine): map<nat, nat> {
    map id | id in m.bills :: m.bills[id].uncollected
  }

  /** Every cycle that came in is in exactly one place. */
  ghost predicate Conserved(m: Machine) {
    m.books.incoming == Sum(Balances(m.books)) + m.removed + Sum(InFlight(m)) + Sum(Uncredited(m))
  }

  /** What a call has been charged for asking `asked` agents. */
  function RequestPhase(fl: Flight): nat {
    fl.prices.ingress(fl.call.ingressBytes)
    + (if fl.call.kind == Sequential
       then fl.asked * fl.prices.request(fl.call.requestBytes, 1)
       else fl.prices.request(fl.call.requestBytes, fl.agents))
  }

  /** A call in flight has paid the request phase in full. */
  predicate FlightExact(fl: Flight) {
    && fl.available <= fl.call.attached
    && 1 <= fl.asked <= fl.agents
    && (fl.call.kind == Parallel ==> fl.asked == fl.agents)
    && fl.call.attached - fl.available == RequestPhase(fl)
  }

  /**
   A finished call was charged its price exactly; only a response can be left partly unpaid, and only
   by an empty purse.
   */
  predicate BillExact(b: Bill) {
    && FlightExact(b.flight)
    && match b.ending
       case Answered(bytes) =>
         && b.accepted + b.uncollected == RequestPhase(b.flight) + b.flight.prices.response(bytes, Duplicates(b.flight))
         && b.accepted <= b.flight.call.attached
         && (b.uncollected > 0 ==> b.accepted == b.flight.call.attached)
       case AllFailed => b.flight.asked == b.flight.agents && b.accepted == RequestPhase(b.flight) && b.uncollected == 0
       case Trapped => !b.credited && b.accepted == RequestPhase(b.flight) && b.uncollected == 0
  }

  ghost predicate Exact(m: Machine) {
    && (forall id | id in m.flights :: FlightExact(m.flights[id]))
    && (forall id | id in m.bills :: BillExact(m.bills[id]))
    && m.flights.Keys !! m.bills.Keys
  }

  lemma ReceiveMeaning(f: Frame, cycles: nat, ignoreInsufficient: bool)
    ensures Receive(f, cycles, ignoreInsufficient).None? <==> !ignoreInsufficient && cycles > f.available
    ensures Receive(f, cycles, ignoreInsufficient).Some? ==>
              var g := Receive(f, cycles, ignoreInsufficient).value;
              && g.available == f.available - Min(cycles, f.available)
              && g.books == f.books.(incoming := SatAdd(f.books.incoming, Min(cycles, f.available)),
                                     uncollectible := SatAdd(f.books.uncollectible, cycles - Min(cycles, f.available)))
    requires f.books.incoming <= U128_MAX && f.books.uncollectible <= U128_MAX
  {
  }

  predicate Fits(b: Books) {
    b.incoming <= U128_MAX && b.uncollectible <= U128_MAX
  }

  lemma OpenMeaning(f: Frame, call: Call, prices: Prices, agents: nat)
    requires Fits(f.books)
    ensures var price := RequestPhase(Flight(call, prices, agents, 0, 1));
            match Open(f, call, prices, agents)
            case None => price > f.available
            case Some(g) =>
              && price <= f.available && g.available == f.available - price
              && g.books == f.books.(incoming := SatAdd(f.books.incoming, price))
  {
  }

  lemma SettleIsExact(m: Machine, id: nat, answer: Option<nat>, nowMs: nat)
    requires Exact(m) && Fits(m.books) && id in m.flights
    ensures Exact(StepSettle(m, id, answer, nowMs)) && Fits(StepSettle(m, id, answer, nowMs).books)
  {
    var fl := m.flights[id];
    assert FlightExact(fl);
    if answer.Some? {
      ReceiveMeaning(Frame(m.books, fl.available), fl.prices.response(answer.value, Duplicates(fl)), true);
    } else if fl.call.kind == Sequential && fl.asked < fl.agents {
      var price := fl.prices.request(fl.call.requestBytes, 1);
      ReceiveMeaning(Frame(m.books, fl.available), price, false);
      assert (fl.asked + 1) * price == fl.asked * price + price;
    }
  }

  /** Billing is exact in every interleaving: one step. */
  lemma StepIsExact(m: Machine, e: Event)
    requires Exact(m) && Fits(m.books) && Enabled(m, e)
    ensures Exact(Step(m, e)) && Fits(Step(m, e).books)
  {
    match e
    case Begin(id, call) => OpenMeaning(Frame(m.books, call.attached), call, m.prices, m.agents);
    case Settle(id, answer, nowMs) => SettleIsExact(m, id, answer, nowMs);
    case _ =>
  }

  lemma CreditAddsToBalances(b: Books, caller: Principal, cycles: nat, nowMs: nat)
    requires caller in b.callers && b.callers[caller].cycles + cycles <= U128_MAX
    ensures Sum(Balances(Credit(b, caller, cycles, nowMs))) == Sum(Balances(b)) + cycles
  {
    var old', new' := Balances(b), Balances(Credit(b, caller, cycles, nowMs));
    assert new' == old'[caller := old'[caller] + cycles];
    SumPut(old', caller, old'[caller] + cycles);
    SumRemove(old', caller);
  }

  lemma CloseCredited(m: Machine, id: nat, books: Books, extra: nat, bill: Bill, nowMs: nat)
    requires Conserved(m) && id in m.flights && id !in m.bills && bill.credited
    requires books.callers == m.books.callers && books.incoming == m.books.incoming + extra <= U128_MAX
    requires bill.accepted == Accepted(m.flights[id]) + extra
    requires m.flights[id].call.caller in books.callers
    ensures Conserved(Close(m, id, Credit(books, m.flights[id].call.caller, bill.accepted, nowMs), bill))
  {
    var caller := m.flights[id].call.caller;
    var m' := Close(m, id, Credit(books, caller, bill.accepted, nowMs), bill);
    assert InFlight(m') == InFlight(m) - {id};
    SumRemove(InFlight(m), id);
    assert Balances(books) == Balances(m.books);
    assert Uncredited(m') == Uncredited(m);
    SumRemove(Balances(books), caller);
    CreditAddsToBalances(books, caller, bill.accepted, nowMs);
  }

  lemma CloseUncredited(m: Machine, id: nat, books: Books, extra: nat, bill: Bill)
    requires Conserved(m) && id in m.flights && id !in m.bills && !bill.credited
    requires books.callers == m.books.callers && books.incoming == m.books.incoming + extra
    requires bill.accepted == Accepted(m.flights[id]) + extra
    ensures Conserved(Close(m, id, books, bill))
  {
    var m' := Close(m, id, books, bill);
    assert InFlight(m') == InFlight(m) - {id};
    SumRemove(InFlight(m), id);
    assert Uncredited(m') == Uncredited(m)[id := bill.accepted];
    SumAdd(Uncredited(m), id, bill.accepted);
  }

  /** Closing a call moves what it was charged, now `extra` more, to its caller or to the uncredited bills. */
  lemma CloseConserves(m: Machine, id: nat, books: Books, extra: nat, bill: Bill, nowMs: nat)
    requires Conserved(m) && id in m.flights && id !in m.bills
    requires books.callers == m.books.callers && books.incoming == m.books.incoming + extra <= U128_MAX
    requires bill.accepted == Accepted(m.flights[id]) + extra
    requires bill.credited ==> m.flights[id].call.caller in books.callers
    ensures var books' := if bill.credited
                          then Credit(books, m.flights[id].call.caller, bill.accepted, nowMs) else books;
            Conserved(Close(m, id, books', bill))
  {
    if bill.credited {
      CloseCredited(m, id, books, extra, bill, nowMs);
    } else {
      CloseUncredited(m, id, books, extra, bill);
    }
  }

  lemma AnsweredConserves(m: Machine, id: nat, bytes: nat, nowMs: nat)
    requires Exact(m) && Fits(m.books) && Conserved(m) && id in m.flights && id !in m.bills
    requires StepSettle(m, id, Some(bytes), nowMs).books.incoming < U128_MAX
    ensures Conserved(StepSettle(m, id, Some(bytes), nowMs))
  {
    var fl := m.flights[id];
    assert FlightExact(fl);
    var cost := fl.prices.response(bytes, Duplicates(fl));
    ReceiveMeaning(Frame(m.books, fl.available), cost, true);
    var f := Receive(Frame(m.books, fl.available), cost, true).value;
    var bill := StepSettle(m, id, Some(bytes), nowMs).bills[id];
    CloseConserves(m, id, f.books, Min(cost, fl.available), bill, nowMs);
  }

  /** Charging a call that goes on moves what it pays from its purse to its flight. */
  lemma ChargeConserves(m: Machine, id: nat, books: Books, fl: Flight, extra: nat)
    requires Conserved(m)
    requires books.callers == m.books.callers && books.incoming == m.books.incoming + extra
    requires Accepted(fl) == (if id in m.flights then Accepted(m.flights[id]) else 0) + extra
    ensures Conserved(m.(books := books, flights := m.flights[id := fl]))
  {
    var m' := m.(books := books, flights := m.flights[id := fl]);
    assert InFlight(m') == InFlight(m)[id := Accepted(fl)];
    SumPut(InFlight(m), id, Accepted(fl));
    if id in m.flights {
      SumRemove(InFlight(m), id);
    } else {
      assert InFlight(m) - {id} == InFlight(m);
    }
  }

  lemma TrapConserves(m: Machine, id: nat)
    requires Conserved(m) && Fits(m.books) && id in m.flights && id !in m.bills
    ensures var fl := m.flights[id];
            Conserved(Close(m, id, m.books, Bill(fl, Trapped, Accepted(fl), 0, false)))
  {
    var fl := m.flights[id];
    CloseConserves(m, id, m.books, 0, Bill(fl, Trapped, Accepted(fl), 0, false), 0);
  }

  /** A failover either traps, paying nothing more, or pays one more request. */
  lemma RetryMeaning(m: Machine, id: nat, nowMs: nat)
    requires Fits(m.books) && id in m.flights && FlightExact(m.flights[id])
    requires m.flights[id].call.kind == Sequential && m.flights[id].asked < m.flights[id].agents
    ensures var fl := m.flights[id];
            var price := fl.prices.request(fl.call.requestBytes, 1);
            var m' := StepSettle(m, id, None, nowMs);
            if price > fl.available then m' == Close(m, id, m.books, Bill(fl, Trapped, Accepted(fl), 0, false))
            else
              var fl' := fl.(available := fl.available - price, asked := fl.asked + 1);
              && m' == m.(books := m'.books, flights := m.flights[id := fl'])
              && Accepted(fl') == Accepted(fl) + price
              && m'.books.callers == m.books.callers
              && m'.books.incoming == SatAdd(m.books.incoming, price)
              && m'.books.uncollectible == m.books.uncollectible
  {
  }

  lemma RetryConserves(m: Machine, id: nat, nowMs: nat)
    requires Fits(m.books) && Conserved(m) && id in m.flights && id !in m.bills && FlightExact(m.flights[id])
    requires m.flights[id].call.kind == Sequential && m.flights[id].asked < m.flights[id].agents
    requires StepSettle(m, id, None, nowMs).books.incoming < U128_MAX
    ensures Conserved(StepSettle(m, id, None, nowMs))
  {
    RetryMeaning(m, id, nowMs);
    var fl := m.flights[id];
    var price := fl.prices.request(fl.call.requestBytes, 1);
    if price > fl.available {
      TrapConserves(m, id);
    } else {
      var m' := StepSettle(m, id, None, nowMs);
      ChargeConserves(m, id, m'.books, m'.flights[id], price);
    }
  }

  lemma SettleConserves(m: Machine, id: nat, answer: Option<nat>, nowMs: nat)
    requires Exact(m) && Fits(m.books) && Conserved(m) && id in m.flights && id !in m.bills
    requires StepSettle(m, id, answer, nowMs).books.incoming < U128_MAX
    ensures Conserved(StepSettle(m, id, answer, nowMs))
  {
    var fl := m.flights[id];
    assert FlightExact(fl);
    if answer.Some? {
      AnsweredConserves(m, id, answer.value, nowMs);
    } else if fl.call.kind == Sequential && fl.asked < fl.agents {
      RetryConserves(m, id, nowMs);
    } else {
      assert FlightExact(fl);
      CloseConserves(m, id, m.books, 0, StepSettle(m, id, None, nowMs).bills[id], nowMs);
    }
  }

  lemma BeginConserves(m: Machine, id: nat, call: Call)
    requires Exact(m) && Fits(m.books) && Conserved(m) && Enabled(m, Begin(id, call))
    requires Step(m, Begin(id, call)).books.incoming < U128_MAX
    ensures Conserved(Step(m, Begin(id, call)))
  {
    var f := Frame(m.books, call.attached);
    OpenMeaning(f, call, m.prices, m.agents);
    var g := Open(f, call, m.prices, m.agents);
    if call.caller in m.books.callers && m.agents > 0 && g.Some? {
      var fl := Step(m, Begin(id, call)).flights[id];
      ChargeConserves(m, id, g.value.books, fl, Accepted(fl));
    }
  }

  lemma AddingConserves(m: Machine, ids: set<Principal>)
    requires Conserved(m)
    ensures Conserved(Step(m, AddCallers(ids)))
  {
    var m' := Step(m, AddCallers(ids));
    assert InFlight(m') == InFlight(m) && Uncredited(m') == Uncredited(m);
    var added: map<nat, nat> := map p | p in ids - m.books.callers.Keys :: 0;
    assert Balances(m'.books) == Balances(m.books) + added;
    SumUnion(Balances(m.books), added);
    SumZero(added);
  }

  lemma RemovingConserves(m: Machine, ids: set<Principal>)
    requires Conserved(m)
    ensures Conserved(Step(m, RemoveCallers(ids)))
  {
    var m' := Step(m, RemoveCallers(ids));
    assert InFlight(m') == InFlight(m) && Uncredited(m') == Uncredited(m);
    var gone := map p | p in m.books.callers && p in ids :: m.books.callers[p].cycles;
    assert Balances(m'.books) + gone == Balances(m.books);
    SumUnion(Balances(m'.books), gone);
  }

  lemma StepConserves(m: Machine, e: Event)
    requires Exact(m) && Fits(m.books) && Conserved(m) && Enabled(m, e)
    requires Step(m, e).books.incoming < U128_MAX
    ensures Conserved(Step(m, e))
  {
    match e
    case Begin(id, call) => BeginConserves(m, id, call);
    case Settle(id, answer, nowMs) => SettleConserves(m, id, answer, nowMs);
    case Crash(id) => TrapConserves(m, id);
    case AddCallers(ids) => AddingConserves(m, ids);
    case RemoveCallers(ids) => RemovingConserves(m, ids);
    case _ =>
      assert InFlight(Step(m, e)) == InFlight(m) && Uncredited(Step(m, e)) == Uncredited(m);
  }

  /** The shortfall of every answered call, and nothing else, is what the ledger calls uncollectible. */
  ghost predicate ShortfallsRecorded(m: Machine) {
    m.books.uncollectible == Sum(Shortfalls(m))
  }

  lemma CloseRecordsShortfall(m: Machine, id: nat, books: Books, bill: Bill)
    requires ShortfallsRecorded(m) && id !in m.bills
    requires books.uncollectible == m.books.uncollectible + bill.uncollected
    ensures ShortfallsRecorded(Close(m, id, books, bill))
  {
    assert Shortfalls(Close(m, id, books, bill)) == Shortfalls(m)[id := bill.uncollected];
    SumAdd(Shortfalls(m), id, bill.uncollected);
  }

  lemma SettleRecordsShortfalls(m: Machine, id: nat, answer: Option<nat>, nowMs: nat)
    requires Exact(m) && Fits(m.books) && ShortfallsRecorded(m) && id in m.flights && id !in m.bills
    requires StepSettle(m, id, answer, nowMs).books.uncollectible < U128_MAX
    ensures ShortfallsRecorded(StepSettle(m, id, answer, nowMs))
  {
    var fl := m.flights[id];
    var m' := StepSettle(m, id, answer, nowMs);
    assert FlightExact(fl);
    if id in m'.bills {
      assert Close(m, id, m'.books, m'.bills[id]) == m';
      if answer.Some? {
        ReceiveMeaning(Frame(m.books, fl.available), fl.prices.response(answer.value, Duplicates(fl)), true);
      }
      CloseRecordsShortfall(m, id, m'.books, m'.bills[id]);
    } else {
      ReceiveMeaning(Frame(m.books, fl.available), fl.prices.request(fl.call.requestBytes, 1), false);
      assert Shortfalls(m') == Shortfalls(m);
    }
  }

  lemma StepRecordsShortfalls(m: Machine, e: Event)
    requires Exact(m) && Fits(m.books) && ShortfallsRecorded(m) && Enabled(m, e)
    requires Step(m, e).books.uncollectible < U128_MAX
    ensures ShortfallsRecorded(Step(m, e))
  {
    match e
    case Settle(id, answer, nowMs) => SettleRecordsShortfalls(m, id, answer, nowMs);
    case Crash(id) => CloseRecordsShortfall(m, id, m.books, Step(m, e).bills[id]);
    case Begin(_, call) =>
      OpenMeaning(Frame(m.books, call.attached), call, m.prices, m.agents);
      assert Shortfalls(Step(m, e)) == Shortfalls(m);
    case _ =>
      assert Shortfalls(Step(m, e)) == Shortfalls(m);
  }

  lemma StepOnlyAdds(m: Machine, e: Event)
    requires Fits(m.books) && Enabled(m, e)
    ensures m.books.incoming <= Step(m, e).books.incoming
    ensures m.books.uncollectible <= Step(m, e).books.uncollectible
  {
    if e.Begin? {
      OpenMeaning(Frame(m.books, e.call.attached), e.call, m.prices, m.agents);
    }
  }

  /******* Runs *******/

  function Start(prices: Prices): Machine {
    Machine(Books(map[], 0, 0), 0, prices, map[], map[], 0)
  }

  ghost predicate EnabledRun(m: Machine, run: seq<Event>)
    decreases |run|, 0
  {
    run == [] || (EnabledRun(m, run[..|run| - 1]) && Enabled(After(m, run[..|run| - 1]), run[|run| - 1]))
  }

  ghost function After(m: Machine, run: seq<Event>): Machine
    requires EnabledRun(m, run)
    decreases |run|, 1
  {
    if run == [] then m else Step(After(m, run[..|run| - 1]), run[|run| - 1])
  }

  /** Before an administrator has been at work every call is turned away. */
  lemma NobodyServedAtFirst(prices: Prices, id: nat, call: Call, callers: set<Principal>)
    ensures Step(Start(prices), Begin(id, call)) == Start(prices)
    ensures var m := Step(Start(prices), AddCallers(callers)); Step(m, Begin(id, call)) == m
  {
  }

  /** Every call is billed exactly, however calls, traps and admin steps interleave. */
  lemma {:induction false} BillingIsAlwaysExact(prices: Prices, run: seq<Event>)
    requires EnabledRun(Start(prices), run)
    ensures Exact(After(Start(prices), run)) && Fits(After(Start(prices), run).books)
  {
    if run != [] {
      var shorter := run[..|run| - 1];
      BillingIsAlwaysExact(prices, shorter);
      StepIsExact(After(Start(prices), shorter), run[|run| - 1]);
    }
  }

  /** As long as the total has not reached the top of u128, every cycle received is accounted for. */
  lemma {:induction false} CyclesAreConserved(prices: Prices, run: seq<Event>)
    requires EnabledRun(Start(prices), run)
    requires After(Start(prices), run).books.incoming < U128_MAX
    ensures Conserved(After(Start(prices), run))
  {
    var m0 := Start(prices);
    if run == [] {
      assert Balances(m0.books) == map[] && InFlight(m0) == map[] && Uncredited(m0) == map[];
    } else {
      var shorter, e := run[..|run| - 1], run[|run| - 1];
      var m := After(m0, shorter);
      BillingIsAlwaysExact(prices, shorter);
      StepOnlyAdds(m, e);
      CyclesAreConserved(prices, shorter);
      StepConserves(m, e);
    }
  }

  /**
   `uncollectible_cycles` is the sum of the shortfalls of answered calls; a call has one only in
   its response phase, and only once its purse is empty.
   */
  lemma {:induction false} UncollectibleIsResponseShortfalls(prices: Prices, run: seq<Event>)
    requires EnabledRun(Start(prices), run)
    requires After(Start(prices), run).books.uncollectible < U128_MAX
    ensures ShortfallsRecorded(After(Start(prices), run))
    ensures var m := After(Start(prices), run);
            forall id | id in m.bills && m.bills[id].uncollected > 0 ::
              m.bills[id].ending.Answered? && m.bills[id].accepted == m.bills[id].flight.call.attached
  {
    var m0 := Start(prices);
    BillingIsAlwaysExact(prices, run);
    var m' := After(m0, run);
    forall id | id in m'.bills && m'.bills[id].uncollected > 0
      ensures m'.bills[id].ending.Answered? && m'.bills[id].accepted == m'.bills[id].flight.call.attached
    {
      assert BillExact(m'.bills[id]);
    }
    if run == [] {
      assert Shortfalls(m0) == map[];
    } else {
      var shorter, e := run[..|run| - 1], run[|run| - 1];
      BillingIsAlwaysExact(prices, shorter);
      StepOnlyAdds(After(m0, shorter), e);
      UncollectibleIsResponseShortfalls(prices, shorter);
      StepRecordsShortfalls(After(m0, shorter), e);
    }
  }
}
