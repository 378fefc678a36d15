/**
 The canister's three ways of proxying one request: agents in sequence until one answers, all at
 once wanting equal answers, all at once taking the first answer. Each is run here from its first
 charge to its reply, for given agent outcomes and, where agents run side by side, for any order
 in which they complete.
 */
module ProxyCalls {
  import opened Wrappers
  import opened Cycles
  import opened Ledger

  /** What the management canister makes of one outcall. */
  datatype Outcall = Unbuildable(reason: Bytes) | Reply(res: HttpResponse) | Rejected(reason: Bytes)

  datatype AgentResult = Ok(res: HttpResponse) | Err(res: HttpResponse)

  /** An agent's answer: anything up to status 500 is an answer, and so is a request that cannot be built. */
  function Classify(o: Outcall): (r: AgentResult)
    ensures r.Ok? <==> r.res.status <= 500
    ensures o.Unbuildable? ==> r.res.status == 400 && r.res.body == o.reason
    ensures o.Reply? ==> r.res == o.res
    ensures o.Rejected? ==> r.res.status == 503 && r.res.body == o.reason
  {
    match o
    case Unbuildable(reason) => Ok(HttpResponse(400, [], reason))
    case Reply(res) => if res.status <= 500 then Ok(res) else Err(res)
    case Rejected(reason) => Err(HttpResponse(503, [], reason))
  }

  /** What one call is charged: at the start, for asking `n` agents, and for a response delivered by `n` agents. */
  datatype Tariff = Tariff(ingress: nat, asking: nat -> nat, answering: (HttpResponse, nat) -> nat)

  function TariffFor(prices: Calculator, ingressBytes: nat, http: HttpRequest): Tariff {
    Tariff(
      prices.IngressCost(ingressBytes),
      (n: nat) => prices.RequestCost(prices.RequestBytes(http), n),
      (res: HttpResponse, n: nat) => prices.ResponseCost(prices.ResponseBytes(res), n))
  }

  datatype Request = Request(caller: Principal, attached: nat, tariff: Tariff, finishMs: nat)
  {
    function Ingress(): nat { tariff.ingress }

    function Asking(agents: nat): nat { tariff.asking(agents) }

    function Answering(res: HttpResponse, agents: nat): nat { tariff.answering(res, agents) }
  }

  /** How a call ends. After a trap the books are those of the last commit. */
  datatype CallEnd = Undone(books: Books) | Returned(frame: Frame, response: HttpResponse)

  /** The service's own refusals; their texts are left out. */
  const NOT_ALLOWED := HttpResponse(403, [], [])
  const NO_AGENTS := HttpResponse(503, [], [])

  function Finish(q: Request, f: Frame, res: HttpResponse): CallEnd
    requires f.available <= q.attached
  {
    Returned(Frame(Credit(f.books, q.caller, q.attached - f.available, q.finishMs), f.available), res)
  }

  /******* One agent after another *******/

  function SequentialFrom(q: Request, checkpoint: Books, f: Frame, results: seq<AgentResult>,
                          lastErr: Option<HttpResponse>): CallEnd
    requires f.available <= q.attached
    requires results == [] ==> lastErr.Some?
    decreases |results|
  {
    if results == [] then Finish(q, f, lastErr.value)
    else
      match Receive(f, q.Asking(1), false)
      case None => Undone(checkpoint)
      case Some(g) =>
        match results[0]
        case Ok(res) => Finish(q, Receive(g, q.Answering(res, 1), true).value, res)
        case Err(res) => SequentialFrom(q, g.books, g, results[1..], Some(res))
  }

  function SequentialCall(q: Request, books: Books, results: seq<AgentResult>): CallEnd {
    if q.caller !in books.callers then Returned(Frame(books, q.attached), NOT_ALLOWED)
    else if results == [] then Returned(Frame(books, q.attached), NO_AGENTS)
    else
      match Receive(Frame(books, q.attached), q.Ingress(), false)
      case None => Undone(books)
      case Some(f) => SequentialFrom(q, books, f, results, None)
  }

  /** The loop over the agents, on the ledger in place. */
  method ProxyHttpRequest(s: State, q: Request, results: seq<AgentResult>) returns (reply: Option<HttpResponse>)
    requires s.available == q.attached
    modifies s
    ensures var end := SequentialCall(q, old(s.Contents()).books, results);
            match end
            case Undone(books) => reply == None && s.Contents().books == books
            case Returned(frame, response) => reply == Some(response) && s.Contents() == frame
  {
    if q.caller !in s.callers {
      return Some(NOT_ALLOWED);
    }
    if results == [] {
      return Some(NO_AGENTS);
    }
    ghost var end := SequentialCall(q, s.Contents().books, results);
    var checkpoint := s.Contents();
    var ok := s.ReceiveCycles(q.Ingress(), false);
    if !ok {
      s.Rollback(checkpoint);
      return None;
    }
    var lastErr: Option<HttpResponse> := None;
    for i := 0 to |results|
      invariant s.available <= q.attached
      invariant i > 0 ==> lastErr.Some?
      invariant end == SequentialFrom(q, checkpoint.books, s.Contents(), results[i..], lastErr)
    {
      ok := s.ReceiveCycles(q.Asking(1), false);
      if !ok {
        s.Rollback(checkpoint);
        return None;
      }
      checkpoint := s.Contents();
      match results[i] {
        case Ok(res) =>
          ok := s.ReceiveCycles(q.Answering(res, 1), true);
          s.UpdateCallerState(q.caller, q.attached - s.available, q.finishMs);
          return Some(res);
        case Err(res) =>
          assert results[i..][1..] == results[i + 1..];
          lastErr := Some(res);
      }
    }
    s.UpdateCallerState(q.caller, q.attached - s.available, q.finishMs);
    return Some(lastErr.value);
  }

  /******* All agents at once *******/

  /** The order in which the agents complete: each of them once. */
  predicate CompletionOrder(order: seq<nat>, n: nat) {
    && |order| == n
    && (forall j | 0 <= j < |order| :: order[j] < n)
    && (forall i | 0 <= i < n :: i in order)
  }

  /** The first error to arrive, if any agent fails. */
  function FirstErr(results: seq<AgentResult>, order: seq<nat>): Option<HttpResponse>
    requires forall j | 0 <= j < |order| :: order[j] < |results|
  {
    if order == [] then None
    else if results[order[0]].Err? then Some(results[order[0]].res)
    else FirstErr(results, order[1..])
  }

  /** The first answer to arrive, or the last error when none does. */
  function FirstOk(results: seq<AgentResult>, order: seq<nat>): AgentResult
    requires order != [] && forall j | 0 <= j < |order| :: order[j] < |results|
  {
    if results[order[0]].Ok? || |order| == 1 then results[order[0]]
    else FirstOk(results, order[1..])
  }

  function Responses(results: seq<AgentResult>): (r: seq<HttpResponse>)
    ensures |r| == |results| && forall i | 0 <= i < |r| :: r[i] == results[i].res
  {
    seq(|results|, i requires 0 <= i < |results| => results[i].res)
  }

  /** The responses that differ from `base`, in order. */
  function Different(list: seq<HttpResponse>, base: HttpResponse): seq<HttpResponse> {
    if list == [] then []
    else (if list[0] != base then [list[0]] else []) + Different(list[1..], base)
  }

  /** How the all-equal endpoint judges its agents, for any completion order. */
  datatype Verdict = Common(res: HttpResponse) | Disagree(list: seq<HttpResponse>) | OneFailed(res: HttpResponse)

  function AllOkVerdict(results: seq<AgentResult>, order: seq<nat>): Verdict
    requires results != [] && CompletionOrder(order, |results|)
  {
    match FirstErr(results, order)
    case Some(res) => OneFailed(res)
    case None =>
      var list := Responses(results);
      var inconsistent := Different(list[1..], list[0]);
      if inconsistent != [] then Disagree(inconsistent + [list[0]]) else Common(list[0])
  }

  /** The reply that a verdict is turned into. */
  function Render(v: Verdict, encode: seq<HttpResponse> -> Bytes): HttpResponse {
    match v
    case Common(res) => res
    case Disagree(list) => HttpResponse(500, [], encode(list))
    case OneFailed(res) => res
  }

  /** The response phase of the all-equal call: the first agent's response, if none failed. */
  function AllOkPays(q: Request, f: Frame, results: seq<AgentResult>, order: seq<nat>): (g: Frame)
    requires results != [] && CompletionOrder(order, |results|)
    ensures g.available <= f.available
  {
    if FirstErr(results, order).Some? then f else Receive(f, q.Answering(results[0].res, |results|), true).value
  }

  /** ... and of the first-answer call: that answer. */
  function AnyOkPays(q: Request, f: Frame, results: seq<AgentResult>, order: seq<nat>): (g: Frame)
    requires results != [] && CompletionOrder(order, |results|)
    ensures g.available <= f.available
  {
    var first := FirstOk(results, order);
    if first.Err? then f else Receive(f, q.Answering(first.res, |results|), true).value
  }

  function AllOkCall(q: Request, books: Books, results: seq<AgentResult>, order: seq<nat>,
                     encode: seq<HttpResponse> -> Bytes): CallEnd
    requires CompletionOrder(order, |results|)
  {
    if q.caller !in books.callers then Returned(Frame(books, q.attached), NOT_ALLOWED)
    else if results == [] then Returned(Frame(books, q.attached), NO_AGENTS)
    else
      match Receive(Frame(books, q.attached), q.Ingress() + q.Asking(|results|), false)
      case None => Undone(books)
      case Some(f) =>
        Finish(q, AllOkPays(q, f, results, order), Render(AllOkVerdict(results, order), encode))
  }

  function AnyOkCall(q: Request, books: Books, results: seq<AgentResult>, order: seq<nat>): CallEnd
    requires CompletionOrder(order, |results|)
  {
    if q.caller !in books.callers then Returned(Frame(books, q.attached), NOT_ALLOWED)
    else if results == [] then Returned(Frame(books, q.attached), NO_AGENTS)
    else
      match Receive(Frame(books, q.attached), q.Ingress() + q.Asking(|results|), false)
      case None => Undone(books)
      case Some(f) =>
        Finish(q, AnyOkPays(q, f, results, order), FirstOk(results, order).res)
  }

  /** What the all-equal call does after its first segment. */
  lemma AllOkEnds(q: Request, books: Books, f: Frame, results: seq<AgentResult>, order: seq<nat>,
                  encode: seq<HttpResponse> -> Bytes)
    requires CompletionOrder(order, |results|) && results != [] && q.caller in books.callers
    requires Receive(Frame(books, q.attached), q.Ingress() + q.Asking(|results|), false) == Some(f)
    ensures f.available <= q.attached
    ensures AllOkCall(q, books, results, order, encode)
            == Finish(q, AllOkPays(q, f, results, order), Render(AllOkVerdict(results, order), encode))
  {
  }

  /** ... and the first-answer call. */
  lemma AnyOkEnds(q: Request, books: Books, f: Frame, results: seq<AgentResult>, order: seq<nat>)
    requires CompletionOrder(order, |results|) && results != [] && q.caller in books.callers
    requires Receive(Frame(books, q.attached), q.Ingress() + q.Asking(|results|), false) == Some(f)
    ensures f.available <= q.attached
    ensures AnyOkCall(q, books, results, order)
            == Finish(q, AnyOkPays(q, f, results, order), FirstOk(results, order).res)
  {
  }

  method ParallelCallAllOk(s: State, q: Request, results: seq<AgentResult>, order: seq<nat>,
                           encode: seq<HttpResponse> -> Bytes)
    returns (reply: Option<HttpResponse>)
    requires s.available == q.attached && CompletionOrder(order, |results|)
    modifies s
    ensures var end := AllOkCall(q, old(s.Contents()).books, results, order, encode);
            match end
            case Undone(books) => reply == None && s.Contents().books == books
            case Returned(frame, response) => reply == Some(response) && s.Contents() == frame
  {
    if q.caller !in s.callers {
      return Some(NOT_ALLOWED);
    }
    if results == [] {
      return Some(NO_AGENTS);
    }
    var checkpoint := s.Contents();
    var ok := s.ReceiveCycles(q.Ingress() + q.Asking(|results|), false);
    if !ok {
      s.Rollback(checkpoint);
      return None;
    }
    AllOkEnds(q, checkpoint.books, s.Contents(), results, order, encode);
    var result;
    match FirstErr(results, order) {
      case Some(res) =>
        result := res;
      case None =>
        var list := Responses(results);
        var base := list[0];
        ok := s.ReceiveCycles(q.Answering(base, |results|), true);
        assert ok;
        var inconsistent := Different(list[1..], base);
        if inconsistent != [] {
          inconsistent := inconsistent + [base];
          result := HttpResponse(500, [], encode(inconsistent));
        } else {
          result := base;
        }
    }
    assert result == Render(AllOkVerdict(results, order), encode);
    s.UpdateCallerState(q.caller, q.attached - s.available, q.finishMs);
    return Some(result);
  }

  method ParallelCallAnyOk(s: State, q: Request, results: seq<AgentResult>, order: seq<nat>)
    returns (reply: Option<HttpResponse>)
    requires s.available == q.attached && CompletionOrder(order, |results|)
    modifies s
    ensures var end := AnyOkCall(q, old(s.Contents()).books, results, order);
            match end
            case Undone(books) => reply == None && s.Contents().books == books
            case Returned(frame, response) => reply == Some(response) && s.Contents() == frame
  {
    if q.caller !in s.callers {
      return Some(NOT_ALLOWED);
    }
    if results == [] {
      return Some(NO_AGENTS);
    }
    var checkpoint := s.Contents();
    var ok := s.ReceiveCycles(q.Ingress() + q.Asking(|results|), false);
    if !ok {
      s.Rollback(checkpoint);
      return None;
    }
    AnyOkEnds(q, checkpoint.books, s.Contents(), results, order);
    var result;
    match FirstOk(results, order) {
      case Ok(res) =>
        ok := s.ReceiveCycles(q.Answering(res, |results|), true);
        result := res;
      case Err(res) =>
        result := res;
    }
    s.UpdateCallerState(q.caller, q.attached - s.available, q.finishMs);
    return Some(result);
  }

  /******* Agreement of the three *******/

  predicate AllAnswer(results: seq<AgentResult>) {
    forall i | 0 <= i < |results| :: results[i].Ok?
  }

  predicate Unanimous(results: seq<AgentResult>) {
    AllAnswer(results) && forall i | 0 <= i < |results| :: results[i] == results[0]
  }

  lemma {:induction false} FirstErrMeaning(results: seq<AgentResult>, order: seq<nat>)
    requires forall j | 0 <= j < |order| :: order[j] < |results|
    ensures FirstErr(results, order).None? <==> forall j | 0 <= j < |order| :: results[order[j]].Ok?
    ensures FirstErr(results, order).Some? ==>
              exists i | 0 <= i < |results| :: results[i] == Err(FirstErr(results, order).value)
  {
    if order != [] {
      FirstErrMeaning(results, order[1..]);
      assert forall j | 1 <= j < |order| :: order[j] == order[1..][j - 1];
    }
  }

  lemma {:induction false} FirstOkMeaning(results: seq<AgentResult>, order: seq<nat>)
    requires order != [] && forall j | 0 <= j < |order| :: order[j] < |results|
    ensures FirstOk(results, order).Ok? <==> exists j | 0 <= j < |order| :: results[order[j]].Ok?
    ensures FirstOk(results, order) in results
  {
    if !(results[order[0]].Ok? || |order| == 1) {
      FirstOkMeaning(results, order[1..]);
      assert forall j | 1 <= j < |order| :: order[j] == order[1..][j - 1];
    }
  }

  /** `j` is the place, in the order of completion, of the first agent that fails. */
  predicate FirstToFail(results: seq<AgentResult>, order: seq<nat>, j: nat)
    requires forall i | 0 <= i < |order| :: order[i] < |results|
  {
    j < |order| && results[order[j]].Err? && forall i | 0 <= i < j :: results[order[i]].Ok?
  }

  /** `j` is the place of the first agent that answers, or the last place if none does. */
  predicate FirstToAnswer(results: seq<AgentResult>, order: seq<nat>, j: nat)
    requires forall i | 0 <= i < |order| :: order[i] < |results|
  {
    && j < |order| && (results[order[j]].Ok? || j == |order| - 1)
    && forall i | 0 <= i < j :: results[order[i]].Err?
  }

  lemma {:induction false} FirstErrIs(results: seq<AgentResult>, order: seq<nat>, j: nat)
    requires (forall i | 0 <= i < |order| :: order[i] < |results|) && FirstToFail(results, order, j)
    ensures FirstErr(results, order) == Some(results[order[j]].res)
  {
    if j > 0 {
      assert forall i | 1 <= i < |order| :: order[i] == order[1..][i - 1];
      FirstErrIs(results, order[1..], j - 1);
    }
  }

  lemma {:induction false} FirstOkIs(results: seq<AgentResult>, order: seq<nat>, j: nat)
    requires (forall i | 0 <= i < |order| :: order[i] < |results|) && FirstToAnswer(results, order, j)
    ensures FirstOk(results, order) == results[order[j]]
  {
    if j > 0 {
      assert forall i | 1 <= i < |order| :: order[i] == order[1..][i - 1];
      FirstOkIs(results, order[1..], j - 1);
    }
  }

  lemma CompletionReachesAll(results: seq<AgentResult>, order: seq<nat>)
    requires CompletionOrder(order, |results|)
    ensures (forall j | 0 <= j < |order| :: results[order[j]].Ok?) <==> AllAnswer(results)
    ensures (exists j | 0 <= j < |order| :: results[order[j]].Ok?) <==> exists i | 0 <= i < |results| :: results[i].Ok?
  {
    forall i | 0 <= i < |results|
      ensures results[i].Ok? ==> exists j | 0 <= j < |order| :: results[order[j]].Ok?
      ensures results[i].Err? ==> exists j | 0 <= j < |order| :: results[order[j]].Err?
    {
      assert i in order;
      var j :| 0 <= j < |order| && order[j] == i;
      assert results[order[j]] == results[i];
    }
  }

  lemma {:induction false} DifferentMeaning(list: seq<HttpResponse>, base: HttpResponse)
    ensures forall r :: r in Different(list, base) <==> r in list && r != base
    ensures Different(list, base) == [] <==> forall i | 0 <= i < |list| :: list[i] == base
  {
    if list != [] {
      DifferentMeaning(list[1..], base);
      assert list == [list[0]] + list[1..];
    }
  }

  /**
   All-equal returns the common response exactly when every agent answers and all answers are
   equal; when all answer but not alike, it lists exactly the responses given; otherwise it returns
   some failing agent's response.
   */
  lemma AllOkVerdictMeaning(results: seq<AgentResult>, order: seq<nat>)
    requires results != [] && CompletionOrder(order, |results|)
    ensures var v := AllOkVerdict(results, order);
            && (v.Common? <==> Unanimous(results))
            && (v.Common? ==> Ok(v.res) == results[0])
            && (v.Disagree? <==> AllAnswer(results) && !Unanimous(results))
            && (v.Disagree? ==> forall r :: r in v.list <==> Ok(r) in results)
            && (v.OneFailed? <==> !AllAnswer(results))
            && (v.OneFailed? ==> Err(v.res) in results)
  {
    FirstErrMeaning(results, order);
    CompletionReachesAll(results, order);
    var list := Responses(results);
    DifferentMeaning(list[1..], list[0]);
    var v := AllOkVerdict(results, order);
    if v.Disagree? {
      forall r ensures r in v.list <==> Ok(r) in results {
        assert r in v.list <==> r in list[1..] || r == list[0];
        assert list == [list[0]] + list[1..];
        if Ok(r) in results {
          var i :| 0 <= i < |results| && results[i] == Ok(r);
          assert list[i] == r;
        }
      }
    }
    if AllAnswer(results) {
      if forall i | 0 <= i < |list[1..]| :: list[1..][i] == list[0] {
        forall i | 0 <= i < |results| ensures results[i] == results[0] {
          assert i > 0 ==> list[1..][i - 1] == list[i];
        }
      } else {
        var i :| 0 <= i < |list[1..]| && list[1..][i] != list[0];
        assert results[i + 1] != results[0];
      }
    }
  }

  /**
   What the all-equal endpoint replies, for every completion order: the common response when all
   agents answer alike; a 500 listing exactly the responses given when all answer but not alike;
   the response of the first agent to fail when one fails.
   */
  lemma AllOkReplyMeaning(q: Request, books: Books, results: seq<AgentResult>, order: seq<nat>,
                          encode: seq<HttpResponse> -> Bytes)
    requires q.caller in books.callers && results != [] && CompletionOrder(order, |results|)
    requires AllOkCall(q, books, results, order, encode).Returned?
    ensures var reply := AllOkCall(q, books, results, order, encode).response;
            && (Unanimous(results) ==> Ok(reply) == results[0])
            && (AllAnswer(results) && !Unanimous(results) ==>
                  exists list ::
                    (forall r :: r in list <==> Ok(r) in results) && reply == HttpResponse(500, [], encode(list)))
            && (!AllAnswer(results) ==> Err(reply) in results)
            && (forall j: nat :: FirstToFail(results, order, j) ==> reply == results[order[j]].res)
  {
    AllOkVerdictMeaning(results, order);
    forall j: nat | FirstToFail(results, order, j) ensures FirstErr(results, order) == Some(results[order[j]].res) {
      FirstErrIs(results, order, j);
    }
    var v := AllOkVerdict(results, order);
    assert AllOkCall(q, books, results, order, encode).response == Render(v, encode);
    if v.Disagree? {
      assert forall r :: r in v.list <==> Ok(r) in results;
    }
  }

  /** The differing responses come in the order of the agents, each as often as it was given. */
  lemma {:induction false} DifferentInOrder(a: seq<HttpResponse>, b: seq<HttpResponse>, base: HttpResponse,
                                            r: HttpResponse)
    ensures Different([r], base) == if r == base then [] else [r]
    ensures Different(a + b, base) == Different(a, base) + Different(b, base)
  {
    assert [r][1..] == [];
    if a == [] {
      assert a + b == b;
    } else {
      DifferentInOrder(a[1..], b, base, r);
      assert (a + b)[0] == a[0] && (a + b)[1..] == a[1..] + b;
      var head := if a[0] != base then [a[0]] else [];
      assert Different(a, base) == head + Different(a[1..], base);
      Associate(head, Different(a[1..], base), Different(b, base));
    }
  }

  lemma Associate(a: seq<HttpResponse>, b: seq<HttpResponse>, c: seq<HttpResponse>)
    ensures a + (b + c) == (a + b) + c
  {
  }

  /**
   When all agents answer but not alike, the list is the later agents' differing responses, in order,
   and then the first agent's.
   */
  lemma DisagreementIsListed(q: Request, books: Books, results: seq<AgentResult>, order: seq<nat>,
                             encode: seq<HttpResponse> -> Bytes)
    requires q.caller in books.callers && results != [] && CompletionOrder(order, |results|)
    requires AllAnswer(results) && !Unanimous(results)
    requires AllOkCall(q, books, results, order, encode).Returned?
    ensures var list := Responses(results);
            AllOkCall(q, books, results, order, encode).response
            == HttpResponse(500, [], encode(Different(list[1..], list[0]) + [list[0]]))
  {
    AllOkVerdictMeaning(results, order);
    assert AllOkCall(q, books, results, order, encode).response == Render(AllOkVerdict(results, order), encode);
  }

  /** The number of agents that fail before the first that answers. */
  function Failovers(results: seq<AgentResult>): (k: nat)
    ensures k <= |results|
    ensures forall i | 0 <= i < k :: results[i].Err?
    ensures k < |results| ==> results[k].Ok?
  {
    if results == [] || results[0].Ok? then 0 else 1 + Failovers(results[1..])
  }

  /** How many agents the sequential loop asks, if it is not cut short by a trap. */
  function Asked(results: seq<AgentResult>): nat {
    if Failovers(results) < |results| then Failovers(results) + 1 else |results|
  }

  /** What the requests of the sequential loop cost, if it is not cut short by a trap. */
  function RequestsPrice(q: Request, results: seq<AgentResult>): nat {
    if results == [] then 0
    else q.Asking(1) + if results[0].Ok? then 0 else RequestsPrice(q, results[1..])
  }

  /** ... and what the response adds, if there is one. */
  function AnswerPrice(q: Request, results: seq<AgentResult>): nat {
    var k := Failovers(results);
    if k < |results| then q.Answering(results[k].res, 1) else 0
  }

  /** One request price for each agent asked. */
  lemma {:induction false} RequestsPriceIsAsked(q: Request, results: seq<AgentResult>)
    ensures RequestsPrice(q, results) == Asked(results) * q.Asking(1)
  {
    if results != [] && results[0].Err? {
      RequestsPriceIsAsked(q, results[1..]);
      OneMore(Asked(results[1..]), q.Asking(1));
    }
  }

  /** The response the sequential loop ends with when it is not cut short. */
  function LastResponse(results: seq<AgentResult>, lastErr: Option<HttpResponse>): HttpResponse
    requires results == [] ==> lastErr.Some?
  {
    var k := Failovers(results);
    if k < |results| then results[k].res
    else if results == [] then lastErr.value
    else results[|results| - 1].res
  }

  /** After a failing agent everything is as if the loop had started at the next one. */
  lemma SkipFailed(q: Request, results: seq<AgentResult>, lastErr: Option<HttpResponse>)
    requires results != [] && results[0].Err?
    ensures RequestsPrice(q, results) == q.Asking(1) + RequestsPrice(q, results[1..])
    ensures AnswerPrice(q, results) == AnswerPrice(q, results[1..])
    ensures LastResponse(results, lastErr) == LastResponse(results[1..], Some(results[0].res))
  {
  }

  /** `end` has taken `price` out of `f` as far as it would go, and told the caller. */
  predicate PaidOut(q: Request, f: Frame, price: nat, end: Frame)
    requires f.available <= q.attached
  {
    var paid := Min(price, f.available);
    && end.available == f.available - paid
    && end.books == Credit(
         f.books.(incoming := SatAdd(f.books.incoming, paid),
                  uncollectible := SatAdd(f.books.uncollectible, price - paid)),
         q.caller, q.attached - f.available + paid, q.finishMs)
  }

  /** Paying one price in full and then another is paying their sum. */
  lemma PayTwice(q: Request, f: Frame, g: Frame, price: nat, rest: nat, end: Frame)
    requires f.available <= q.attached && Fits(f.books) && price <= f.available
    requires g == Frame(f.books.(incoming := SatAdd(f.books.incoming, price)), f.available - price)
    requires PaidOut(q, g, rest, end)
    ensures PaidOut(q, f, price + rest, end)
  {
  }

  /** The response phase pays what it can; a call that ends without a response pays nothing more. */
  lemma LastSegmentPays(q: Request, f: Frame, cost: nat, res: HttpResponse)
    requires f.available <= q.attached && Fits(f.books)
    ensures var g := Receive(f, cost, true);
            && g.Some? && g.value.available <= f.available
            && PaidOut(q, f, cost, Finish(q, g.value, res).frame)
    ensures PaidOut(q, f, 0, Finish(q, f, res).frame)
  {
  }

  /** The sequential loop traps exactly when the purse does not cover the requests it would make. */
  lemma {:induction false} SequentialTrapsIff(q: Request, checkpoint: Books, f: Frame, results: seq<AgentResult>,
                                              lastErr: Option<HttpResponse>)
    requires f.available <= q.attached && (results == [] ==> lastErr.Some?) && Fits(f.books)
    ensures SequentialFrom(q, checkpoint, f, results, lastErr).Undone? <==> f.available < RequestsPrice(q, results)
    decreases |results|
  {
    if results != [] {
      ReceiveMeaning(f, q.Asking(1), false);
      var g := Receive(f, q.Asking(1), false);
      if g.Some? && results[0].Err? {
        SequentialTrapsIff(q, g.value.books, g.value, results[1..], Some(results[0].res));
      }
    }
  }

  lemma AnsweredPays(q: Request, checkpoint: Books, f: Frame, results: seq<AgentResult>, lastErr: Option<HttpResponse>)
    requires f.available <= q.attached && Fits(f.books)
    requires results != [] && results[0].Ok? && SequentialFrom(q, checkpoint, f, results, lastErr).Returned?
    ensures var end := SequentialFrom(q, checkpoint, f, results, lastErr);
            && PaidOut(q, f, RequestsPrice(q, results) + AnswerPrice(q, results), end.frame)
            && end.response == LastResponse(results, lastErr)
  {
    var end := SequentialFrom(q, checkpoint, f, results, lastErr);
    var price, answer := q.Asking(1), q.Answering(results[0].res, 1);
    ReceiveMeaning(f, price, false);
    var g := Receive(f, price, false).value;
    LastSegmentPays(q, g, answer, results[0].res);
    PayTwice(q, f, g, price, answer, end.frame);
  }

  lemma FailedThenRest(q: Request, f: Frame, g: Frame, results: seq<AgentResult>, lastErr: Option<HttpResponse>,
                       end: Frame)
    requires f.available <= q.attached && Fits(f.books) && q.Asking(1) <= f.available
    requires results != [] && results[0].Err?
    requires g == Frame(f.books.(incoming := SatAdd(f.books.incoming, q.Asking(1))), f.available - q.Asking(1))
    requires PaidOut(q, g, RequestsPrice(q, results[1..]) + AnswerPrice(q, results[1..]), end)
    ensures PaidOut(q, f, RequestsPrice(q, results) + AnswerPrice(q, results), end)
    ensures LastResponse(results, lastErr) == LastResponse(results[1..], Some(results[0].res))
  {
    SkipFailed(q, results, lastErr);
    PayTwice(q, f, g, q.Asking(1), RequestsPrice(q, results[1..]) + AnswerPrice(q, results[1..]), end);
  }

  lemma NobodyLeftPays(q: Request, checkpoint: Books, f: Frame, lastErr: HttpResponse)
    requires f.available <= q.attached && Fits(f.books)
    ensures var end := SequentialFrom(q, checkpoint, f, [], Some(lastErr));
            && end.Returned? && end.response == lastErr
            && PaidOut(q, f, 0, end.frame)
  {
  }

  /** An agent that fails costs one request, and the loop goes on. */
  lemma FailedAgentPays(q: Request, checkpoint: Books, f: Frame, results: seq<AgentResult>,
                        lastErr: Option<HttpResponse>)
    requires f.available <= q.attached && Fits(f.books)
    requires results != [] && results[0].Err? && SequentialFrom(q, checkpoint, f, results, lastErr).Returned?
    ensures q.Asking(1) <= f.available
    ensures var g := Frame(f.books.(incoming := SatAdd(f.books.incoming, q.Asking(1))), f.available - q.Asking(1));
            && Fits(g.books)
            && SequentialFrom(q, checkpoint, f, results, lastErr)
               == SequentialFrom(q, g.books, g, results[1..], Some(results[0].res))
  {
  }

  /**
   Exact billing of the sequential loop: if it does not trap it takes the full price, or all
   there is when the response exceeds it, recording the rest as uncollectible.
   */
  lemma {:induction false} SequentialPays(q: Request, checkpoint: Books, f: Frame, results: seq<AgentResult>,
                                          lastErr: Option<HttpResponse>)
    requires f.available <= q.attached && (results == [] ==> lastErr.Some?) && Fits(f.books)
    requires SequentialFrom(q, checkpoint, f, results, lastErr).Returned?
    ensures var end := SequentialFrom(q, checkpoint, f, results, lastErr);
            && PaidOut(q, f, RequestsPrice(q, results) + AnswerPrice(q, results), end.frame)
            && end.response == LastResponse(results, lastErr)
    decreases |results|
  {
    if results == [] {
      NobodyLeftPays(q, checkpoint, f, lastErr.value);
    } else if results[0].Ok? {
      AnsweredPays(q, checkpoint, f, results, lastErr);
    } else {
      var price, tail := q.Asking(1), results[1..];
      FailedAgentPays(q, checkpoint, f, results, lastErr);
      var g := Frame(f.books.(incoming := SatAdd(f.books.incoming, price)), f.available - price);
      var end := SequentialFrom(q, checkpoint, f, results, lastErr);
      SequentialPays(q, g.books, g, tail, Some(results[0].res));
      FailedThenRest(q, f, g, results, lastErr, end.frame);
    }
  }

  /** After a trap, exactly the requests that had been committed are paid for, and nothing else has changed. */
  lemma {:induction false} TrapKeepsCommittedRequests(q: Request, checkpoint: Books, f: Frame,
                                                      results: seq<AgentResult>, lastErr: Option<HttpResponse>)
    requires f.available <= q.attached && (results == [] ==> lastErr.Some?) && Fits(f.books)
    requires SequentialFrom(q, checkpoint, f, results, lastErr).Undone?
    ensures q.Asking(1) > 0
    ensures SequentialFrom(q, checkpoint, f, results, lastErr).books ==
            if f.available < q.Asking(1) then checkpoint
            else f.books.(incoming := SatAdd(f.books.incoming, f.available - f.available % q.Asking(1)))
    decreases |results|
  {
    var price := q.Asking(1);
    ReceiveMeaning(f, price, false);
    var g := Receive(f, price, false);
    if g.Some? && results[0].Err? {
      TrapKeepsCommittedRequests(q, g.value.books, g.value, results[1..], Some(results[0].res));
      ModStep(f.available, price);
    }
  }

  lemma ModStep(a: nat, d: nat)
    requires 0 < d <= a
    ensures a % d == (a - d) % d
    ensures a - d < d ==> a % d == a - d
    ensures a % d <= a - d
  {
    var q, r := (a - d) / d, (a - d) % d;
    assert a - d == q * d + r;
    assert a == (q + 1) * d + r;
    DivModUnique(a, d, q + 1, r);
  }

  lemma DivModUnique(a: nat, d: nat, q: nat, r: nat)
    requires d > 0 && r < d && a == q * d + r
    ensures a % d == r
  {
    var q' := a / d;
    assert a == q' * d + a % d;
    Spread(q, q', d);
    Spread(q', q, d);
    if q > q' {
      AtLeastOne(q - q', d);
    } else if q < q' {
      AtLeastOne(q' - q, d);
    }
  }

  lemma Spread(m: int, n: int, d: int)
    ensures m * d == n * d + (m - n) * d
  {
  }

  lemma AtLeastOne(n: nat, d: nat)
    requires n > 0
    ensures n * d >= d
  {
  }

  lemma SequentialCallTrapsIff(q: Request, books: Books, results: seq<AgentResult>)
    requires q.caller in books.callers && results != [] && Fits(books)
    ensures SequentialCall(q, books, results).Undone? <==> q.attached < q.Ingress() + RequestsPrice(q, results)
  {
    var f0 := Frame(books, q.attached);
    ReceiveMeaning(f0, q.Ingress(), false);
    var f := Receive(f0, q.Ingress(), false);
    if f.Some? {
      SequentialTrapsIff(q, books, f.value, results, None);
    }
  }

  lemma SequentialCallPays(q: Request, books: Books, results: seq<AgentResult>)
    requires q.caller in books.callers && results != [] && Fits(books)
    requires SequentialCall(q, books, results).Returned?
    ensures var end := SequentialCall(q, books, results);
            && PaidOut(q, Frame(books, q.attached),
                       q.Ingress() + (RequestsPrice(q, results) + AnswerPrice(q, results)), end.frame)
            && end.response == LastResponse(results, None)
  {
    var f0 := Frame(books, q.attached);
    ReceiveMeaning(f0, q.Ingress(), false);
    var f := Receive(f0, q.Ingress(), false).value;
    SequentialPays(q, books, f, results, None);
    PayTwice(q, f0, f, q.Ingress(), RequestsPrice(q, results) + AnswerPrice(q, results),
             SequentialCall(q, books, results).frame);
  }

  /** What a sequential call pays before it has an answer. */
  function Outlay(q: Request, results: seq<AgentResult>): nat {
    q.Ingress() + Asked(results) * q.Asking(1)
  }

  /** The whole price of a sequential call, from the first segment on. */
  lemma SequentialCallBilling(q: Request, books: Books, results: seq<AgentResult>)
    requires q.caller in books.callers && results != [] && Fits(books)
    ensures var end := SequentialCall(q, books, results);
            && (end.Undone? <==> q.attached < Outlay(q, results))
            && (end.Returned? ==>
                  && PaidOut(q, Frame(books, q.attached),
                             Outlay(q, results) + AnswerPrice(q, results), end.frame)
                  && end.response == LastResponse(results, None))
  {
    RequestsPriceIsAsked(q, results);
    SequentialCallTrapsIff(q, books, results);
    if SequentialCall(q, books, results).Returned? {
      SequentialCallPays(q, books, results);
    }
  }

  /** What a parallel call is charged before anybody answers. */
  function ParallelOutlay(q: Request, agents: nat): nat {
    q.Ingress() + q.Asking(agents)
  }

  /**
   The whole price of an all-equal call, for every completion order: it traps exactly when the purse
   does not cover the requests, and otherwise pays for the first agent's response if all answer.
   */
  lemma AllOkBilling(q: Request, books: Books, results: seq<AgentResult>, order: seq<nat>,
                     encode: seq<HttpResponse> -> Bytes)
    requires q.caller in books.callers && results != [] && Fits(books) && CompletionOrder(order, |results|)
    ensures var end := AllOkCall(q, books, results, order, encode);
            var answer := if AllAnswer(results) then q.Answering(results[0].res, |results|) else 0;
            if q.attached < ParallelOutlay(q, |results|) then end == Undone(books)
            else end.Returned? && PaidOut(q, Frame(books, q.attached), ParallelOutlay(q, |results|) + answer, end.frame)
  {
    var f0, first := Frame(books, q.attached), ParallelOutlay(q, |results|);
    ReceiveMeaning(f0, first, false);
    var f := Receive(f0, first, false);
    if f.Some? {
      AllOkEnds(q, books, f.value, results, order, encode);
      FirstErrMeaning(results, order);
      CompletionReachesAll(results, order);
      var answer := if AllAnswer(results) then q.Answering(results[0].res, |results|) else 0;
      var end := AllOkCall(q, books, results, order, encode);
      LastSegmentPays(q, f.value, answer, end.response);
      PayTwice(q, f0, f.value, first, answer, end.frame);
    }
  }

  /**
   The first-answer call, for every completion order: its reply is that of the first agent to
   answer, or of the last to fail when none answers, and that answer is what it pays for.
   */
  lemma AnyOkBilling(q: Request, books: Books, results: seq<AgentResult>, order: seq<nat>, j: nat)
    requires q.caller in books.callers && results != [] && Fits(books) && CompletionOrder(order, |results|)
    requires FirstToAnswer(results, order, j)
    ensures var end, r := AnyOkCall(q, books, results, order), results[order[j]];
            var answer := if r.Ok? then q.Answering(r.res, |results|) else 0;
            if q.attached < ParallelOutlay(q, |results|) then end == Undone(books)
            else
              && end.Returned? && end.response == r.res
              && PaidOut(q, Frame(books, q.attached), ParallelOutlay(q, |results|) + answer, end.frame)
  {
    var f0, first := Frame(books, q.attached), ParallelOutlay(q, |results|);
    ReceiveMeaning(f0, first, false);
    var f := Receive(f0, first, false);
    FirstOkIs(results, order, j);
    if f.Some? {
      AnyOkEnds(q, books, f.value, results, order);
      var r := results[order[j]];
      var answer := if r.Ok? then q.Answering(r.res, |results|) else 0;
      LastSegmentPays(q, f.value, answer, r.res);
      PayTwice(q, f0, f.value, first, answer, AnyOkCall(q, books, results, order).frame);
    }
  }

  /** Calls that are turned away: strangers first, then any call when there are no agents; nobody pays. */
  lemma TurnedAway(q: Request, books: Books, results: seq<AgentResult>, order: seq<nat>,
                   encode: seq<HttpResponse> -> Bytes)
    requires CompletionOrder(order, |results|) && (q.caller !in books.callers || results == [])
    ensures var end := SequentialCall(q, books, results);
            && end == AllOkCall(q, books, results, order, encode) == AnyOkCall(q, books, results, order)
            && end.Returned? && end.frame == Frame(books, q.attached)
            && end.response.status == if q.caller !in books.callers then 403 else 503
  {
  }

  /** The sequential loop gives an agent's answer exactly when some agent answers; otherwise the last error. */
  lemma AnyOkSucceedsIffSequentialDoes(q: Request, books: Books, results: seq<AgentResult>, order: seq<nat>)
    requires q.caller in books.callers && results != [] && Fits(books) && CompletionOrder(order, |results|)
    ensures FirstOk(results, order).Ok? <==> Failovers(results) < |results|
    ensures FirstOk(results, order) in results
    ensures SequentialCall(q, books, results).Returned? && AnyOkCall(q, books, results, order).Returned? ==>
              (if FirstOk(results, order).Ok?
               then Ok(SequentialCall(q, books, results).response) in results
                    && Ok(AnyOkCall(q, books, results, order).response) in results
               else Err(SequentialCall(q, books, results).response) in results
                    && Err(AnyOkCall(q, books, results, order).response) in results)
  {
    FirstOkMeaning(results, order);
    CompletionReachesAll(results, order);
    SequentialCallBilling(q, books, results);
    var k := Failovers(results);
    if k < |results| {
      assert results[k].Ok?;
      assert results[k] in results;
    } else {
      assert results[|results| - 1] in results;
    }
  }

  /** When all agents give the same answer, all three endpoints that do not trap return it. */
  lemma UnanimousAgree(q: Request, books: Books, results: seq<AgentResult>, order: seq<nat>,
                       encode: seq<HttpResponse> -> Bytes)
    requires q.caller in books.callers && results != [] && Fits(books) && CompletionOrder(order, |results|)
    requires Unanimous(results)
    ensures SequentialCall(q, books, results).Returned? ==> SequentialCall(q, books, results).response == results[0].res
    ensures AllOkCall(q, books, results, order, encode).Returned? ==>
              AllOkCall(q, books, results, order, encode).response == results[0].res
    ensures AnyOkCall(q, books, results, order).Returned? ==>
              AnyOkCall(q, books, results, order).response == results[0].res
  {
    SequentialCallBilling(q, books, results);
    AllOkVerdictMeaning(results, order);
    FirstErrMeaning(results, order);
    CompletionReachesAll(results, order);
    FirstOkMeaning(results, order);
  }

  lemma OneAgentJoint(result: AgentResult, order: seq<nat>, encode: seq<HttpResponse> -> Bytes)
    requires CompletionOrder(order, 1)
    ensures FirstErr([result], order) == if result.Ok? then None else Some(result.res)
    ensures FirstOk([result], order) == result
    ensures Render(AllOkVerdict([result], order), encode) == result.res
  {
  }

  /** One agent asked at once: its end in one piece. */
  lemma OneAgentParallel(q: Request, books: Books, result: AgentResult, order: seq<nat>,
                         encode: seq<HttpResponse> -> Bytes)
    requires Fits(books) && CompletionOrder(order, 1) && q.caller in books.callers
    ensures var end := AllOkCall(q, books, [result], order, encode);
            && end == AnyOkCall(q, books, [result], order)
            && (if q.attached < q.Ingress() + q.Asking(1) then end == Undone(books)
                else
                  && end.Returned? && end.response == result.res
                  && PaidOut(q, Frame(books, q.attached),
                             q.Ingress() + q.Asking(1) + (if result.Ok? then q.Answering(result.res, 1) else 0),
                             end.frame))
  {
    OneAgentJoint(result, order, encode);
    var f0, first := Frame(books, q.attached), q.Ingress() + q.Asking(1);
    ReceiveMeaning(f0, first, false);
    var f := Receive(f0, first, false);
    if f.Some? {
      var last := if result.Ok? then q.Answering(result.res, 1) else 0;
      AllOkEnds(q, books, f.value, [result], order, encode);
      AnyOkEnds(q, books, f.value, [result], order);
      LastSegmentPays(q, f.value, last, result.res);
      PayTwice(q, f0, f.value, first, last, AllOkCall(q, books, [result], order, encode).frame);
    }
  }

  lemma OneAgentSequential(q: Request, books: Books, result: AgentResult)
    requires Fits(books) && q.caller in books.callers
    ensures var end := SequentialCall(q, books, [result]);
            if q.attached < q.Ingress() + q.Asking(1) then end == Undone(books)
            else
              && end.Returned? && end.response == result.res
              && PaidOut(q, Frame(books, q.attached),
                         q.Ingress() + q.Asking(1) + (if result.Ok? then q.Answering(result.res, 1) else 0), end.frame)
  {
    var results := [result];
    assert results[1..] == [];
    assert RequestsPrice(q, results) == q.Asking(1);
    assert AnswerPrice(q, results) == if result.Ok? then q.Answering(result.res, 1) else 0;
    SequentialCallTrapsIff(q, books, results);
    if SequentialCall(q, books, results).Returned? {
      SequentialCallPays(q, books, results);
    }
  }

  /**
   With exactly one agent the three endpoints are one and the same: equal replies or equal traps,
   equal ledgers, equal refunds, though one charges in two steps what the others charge in one.
   */
  lemma OneAgentOneEndpoint(q: Request, books: Books, result: AgentResult, order: seq<nat>,
                            encode: seq<HttpResponse> -> Bytes)
    requires Fits(books) && CompletionOrder(order, 1)
    ensures SequentialCall(q, books, [result]) == AllOkCall(q, books, [result], order, encode)
    ensures SequentialCall(q, books, [result]) == AnyOkCall(q, books, [result], order)
  {
    if q.caller in books.callers {
      OneAgentSequential(q, books, result);
      OneAgentParallel(q, books, result, order, encode);
    }
  }

  /******* Quotes *******/

  const DEFAULT_MAX_RESPONSE_BYTES := 10240

  function MaxResponse(limit: Option<nat>): nat {
    if limit.Some? then limit.value else DEFAULT_MAX_RESPONSE_BYTES
  }

  /** `proxy_http_request_cost` */
  function SequentialQuote(prices: Calculator, ingressBytes: nat, http: HttpRequest, limit: Option<nat>): nat {
    prices.IngressCost(ingressBytes) + prices.RequestCost(prices.RequestBytes(http), 1)
    + prices.ResponseCost(MaxResponse(limit), 1)
  }

  /** `parallel_call_cost` */
  function ParallelQuote(prices: Calculator, ingressBytes: nat, http: HttpRequest, limit: Option<nat>,
                         agents: nat): nat
  {
    prices.IngressCost(ingressBytes) + prices.RequestCost(prices.RequestBytes(http), agents)
    + prices.ResponseCost(MaxResponse(limit), agents)
  }

  /** Without an announced size, 10240 bytes are quoted. */
  lemma UnlimitedQuotesDefault(prices: Calculator, ingressBytes: nat, http: HttpRequest, agents: nat)
    ensures SequentialQuote(prices, ingressBytes, http, None)
        == SequentialQuote(prices, ingressBytes, http, Some(10240))
    ensures ParallelQuote(prices, ingressBytes, http, None, agents)
            == ParallelQuote(prices, ingressBytes, http, Some(10240), agents)
  {
  }

  /** The quotes are exact: a first answer of just the announced size costs just the quote. */
  lemma QuotesAreExact(prices: Calculator, ingressBytes: nat, http: HttpRequest, size: nat,
                       q: Request, books: Books, results: seq<AgentResult>, order: seq<nat>,
                       encode: seq<HttpResponse> -> Bytes)
    requires q.tariff == TariffFor(prices, ingressBytes, http)
    requires q.caller in books.callers && results != [] && Fits(books) && CompletionOrder(order, |results|)
    requires AllAnswer(results) && forall i | 0 <= i < |results| :: prices.ResponseBytes(results[i].res) == size
    ensures q.attached >= SequentialQuote(prices, ingressBytes, http, Some(size)) ==>
              var end := SequentialCall(q, books, results);
              end.Returned? && q.attached - end.frame.available
                  == SequentialQuote(prices, ingressBytes, http, Some(size))
    ensures q.attached >= ParallelQuote(prices, ingressBytes, http, Some(size), |results|) ==>
              var quote := ParallelQuote(prices, ingressBytes, http, Some(size), |results|);
              var all, any := AllOkCall(q, books, results, order, encode), AnyOkCall(q, books, results, order);
              && all.Returned? && q.attached - all.frame.available == quote
              && any.Returned? && q.attached - any.frame.available == quote
  {
    SequentialCallBilling(q, books, results);
    assert Failovers(results) == 0 && Asked(results) == 1;
    AllOkBilling(q, books, results, order, encode);
    assert FirstToAnswer(results, order, 0);
    AnyOkBilling(q, books, results, order, 0);
  }

  lemma ResponseWithinQuote(prices: Calculator, limit: Option<nat>, res: HttpResponse, agents: nat)
    requires Moderate(prices, MaxResponse(limit), agents) && prices.ResponseBytes(res) <= MaxResponse(limit)
    ensures prices.ResponseCost(prices.ResponseBytes(res), agents) <= prices.ResponseCost(MaxResponse(limit), agents)
  {
    WithinBoundsNothingWraps(prices, MaxResponse(limit), agents);
    WithinBoundsNothingWraps(prices, prices.ResponseBytes(res), agents);
    PricesAreMonotone(prices, prices, prices.ResponseBytes(res), MaxResponse(limit), agents, agents);
  }

  lemma OneMore(k: nat, price: nat)
    ensures (k + 1) * price == k * price + price
  {
  }

  /** A call whose answer costs at most `ceiling` is covered by the request phase plus `ceiling`. */
  lemma SequentialCovered(q: Request, books: Books, results: seq<AgentResult>, ceiling: nat)
    requires q.caller in books.callers && results != [] && Fits(books)
    requires Failovers(results) < |results| && AnswerPrice(q, results) <= ceiling
    requires q.attached >= q.Ingress() + q.Asking(1) + ceiling + Failovers(results) * q.Asking(1)
    ensures var end := SequentialCall(q, books, results);
            && end.Returned?
            && q.attached - end.frame.available
               <= q.Ingress() + q.Asking(1) + ceiling + Failovers(results) * q.Asking(1)
            && end.frame.books.uncollectible == books.uncollectible
  {
    OneMore(Failovers(results), q.Asking(1));
    SequentialCallBilling(q, books, results);
    var end := SequentialCall(q, books, results);
    CoveredPays(q, books, q.Ingress() + Asked(results) * q.Asking(1) + AnswerPrice(q, results), end.frame);
  }

  /** A price that the purse covers is paid in full. */
  lemma CoveredPays(q: Request, books: Books, price: nat, end: Frame)
    requires Fits(books) && price <= q.attached && PaidOut(q, Frame(books, q.attached), price, end)
    ensures end.available == q.attached - price && end.books.uncollectible == books.uncollectible
  {
  }

  /**
   A sequential call whose answer is within the announced size costs at most the quote plus one
   request price per failover; attaching that much, it neither traps nor leaves anything unpaid.
   */
  lemma SequentialQuoteCovers(prices: Calculator, ingressBytes: nat, http: HttpRequest, limit: Option<nat>,
                              q: Request, books: Books, results: seq<AgentResult>)
    requires q.tariff == TariffFor(prices, ingressBytes, http)
    requires q.caller in books.callers && results != [] && Fits(books) && Moderate(prices, MaxResponse(limit), 1)
    requires var k := Failovers(results);
             && k < |results| && prices.ResponseBytes(results[k].res) <= MaxResponse(limit)
             && q.attached >= SequentialQuote(prices, ingressBytes, http, limit) + k * q.Asking(1)
    ensures var end := SequentialCall(q, books, results);
            && end.Returned?
            && q.attached - end.frame.available
               <= SequentialQuote(prices, ingressBytes, http, limit) + Failovers(results) * q.Asking(1)
            && end.frame.books.uncollectible == books.uncollectible
  {
    ResponseWithinQuote(prices, limit, results[Failovers(results)].res, 1);
    SequentialCovered(q, books, results, prices.ResponseCost(MaxResponse(limit), 1));
  }

  /** A parallel call whose answers cost at most `ceiling` is covered by the request phase plus `ceiling`. */
  lemma ParallelCovered(q: Request, books: Books, results: seq<AgentResult>, order: seq<nat>,
                        encode: seq<HttpResponse> -> Bytes, ceiling: nat)
    requires q.caller in books.callers && results != [] && Fits(books) && CompletionOrder(order, |results|)
    requires forall r :: Ok(r) in results ==> q.Answering(r, |results|) <= ceiling
    requires q.attached >= q.Ingress() + q.Asking(|results|) + ceiling
    ensures var end := AllOkCall(q, books, results, order, encode);
            && end.Returned? && q.attached - end.frame.available <= q.Ingress() + q.Asking(|results|) + ceiling
            && end.frame.books.uncollectible == books.uncollectible
    ensures var end := AnyOkCall(q, books, results, order);
            && end.Returned? && q.attached - end.frame.available <= q.Ingress() + q.Asking(|results|) + ceiling
            && end.frame.books.uncollectible == books.uncollectible
  {
    var f0 := Frame(books, q.attached);
    ReceiveMeaning(f0, q.Ingress() + q.Asking(|results|), false);
    var f := Receive(f0, q.Ingress() + q.Asking(|results|), false).value;
    AllOkEnds(q, books, f, results, order, encode);
    AnyOkEnds(q, books, f, results, order);
    FirstErrMeaning(results, order);
    CompletionReachesAll(results, order);
    FirstOkMeaning(results, order);
    if FirstErr(results, order).None? {
      assert Ok(results[0].res) in results;
      ReceiveMeaning(f, q.Answering(results[0].res, |results|), true);
    }
    var first := FirstOk(results, order);
    if first.Ok? {
      assert Ok(first.res) in results;
      ReceiveMeaning(f, q.Answering(first.res, |results|), true);
    }
  }

  /** A parallel call whose answers are within the announced size is covered by the parallel quote. */
  lemma ParallelQuoteCovers(prices: Calculator, ingressBytes: nat, http: HttpRequest, limit: Option<nat>,
                            q: Request, books: Books, results: seq<AgentResult>, order: seq<nat>,
                            encode: seq<HttpResponse> -> Bytes)
    requires q.tariff == TariffFor(prices, ingressBytes, http)
    requires q.caller in books.callers && results != [] && Fits(books) && CompletionOrder(order, |results|)
    requires Moderate(prices, MaxResponse(limit), |results|)
    requires forall r :: Ok(r) in results ==> prices.ResponseBytes(r) <= MaxResponse(limit)
    requires q.attached >= ParallelQuote(prices, ingressBytes, http, limit, |results|)
    ensures var end := AllOkCall(q, books, results, order, encode);
            && end.Returned?
            && q.attached - end.frame.available <= ParallelQuote(prices, ingressBytes, http, limit, |results|)
            && end.frame.books.uncollectible == books.uncollectible
    ensures var end := AnyOkCall(q, books, results, order);
            && end.Returned?
            && q.attached - end.frame.available <= ParallelQuote(prices, ingressBytes, http, limit, |results|)
            && end.frame.books.uncollectible == books.uncollectible
  {
    var ceiling := prices.ResponseCost(MaxResponse(limit), |results|);
    forall r | Ok(r) in results ensures q.Answering(r, |results|) <= ceiling {
      ResponseWithinQuote(prices, limit, r, |results|);
    }
    ParallelCovered(q, books, results, order, encode, ceiling);
  }
}
