/**
 The cycle prices of one proxied call. The code computes a per-node price and a node count in
 u64 and multiplies them in u128; both the code's arithmetic and the intended formula are here.
 */
module Cycles {
  import opened Wrappers

  const U64: nat := 0x1_0000_0000_0000_0000
  const U128: nat := U64 * U64

  const INGRESS_MESSAGE_RECEIVED_COST := 1_200_000
  const INGRESS_MESSAGE_BYTE_RECEIVED_COST := 2_000
  const HTTP_OUTCALL_REQUEST_BASE_COST := 3_000_000
  const HTTP_OUTCALL_REQUEST_PER_NODE_COST := 60_000
  const HTTP_OUTCALL_REQUEST_COST_PER_BYTE := 400
  const HTTP_OUTCALL_RESPONSE_COST_PER_BYTE := 800
  const HTTP_OUTCALL_REQUEST_OVERHEAD_BYTES := 150
  const CANISTER_OVERHEAD := 1_000_000

  datatype Header = Header(name: string, value: string)

  datatype HttpRequest = HttpRequest(url: string, body: Option<Bytes>, headers: seq<Header>)

  datatype HttpResponse = HttpResponse(status: nat, headers: seq<Header>, body: Bytes)

  /** Bytes that a list of headers is charged for. */
  function HeaderBytes(headers: seq<Header>): nat {
    if headers == [] then 0
    else HeaderBytes(headers[..|headers| - 1])
         + |headers[|headers| - 1].name| + |headers[|headers| - 1].value| + 3
  }

  lemma {:induction false} HeaderBytesAppend(a: seq<Header>, b: seq<Header>)
    ensures HeaderBytes(a + b) == HeaderBytes(a) + HeaderBytes(b)
  {
    if b == [] {
      assert a + b == a;
    } else {
      HeaderBytesAppend(a, b[..|b| - 1]);
      assert (a + b)[..|a + b| - 1] == a + b[..|b| - 1];
    }
  }

  datatype Calculator = Calculator(subnetSize: nat, serviceFee: nat) {

    /** The fields are u64. */
    predicate Fits() {
      subnetSize < U64 && serviceFee < U64
    }

    method CountRequestBytes(req: HttpRequest) returns (total: nat)
      ensures total == RequestBytes(req)
    {
      if subnetSize == 0 {
        return 0;
      }
      total := |req.url| + if req.body.Some? then |req.body.value| else 0;
      for i := 0 to |req.headers|
        invariant total == |req.url| + (if req.body.Some? then |req.body.value| else 0) + HeaderBytes(req.headers[..i])
      {
        assert req.headers[..i + 1][..i] == req.headers[..i];
        total := total + |req.headers[i].name| + |req.headers[i].value| + 3;
      }
      assert req.headers[..|req.headers|] == req.headers;
    }

    method CountResponseBytes(res: HttpResponse) returns (total: nat)
      ensures total == ResponseBytes(res)
    {
      if subnetSize == 0 {
        return 0;
      }
      total := 4 + |res.body|;
      for i := 0 to |res.headers|
        invariant total == 4 + |res.body| + HeaderBytes(res.headers[..i])
      {
        assert res.headers[..i + 1][..i] == res.headers[..i];
        total := total + |res.headers[i].name| + |res.headers[i].value| + 3;
      }
      assert res.headers[..|res.headers|] == res.headers;
    }

    function RequestBytes(req: HttpRequest): nat {
      if subnetSize == 0 then 0
      else |req.url| + (if req.body.Some? then |req.body.value| else 0) + HeaderBytes(req.headers)
    }

    function ResponseBytes(res: HttpResponse): nat {
      if subnetSize == 0 then 0 else 4 + |res.body| + HeaderBytes(res.headers)
    }

    /******* The code: u64 steps wrap *******/

    function IngressCost(bytes: nat): nat {
      if subnetSize == 0 then 0
      else ((INGRESS_MESSAGE_RECEIVED_COST + INGRESS_MESSAGE_BYTE_RECEIVED_COST * bytes) % U64) * subnetSize
    }

    function RequestCost(bytes: nat, duplicates: nat): nat {
      if subnetSize == 0 then 0
      else serviceFee + (RequestPerNode(bytes) % U64) * ((subnetSize * duplicates) % U64)
    }

    function ResponseCost(bytes: nat, duplicates: nat): nat {
      if subnetSize == 0 then 0
      else ((HTTP_OUTCALL_RESPONSE_COST_PER_BYTE * bytes) % U64) * ((subnetSize * duplicates) % U64)
    }

    /******* The intended formula *******/

    function RequestPerNode(bytes: nat): nat {
      HTTP_OUTCALL_REQUEST_BASE_COST
      + HTTP_OUTCALL_REQUEST_PER_NODE_COST * subnetSize
      + HTTP_OUTCALL_REQUEST_COST_PER_BYTE * (HTTP_OUTCALL_REQUEST_OVERHEAD_BYTES + bytes)
      + CANISTER_OVERHEAD
    }

    function IngressPrice(bytes: nat): nat {
      if subnetSize == 0 then 0
      else (INGRESS_MESSAGE_RECEIVED_COST + INGRESS_MESSAGE_BYTE_RECEIVED_COST * bytes) * subnetSize
    }

    function RequestPrice(bytes: nat, duplicates: nat): nat {
      if subnetSize == 0 then 0
      else serviceFee + RequestPerNode(bytes) * (subnetSize * duplicates)
    }

    function ResponsePrice(bytes: nat, duplicates: nat): nat {
      if subnetSize == 0 then 0
      else (HTTP_OUTCALL_RESPONSE_COST_PER_BYTE * bytes) * (subnetSize * duplicates)
    }
  }

  /** The three prices of a calculator, as the ledger uses them. */
  datatype Prices = Prices(ingress: nat -> nat, request: (nat, nat) -> nat, response: (nat, nat) -> nat)

  function PricesOf(c: Calculator): Prices {
    Prices(
      (bytes: nat) => c.IngressCost(bytes),
      (bytes: nat, agents: nat) => c.RequestCost(bytes, agents),
      (bytes: nat, agents: nat) => c.ResponseCost(bytes, agents))
  }

  lemma MulMono(a: nat, b: nat, c: nat, d: nat)
    requires a <= c && b <= d
    ensures a * b <= c * d
  {
  }

  /** A product of reduced factors equals the true product exactly when nothing was reduced or the product is zero. */
  lemma WrappedProduct(a: nat, b: nat)
    ensures (a % U64) * (b % U64) <= a * b
    ensures (a % U64) * (b % U64) == a * b <==> (a < U64 && b < U64) || a == 0 || b == 0
    ensures (a % U64) * (b % U64) <= (U64 - 1) * (U64 - 1)
  {
  }

  /**
   The code charges the intended price exactly when no u64 step wraps (or nothing is charged per
   byte at all); otherwise it charges less. The u128 arithmetic itself never overflows.
   */
  lemma CodeChargesThePriceIff(c: Calculator, bytes: nat, duplicates: nat)
    requires c.Fits()
    ensures c.RequestCost(bytes, duplicates) <= c.RequestPrice(bytes, duplicates)
    ensures c.ResponseCost(bytes, duplicates) <= c.ResponsePrice(bytes, duplicates)
    ensures c.RequestCost(bytes, duplicates) < U128 && c.ResponseCost(bytes, duplicates) < U128
    ensures c.RequestCost(bytes, duplicates) == c.RequestPrice(bytes, duplicates) <==>
            c.subnetSize == 0 || duplicates == 0 || (c.RequestPerNode(bytes) < U64 && c.subnetSize * duplicates < U64)
    ensures c.ResponseCost(bytes, duplicates) == c.ResponsePrice(bytes, duplicates) <==>
            c.subnetSize == 0 || duplicates == 0 || bytes == 0
            || (HTTP_OUTCALL_RESPONSE_COST_PER_BYTE * bytes < U64 && c.subnetSize * duplicates < U64)
  {
    if c.subnetSize > 0 {
      WrappedProduct(c.RequestPerNode(bytes), c.subnetSize * duplicates);
      WrappedProduct(HTTP_OUTCALL_RESPONSE_COST_PER_BYTE * bytes, c.subnetSize * duplicates);
      assert c.subnetSize * duplicates == 0 <==> duplicates == 0;
    }
  }

  lemma CodeChargesIngressIff(c: Calculator, bytes: nat)
    requires c.Fits()
    ensures c.IngressCost(bytes) <= c.IngressPrice(bytes) && c.IngressCost(bytes) < U128
    ensures c.IngressCost(bytes) == c.IngressPrice(bytes) <==>
            c.subnetSize == 0 || INGRESS_MESSAGE_RECEIVED_COST + INGRESS_MESSAGE_BYTE_RECEIVED_COST * bytes < U64
  {
    if c.subnetSize > 0 {
      WrappedProduct(INGRESS_MESSAGE_RECEIVED_COST + INGRESS_MESSAGE_BYTE_RECEIVED_COST * bytes, c.subnetSize);
    }
  }

  /** Sizes of a 32-bit canister, any subnet of fewer than 2^32 nodes, and fewer than 2^31 agents. */
  predicate Moderate(c: Calculator, bytes: nat, duplicates: nat) {
    c.Fits() && c.subnetSize < 0x1_0000_0000 && bytes < 0x1_0000_0000 && duplicates < 0x8000_0000
  }

  /** At these sizes no step wraps. */
  lemma WithinBoundsNothingWraps(c: Calculator, bytes: nat, duplicates: nat)
    requires Moderate(c, bytes, duplicates)
    ensures c.IngressCost(bytes) == c.IngressPrice(bytes)
    ensures c.RequestCost(bytes, duplicates) == c.RequestPrice(bytes, duplicates)
    ensures c.ResponseCost(bytes, duplicates) == c.ResponsePrice(bytes, duplicates)
  {
    MulMono(c.subnetSize, duplicates, 0x1_0000_0000, 0x8000_0000);
    CodeChargesIngressIff(c, bytes);
    CodeChargesThePriceIff(c, bytes, duplicates);
  }

  /** Prices grow with bytes, duplicates, subnet size and fee, once there is a subnet to pay for. */
  lemma PricesAreMonotone(c: Calculator, d: Calculator, b1: nat, b2: nat, n1: nat, n2: nat)
    requires c.subnetSize <= d.subnetSize && c.serviceFee <= d.serviceFee && b1 <= b2 && n1 <= n2
    ensures c.IngressPrice(b1) <= d.IngressPrice(b2)
    ensures c.RequestPrice(b1, n1) <= d.RequestPrice(b2, n2)
    ensures c.ResponsePrice(b1, n1) <= d.ResponsePrice(b2, n2)
  {
    MulMono(c.subnetSize, n1, d.subnetSize, n2);
    MulMono(INGRESS_MESSAGE_RECEIVED_COST + INGRESS_MESSAGE_BYTE_RECEIVED_COST * b1, c.subnetSize,
            INGRESS_MESSAGE_RECEIVED_COST + INGRESS_MESSAGE_BYTE_RECEIVED_COST * b2, d.subnetSize);
    MulMono(c.RequestPerNode(b1), c.subnetSize * n1, d.RequestPerNode(b2), d.subnetSize * n2);
    MulMono(HTTP_OUTCALL_RESPONSE_COST_PER_BYTE * b1, c.subnetSize * n1,
            HTTP_OUTCALL_RESPONSE_COST_PER_BYTE * b2, d.subnetSize * n2);
  }

  /**
   With a subnet, `n` single requests cost exactly `n - 1` fees more than one `n`-way request, and
   their responses the same.
   */
  lemma SingleVersusParallel(c: Calculator, bytes: nat, n: nat)
    requires c.subnetSize > 0 && n > 0
    ensures n * c.RequestPrice(bytes, 1) == c.RequestPrice(bytes, n) + (n - 1) * c.serviceFee
    ensures n * c.ResponsePrice(bytes, 1) == c.ResponsePrice(bytes, n)
  {
  }

  /** What the code charges grows likewise, up to those sizes. */
  lemma CostsAreMonotone(c: Calculator, d: Calculator, b1: nat, b2: nat, n1: nat, n2: nat)
    requires c.subnetSize <= d.subnetSize && c.serviceFee <= d.serviceFee && b1 <= b2 && n1 <= n2
    requires Moderate(d, b2, n2)
    ensures c.IngressCost(b1) <= d.IngressCost(b2)
    ensures c.RequestCost(b1, n1) <= d.RequestCost(b2, n2)
    ensures c.ResponseCost(b1, n1) <= d.ResponseCost(b2, n2)
  {
    WithinBoundsNothingWraps(c, b1, n1);
    WithinBoundsNothingWraps(d, b2, n2);
    PricesAreMonotone(c, d, b1, b2, n1, n2);
  }

  /** ... and so does what it charges for one agent at a time and for all at once compare. */
  lemma SingleVersusParallelCost(c: Calculator, bytes: nat, n: nat)
    requires c.subnetSize > 0 && n > 0 && Moderate(c, bytes, n)
    ensures n * c.RequestCost(bytes, 1) == c.RequestCost(bytes, n) + (n - 1) * c.serviceFee
    ensures n * c.ResponseCost(bytes, 1) == c.ResponseCost(bytes, n)
  {
    WithinBoundsNothingWraps(c, bytes, 1);
    WithinBoundsNothingWraps(c, bytes, n);
    SingleVersusParallel(c, bytes, n);
  }

  /**
   The charges in figures. With a subnet, at the sizes above: 1.2 M and 2000 a byte per node for the
   message; the fee, and 4.06 M and 60 000 a node and 400 a byte per node and agent for the request;
   800 a byte per node and agent for the response. Without a subnet nothing is charged.
   */
  lemma CostsInFigures(c: Calculator, bytes: nat, agents: nat)
    requires Moderate(c, bytes, agents)
    ensures c.subnetSize > 0 ==>
              && c.IngressCost(bytes) == (1_200_000 + 2_000 * bytes) * c.subnetSize
              && c.RequestCost(bytes, agents)
                 == c.serviceFee + (4_060_000 + 60_000 * c.subnetSize + 400 * bytes) * (c.subnetSize * agents)
              && c.ResponseCost(bytes, agents) == (800 * bytes) * (c.subnetSize * agents)
    ensures c.subnetSize == 0 ==>
              c.IngressCost(bytes) == c.RequestCost(bytes, agents) == c.ResponseCost(bytes, agents) == 0
  {
    WithinBoundsNothingWraps(c, bytes, agents);
    assert c.RequestPerNode(bytes) == 4_060_000 + 60_000 * c.subnetSize + 400 * bytes;
  }

  /**
   One more byte costs 2000 a node in the message, and 400 in the request and 800 in the response a
   node and agent.
   */
  lemma OneMoreByte(c: Calculator, bytes: nat, agents: nat)
    requires Moderate(c, bytes + 1, agents)
    ensures c.IngressCost(bytes + 1) == c.IngressCost(bytes) + 2_000 * c.subnetSize
    ensures c.RequestCost(bytes + 1, agents) == c.RequestCost(bytes, agents) + 400 * (c.subnetSize * agents)
    ensures c.ResponseCost(bytes + 1, agents) == c.ResponseCost(bytes, agents) + 800 * (c.subnetSize * agents)
  {
    CostsInFigures(c, bytes, agents);
    CostsInFigures(c, bytes + 1, agents);
    if c.subnetSize > 0 {
      var nodes, perNode := c.subnetSize * agents, 4_060_000 + 60_000 * c.subnetSize + 400 * bytes;
      OneMoreTerm(1_200_000 + 2_000 * bytes, 2_000, c.subnetSize);
      OneMoreTerm(perNode, 400, nodes);
      OneMoreTerm(800 * bytes, 800, nodes);
    }
  }

  lemma OneMoreTerm(a: nat, b: nat, c: nat)
    ensures (a + b) * c == a * c + b * c
  {
  }

  /** An empty request to one agent costs the fee and 4.84 M a node on 13 nodes. */
  lemma EmptyRequestOnThirteenNodes(c: Calculator)
    requires c.Fits() && c.subnetSize == 13
    ensures c.RequestCost(0, 1) == c.serviceFee + 13 * 4_840_000
  {
  }

  /** What is counted: the texts and three for each header, and four for a response. Without a subnet nothing is. */
  lemma BytesInFigures(c: Calculator, url: string, body: Bytes, status: nat, h: Header, headers: seq<Header>)
    requires c.subnetSize > 0
    ensures c.RequestBytes(HttpRequest(url, None, [])) == |url|
    ensures c.RequestBytes(HttpRequest(url, Some(body), headers))
        == c.RequestBytes(HttpRequest(url, None, headers)) + |body|
    ensures c.RequestBytes(HttpRequest(url, None, headers + [h]))
            == c.RequestBytes(HttpRequest(url, None, headers)) + |h.name| + |h.value| + 3
    ensures c.ResponseBytes(HttpResponse(status, [], body)) == |body| + 4
    ensures c.ResponseBytes(HttpResponse(status, headers + [h], body))
            == c.ResponseBytes(HttpResponse(status, headers, body)) + |h.name| + |h.value| + 3
  {
    HeaderBytesAppend(headers, [h]);
  }

  lemma NoSubnetCountsNothing(c: Calculator, req: HttpRequest, res: HttpResponse)
    requires c.subnetSize == 0
    ensures c.RequestBytes(req) == 0 && c.ResponseBytes(res) == 0
  {
  }
}
