/**
 The access tokens that agents carry: the signing loop that fills them in, and the runs in which
 timer refreshes and admin updates overlap, each writing back a whole list after many awaits.
 */
module Tokens {
  import opened Wrappers

  /** A signed token; the signature itself is opaque. */
  datatype Token = Token(expireAt: nat, name: string, signature: nat)

  datatype Agent = Agent(name: string, endpoint: string, maxCycles: nat, token: Option<Token>)

  /** Added to the refresh interval when a token is signed, in seconds. */
  const MARGIN := 120

  const NANOS := 1_000_000_000

  /** The signer's answer to its `i`-th call: when it was asked, and what came back. */
  datatype Signing = Signing(askedNs: nat, signature: Option<nat>)

  /** Everything about an agent but its token. */
  function Bare(a: Agent): Agent {
    a.(token := None)
  }

  function BareList(agents: seq<Agent>): (r: seq<Agent>)
    ensures |r| == |agents| && forall i | 0 <= i < |r| :: r[i] == Bare(agents[i])
  {
    seq(|agents|, i requires 0 <= i < |agents| => Bare(agents[i]))
  }

  /** Same agents, in the same order, each with a token of its own name, equal names with equal tokens. */
  ghost predicate Filled(before: seq<Agent>, after: seq<Agent>) {
    && BareList(after) == BareList(before)
    && (forall i | 0 <= i < |after| :: after[i].token.Some? && after[i].token.value.name == after[i].name)
    && (forall i, j | 0 <= i < |after| && 0 <= j < |after| && after[i].name == after[j].name ::
          after[i].token == after[j].token)
  }

  function Names(agents: seq<Agent>): set<string> {
    set i | 0 <= i < |agents| :: agents[i].name
  }

  /******* The signing loop *******/

  function TokenFrom(name: string, signing: Signing, interval: nat): Token
    requires signing.signature.Some?
  {
    Token(signing.askedNs / NANOS + interval + MARGIN, name, signing.signature.value)
  }

  function PutFirst(a: Agent, token: Token, rest: Option<seq<Agent>>): Option<seq<Agent>> {
    if rest.None? then None else Some([a.(token := Some(token))] + rest.value)
  }

  /** A name that has a token keeps it; a new one takes the signer's next answer. None: the signer failed. */
  function SignFrom(list: seq<Agent>, tokens: map<string, Token>, interval: nat, signings: seq<Signing>)
    : Option<seq<Agent>>
  {
    if list == [] then Some([])
    else
      var name := list[0].name;
      if name in tokens then PutFirst(list[0], tokens[name], SignFrom(list[1..], tokens, interval, signings))
      else if signings == [] || signings[0].signature.None? then None
      else
        var token := TokenFrom(name, signings[0], interval);
        PutFirst(list[0], token, SignFrom(list[1..], tokens[name := token], interval, signings[1..]))
  }

  function SignAll(list: seq<Agent>, interval: nat, signings: seq<Signing>): Option<seq<Agent>> {
    SignFrom(list, map[], interval, signings)
  }

  /** What is still to be signed after `i` agents, put behind them, is the whole. */
  ghost predicate Signs(list: seq<Agent>, agents: seq<Agent>, tokens: map<string, Token>, signings: seq<Signing>,
                        signed: nat, interval: nat, i: nat)
    requires i <= |list| && signed <= |signings|
  {
    && |agents| == |list| && agents[i..] == list[i..]
    && var rest := SignFrom(list[i..], tokens, interval, signings[signed..]);
    SignAll(list, interval, signings) == if rest.None? then None else Some(agents[..i] + rest.value)
  }

  /** Where the loop stands after `i` agents. */
  ghost predicate LoopAt(list: seq<Agent>, agents: seq<Agent>, tokens: map<string, Token>, signings: seq<Signing>,
                         signed: nat, interval: nat, i: nat)
    requires i <= |list| <= |signings|
  {
    && signed == |tokens.Keys| <= i && tokens.Keys == Names(list[..i])
    && Signs(list, agents, tokens, signings, signed, interval, i)
  }

  lemma ReuseToken(list: seq<Agent>, agents: seq<Agent>, tokens: map<string, Token>, signings: seq<Signing>,
                   signed: nat, interval: nat, i: nat)
    requires i < |list| <= |signings| && LoopAt(list, agents, tokens, signings, signed, interval, i)
    requires list[i].name in tokens
    ensures LoopAt(list, agents[i := list[i].(token := Some(tokens[list[i].name]))], tokens, signings, signed,
                   interval, i + 1)
  {
    SignsStep(list, agents, tokens, signings, signed, interval, i);
    NamesStep(list, i);
  }

  lemma NewToken(list: seq<Agent>, agents: seq<Agent>, tokens: map<string, Token>, signings: seq<Signing>,
                 signed: nat, interval: nat, i: nat)
    requires i < |list| <= |signings| && LoopAt(list, agents, tokens, signings, signed, interval, i)
    requires list[i].name !in tokens && signings[signed].signature.Some?
    ensures var token := TokenFrom(list[i].name, signings[signed], interval);
            LoopAt(list, agents[i := list[i].(token := Some(token))], tokens[token.name := token], signings, signed + 1,
                   interval, i + 1)
  {
    SignsStep(list, agents, tokens, signings, signed, interval, i);
    NamesStep(list, i);
    var token := TokenFrom(list[i].name, signings[signed], interval);
    assert tokens[token.name := token].Keys == tokens.Keys + {token.name};
  }

  lemma SignsStep(list: seq<Agent>, agents: seq<Agent>, tokens: map<string, Token>, signings: seq<Signing>,
                  signed: nat, interval: nat, i: nat)
    requires i < |list| && signed <= |signings| && Signs(list, agents, tokens, signings, signed, interval, i)
    ensures agents[i] == list[i]
    ensures var name := list[i].name;
            if name in tokens then
              Signs(list, agents[i := agents[i].(token := Some(tokens[name]))], tokens, signings, signed,
                    interval, i + 1)
            else if signed == |signings| || signings[signed].signature.None? then
              SignAll(list, interval, signings) == None
            else
              var token := TokenFrom(name, signings[signed], interval);
              Signs(list, agents[i := agents[i].(token := Some(token))], tokens[name := token], signings, signed + 1,
                    interval, i + 1)
  {
    assert list[i..][1..] == list[i + 1..] && list[i] == list[i..][0] == agents[i..][0];
    assert agents[i + 1..] == agents[i..][1..];
    var name := list[i].name;
    if name in tokens {
      PutStep(agents, i, list[i].(token := Some(tokens[name])),
              SignFrom(list[i + 1..], tokens, interval, signings[signed..]));
    } else if signed < |signings| && signings[signed].signature.Some? {
      assert signings[signed..][1..] == signings[signed + 1..];
      var token := TokenFrom(name, signings[signed], interval);
      PutStep(agents, i, list[i].(token := Some(token)),
              SignFrom(list[i + 1..], tokens[name := token], interval, signings[signed + 1..]));
    }
  }

  lemma PutStep(agents: seq<Agent>, i: nat, a: Agent, rest: Option<seq<Agent>>)
    requires i < |agents|
    ensures agents[i := a][i + 1..] == agents[i + 1..]
    ensures rest.Some? ==> agents[i := a][..i + 1] + rest.value == agents[..i] + ([a] + rest.value)
  {
    assert agents[i := a][..i + 1] == agents[..i] + [a];
  }

  /**
   The signing loop. `signings` are the signer's answers in the order it is asked; None is a
   failure to sign, which traps and writes nothing. `agents` is what would be written back.
   The signer is asked once for each distinct name.
   */
  method UpdateProxyToken(list: seq<Agent>, interval: nat, signings: seq<Signing>)
    returns (agents: seq<Agent>, ok: bool, signed: nat)
    requires |signings| >= |list|
    ensures SignAll(list, interval, signings) == if ok then Some(agents) else None
    ensures |Names(list)| <= |list|
    ensures ok <==> AllSign(signings, |Names(list)|)
    ensures ok ==> signed == |Names(list)| && Filled(list, agents)
    ensures ok ==> forall i | 0 <= i < |agents| :: Signed(signings, signed, interval, agents[i].token.value)
  {
    var tokens: map<string, Token> := map[];
    agents := list;
    signed := 0;
    LoopStarts(list, signings, interval);
    for i := 0 to |list|
      invariant LoopAt(list, agents, tokens, signings, signed, interval, i)
    {
      NextAgent(list, agents, tokens, signings, signed, interval, i);
      var name := agents[i].name;
      if name in tokens {
        ReuseToken(list, agents, tokens, signings, signed, interval, i);
        agents := agents[i := agents[i].(token := Some(tokens[name]))];
      } else {
        var signing := signings[signed];
        if signing.signature.None? {
          SignerFails(list, agents, tokens, signings, signed, interval, i);
          ok := false;
          return;
        }
        var token := TokenFrom(name, signing, interval);
        NewToken(list, agents, tokens, signings, signed, interval, i);
        agents := agents[i := agents[i].(token := Some(token))];
        tokens := tokens[name := token];
        signed := signed + 1;
      }
    }
    LoopEnds(list, agents, tokens, signings, signed, interval);
    ok := true;
  }

  lemma NextAgent(list: seq<Agent>, agents: seq<Agent>, tokens: map<string, Token>, signings: seq<Signing>,
                  signed: nat, interval: nat, i: nat)
    requires i < |list| <= |signings| && LoopAt(list, agents, tokens, signings, signed, interval, i)
    ensures |agents| == |list| && agents[i] == list[i] && signed < |signings|
  {
    SignsStep(list, agents, tokens, signings, signed, interval, i);
  }

  lemma SignerFails(list: seq<Agent>, agents: seq<Agent>, tokens: map<string, Token>, signings: seq<Signing>,
                    signed: nat, interval: nat, i: nat)
    requires i < |list| <= |signings| && LoopAt(list, agents, tokens, signings, signed, interval, i)
    requires list[i].name !in tokens && signings[signed].signature.None?
    ensures SignAll(list, interval, signings) == None
    ensures |Names(list)| <= |list| && !AllSign(signings, |Names(list)|)
  {
    SignsStep(list, agents, tokens, signings, signed, interval, i);
    SignAllMeaning(list, interval, signings);
  }

  lemma LoopEnds(list: seq<Agent>, agents: seq<Agent>, tokens: map<string, Token>, signings: seq<Signing>,
                 signed: nat, interval: nat)
    requires |list| <= |signings| && LoopAt(list, agents, tokens, signings, signed, interval, |list|)
    ensures SignAll(list, interval, signings) == Some(agents)
    ensures signed == |Names(list)| <= |list| && AllSign(signings, |Names(list)|) && Filled(list, agents)
    ensures forall i | 0 <= i < |agents| :: Signed(signings, signed, interval, agents[i].token.value)
  {
    assert list[..|list|] == list && agents[..|list|] + [] == agents;
    SignAllMeaning(list, interval, signings);
  }

  lemma LoopStarts(list: seq<Agent>, signings: seq<Signing>, interval: nat)
    requires |list| <= |signings|
    ensures LoopAt(list, list, map[], signings, 0, interval, 0)
  {
    assert list[0..] == list && signings[0..] == signings;
    var all := SignAll(list, interval, signings);
    assert all.Some? ==> list[..0] + all.value == all.value;
  }

  lemma NamesStep(list: seq<Agent>, i: nat)
    requires i < |list|
    ensures Names(list[..i + 1]) == Names(list[..i]) + {list[i].name}
  {
  }

  /** `token` is what one of the first `signed` answers makes of its name. */
  predicate Signed(signings: seq<Signing>, signed: nat, interval: nat, token: Token) {
    exists j | 0 <= j < signed :: SignedBy(signings, j, interval, token)
  }

  /** It is good for the refresh interval and two minutes from the whole second at which it was asked for. */
  predicate SignedBy(signings: seq<Signing>, j: nat, interval: nat, token: Token) {
    && j < |signings|
    && token.expireAt == signings[j].askedNs / 1_000_000_000 + interval + 120
    && signings[j].signature == Some(token.signature)
  }

  /** Every agent carries the token of its name. */
  ghost predicate Carry(list: seq<Agent>, after: seq<Agent>, tokens: map<string, Token>) {
    && |after| == |list|
    && forall j | 0 <= j < |list| ::
         list[j].name in tokens && after[j] == list[j].(token := Some(tokens[list[j].name]))
  }

  predicate OwnNames(tokens: map<string, Token>) {
    forall n | n in tokens :: tokens[n].name == n
  }

  /** The tokens that the loop ends with. */
  lemma {:induction false} SignFromTokens(list: seq<Agent>, tokens: map<string, Token>, interval: nat,
                                          signings: seq<Signing>)
    returns (final: map<string, Token>)
    requires SignFrom(list, tokens, interval, signings).Some?
    ensures OwnNames(tokens) ==> OwnNames(final)
    ensures tokens.Keys <= final.Keys && forall n | n in tokens :: final[n] == tokens[n]
    ensures Carry(list, SignFrom(list, tokens, interval, signings).value, final)
  {
    if list == [] {
      final := tokens;
    } else {
      var name, after := list[0].name, SignFrom(list, tokens, interval, signings).value;
      if name in tokens {
        final := SignFromTokens(list[1..], tokens, interval, signings);
      } else {
        var token := TokenFrom(name, signings[0], interval);
        final := SignFromTokens(list[1..], tokens[name := token], interval, signings[1..]);
      }
      forall j | 1 <= j < |list|
        ensures list[j].name in final && after[j] == list[j].(token := Some(final[list[j].name]))
      {
        assert list[1..][j - 1] == list[j] && after[1..][j - 1] == after[j];
      }
    }
  }

  /** None of the signer's first `n` answers is a failure. */
  predicate AllSign(signings: seq<Signing>, n: nat)
    requires n <= |signings|
  {
    forall i | 0 <= i < n :: signings[i].signature.Some?
  }

  lemma AllSignStep(signings: seq<Signing>, n: nat)
    requires n < |signings|
    ensures AllSign(signings, n + 1) <==> signings[0].signature.Some? && AllSign(signings[1..], n)
  {
    assert forall i | 1 <= i <= n :: signings[i] == signings[1..][i - 1];
  }

  lemma SignedStep(signings: seq<Signing>, n: nat, interval: nat, token: Token)
    requires signings != [] && Signed(signings[1..], n, interval, token)
    ensures Signed(signings, n + 1, interval, token)
  {
    var i :| 0 <= i < n && SignedBy(signings[1..], i, interval, token);
    assert SignedBy(signings, i + 1, interval, token);
  }

  lemma NamesCons(list: seq<Agent>)
    requires list != []
    ensures Names(list) == {list[0].name} + Names(list[1..])
  {
    var tail := list[1..];
    forall n | n in Names(list) ensures n in {list[0].name} + Names(tail) {
      var i :| 0 <= i < |list| && list[i].name == n;
      assert i > 0 ==> tail[i - 1].name == n;
    }
    forall n | n in Names(tail) ensures n in Names(list) {
      var i :| 0 <= i < |tail| && tail[i].name == n;
      assert list[i + 1].name == n;
    }
  }

  lemma NamesOfRest(list: seq<Agent>, tokens: map<string, Token>, token: Token)
    requires list != [] && token.name == list[0].name
    ensures token.name in tokens ==> Names(list) - tokens.Keys == Names(list[1..]) - tokens.Keys
    ensures token.name !in tokens ==>
              |Names(list) - tokens.Keys| == |Names(list[1..]) - tokens[token.name := token].Keys| + 1
  {
    NamesCons(list);
    if token.name !in tokens {
      assert Names(list) - tokens.Keys == (Names(list[1..]) - tokens[token.name := token].Keys) + {token.name};
    }
  }

  lemma {:induction false} NamesBound(list: seq<Agent>, tokens: map<string, Token>)
    ensures |Names(list) - tokens.Keys| <= |list|
  {
    if list != [] {
      var token := Token(0, list[0].name, 0);
      NamesOfRest(list, tokens, token);
      NamesBound(list[1..], if token.name in tokens then tokens else tokens[token.name := token]);
    }
  }

  /** The loop asks the signer once for each name that has no token yet, and ends unless one of those answers fails. */
  lemma {:induction false} SignFromSigns(list: seq<Agent>, tokens: map<string, Token>, interval: nat,
                                         signings: seq<Signing>)
    requires |Names(list) - tokens.Keys| <= |signings|
    ensures SignFrom(list, tokens, interval, signings).Some? <==> AllSign(signings, |Names(list) - tokens.Keys|)
  {
    if list != [] {
      var name, tail := list[0].name, list[1..];
      NamesOfRest(list, tokens, Token(0, name, 0));
      if name in tokens {
        SignFromSigns(tail, tokens, interval, signings);
      } else if signings[0].signature.Some? {
        NewNameSigns(list, tokens, interval, signings);
        SignFromSigns(tail, tokens[name := TokenFrom(name, signings[0], interval)], interval, signings[1..]);
      }
    }
  }

  lemma NewNameSigns(list: seq<Agent>, tokens: map<string, Token>, interval: nat, signings: seq<Signing>)
    requires list != [] && list[0].name !in tokens && |Names(list) - tokens.Keys| <= |signings|
    requires signings != [] && signings[0].signature.Some?
    ensures var token := TokenFrom(list[0].name, signings[0], interval);
            var tokens' := tokens[token.name := token];
            var n := |Names(list[1..]) - tokens'.Keys|;
            && n < |signings|
            && (AllSign(signings, |Names(list) - tokens.Keys|) <==> AllSign(signings[1..], n))
            && (SignFrom(list, tokens, interval, signings).Some?
                <==> SignFrom(list[1..], tokens', interval, signings[1..]).Some?)
  {
    var token := TokenFrom(list[0].name, signings[0], interval);
    NamesOfRest(list, tokens, token);
    AllSignStep(signings, |Names(list[1..]) - tokens[token.name := token].Keys|);
  }

  /** Every new token comes from one of those answers. */
  lemma {:induction false} SignFromSigned(list: seq<Agent>, tokens: map<string, Token>, interval: nat,
                                          signings: seq<Signing>, j: nat)
    requires SignFrom(list, tokens, interval, signings).Some?
    requires j < |list| && list[j].name !in tokens
    ensures var after := SignFrom(list, tokens, interval, signings).value;
            && |after| == |list| && after[j].token.Some?
            && Signed(signings, |Names(list) - tokens.Keys|, interval, after[j].token.value)
  {
    var name, tail := list[0].name, list[1..];
    var after := SignFrom(list, tokens, interval, signings).value;
    var whole := SignFromTokens(list, tokens, interval, signings);
    assert j > 0 ==> list[j] == tail[j - 1] && after[j] == after[1..][j - 1];
    if name in tokens {
      NamesOfRest(list, tokens, Token(0, name, 0));
      SignFromSigned(tail, tokens, interval, signings, j - 1);
    } else {
      var token := TokenFrom(name, signings[0], interval);
      var tokens' := tokens[name := token];
      NamesOfRest(list, tokens, token);
      if list[j].name == name {
        assert after[0].token.value == token;
        assert SignedBy(signings, 0, interval, token);
      } else {
        SignFromSigned(tail, tokens', interval, signings[1..], j - 1);
        SignedStep(signings, |Names(tail) - tokens'.Keys|, interval, after[j].token.value);
      }
    }
  }

  lemma SignAllMeaning(list: seq<Agent>, interval: nat, signings: seq<Signing>)
    requires |signings| >= |list|
    ensures var n, r := |Names(list)|, SignAll(list, interval, signings);
            && n <= |list|
            && (r.Some? <==> AllSign(signings, n))
            && (r.Some? ==>
                  && Filled(list, r.value)
                  && forall j | 0 <= j < |r.value| :: Signed(signings, n, interval, r.value[j].token.value))
  {
    var none: map<string, Token> := map[];
    NamesBound(list, none);
    SignFromSigns(list, none, interval, signings);
    assert Names(list) - none.Keys == Names(list);
    if SignAll(list, interval, signings).Some? {
      SignAllFills(list, interval, signings);
      forall j | 0 <= j < |list|
        ensures Signed(signings, |Names(list)|, interval, SignAll(list, interval, signings).value[j].token.value)
      {
        SignFromSigned(list, none, interval, signings, j);
      }
    }
  }

  /** Whatever the signer answers, a loop that ends has filled the whole list. */
  lemma SignAllFills(list: seq<Agent>, interval: nat, signings: seq<Signing>)
    requires SignAll(list, interval, signings).Some?
    ensures Filled(list, SignAll(list, interval, signings).value)
  {
    var after := SignAll(list, interval, signings).value;
    var tokens := SignFromTokens(list, map[], interval, signings);
    assert BareList(after) == BareList(list);
  }

  /******* Overlapping refreshes and admin updates *******/

  /** A task between its snapshot and its write: the list it started from, and who started it. */
  datatype Job = Job(list: seq<Agent>, byAdmin: bool)

  datatype Canister = Canister(agents: seq<Agent>, jobs: map<nat, Job>, written: seq<seq<Agent>>)

  const EMPTY := Canister([], map[], [])

  datatype Event =
    | StartRefresh(id: nat)                                      // the timer: a snapshot of the stored list
    | StartAdmin(id: nat, list: seq<Agent>)                      // admin_set_agents: a list of the admin's
    | Write(id: nat, interval: nat, signings: seq<Signing>)      // the loop ends: its whole list is written back
    | Fail(id: nat)                                              // a signature failed: trap, nothing written

  predicate Enabled(c: Canister, e: Event) {
    match e
    case StartRefresh(id) => id !in c.jobs
    case StartAdmin(id, list) => id !in c.jobs
    case Write(id, interval, signings) => id in c.jobs && SignAll(c.jobs[id].list, interval, signings).Some?
    case Fail(id) => id in c.jobs
  }

  /** An empty list starts nothing: a refresh returns at once, an admin update is refused. */
  function Step(c: Canister, e: Event): Canister
    requires Enabled(c, e)
  {
    match e
    case StartRefresh(id) => if c.agents == [] then c else c.(jobs := c.jobs[id := Job(c.agents, false)])
    case StartAdmin(id, list) => if list == [] then c else c.(jobs := c.jobs[id := Job(list, true)])
    case Write(id, interval, signings) =>
      var list := c.jobs[id].list;
      Canister(SignAll(list, interval, signings).value, c.jobs - {id}, c.written + [list])
    case Fail(id) => c.(jobs := c.jobs - {id})
  }

  predicate EnabledRun(c: Canister, run: seq<Event>)
    decreases |run|, 0
  {
    run == [] || (EnabledRun(c, run[..|run| - 1]) && Enabled(After(c, run[..|run| - 1]), run[|run| - 1]))
  }

  function After(c: Canister, run: seq<Event>): Canister
    requires EnabledRun(c, run)
    decreases |run|, 1
  {
    if run == [] then c else Step(After(c, run[..|run| - 1]), run[|run| - 1])
  }

  /**
   A write ends its task and leaves the others be; what is stored is what it started from, every agent
   with its token.
   */
  lemma WriteStores(c: Canister, id: nat, interval: nat, signings: seq<Signing>)
    requires Enabled(c, Write(id, interval, signings))
    ensures Filled(c.jobs[id].list, Step(c, Write(id, interval, signings)).agents)
    ensures Step(c, Write(id, interval, signings)).jobs == c.jobs - {id}
  {
    SignAllFills(c.jobs[id].list, interval, signings);
  }

  /**
   What the other events do: a refresh starts from what is stored, an update from its own list, and a
   failure writes nothing.
   */
  lemma TasksStartAndFail(c: Canister, id: nat, list: seq<Agent>)
    ensures id !in c.jobs && c.agents != [] ==>
              Step(c, StartRefresh(id)) == c.(jobs := c.jobs[id := Job(c.agents, false)])
    ensures id !in c.jobs && list != [] ==> Step(c, StartAdmin(id, list)) == c.(jobs := c.jobs[id := Job(list, true)])
    ensures id !in c.jobs && c.agents == [] ==> Step(c, StartRefresh(id)) == c
    ensures id !in c.jobs ==> Step(c, StartAdmin(id, [])) == c
    ensures id in c.jobs ==>
              var c' := Step(c, Fail(id)); id !in c'.jobs && c'.agents == c.agents && c'.written == c.written
  {
  }

  /** The lists handed to `admin_set_agents` so far. */
  function AdminLists(run: seq<Event>): seq<seq<Agent>> {
    if run == [] then []
    else
      var last := run[|run| - 1];
      AdminLists(run[..|run| - 1]) + (if last.StartAdmin? then [last.list] else [])
  }

  /** `list` is one of the admin's lists, tokens aside. */
  ghost predicate FromAdmin(list: seq<Agent>, admin: seq<seq<Agent>>) {
    exists i | 0 <= i < |admin| :: BareList(list) == BareList(admin[i])
  }

  lemma FromAdminGrows(list: seq<Agent>, admin: seq<seq<Agent>>, more: seq<seq<Agent>>)
    requires FromAdmin(list, admin)
    ensures FromAdmin(list, admin + more)
  {
    var i :| 0 <= i < |admin| && BareList(list) == BareList(admin[i]);
    assert (admin + more)[i] == admin[i];
  }

  /** What holds after every run; `admin` is every list the admin has set. */
  ghost predicate Whole(c: Canister, admin: seq<seq<Agent>>) {
    && (c.written == [] <==> c.agents == [])
    && (c.written != [] ==> Filled(c.written[|c.written| - 1], c.agents))
    && (c.agents != [] ==> FromAdmin(c.agents, admin))
    && forall id | id in c.jobs :: c.jobs[id].list != [] && FromAdmin(c.jobs[id].list, admin)
  }

  lemma WholeGrows(c: Canister, admin: seq<seq<Agent>>, more: seq<seq<Agent>>)
    requires Whole(c, admin)
    ensures Whole(c, admin + more)
  {
    if c.agents != [] {
      FromAdminGrows(c.agents, admin, more);
    }
    forall id | id in c.jobs ensures FromAdmin(c.jobs[id].list, admin + more) {
      FromAdminGrows(c.jobs[id].list, admin, more);
    }
  }

  lemma StepKeepsWhole(c: Canister, admin: seq<seq<Agent>>, e: Event)
    requires Whole(c, admin) && Enabled(c, e)
    requires e.StartAdmin? ==> FromAdmin(e.list, admin)
    ensures Whole(Step(c, e), admin)
  {
    if e.Write? {
      WriteStores(c, e.id, e.interval, e.signings);
      assert FromAdmin(c.jobs[e.id].list, admin);
    }
  }

  /**
   However refreshes and admin updates overlap, the stored list is empty or it is, whole, the
   list that the last task to write had started from, every agent with its token; and apart
   from tokens every list around is one the admin once set.
   */
  lemma {:induction false} StoredListIsWhole(run: seq<Event>)
    requires EnabledRun(EMPTY, run)
    ensures Whole(After(EMPTY, run), AdminLists(run))
  {
    if run != [] {
      var n := |run| - 1;
      var shorter, e := run[..n], run[n];
      StoredListIsWhole(shorter);
      var admin, more := AdminLists(shorter), if e.StartAdmin? then [e.list] else [];
      assert AdminLists(run) == admin + more;
      WholeGrows(After(EMPTY, shorter), admin, more);
      if e.StartAdmin? {
        assert (admin + more)[|admin|] == e.list;
      }
      StepKeepsWhole(After(EMPTY, shorter), admin + more, e);
    }
  }

  /******* When an admin update lasts *******/

  predicate WritesForAdmin(c: Canister, e: Event) {
    e.Write? && e.id in c.jobs && c.jobs[e.id].byAdmin
  }

  /** No admin update ends in the run. */
  predicate NoAdminWrite(c: Canister, run: seq<Event>)
    requires EnabledRun(c, run)
  {
    run == [] ||
    var shorter := run[..|run| - 1];
    NoAdminWrite(c, shorter) && !WritesForAdmin(After(c, shorter), run[|run| - 1])
  }

  /** Every refresh in flight started from the agents of `list`, tokens aside. */
  predicate RefreshesOf(jobs: map<nat, Job>, list: seq<Agent>) {
    forall id | id in jobs && !jobs[id].byAdmin :: BareList(jobs[id].list) == BareList(list)
  }

  lemma StepKeepsAgents(c: Canister, e: Event, list: seq<Agent>)
    requires Enabled(c, e) && !WritesForAdmin(c, e)
    requires BareList(c.agents) == BareList(list) && RefreshesOf(c.jobs, list)
    ensures BareList(Step(c, e).agents) == BareList(list) && RefreshesOf(Step(c, e).jobs, list)
  {
    if e.Write? {
      WriteStores(c, e.id, e.interval, e.signings);
    }
  }

  lemma {:induction false} RunKeepsAgents(c: Canister, run: seq<Event>, list: seq<Agent>)
    requires EnabledRun(c, run) && NoAdminWrite(c, run)
    requires BareList(c.agents) == BareList(list) && RefreshesOf(c.jobs, list)
    ensures BareList(After(c, run).agents) == BareList(list) && RefreshesOf(After(c, run).jobs, list)
  {
    if run != [] {
      var shorter := run[..|run| - 1];
      RunKeepsAgents(c, shorter, list);
      StepKeepsAgents(After(c, shorter), run[|run| - 1], list);
    }
  }

  /** A task can always end: the signer may answer every time. */
  lemma SomeSignings(list: seq<Agent>) returns (signings: seq<Signing>)
    ensures SignAll(list, 0, signings).Some?
  {
    signings := seq(|list|, _ => Signing(0, Some(0)));
    SignAllMeaning(list, 0, signings);
  }

  /**
   An admin update lasts, through every continuation in which no other admin update ends, if and
   only if no refresh in flight when it is written started from other agents.
   */
  lemma AdminUpdateLastsIff(c: Canister, e: Event)
    requires Enabled(c, e) && WritesForAdmin(c, e)
    ensures var list, s := c.jobs[e.id].list, Step(c, e);
            (forall run | EnabledRun(s, run) && NoAdminWrite(s, run) ::
               BareList(After(s, run).agents) == BareList(list))
            <==> RefreshesOf(c.jobs, list)
  {
    var list, s := c.jobs[e.id].list, Step(c, e);
    WriteStores(c, e.id, e.interval, e.signings);
    if RefreshesOf(c.jobs, list) {
      forall run | EnabledRun(s, run) && NoAdminWrite(s, run)
        ensures BareList(After(s, run).agents) == BareList(list)
      {
        RunKeepsAgents(s, run, list);
      }
    } else {
      var id :| id in c.jobs && !c.jobs[id].byAdmin && BareList(c.jobs[id].list) != BareList(list);
      var signings := SomeSignings(c.jobs[id].list);
      assert s.jobs[id] == c.jobs[id];
      WriteStores(s, id, 0, signings);
      OneEvent(s, Write(id, 0, signings));
    }
  }

  lemma OneEvent(c: Canister, e: Event)
    requires Enabled(c, e)
    ensures EnabledRun(c, [e]) && After(c, [e]) == Step(c, e)
    ensures NoAdminWrite(c, [e]) <==> !WritesForAdmin(c, e)
  {
    var run, none: seq<Event> := [e], [];
    assert run[..|run| - 1] == none && run[|run| - 1] == e;
    assert After(c, none) == c && NoAdminWrite(c, none);
  }

  /**
   Such a refresh is always possible. In every state with agents stored, a refresh that takes its
   snapshot, an admin update that starts later and finishes first, and the refresh's own write
   leave the agents as they were before the update, whatever tokens are signed on the way.
   */
  lemma RefreshUndoesAdmin(c: Canister, refresh: nat, admin: nat, list: seq<Agent>, interval: nat,
                           signed: seq<Signing>, resigned: seq<Signing>)
    requires c.agents != [] && list != [] && refresh != admin && refresh !in c.jobs && admin !in c.jobs
    requires SignAll(list, interval, signed).Some? && SignAll(c.agents, interval, resigned).Some?
    ensures Enabled(c, StartRefresh(refresh)) && Enabled(Step(c, StartRefresh(refresh)), StartAdmin(admin, list))
    ensures var c2 := Step(Step(c, StartRefresh(refresh)), StartAdmin(admin, list));
            && Enabled(c2, Write(admin, interval, signed))
            && var c3 := Step(c2, Write(admin, interval, signed));
            && Enabled(c3, Write(refresh, interval, resigned))
            && BareList(c3.agents) == BareList(list)
            && BareList(Step(c3, Write(refresh, interval, resigned)).agents) == BareList(c.agents)
  {
    var c2 := Step(Step(c, StartRefresh(refresh)), StartAdmin(admin, list));
    assert c2.jobs[admin] == Job(list, true) && c2.jobs[refresh] == Job(c.agents, false);
    WriteStores(c2, admin, interval, signed);
    var c3 := Step(c2, Write(admin, interval, signed));
    assert c3.jobs[refresh] == Job(c.agents, false);
    WriteStores(c3, refresh, interval, resigned);
  }
}
