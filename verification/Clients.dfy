/**
 Any number of clients over one Redis and one server. All of them read the one response stream, and
 their random request IDs never coincide. What each client sees is a run of the protocol system, in
 which the others are the senders of foreign requests; so its theorems hold for every client at once.
 */
module Clients {

  import opened Options
  import opened Dns
  import opened Protocol
  import opened ProtocolTheorems

  datatype World = World(now: int, cs: seq<Client>, r: Redis, v: Server, resolved: set<Resolution>)

  /** A step of client k, or one of the server and of time. */
  datatype Move = Of(k: nat, step: Step) | Shared(step: Step)

  function View(w: World, k: nat): Sys
    requires k < |w.cs|
  {
    Sys(w.now, w.cs[k], w.r, w.v, w.resolved)
  }

  function Start(n: nat): World { World(0, seq(n, _ => EMPTY_CLIENT), INIT.r, INIT.v, {}) }

  predicate IsClientStep(step: Step) { step.Calling? || step.Caching? || step.Dispatching? }

  predicate CanMove(cfg: Config, w: World, m: Move) {
    match m
    case Of(k, step) =>
      && k < |w.cs| && IsClientStep(step) && Enabled(cfg, View(w, k), step)
      && (Asks(step) ==> forall j :: 0 <= j < |w.cs| ==> step.call.id !in w.cs[j].asked)
    case Shared(step) =>
      && (step.Tick? || step.Handling? || step.Prefetching?)
      && Enabled(cfg, Sys(w.now, EMPTY_CLIENT, w.r, w.v, w.resolved), step)
  }

  function AfterMove(cfg: Config, w: World, m: Move): World
    requires CanMove(cfg, w, m)
  {
    match m
    case Of(k, step) =>
      var s := Apply(cfg, View(w, k), step);
      w.(cs := w.cs[k := s.c], r := s.r)
    case Shared(step) =>
      var s := Apply(cfg, Sys(w.now, EMPTY_CLIENT, w.r, w.v, w.resolved), step);
      w.(now := s.now, r := s.r, v := s.v, resolved := s.resolved)
  }

  /** The state that n clients reach, or None when some move is not possible. */
  function Play(cfg: Config, n: nat, moves: seq<Move>): Option<World> {
    if moves == [] then
      Some(Start(n))
    else
      var before := Play(cfg, n, moves[..|moves| - 1]);
      var m := moves[|moves| - 1];
      if before.Some? && CanMove(cfg, before.value, m) then Some(AfterMove(cfg, before.value, m)) else None
  }

  /** No two clients ever drew one ID. */
  ghost predicate IdsApart(w: World) {
    forall j, k :: 0 <= j < |w.cs| && 0 <= k < |w.cs| && j != k ==> w.cs[j].asked.Keys !! w.cs[k].asked.Keys
  }

  predicate Asks(step: Step) { step.Calling? && step.call.Ask? }

  lemma CallAsks(cfg: Config, s: Sys, x: CallStep)
    requires CallEnabled(cfg, s, x)
    ensures CallClient(cfg, s, x).asked.Keys == s.c.asked.Keys + if x.Ask? then {x.id} else {}
  {
  }

  lemma DispatchAsksNothing(s: Sys, x: DispatchStep)
    requires DispatchEnabled(s, x)
    ensures DispatchClient(s, x).asked == s.c.asked
  {
  }

  lemma AskedGrows(cfg: Config, s: Sys, step: Step)
    requires Enabled(cfg, s, step) && IsClientStep(step)
    ensures Apply(cfg, s, step).c.asked.Keys == s.c.asked.Keys + if Asks(step) then {step.call.id} else {}
  {
    match step
    case Calling(x) => CallAsks(cfg, s, x);
    case Caching(x) => CacheLeavesCore(cfg, s, x);
    case Dispatching(x) => DispatchAsksNothing(s, x);
  }

  lemma {:induction false} ReachableApart(cfg: Config, n: nat, moves: seq<Move>)
    ensures Play(cfg, n, moves).Some? ==> |Play(cfg, n, moves).value.cs| == n && IdsApart(Play(cfg, n, moves).value)
  {
    if moves != [] && Play(cfg, n, moves).Some? {
      var init, m := moves[..|moves| - 1], moves[|moves| - 1];
      ReachableApart(cfg, n, init);
      if m.Of? {
        AskedGrows(cfg, View(Play(cfg, n, init).value, m.k), m.step);
      }
    }
  }

  // ---------------------------------------------------------------------------
  // Each client's view
  // ---------------------------------------------------------------------------

  /** The step, if any, that client j sees in a move. */
  function Seen(w: World, m: Move, j: nat): seq<Step>
    requires m.Of? ==> m.k < |w.cs| && (m.step.Calling? && m.step.call.SendRequest? ==> m.step.call.id in w.cs[m.k].asked)
  {
    if m.Shared? || m.k == j then [m.step]
    else if m.step.Calling? && m.step.call.SendRequest? then
      var q := w.cs[m.k].asked[m.step.call.id];
      [OtherSend(m.step.call.id, q.name, q.qtype)]
    else []
  }

  /** The server and the clock do not look at the client. */
  lemma SharedSeen(cfg: Config, w: World, step: Step, j: nat)
    requires j < |w.cs| && CanMove(cfg, w, Shared(step))
    ensures Enabled(cfg, View(w, j), step) && Apply(cfg, View(w, j), step) == View(AfterMove(cfg, w, Shared(step)), j)
  {
    var s, e := View(w, j), Sys(w.now, EMPTY_CLIENT, w.r, w.v, w.resolved);
    match step
    case Tick(_) =>
    case Handling(x) =>
      assert HandleEnabled(cfg, s, x);
      assert HandleServer(cfg, s, x) == HandleServer(cfg, e, x) && HandleRedis(cfg, s, x) == HandleRedis(cfg, e, x);
    case Prefetching(x) => assert PrefetchEnabled(cfg, s, x);
  }

  lemma OwnSeen(cfg: Config, w: World, k: nat, step: Step)
    requires CanMove(cfg, w, Of(k, step))
    ensures Apply(cfg, View(w, k), step) == View(AfterMove(cfg, w, Of(k, step)), k)
  {
    match step
    case Calling(_) =>
    case Caching(_) =>
    case Dispatching(_) =>
  }

  /** Another client's move shows only if it sends a request, under an ID that nobody else has. */
  lemma OtherSeen(cfg: Config, w: World, k: nat, step: Step, j: nat)
    requires CanMove(cfg, w, Of(k, step)) && j < |w.cs| && j != k
    requires IdsApart(w) && CallsOK(w.cs[k]) && RequestsOK(View(w, k))
    ensures var w' := AfterMove(cfg, w, Of(k, step));
            if step.Calling? && step.call.SendRequest? then
              var q := w.cs[k].asked[step.call.id];
              var other := OtherSend(step.call.id, q.name, q.qtype);
              Enabled(cfg, View(w, j), other) && Apply(cfg, View(w, j), other) == View(w', j)
            else View(w', j) == View(w, j)
  {
  }

  /** For every client, every run of the whole is a run of the protocol system as that client sees it. */
  lemma {:induction false} ViewIsARun(cfg: Config, n: nat, moves: seq<Move>, j: nat) returns (steps: seq<Step>)
    requires Play(cfg, n, moves).Some? && j < n
    ensures |Play(cfg, n, moves).value.cs| == n
    ensures Exec(cfg, steps) == Some(View(Play(cfg, n, moves).value, j))
    decreases |moves|
  {
    ReachableApart(cfg, n, moves);
    if moves == [] {
      steps := [];
    } else {
      var init, m := moves[..|moves| - 1], moves[|moves| - 1];
      ReachableApart(cfg, n, init);
      var w := Play(cfg, n, init).value;
      var before := ViewIsARun(cfg, n, init, j);
      if m.Shared? {
        SharedSeen(cfg, w, m.step, j);
        Then(cfg, before, View(w, j), m.step);
      } else if m.k == j {
        OwnSeen(cfg, w, j, m.step);
        Then(cfg, before, View(w, j), m.step);
      } else {
        var theirs := ViewIsARun(cfg, n, init, m.k);
        ReachableCorrelated(cfg, theirs);
        OtherSeen(cfg, w, m.k, m.step, j);
        if m.step.Calling? && m.step.call.SendRequest? {
          Then(cfg, before, View(w, j), Seen(w, m, j)[0]);
        }
      }
      steps := before + Seen(w, m, j);
      if Seen(w, m, j) == [] {
        assert steps == before;
      }
    }
  }

  /** Correlation, for every client of every run: see ProtocolTheorems.Correlation. */
  lemma EveryClientCorrelated(cfg: Config, n: nat, moves: seq<Move>, j: nat)
    requires Play(cfg, n, moves).Some? && j < n
    ensures |Play(cfg, n, moves).value.cs| == n
    ensures var s := View(Play(cfg, n, moves).value, j);
            && (forall id :: id in s.c.waits <==> id in s.c.calls && Registered(s.c.calls[id]))
            && (forall id :: id in s.c.calls && HasGot(s.c.calls[id]) ==>
                  var resp := s.c.calls[id].got.value.resp;
                  resp.id == id && id in s.c.asked && s.c.asked[id] == Question(resp.name, resp.qtype))
            && (s.c.holding.Some? ==> Enabled(cfg, s, Dispatching(Deliver)))
  {
    var steps := ViewIsARun(cfg, n, moves, j);
    Correlation(cfg, steps);
  }

  /** A response is delivered to one client at most: no two clients' calls hold responses with one ID. */
  lemma NobodyElsesResponse(cfg: Config, n: nat, moves: seq<Move>, j: nat, k: nat, a: Id, b: Id)
    requires Play(cfg, n, moves).Some? && j < n && k < n && j != k
    requires |Play(cfg, n, moves).value.cs| == n
    requires var cs := Play(cfg, n, moves).value.cs;
             a in cs[j].calls && HasGot(cs[j].calls[a]) && b in cs[k].calls && HasGot(cs[k].calls[b])
    ensures var cs := Play(cfg, n, moves).value.cs;
            cs[j].calls[a].got.value.resp.id != cs[k].calls[b].got.value.resp.id
  {
    EveryClientCorrelated(cfg, n, moves, j);
    EveryClientCorrelated(cfg, n, moves, k);
    ReachableApart(cfg, n, moves);
    var cs := Play(cfg, n, moves).value.cs;
    assert a in cs[j].asked.Keys && b in cs[k].asked.Keys;
  }

  /** Provenance and bounded staleness, for every client of every run. */
  lemma EveryClientServedFresh(cfg: Config, n: nat, moves: seq<Move>, j: nat, i: nat)
    requires Play(cfg, n, moves).Some? && j < n && |Play(cfg, n, moves).value.cs| == n
    requires i < |Play(cfg, n, moves).value.cs[j].served|
    ensures var w := Play(cfg, n, moves).value;
            var x := w.cs[j].served[i];
            Backed(w.resolved, x.name, x.qtype, x.wire, x.at - ServedAge(cfg, x))
  {
    var steps := ViewIsARun(cfg, n, moves, j);
    ServedIsGenuineAndFresh(cfg, steps, i);
  }
}
