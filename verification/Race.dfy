/**
 The address race of internal/resolver/race.go: an event loop over TCP probe results, ICMP probe
 results, a TCP deadline and an overall budget. Go's `select` takes the events in any order, so the
 loop is a transition system and every theorem ranges over all admissible event sequences.
 */
module Race {

  import opened Options
  import opened Dns

  /** An address in its textual form. */
  type IP = string

  /** What one call of pickWinner races: `icmp` says whether a ping function was given. */
  datatype Config = Config(ips: seq<IP>, ports: seq<nat>, icmp: bool) {

    /** The number of TCP probes, which is also the capacity of their result channel. */
    function TcpTotal(): nat { |ips| * |ports| }

    /** The number of ICMP probes, which is also the capacity of their result channel. */
    function IcmpTotal(): nat { if icmp then |ips| else 0 }
  }

  /** What the select statement can receive. A probe is named by its indices into ips and ports. */
  datatype Event =
    | TcpDone(ipIdx: nat, portIdx: nat, rtt: int, ok: bool)
    | IcmpDone(ipIdx: nat, rtt: int, ok: bool)
    | Deadline
    | Budget

  datatype TcpResult = TcpResult(ip: IP, portIdx: nat, port: nat, rtt: int)
  datatype IcmpResult = IcmpResult(ip: IP, rtt: int)

  datatype Via = Tcp(portIdx: nat, port: nat) | Icmp
  datatype Verdict = NoWinner | Winner(ip: IP, via: Via, rtt: int)

  /** The loop's local variables. */
  datatype State = State(
    tcpPending: int,
    icmpPending: int,
    tcpLive: bool,
    fallback: Option<TcpResult>,
    bestICMP: Option<IcmpResult>)

  datatype Outcome = Running(s: State) | Done(v: Verdict)

  /**
   The budget and the TCP deadline that pickWinner arms, after its defaults and clamping: the deadline
   never exceeds the budget, and with ICMP it lands strictly inside it.
   */
  function Timers(timeout: int, tcpDeadline: int, icmp: bool): (r: (int, int))
    ensures r.0 > 0 && 0 <= r.1 <= r.0
    ensures icmp ==> r.1 < r.0
    ensures 0 < tcpDeadline < timeout ==> r == (timeout, tcpDeadline)
    ensures timeout > 0 ==> r.0 == timeout
    ensures timeout <= 0 ==> r.0 == 1_000_000_000
    ensures !(0 < tcpDeadline < r.0) ==> if icmp then 2 * r.1 <= r.0 <= 2 * r.1 + 1 else r.1 == r.0
  {
    var budget := if timeout <= 0 then SECOND else timeout;
    var deadline :=
      if 0 < tcpDeadline < budget then tcpDeadline
      else if icmp then budget / 2
      else budget;
    (budget, deadline)
  }

  // ---------------------------------------------------------------------------
  // The loop, as a function of the events received
  // ---------------------------------------------------------------------------

  predicate InRange(cfg: Config, e: Event) {
    match e
    case TcpDone(i, j, _, _) => i < |cfg.ips| && j < |cfg.ports|
    case IcmpDone(i, _, _) => i < |cfg.ips| && cfg.icmp
    case Deadline => true
    case Budget => true
  }

  function TcpOf(cfg: Config, e: Event): TcpResult
    requires e.TcpDone? && InRange(cfg, e)
  {
    TcpResult(cfg.ips[e.ipIdx], e.portIdx, cfg.ports[e.portIdx], e.rtt)
  }

  function IcmpOf(cfg: Config, e: Event): IcmpResult
    requires e.IcmpDone? && InRange(cfg, e)
  {
    IcmpResult(cfg.ips[e.ipIdx], e.rtt)
  }

  function TcpWin(r: TcpResult): Verdict { Winner(r.ip, Tcp(r.portIdx, r.port), r.rtt) }
  function IcmpWin(p: IcmpResult): Verdict { Winner(p.ip, Icmp, p.rtt) }

  function Init(cfg: Config): State { State(cfg.TcpTotal(), cfg.IcmpTotal(), true, None, None) }

  /** The checks at the top of the loop: the terminal states that need no further event. */
  function Settle(s: State): Outcome {
    if s.tcpPending == 0 && s.fallback.Some? then
      Done(TcpWin(s.fallback.value))
    else if (s.tcpPending == 0 || !s.tcpLive) && s.bestICMP.Some? then
      Done(IcmpWin(s.bestICMP.value))
    else if s.tcpPending == 0 && s.icmpPending == 0 then
      Done(NoWinner)
    else if !s.tcpLive && s.icmpPending == 0 then
      Done(NoWinner)
    else
      Running(s)
  }

  function OnTcp(cfg: Config, s: State, e: Event): Outcome
    requires e.TcpDone? && InRange(cfg, e)
  {
    var r := TcpOf(cfg, e);
    if s.tcpLive && e.ok && e.portIdx == 0 then
      Done(TcpWin(r))
    else
      var fallback :=
        if s.tcpLive && e.ok && (s.fallback.None? || r.rtt < s.fallback.value.rtt)
        then Some(r) else s.fallback;
      var s1 := s.(tcpPending := s.tcpPending - 1, fallback := fallback);
      var dead := s1.tcpPending == 0 && s1.fallback.None? && s1.bestICMP.None? && s1.icmpPending > 0;
      Settle(if dead then s1.(tcpLive := false) else s1)
  }

  function OnIcmp(cfg: Config, s: State, e: Event): Outcome
    requires e.IcmpDone? && InRange(cfg, e)
  {
    var p := IcmpOf(cfg, e);
    var best :=
      if e.ok && (s.bestICMP.None? || p.rtt < s.bestICMP.value.rtt) then Some(p) else s.bestICMP;
    Settle(s.(icmpPending := s.icmpPending - 1, bestICMP := best))
  }

  function OnDeadline(s: State): Outcome {
    if s.fallback.Some? then Done(TcpWin(s.fallback.value))
    else if s.bestICMP.Some? then Done(IcmpWin(s.bestICMP.value))
    else if s.icmpPending == 0 then Done(NoWinner)
    else Settle(s.(tcpLive := false))
  }

  /** The budget branch prefers ICMP over a held TCP success: the reverse of the deadline branch. */
  function OnBudget(s: State): Outcome {
    if s.bestICMP.Some? then Done(IcmpWin(s.bestICMP.value))
    else if s.fallback.Some? then Done(TcpWin(s.fallback.value))
    else Done(NoWinner)
  }

  function React(cfg: Config, s: State, e: Event): Outcome
    requires InRange(cfg, e)
  {
    match e
    case TcpDone(_, _, _, _) => OnTcp(cfg, s, e)
    case IcmpDone(_, _, _) => OnIcmp(cfg, s, e)
    case Deadline => OnDeadline(s)
    case Budget => OnBudget(s)
  }

  predicate AllInRange(cfg: Config, tr: seq<Event>) {
    forall k :: 0 <= k < |tr| ==> InRange(cfg, tr[k])
  }

  /** Where the loop stands after receiving the events of `tr`; those after its return are ignored. */
  function Run(cfg: Config, tr: seq<Event>): Outcome
    requires AllInRange(cfg, tr)
  {
    if tr == [] then
      Settle(Init(cfg))
    else
      match Run(cfg, tr[..|tr| - 1])
      case Done(v) => Done(v)
      case Running(s) => React(cfg, s, tr[|tr| - 1])
  }

  // ---------------------------------------------------------------------------
  // Who is credited
  // ---------------------------------------------------------------------------

  /** The event is a success, and the verdict names its probe's own address, means and round trip. */
  predicate Credits(cfg: Config, e: Event, v: Verdict) {
    match e
    case TcpDone(i, j, rtt, ok) =>
      ok && i < |cfg.ips| && j < |cfg.ports| && v == Winner(cfg.ips[i], Tcp(j, cfg.ports[j]), rtt)
    case IcmpDone(i, rtt, ok) => ok && i < |cfg.ips| && v == Winner(cfg.ips[i], Icmp, rtt)
    case Deadline => false
    case Budget => false
  }

  ghost predicate Credited(cfg: Config, tr: seq<Event>, v: Verdict) {
    exists k :: 0 <= k < |tr| && Credits(cfg, tr[k], v)
  }

  ghost predicate HeldCredited(cfg: Config, tr: seq<Event>, s: State) {
    && (s.fallback.Some? ==> Credited(cfg, tr, TcpWin(s.fallback.value)))
    && (s.bestICMP.Some? ==> Credited(cfg, tr, IcmpWin(s.bestICMP.value)))
  }

  lemma CreditStays(cfg: Config, tr: seq<Event>, v: Verdict)
    requires tr != [] && Credited(cfg, tr[..|tr| - 1], v)
    ensures Credited(cfg, tr, v)
  {
    var k :| 0 <= k < |tr| - 1 && Credits(cfg, tr[..|tr| - 1][k], v);
    assert Credits(cfg, tr[k], v);
  }

  /** In every sequence of events, a winner is credited with one of them. */
  lemma {:induction false} WinnerIsCredited(cfg: Config, tr: seq<Event>)
    requires AllInRange(cfg, tr)
    ensures Run(cfg, tr).Running? ==> HeldCredited(cfg, tr, Run(cfg, tr).s)
    ensures Run(cfg, tr).Done? && Run(cfg, tr).v.Winner? ==> Credited(cfg, tr, Run(cfg, tr).v)
  {
    if tr != [] {
      var init, e := tr[..|tr| - 1], tr[|tr| - 1];
      WinnerIsCredited(cfg, init);
      match Run(cfg, init)
      case Done(v) =>
        if v.Winner? {
          CreditStays(cfg, tr, v);
        }
      case Running(s) =>
        if s.fallback.Some? {
          CreditStays(cfg, tr, TcpWin(s.fallback.value));
        }
        if s.bestICMP.Some? {
          CreditStays(cfg, tr, IcmpWin(s.bestICMP.value));
        }
        if e.TcpDone? && e.ok {
          assert Credits(cfg, tr[|tr| - 1], TcpWin(TcpOf(cfg, e)));
        }
        if e.IcmpDone? && e.ok {
          assert Credits(cfg, tr[|tr| - 1], IcmpWin(IcmpOf(cfg, e)));
        }
    }
  }

  /** pickWinner's event loop, with its own mutable variables: a winner is one of the reported successes. */
  method PickWinner(cfg: Config, events: seq<Event>) returns (out: Outcome)
    requires AllInRange(cfg, events)
    ensures out == Run(cfg, events)
    ensures out.Done? && out.v.Winner? ==> exists k :: 0 <= k < |events| && Credits(cfg, events[k], out.v)
  {
    WinnerIsCredited(cfg, events);
    var tcpPending: int := |cfg.ips| * |cfg.ports|;
    var icmpPending: int := 0;
    if cfg.icmp {
      icmpPending := |cfg.ips|;
    }
    var tcpLive := true;
    var fallback: Option<TcpResult> := None;
    var bestICMP: Option<IcmpResult> := None;
    var k := 0;
    while true
      invariant 0 <= k <= |events|
      invariant Run(cfg, events[..k]) == Settle(State(tcpPending, icmpPending, tcpLive, fallback, bestICMP))
      decreases |events| - k
    {
      if tcpPending == 0 && fallback.Some? {
        out := Done(TcpWin(fallback.value));
        DoneIsFinal(cfg, events, k);
        return;
      }
      if (tcpPending == 0 || !tcpLive) && bestICMP.Some? {
        out := Done(IcmpWin(bestICMP.value));
        DoneIsFinal(cfg, events, k);
        return;
      }
      if (tcpPending == 0 && icmpPending == 0) || (!tcpLive && icmpPending == 0) {
        out := Done(NoWinner);
        DoneIsFinal(cfg, events, k);
        return;
      }
      if k == |events| {
        assert events[..k] == events;
        return Running(State(tcpPending, icmpPending, tcpLive, fallback, bestICMP));
      }
      var e := events[k];
      assert events[..k + 1][..k] == events[..k];
      k := k + 1;
      match e
      case TcpDone(_, _, _, _) =>
        var r := TcpOf(cfg, e);
        tcpPending := tcpPending - 1;
        if tcpLive && e.ok {
          if e.portIdx == 0 {
            out := Done(TcpWin(r));
            DoneIsFinal(cfg, events, k);
            return;
          }
          if fallback.None? || r.rtt < fallback.value.rtt {
            fallback := Some(r);
          }
        }
        if tcpPending == 0 && fallback.None? && bestICMP.None? && icmpPending > 0 {
          tcpLive := false;
        }
      case IcmpDone(_, _, _) =>
        var p := IcmpOf(cfg, e);
        icmpPending := icmpPending - 1;
        if e.ok && (bestICMP.None? || p.rtt < bestICMP.value.rtt) {
          bestICMP := Some(p);
        }
      case Deadline =>
        tcpLive := false;
        if fallback.Some? {
          out := Done(TcpWin(fallback.value));
          DoneIsFinal(cfg, events, k);
          return;
        }
        if bestICMP.Some? {
          out := Done(IcmpWin(bestICMP.value));
          DoneIsFinal(cfg, events, k);
          return;
        }
        if icmpPending == 0 {
          out := Done(NoWinner);
          DoneIsFinal(cfg, events, k);
          return;
        }
      case Budget =>
        if bestICMP.Some? {
          out := Done(IcmpWin(bestICMP.value));
        } else if fallback.Some? {
          out := Done(TcpWin(fallback.value));
        } else {
          out := Done(NoWinner);
        }
        DoneIsFinal(cfg, events, k);
        return;
    }
  }

  /** Once the loop has returned, later events change nothing. */
  lemma {:induction false} DoneIsFinal(cfg: Config, tr: seq<Event>, k: nat)
    requires AllInRange(cfg, tr) && k <= |tr|
    ensures Run(cfg, tr[..k]).Done? ==> Run(cfg, tr) == Run(cfg, tr[..k])
  {
    if k == |tr| {
      assert tr[..k] == tr;
    } else {
      var init := tr[..|tr| - 1];
      assert init[..k] == tr[..k];
      DoneIsFinal(cfg, init, k);
    }
  }
}
