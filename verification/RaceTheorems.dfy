/**
 What the address race guarantees over every admissible sequence of events: termination, the loop
 invariant, exactness of the verdict, priority of TCP over ICMP and confluence.
 */
module RaceTheorems {

  import opened Options
  import opened Race

  // ---------------------------------------------------------------------------
  // Admissible traces
  // ---------------------------------------------------------------------------

  /** Two reports of one probe, or two firings of the one-shot deadline timer. */
  predicate Repeats(a: Event, b: Event) {
    || (a.TcpDone? && b.TcpDone? && a.ipIdx == b.ipIdx && a.portIdx == b.portIdx)
    || (a.IcmpDone? && b.IcmpDone? && a.ipIdx == b.ipIdx)
    || (a.Deadline? && b.Deadline?)
  }

  /** Every probe reports at most once, with any result, and the deadline fires at most once. */
  ghost predicate Admissible(cfg: Config, tr: seq<Event>) {
    && AllInRange(cfg, tr)
    && forall j, k :: 0 <= j < k < |tr| ==> !Repeats(tr[j], tr[k])
  }

  function TcpCount(tr: seq<Event>): nat {
    if tr == [] then 0 else TcpCount(tr[..|tr| - 1]) + if tr[|tr| - 1].TcpDone? then 1 else 0
  }

  function IcmpCount(tr: seq<Event>): nat {
    if tr == [] then 0 else IcmpCount(tr[..|tr| - 1]) + if tr[|tr| - 1].IcmpDone? then 1 else 0
  }

  function DeadlineCount(tr: seq<Event>): nat {
    if tr == [] then 0 else DeadlineCount(tr[..|tr| - 1]) + if tr[|tr| - 1].Deadline? then 1 else 0
  }

  lemma AdmissiblePrefix(cfg: Config, tr: seq<Event>, k: nat)
    requires Admissible(cfg, tr) && k <= |tr|
    ensures Admissible(cfg, tr[..k])
  {
  }

  // The probes that have reported, as a subset of the ips x ports grid.

  ghost function Row(i: nat, m: nat): set<(nat, nat)> {
    if m == 0 then {} else Row(i, m - 1) + {(i, m - 1)}
  }

  ghost function Grid(n: nat, m: nat): set<(nat, nat)> {
    if n == 0 then {} else Grid(n - 1, m) + Row(n - 1, m)
  }

  ghost function TcpReported(tr: seq<Event>): set<(nat, nat)> {
    if tr == [] then
      {}
    else
      var e := tr[|tr| - 1];
      TcpReported(tr[..|tr| - 1]) + if e.TcpDone? then {(e.ipIdx, e.portIdx)} else {}
  }

  ghost function IcmpReported(tr: seq<Event>): set<nat> {
    if tr == [] then
      {}
    else
      var e := tr[|tr| - 1];
      IcmpReported(tr[..|tr| - 1]) + if e.IcmpDone? then {e.ipIdx} else {}
  }

  lemma {:induction false} TcpReporter(tr: seq<Event>, i: nat, j: nat)
    requires (i, j) in TcpReported(tr)
    ensures exists k :: 0 <= k < |tr| && tr[k].TcpDone? && tr[k].ipIdx == i && tr[k].portIdx == j
  {
    var n := |tr| - 1;
    if (i, j) in TcpReported(tr[..n]) {
      TcpReporter(tr[..n], i, j);
      var k :| 0 <= k < n && tr[..n][k].TcpDone? && tr[..n][k].ipIdx == i && tr[..n][k].portIdx == j;
      assert tr[k] == tr[..n][k];
    }
  }

  lemma {:induction false} IcmpReporter(tr: seq<Event>, i: nat)
    requires i in IcmpReported(tr)
    ensures exists k :: 0 <= k < |tr| && tr[k].IcmpDone? && tr[k].ipIdx == i
  {
    var n := |tr| - 1;
    if i in IcmpReported(tr[..n]) {
      IcmpReporter(tr[..n], i);
      var k :| 0 <= k < n && tr[..n][k].IcmpDone? && tr[..n][k].ipIdx == i;
      assert tr[k] == tr[..n][k];
    }
  }

  lemma {:induction false} RowMembers(i: nat, m: nat)
    ensures forall a: nat, b: nat :: (a, b) in Row(i, m) <==> a == i && b < m
  {
    if m > 0 {
      RowMembers(i, m - 1);
    }
  }

  lemma {:induction false} RowSize(i: nat, m: nat)
    ensures |Row(i, m)| == m
  {
    if m > 0 {
      RowSize(i, m - 1);
      RowMembers(i, m - 1);
      assert (i, m - 1) !in Row(i, m - 1);
    }
  }

  lemma {:induction false} GridMembers(n: nat, m: nat)
    ensures forall a: nat, b: nat :: (a, b) in Grid(n, m) <==> a < n && b < m
  {
    if n > 0 {
      GridMembers(n - 1, m);
      RowMembers(n - 1, m);
    }
  }

  lemma DisjointSize<T>(a: set<T>, b: set<T>)
    requires a !! b
    ensures |a + b| == |a| + |b|
  {
  }

  lemma {:induction false} GridSize(n: nat, m: nat)
    ensures |Grid(n, m)| == n * m
  {
    if n > 0 {
      GridSize(n - 1, m);
      GridAndRowDisjoint(n - 1, m);
      RowSize(n - 1, m);
      DisjointSize(Grid(n - 1, m), Row(n - 1, m));
      assert n * m == (n - 1) * m + m;
    }
  }

  lemma GridAndRowDisjoint(n: nat, m: nat)
    ensures Grid(n, m) !! Row(n, m)
  {
    if !(Grid(n, m) !! Row(n, m)) {
      var p: (nat, nat) :| p in Grid(n, m) && p in Row(n, m);
      assert (p.0, p.1) in Grid(n, m) && (p.0, p.1) in Row(n, m);
      GridMembers(n, m);
      RowMembers(n, m);
    }
  }

  lemma {:induction false} RangeSize(s: set<nat>, n: nat)
    requires forall i :: i in s ==> i < n
    ensures |s| <= n
    ensures (forall i: nat :: i < n ==> i in s) ==> |s| == n
  {
    if n == 0 {
      assert s == {};
    } else {
      RangeSize(s - {n - 1}, n - 1);
    }
  }

  /** Distinct probes make the counts the sizes of the reported sets. */
  lemma {:induction false} TcpReportedSize(cfg: Config, tr: seq<Event>)
    requires Admissible(cfg, tr)
    ensures |TcpReported(tr)| == TcpCount(tr)
    ensures TcpReported(tr) <= Grid(|cfg.ips|, |cfg.ports|)
  {
    GridMembers(|cfg.ips|, |cfg.ports|);
    if tr != [] {
      var n := |tr| - 1;
      var e := tr[n];
      TcpReportedSize(cfg, tr[..n]);
      if e.TcpDone? && (e.ipIdx, e.portIdx) in TcpReported(tr[..n]) {
        TcpReporter(tr[..n], e.ipIdx, e.portIdx);
        assert false;
      }
    }
  }

  lemma {:induction false} IcmpReportedSize(cfg: Config, tr: seq<Event>)
    requires Admissible(cfg, tr)
    ensures |IcmpReported(tr)| == IcmpCount(tr)
    ensures forall i :: i in IcmpReported(tr) ==> i < |cfg.ips| && cfg.icmp
  {
    if tr != [] {
      var n := |tr| - 1;
      var e := tr[n];
      IcmpReportedSize(cfg, tr[..n]);
      if e.IcmpDone? && e.ipIdx in IcmpReported(tr[..n]) {
        IcmpReporter(tr[..n], e.ipIdx);
        assert false;
      }
    }
  }

  /**
   No more results than channel slots: every send finds room in its channel, so no probe blocks,
   whether or not the loop has returned.
   */
  lemma ChannelsNeverFill(cfg: Config, tr: seq<Event>)
    requires Admissible(cfg, tr)
    ensures TcpCount(tr) <= cfg.TcpTotal()
    ensures IcmpCount(tr) <= cfg.IcmpTotal()
    ensures DeadlineCount(tr) <= 1
  {
    TcpReportedSize(cfg, tr);
    IcmpReportedSize(cfg, tr);
    GridSize(|cfg.ips|, |cfg.ports|);
    SubsetSize(TcpReported(tr), Grid(|cfg.ips|, |cfg.ports|));
    if cfg.icmp {
      RangeSize(IcmpReported(tr), |cfg.ips|);
    } else {
      assert IcmpReported(tr) == {};
    }
    OneDeadline(cfg, tr);
  }

  lemma SubsetSize<T>(a: set<T>, b: set<T>)
    requires a <= b
    ensures |a| <= |b|
    ensures |a| == |b| ==> a == b
  {
    assert b == a + (b - a);
  }

  lemma {:induction false} OneDeadline(cfg: Config, tr: seq<Event>)
    requires Admissible(cfg, tr)
    ensures DeadlineCount(tr) == if HasDeadline(tr) then 1 else 0
  {
    if tr != [] {
      AdmissiblePrefix(cfg, tr, |tr| - 1);
      OneDeadline(cfg, tr[..|tr| - 1]);
      forall k | 0 <= k < |tr| - 1 ensures !Repeats(tr[k], tr[|tr| - 1]) && tr[..|tr| - 1][k] == tr[k] {}
    }
  }

  // ---------------------------------------------------------------------------
  // The loop invariant
  // ---------------------------------------------------------------------------

  ghost predicate HasDeadline(tr: seq<Event>) { exists k :: 0 <= k < |tr| && tr[k].Deadline? }

  /** A TCP success received while TCP results still count. */
  ghost predicate LiveTcp(tr: seq<Event>, k: int) {
    0 <= k < |tr| && tr[k].TcpDone? && tr[k].ok && forall d :: 0 <= d < k ==> !tr[d].Deadline?
  }

  ghost predicate IcmpReply(tr: seq<Event>, k: int) {
    0 <= k < |tr| && tr[k].IcmpDone? && tr[k].ok
  }

  /** The TCP success of least round trip among those received in time, and the earliest such. */
  ghost predicate BestTcp(tr: seq<Event>, k: int) {
    && LiveTcp(tr, k)
    && forall j :: LiveTcp(tr, j) ==> tr[k].rtt <= tr[j].rtt && (j < k ==> tr[k].rtt < tr[j].rtt)
  }

  /** The ICMP reply of least round trip among those received, and the earliest such. */
  ghost predicate BestIcmp(tr: seq<Event>, k: int) {
    && IcmpReply(tr, k)
    && forall j :: IcmpReply(tr, j) ==> tr[k].rtt <= tr[j].rtt && (j < k ==> tr[k].rtt < tr[j].rtt)
  }

  /** `held` is the best later-port success, and no first-port success was seen. */
  ghost predicate HoldsTcp(cfg: Config, tr: seq<Event>, held: Option<TcpResult>)
    requires AllInRange(cfg, tr)
  {
    && (forall k :: LiveTcp(tr, k) ==> held.Some? && tr[k].portIdx != 0)
    && (held.Some? ==> exists k :: BestTcp(tr, k) && held.value == TcpOf(cfg, tr[k]))
  }

  ghost predicate HoldsIcmp(cfg: Config, tr: seq<Event>, held: Option<IcmpResult>)
    requires AllInRange(cfg, tr)
  {
    && (forall k :: IcmpReply(tr, k) ==> held.Some?)
    && (held.Some? ==> exists k :: BestIcmp(tr, k) && held.value == IcmpOf(cfg, tr[k]))
  }

  /** With TCP out, nothing is held and an ICMP probe is still out. */
  predicate Waiting(s: State) {
    && (s.tcpPending == 0 || !s.tcpLive ==> s.fallback.None? && s.bestICMP.None? && s.icmpPending > 0)
  }

  ghost predicate Invariant(cfg: Config, tr: seq<Event>, s: State)
    requires AllInRange(cfg, tr)
  {
    && s.tcpPending == cfg.TcpTotal() - TcpCount(tr)
    && s.icmpPending == cfg.IcmpTotal() - IcmpCount(tr)
    && (forall k :: 0 <= k < |tr| ==> !tr[k].Budget?)
    && (s.tcpLive ==> !HasDeadline(tr))
    && (!s.tcpLive ==> HasDeadline(tr) || s.tcpPending == 0)
    && HoldsTcp(cfg, tr, s.fallback)
    && HoldsIcmp(cfg, tr, s.bestICMP)
  }

  /** Whenever the loop waits, its variables summarise exactly the events it has received. */
  lemma {:induction false} RaceInvariant(cfg: Config, tr: seq<Event>)
    requires Admissible(cfg, tr)
    ensures Run(cfg, tr).Running? ==> Invariant(cfg, tr, Run(cfg, tr).s) && Waiting(Run(cfg, tr).s)
    decreases |tr|
  {
    if tr != [] && Run(cfg, tr).Running? {
      var n := |tr| - 1;
      AdmissiblePrefix(cfg, tr, n);
      RaceInvariant(cfg, tr[..n]);
      StepKeepsInvariant(cfg, tr, Run(cfg, tr[..n]).s);
    }
  }

  lemma StepKeepsInvariant(cfg: Config, tr: seq<Event>, s: State)
    requires Admissible(cfg, tr) && tr != []
    requires Invariant(cfg, tr[..|tr| - 1], s) && Waiting(s)
    requires React(cfg, s, tr[|tr| - 1]).Running?
    ensures Invariant(cfg, tr, React(cfg, s, tr[|tr| - 1]).s)
    ensures Waiting(React(cfg, s, tr[|tr| - 1]).s)
  {
    var n := |tr| - 1;
    var init, e := tr[..n], tr[n];
    var s' := React(cfg, s, e).s;
    ChannelsNeverFill(cfg, tr);
    PrefixFacts(tr, n);
    HeldTcpStep(cfg, tr, s, s');
    HeldIcmpStep(cfg, tr, s, s');
    assert HasDeadline(tr) <==> HasDeadline(init) || e.Deadline?;
  }

  /** How the notions about a trace relate to those about its prefix. */
  lemma PrefixFacts(tr: seq<Event>, n: nat)
    requires n < |tr|
    ensures forall k :: k < n ==> (LiveTcp(tr, k) <==> LiveTcp(tr[..n], k))
    ensures forall k :: k < n ==> (IcmpReply(tr, k) <==> IcmpReply(tr[..n], k))
    ensures LiveTcp(tr, n) <==> tr[n].TcpDone? && tr[n].ok && !HasDeadline(tr[..n])
    ensures forall k :: 0 <= k < n ==> tr[..n][k] == tr[k]
  {
    forall k | k < n
      ensures LiveTcp(tr, k) <==> LiveTcp(tr[..n], k)
    {
      if 0 <= k {
        assert forall d :: 0 <= d < k ==> tr[..n][d] == tr[d];
      }
    }
    if !LiveTcp(tr, n) && tr[n].TcpDone? && tr[n].ok {
      var d :| 0 <= d < n && tr[d].Deadline?;
      assert tr[..n][d].Deadline?;
    }
  }

  /** The best so far stays the best, unless the last event beats it. */
  lemma BestTcpStep(tr: seq<Event>, k: int)
    requires tr != [] && BestTcp(tr[..|tr| - 1], k)
    ensures var n := |tr| - 1;
            k < n && if LiveTcp(tr, n) && tr[n].rtt < tr[k].rtt then BestTcp(tr, n) else BestTcp(tr, k)
  {
    PrefixFacts(tr, |tr| - 1);
  }

  lemma BestIcmpStep(tr: seq<Event>, k: int)
    requires tr != [] && BestIcmp(tr[..|tr| - 1], k)
    ensures var n := |tr| - 1;
            k < n && if IcmpReply(tr, n) && tr[n].rtt < tr[k].rtt then BestIcmp(tr, n) else BestIcmp(tr, k)
  {
    PrefixFacts(tr, |tr| - 1);
  }

  /** What the loop should hold after one more event. */
  function NextTcp(cfg: Config, held: Option<TcpResult>, e: Event, live: bool): Option<TcpResult>
    requires InRange(cfg, e)
  {
    if e.TcpDone? && e.ok && live && (held.None? || e.rtt < held.value.rtt) then Some(TcpOf(cfg, e)) else held
  }

  function NextIcmp(cfg: Config, held: Option<IcmpResult>, e: Event): Option<IcmpResult>
    requires InRange(cfg, e)
  {
    if e.IcmpDone? && e.ok && (held.None? || e.rtt < held.value.rtt) then Some(IcmpOf(cfg, e)) else held
  }

  lemma HoldsNextTcp(cfg: Config, tr: seq<Event>, held: Option<TcpResult>, live: bool)
    requires AllInRange(cfg, tr) && tr != [] && HoldsTcp(cfg, tr[..|tr| - 1], held)
    requires LiveTcp(tr, |tr| - 1) ==> live && tr[|tr| - 1].portIdx != 0
    requires tr[|tr| - 1].TcpDone? && tr[|tr| - 1].ok && live ==> LiveTcp(tr, |tr| - 1)
    ensures HoldsTcp(cfg, tr, NextTcp(cfg, held, tr[|tr| - 1], live))
  {
    var n := |tr| - 1;
    var next := NextTcp(cfg, held, tr[n], live);
    PrefixFacts(tr, n);
    if held.Some? {
      var k :| BestTcp(tr[..n], k) && held.value == TcpOf(cfg, tr[..n][k]);
      BestTcpStep(tr, k);
      var best := if LiveTcp(tr, n) && tr[n].rtt < tr[k].rtt then n else k;
      assert BestTcp(tr, best) && next == Some(TcpOf(cfg, tr[best]));
    } else if LiveTcp(tr, n) {
      assert BestTcp(tr, n) && next == Some(TcpOf(cfg, tr[n]));
    }
    forall k | LiveTcp(tr, k) ensures next.Some? && tr[k].portIdx != 0 {
      if k < n {
        assert LiveTcp(tr[..n], k);
      }
    }
  }

  lemma HoldsNextIcmp(cfg: Config, tr: seq<Event>, held: Option<IcmpResult>)
    requires AllInRange(cfg, tr) && tr != [] && HoldsIcmp(cfg, tr[..|tr| - 1], held)
    ensures HoldsIcmp(cfg, tr, NextIcmp(cfg, held, tr[|tr| - 1]))
  {
    var n := |tr| - 1;
    PrefixFacts(tr, n);
    if held.Some? {
      var k :| BestIcmp(tr[..n], k) && held.value == IcmpOf(cfg, tr[..n][k]);
      BestIcmpStep(tr, k);
      assert held.value == IcmpOf(cfg, tr[k]);
    } else if IcmpReply(tr, n) {
      assert BestIcmp(tr, n);
    }
  }

  /** A success that arrives before the deadline finds TCP live, since its own probe was pending. */
  lemma TcpLiveness(cfg: Config, tr: seq<Event>, s: State)
    requires Admissible(cfg, tr) && tr != [] && Invariant(cfg, tr[..|tr| - 1], s)
    ensures LiveTcp(tr, |tr| - 1) <==> tr[|tr| - 1].TcpDone? && tr[|tr| - 1].ok && s.tcpLive
  {
    var n := |tr| - 1;
    PrefixFacts(tr, n);
    ChannelsNeverFill(cfg, tr);
    if tr[n].TcpDone? {
      assert TcpCount(tr) == TcpCount(tr[..n]) + 1;
    }
  }

  lemma HeldTcpStep(cfg: Config, tr: seq<Event>, s: State, s': State)
    requires Admissible(cfg, tr) && tr != []
    requires Invariant(cfg, tr[..|tr| - 1], s) && Waiting(s)
    requires React(cfg, s, tr[|tr| - 1]) == Running(s')
    ensures HoldsTcp(cfg, tr, s'.fallback)
  {
    TcpLiveness(cfg, tr, s);
    HoldsNextTcp(cfg, tr, s.fallback, s.tcpLive);
  }

  lemma HeldIcmpStep(cfg: Config, tr: seq<Event>, s: State, s': State)
    requires Admissible(cfg, tr) && tr != []
    requires Invariant(cfg, tr[..|tr| - 1], s) && Waiting(s)
    requires React(cfg, s, tr[|tr| - 1]) == Running(s')
    ensures HoldsIcmp(cfg, tr, s'.bestICMP)
  {
    HoldsNextIcmp(cfg, tr, s.bestICMP);
  }

  // ---------------------------------------------------------------------------
  // Termination
  // ---------------------------------------------------------------------------

  lemma {:induction false} CountsAddUp(tr: seq<Event>)
    requires forall k :: 0 <= k < |tr| ==> !tr[k].Budget?
    ensures |tr| == TcpCount(tr) + IcmpCount(tr) + DeadlineCount(tr)
  {
    if tr != [] {
      CountsAddUp(tr[..|tr| - 1]);
    }
  }

  /**
   Every event the loop survives lowers pending TCP probes + pending ICMP probes + (1 while the
   deadline is unfired) by exactly one, so the loop receives at most |ips|*|ports| + |ips| + 2 events.
   */
  lemma RaceTerminates(cfg: Config, tr: seq<Event>)
    requires Admissible(cfg, tr)
    ensures Run(cfg, tr).Running? ==>
              var s := Run(cfg, tr).s;
              && s.tcpPending >= 0 && s.icmpPending >= 0
              && s.tcpPending + s.icmpPending + (if HasDeadline(tr) then 0 else 1) + |tr|
                 == cfg.TcpTotal() + cfg.IcmpTotal() + 1
    ensures |tr| >= |cfg.ips| * |cfg.ports| + |cfg.ips| + 2 ==> Run(cfg, tr).Done?
  {
    if Run(cfg, tr).Running? {
      RaceInvariant(cfg, tr);
      ChannelsNeverFill(cfg, tr);
      CountsAddUp(tr);
      OneDeadline(cfg, tr);
    }
  }

  // ---------------------------------------------------------------------------
  // The verdict
  // ---------------------------------------------------------------------------

  /** The loop returns `v` on receiving the last event of `tr` (or at once, when `tr` is empty). */
  ghost predicate Decides(cfg: Config, tr: seq<Event>, v: Verdict)
    requires AllInRange(cfg, tr)
  {
    Run(cfg, tr) == Done(v) && (tr != [] ==> Run(cfg, tr[..|tr| - 1]).Running?)
  }

  ghost predicate NoTcpWin(tr: seq<Event>) { forall k :: !LiveTcp(tr, k) }
  ghost predicate NoIcmpReply(tr: seq<Event>) { forall k :: !IcmpReply(tr, k) }

  /** `v` is the first-port success that the last event brought. */
  ghost predicate FirstPortWin(cfg: Config, tr: seq<Event>, v: Verdict) {
    && tr != [] && LiveTcp(tr, |tr| - 1) && tr[|tr| - 1].portIdx == 0
    && Credits(cfg, tr[|tr| - 1], v)
  }

  /** `v` is the best later-port success, and no first-port success was received. */
  ghost predicate LaterPortWin(cfg: Config, tr: seq<Event>, v: Verdict) {
    && (forall k :: LiveTcp(tr, k) ==> tr[k].portIdx != 0)
    && exists k :: BestTcp(tr, k) && Credits(cfg, tr[k], v)
  }

  /** `v` is the best ICMP reply received. */
  ghost predicate PingWin(cfg: Config, tr: seq<Event>, v: Verdict) {
    exists k :: BestIcmp(tr, k) && Credits(cfg, tr[k], v)
  }

  /** The TCP probes have all reported, or the deadline has fired. */
  ghost predicate TcpOver(cfg: Config, tr: seq<Event>) {
    TcpCount(tr) == cfg.TcpTotal() || HasDeadline(tr)
  }

  /** The budget ran out while TCP was still live. */
  ghost predicate BudgetFirst(tr: seq<Event>) {
    tr != [] && tr[|tr| - 1].Budget? && !HasDeadline(tr)
  }

  /**
   The verdict is exact: nobody wins precisely when no TCP success was received in time and no ICMP
   reply was received; otherwise the winner is the address that was dialled or pinged, credited with its
   own port and round trip, and the earliest of the best of its kind.
   */
  lemma VerdictExact(cfg: Config, tr: seq<Event>, v: Verdict)
    requires Admissible(cfg, tr) && Decides(cfg, tr, v)
    ensures v.NoWinner? <==> NoTcpWin(tr) && NoIcmpReply(tr)
    ensures v.Winner? ==> v.ip in cfg.ips
    ensures v.Winner? && v.via.Tcp? ==> FirstPortWin(cfg, tr, v) || LaterPortWin(cfg, tr, v)
    ensures v.Winner? && v.via.Icmp? ==> PingWin(cfg, tr, v)
    ensures v.Winner? && v.via.Tcp? ==>
              exists k :: LiveTcp(tr, k) && v.ip == cfg.ips[tr[k].ipIdx] && v.rtt == tr[k].rtt
                          && v.via == Tcp(tr[k].portIdx, cfg.ports[tr[k].portIdx])
    ensures v.Winner? && v.via.Icmp? ==>
              exists k :: IcmpReply(tr, k) && v.ip == cfg.ips[tr[k].ipIdx] && v.rtt == tr[k].rtt
    ensures FirstPortWin(cfg, tr, v) || TcpOver(cfg, tr) || BudgetFirst(tr)
    ensures v.NoWinner? && (tr == [] || !tr[|tr| - 1].Budget?) ==> IcmpCount(tr) == cfg.IcmpTotal()
    ensures v.Winner? && v.via.Icmp? && !BudgetFirst(tr) ==> NoTcpWin(tr)
  {
    if tr == [] {
    } else {
      var n := |tr| - 1;
      AdmissiblePrefix(cfg, tr, n);
      RaceInvariant(cfg, tr[..n]);
      var s := Run(cfg, tr[..n]).s;
      PrefixFacts(tr, n);
      match tr[n]
      case TcpDone(_, _, _, _) => DecidedByTcp(cfg, tr, s, v);
      case IcmpDone(_, _, _) => DecidedByIcmp(cfg, tr, s, v);
      case Deadline => DecidedByDeadline(cfg, tr, s, v);
      case Budget => DecidedByBudget(cfg, tr, s, v);
      CreditedExplicitly(cfg, tr, v);
    }
  }

  lemma CreditedExplicitly(cfg: Config, tr: seq<Event>, v: Verdict)
    requires v.Winner? ==> FirstPortWin(cfg, tr, v) || LaterPortWin(cfg, tr, v) || PingWin(cfg, tr, v)
    requires AllInRange(cfg, tr)
    ensures v.Winner? && v.via.Tcp? ==>
              exists k :: LiveTcp(tr, k) && v.ip == cfg.ips[tr[k].ipIdx] && v.rtt == tr[k].rtt
                          && v.via == Tcp(tr[k].portIdx, cfg.ports[tr[k].portIdx])
    ensures v.Winner? && v.via.Icmp? ==>
              exists k :: IcmpReply(tr, k) && v.ip == cfg.ips[tr[k].ipIdx] && v.rtt == tr[k].rtt
  {
  }

  /** What a deciding event's predecessor state holds, when that event brings no success. */
  lemma HeldSoFar(cfg: Config, tr: seq<Event>, s: State)
    requires AllInRange(cfg, tr) && tr != [] && Invariant(cfg, tr[..|tr| - 1], s)
    requires !LiveTcp(tr, |tr| - 1)
    ensures HoldsTcp(cfg, tr, s.fallback)
    ensures !IcmpReply(tr, |tr| - 1) ==> HoldsIcmp(cfg, tr, s.bestICMP)
    ensures s.fallback.Some? ==> LaterPortWin(cfg, tr, TcpWin(s.fallback.value)) && s.fallback.value.ip in cfg.ips
    ensures s.bestICMP.Some? && !IcmpReply(tr, |tr| - 1) ==>
              PingWin(cfg, tr, IcmpWin(s.bestICMP.value)) && s.bestICMP.value.ip in cfg.ips
  {
    HoldsNextTcp(cfg, tr, s.fallback, false);
    HoldsNextIcmp(cfg, tr, s.bestICMP);
    HeldWins(cfg, tr, s.fallback, s.bestICMP);
  }

  /** What is held would win with its own credit. */
  lemma HeldWins(cfg: Config, tr: seq<Event>, tcp: Option<TcpResult>, icmp: Option<IcmpResult>)
    requires AllInRange(cfg, tr)
    ensures HoldsTcp(cfg, tr, tcp) && tcp.Some? ==>
              LaterPortWin(cfg, tr, TcpWin(tcp.value)) && tcp.value.ip in cfg.ips && !NoTcpWin(tr)
    ensures HoldsIcmp(cfg, tr, icmp) && icmp.Some? ==>
              PingWin(cfg, tr, IcmpWin(icmp.value)) && icmp.value.ip in cfg.ips && !NoIcmpReply(tr)
  {
    if HoldsTcp(cfg, tr, tcp) && tcp.Some? {
      var k :| BestTcp(tr, k) && tcp.value == TcpOf(cfg, tr[k]);
      assert Credits(cfg, tr[k], TcpWin(tcp.value));
    }
    if HoldsIcmp(cfg, tr, icmp) && icmp.Some? {
      var k :| BestIcmp(tr, k) && icmp.value == IcmpOf(cfg, tr[k]);
      assert Credits(cfg, tr[k], IcmpWin(icmp.value));
    }
  }

  /** The verdict is the best of its kind, and there is none only if there was nothing to win with. */
  ghost predicate Exact(cfg: Config, tr: seq<Event>, v: Verdict)
  {
    && (v.NoWinner? <==> NoTcpWin(tr) && NoIcmpReply(tr))
    && (v.Winner? ==> v.ip in cfg.ips)
    && (v.Winner? && v.via.Tcp? ==> FirstPortWin(cfg, tr, v) || LaterPortWin(cfg, tr, v))
    && (v.Winner? && v.via.Icmp? ==> PingWin(cfg, tr, v))
  }

  /** The last event is the result of a TCP probe, on which the loop returns. */
  ghost predicate TcpDecides(cfg: Config, tr: seq<Event>, s: State, v: Verdict) {
    && Admissible(cfg, tr) && tr != [] && tr[|tr| - 1].TcpDone?
    && Invariant(cfg, tr[..|tr| - 1], s) && Waiting(s)
    && React(cfg, s, tr[|tr| - 1]) == Done(v)
  }

  lemma DecidedByTcp(cfg: Config, tr: seq<Event>, s: State, v: Verdict)
    requires TcpDecides(cfg, tr, s, v)
    ensures Exact(cfg, tr, v)
    ensures v.Winner? && v.via.Icmp? ==> NoTcpWin(tr)
    ensures FirstPortWin(cfg, tr, v) || TcpCount(tr) == cfg.TcpTotal()
    ensures v.NoWinner? ==> IcmpCount(tr) == cfg.IcmpTotal()
  {
    var e := tr[|tr| - 1];
    TcpLiveness(cfg, tr, s);
    if s.tcpLive && e.ok && e.portIdx == 0 {
      assert LiveTcp(tr, |tr| - 1);
      assert FirstPortWin(cfg, tr, v);
    } else {
      TcpIsOver(cfg, tr, s, v);
      if s.tcpLive && e.ok {
        LastTcpWins(cfg, tr, s, v);
      } else {
        LastTcpFails(cfg, tr, s, v);
      }
    }
  }

  lemma LastTcpWins(cfg: Config, tr: seq<Event>, s: State, v: Verdict)
    requires TcpDecides(cfg, tr, s, v) && s.tcpLive && tr[|tr| - 1].ok && tr[|tr| - 1].portIdx != 0
    ensures v.Winner? && v.via.Tcp? && v.ip in cfg.ips && LaterPortWin(cfg, tr, v) && !NoTcpWin(tr)
  {
    TcpLiveness(cfg, tr, s);
    TcpIsOver(cfg, tr, s, v);
    HoldsNextTcp(cfg, tr, s.fallback, true);
    HeldWins(cfg, tr, NextTcp(cfg, s.fallback, tr[|tr| - 1], true), None);
  }

  lemma LastTcpFails(cfg: Config, tr: seq<Event>, s: State, v: Verdict)
    requires TcpDecides(cfg, tr, s, v) && !(s.tcpLive && tr[|tr| - 1].ok)
    ensures Exact(cfg, tr, v)
    ensures v.Winner? && v.via.Icmp? ==> NoTcpWin(tr)
    ensures v.NoWinner? ==> IcmpCount(tr) == cfg.IcmpTotal()
  {
    TcpLiveness(cfg, tr, s);
    TcpIsOver(cfg, tr, s, v);
    HeldSoFar(cfg, tr, s);
    if s.fallback.Some? {
      assert LaterPortWin(cfg, tr, v);
    } else {
      assert NoTcpWin(tr);
    }
  }

  /** A TCP result that decides without winning at once was the last one. */
  lemma TcpIsOver(cfg: Config, tr: seq<Event>, s: State, v: Verdict)
    requires TcpDecides(cfg, tr, s, v)
    requires !(s.tcpLive && tr[|tr| - 1].ok && tr[|tr| - 1].portIdx == 0)
    ensures s.tcpPending == 1 && TcpCount(tr) == cfg.TcpTotal()
    ensures s.tcpLive || (s.fallback.None? && s.bestICMP.None? && s.icmpPending > 0)
  {
  }

  lemma DecidedByIcmp(cfg: Config, tr: seq<Event>, s: State, v: Verdict)
    requires Admissible(cfg, tr) && tr != [] && tr[|tr| - 1].IcmpDone?
    requires Invariant(cfg, tr[..|tr| - 1], s) && Waiting(s)
    requires React(cfg, s, tr[|tr| - 1]) == Done(v)
    ensures v.NoWinner? <==> NoTcpWin(tr) && NoIcmpReply(tr)
    ensures v.Winner? ==> v.ip in cfg.ips && v.via.Icmp? && PingWin(cfg, tr, v)
    ensures NoTcpWin(tr) && TcpOver(cfg, tr)
    ensures v.NoWinner? ==> IcmpCount(tr) == cfg.IcmpTotal()
  {
    var n := |tr| - 1;
    PrefixFacts(tr, n);
    HeldSoFar(cfg, tr, s);
    assert TcpCount(tr) == TcpCount(tr[..n]);
    if HasDeadline(tr[..n]) {
      var d :| 0 <= d < n && tr[..n][d].Deadline?;
      assert tr[d].Deadline?;
    }
    HoldsNextIcmp(cfg, tr, s.bestICMP);
    HeldWins(cfg, tr, None, NextIcmp(cfg, s.bestICMP, tr[n]));
  }

  lemma DecidedByDeadline(cfg: Config, tr: seq<Event>, s: State, v: Verdict)
    requires Admissible(cfg, tr) && tr != [] && tr[|tr| - 1].Deadline?
    requires Invariant(cfg, tr[..|tr| - 1], s) && Waiting(s)
    requires React(cfg, s, tr[|tr| - 1]) == Done(v)
    ensures Exact(cfg, tr, v) && TcpOver(cfg, tr)
    ensures v.NoWinner? ==> IcmpCount(tr) == cfg.IcmpTotal()
    ensures v.Winner? && v.via.Icmp? ==> NoTcpWin(tr)
  {
    PrefixFacts(tr, |tr| - 1);
    HeldSoFar(cfg, tr, s);
    assert !LiveTcp(tr, |tr| - 1) && !IcmpReply(tr, |tr| - 1);
  }

  lemma DecidedByBudget(cfg: Config, tr: seq<Event>, s: State, v: Verdict)
    requires Admissible(cfg, tr) && tr != [] && tr[|tr| - 1].Budget?
    requires Invariant(cfg, tr[..|tr| - 1], s) && Waiting(s)
    requires React(cfg, s, tr[|tr| - 1]) == Done(v)
    ensures Exact(cfg, tr, v) && (TcpOver(cfg, tr) || BudgetFirst(tr))
    ensures v.Winner? && v.via.Icmp? && !BudgetFirst(tr) ==> NoTcpWin(tr)
  {
    assert !LiveTcp(tr, |tr| - 1) && !IcmpReply(tr, |tr| - 1);
    HeldSoFar(cfg, tr, s);
    HeldWins(cfg, tr, s.fallback, s.bestICMP);
    if HasDeadline(tr) {
      var d :| 0 <= d < |tr| && tr[d].Deadline?;
      assert tr[..|tr| - 1][d].Deadline?;
    }
  }

  // ---------------------------------------------------------------------------
  // Priority
  // ---------------------------------------------------------------------------

  /**
   "TCP beats ICMP" fails exactly when the budget event is taken before the deadline event with both
   kinds of success held. Otherwise a TCP success received in time is never beaten by ICMP.
   */
  lemma TcpBeatenIff(cfg: Config, tr: seq<Event>, v: Verdict)
    requires Admissible(cfg, tr) && Decides(cfg, tr, v)
    ensures (v.Winner? && v.via.Icmp? && !NoTcpWin(tr))
            <==> (BudgetFirst(tr) && !NoIcmpReply(tr) && !NoTcpWin(tr))
  {
    VerdictExact(cfg, tr, v);
    if BudgetFirst(tr) && !NoIcmpReply(tr) {
      var n := |tr| - 1;
      AdmissiblePrefix(cfg, tr, n);
      RaceInvariant(cfg, tr[..n]);
      PrefixFacts(tr, n);
      HeldSoFar(cfg, tr, Run(cfg, tr[..n]).s);
    }
  }

  /** A budget that runs out after the deadline finds nothing held: it never names a winner. */
  lemma BudgetAfterDeadline(cfg: Config, tr: seq<Event>, v: Verdict)
    requires Admissible(cfg, tr) && Decides(cfg, tr, v)
    requires tr != [] && tr[|tr| - 1].Budget? && HasDeadline(tr)
    ensures v == NoWinner
  {
    var n := |tr| - 1;
    AdmissiblePrefix(cfg, tr, n);
    RaceInvariant(cfg, tr[..n]);
    var d :| 0 <= d < |tr| && tr[d].Deadline?;
    assert tr[..n][d].Deadline?;
  }

  /** The failing case is real: here a ping beats a port-80 connect that came in time. */
  lemma PingCanBeatConnect()
    ensures var cfg := Config(["a", "b"], [443, 80], true);
            var tr := [TcpDone(0, 1, 20, true), IcmpDone(1, 10, true), Budget];
            Admissible(cfg, tr) && Decides(cfg, tr, Winner("b", Icmp, 10)) && LiveTcp(tr, 0)
  {
    var cfg := Config(["a", "b"], [443, 80], true);
    var tr := [TcpDone(0, 1, 20, true), IcmpDone(1, 10, true), Budget];
    assert tr[..2] == [TcpDone(0, 1, 20, true), IcmpDone(1, 10, true)];
    assert tr[..2][..1] == [TcpDone(0, 1, 20, true)];
    assert tr[..2][..1][..0] == [];
    assert Run(cfg, []) == Running(State(4, 2, true, None, None));
    var held := TcpResult("a", 1, 80, 20);
    assert Run(cfg, tr[..2][..1]) == Running(State(3, 2, true, Some(held), None));
    assert Run(cfg, tr[..2]) == Running(State(3, 1, true, Some(held), Some(IcmpResult("b", 10))));
  }

  // ---------------------------------------------------------------------------
  // Confluence
  // ---------------------------------------------------------------------------

  datatype Class = FirstPort | LaterPort | Ping | Nobody

  function ClassOf(v: Verdict): Class {
    match v
    case NoWinner => Nobody
    case Winner(_, Tcp(j, _), _) => if j == 0 then FirstPort else LaterPort
    case Winner(_, Icmp, _) => Ping
  }

  predicate TcpSuccess(e: Event) { e.TcpDone? && e.ok }
  predicate PingSuccess(e: Event) { e.IcmpDone? && e.ok }

  /** The class that the probe results alone call for, whatever their order. */
  ghost function Deserved(tr: seq<Event>): Class {
    if exists e :: e in tr && TcpSuccess(e) && e.portIdx == 0 then FirstPort
    else if exists e :: e in tr && TcpSuccess(e) then LaterPort
    else if exists e :: e in tr && PingSuccess(e) then Ping
    else Nobody
  }

  /** Every probe reports and no timer fires. */
  ghost predicate Complete(cfg: Config, tr: seq<Event>) {
    && (forall k :: 0 <= k < |tr| ==> !tr[k].Deadline? && !tr[k].Budget?)
    && (forall i: nat, j: nat :: i < |cfg.ips| && j < |cfg.ports| ==> (i, j) in TcpReported(tr))
    && (forall i: nat :: i < |cfg.ips| && cfg.icmp ==> i in IcmpReported(tr))
  }

  lemma CompleteCounts(cfg: Config, tr: seq<Event>)
    requires Admissible(cfg, tr) && Complete(cfg, tr)
    ensures TcpCount(tr) == cfg.TcpTotal() && IcmpCount(tr) == cfg.IcmpTotal()
  {
    ChannelsNeverFill(cfg, tr);
    TcpReportedSize(cfg, tr);
    IcmpReportedSize(cfg, tr);
    GridMembers(|cfg.ips|, |cfg.ports|);
    GridSize(|cfg.ips|, |cfg.ports|);
    forall p | p in Grid(|cfg.ips|, |cfg.ports|) ensures p in TcpReported(tr) {
      assert p == (p.0, p.1);
    }
    SubsetSize(Grid(|cfg.ips|, |cfg.ports|), TcpReported(tr));
    if cfg.icmp {
      RangeSize(IcmpReported(tr), |cfg.ips|);
    }
  }

  /** The length of the part of the trace that the loop received before returning. */
  lemma {:induction false} DecidingPrefix(cfg: Config, tr: seq<Event>) returns (k: nat)
    requires AllInRange(cfg, tr) && Run(cfg, tr).Done?
    ensures k <= |tr| && Decides(cfg, tr[..k], Run(cfg, tr).v)
  {
    if tr == [] || Run(cfg, tr[..|tr| - 1]).Running? {
      k := |tr|;
      assert tr[..k] == tr;
    } else {
      k := DecidingPrefix(cfg, tr[..|tr| - 1]);
      assert tr[..|tr| - 1][..k] == tr[..k];
    }
  }

  lemma {:induction false} CountsGrow(tr: seq<Event>, k: nat)
    requires k <= |tr|
    ensures TcpCount(tr[..k]) <= TcpCount(tr) && IcmpCount(tr[..k]) <= IcmpCount(tr)
    ensures TcpCount(tr[..k]) == TcpCount(tr) ==> forall j :: k <= j < |tr| ==> !tr[j].TcpDone?
    ensures IcmpCount(tr[..k]) == IcmpCount(tr) ==> forall j :: k <= j < |tr| ==> !tr[j].IcmpDone?
  {
    if k == |tr| {
      assert tr[..k] == tr;
    } else {
      var init := tr[..|tr| - 1];
      assert init[..k] == tr[..k];
      CountsGrow(init, k);
      assert forall j :: k <= j < |init| ==> init[j] == tr[j];
    }
  }

  /**
   Confluence: when every probe reports and no timer fires, every interleaving returns, and the class
   of its verdict depends on the results alone. In the later-port class the winner has the least
   round trip of all successes.
   */
  lemma RaceConfluence(cfg: Config, tr: seq<Event>)
    requires Admissible(cfg, tr) && Complete(cfg, tr)
    ensures Run(cfg, tr).Done?
    ensures var v := Run(cfg, tr).v;
            && ClassOf(v) == Deserved(tr)
            && (ClassOf(v) == LaterPort ==>
                  && (exists e :: e in tr && TcpSuccess(e) && e.rtt == v.rtt)
                  && forall e :: e in tr && TcpSuccess(e) ==> v.rtt <= e.rtt)
  {
    CompleteCounts(cfg, tr);
    if Run(cfg, tr).Running? {
      RaceInvariant(cfg, tr);
      assert false;
    }
    var v := Run(cfg, tr).v;
    var k := DecidingPrefix(cfg, tr);
    var p := tr[..k];
    AdmissiblePrefix(cfg, tr, k);
    VerdictExact(cfg, p, v);
    CountsGrow(tr, k);
    PrefixSuccesses(cfg, tr, k, v);
  }

  /** With no timers, a deciding prefix that is not a first-port win contains every TCP success. */
  lemma PrefixHasTcp(cfg: Config, tr: seq<Event>, k: nat, v: Verdict, e: Event)
    requires Admissible(cfg, tr) && Complete(cfg, tr) && k <= |tr|
    requires Admissible(cfg, tr[..k]) && Decides(cfg, tr[..k], v) && !FirstPortWin(cfg, tr[..k], v)
    requires e in tr && TcpSuccess(e)
    ensures exists j :: LiveTcp(tr[..k], j) && tr[..k][j] == e
  {
    CompleteCounts(cfg, tr);
    VerdictExact(cfg, tr[..k], v);
    CountsGrow(tr, k);
    NoTimers(tr, k);
    var j :| 0 <= j < |tr| && tr[j] == e;
    assert j < k;
    assert tr[..k][j] == e && LiveTcp(tr[..k], j);
  }

  /** When nobody wins, no ping was answered, before or after. */
  lemma NobodyMeansNoPing(cfg: Config, tr: seq<Event>, k: nat, e: Event)
    requires Admissible(cfg, tr) && Complete(cfg, tr) && k <= |tr|
    requires Admissible(cfg, tr[..k]) && Decides(cfg, tr[..k], NoWinner) && e in tr
    ensures !PingSuccess(e)
  {
    CompleteCounts(cfg, tr);
    VerdictExact(cfg, tr[..k], NoWinner);
    CountsGrow(tr, k);
    NoTimers(tr, k);
    var j :| 0 <= j < |tr| && tr[j] == e;
    assert j < k ==> tr[..k][j] == e && !IcmpReply(tr[..k], j);
  }

  /** What the winner's own event is. */
  lemma WinnerEvent(cfg: Config, tr: seq<Event>, k: nat, v: Verdict) returns (e: Event)
    requires Admissible(cfg, tr) && Complete(cfg, tr) && k <= |tr| && v.Winner?
    requires Admissible(cfg, tr[..k]) && Decides(cfg, tr[..k], v)
    ensures e in tr && e.rtt == v.rtt
    ensures v.via.Tcp? ==> TcpSuccess(e) && e.portIdx == v.via.portIdx
    ensures v.via.Icmp? ==> PingSuccess(e) && NoTcpWin(tr[..k])
    ensures v.via.Tcp? && v.via.portIdx != 0 ==> LaterPortWin(cfg, tr[..k], v)
    ensures FirstPortWin(cfg, tr[..k], v) <==> v.via.Tcp? && v.via.portIdx == 0
  {
    var p := tr[..k];
    VerdictExact(cfg, p, v);
    NoTimers(tr, k);
    var j;
    if FirstPortWin(cfg, p, v) {
      j := |p| - 1;
    } else if v.via.Tcp? {
      j :| BestTcp(p, j) && Credits(cfg, p[j], v);
    } else {
      j :| BestIcmp(p, j) && Credits(cfg, p[j], v);
    }
    e := p[j];
    assert tr[j] == e;
  }

  /** With no timers, the deciding prefix contains every success that matters to the verdict. */
  lemma PrefixSuccesses(cfg: Config, tr: seq<Event>, k: nat, v: Verdict)
    requires Admissible(cfg, tr) && Complete(cfg, tr) && k <= |tr|
    requires Admissible(cfg, tr[..k]) && Decides(cfg, tr[..k], v)
    ensures ClassOf(v) == Deserved(tr)
    ensures ClassOf(v) == LaterPort ==>
              && (exists e :: e in tr && TcpSuccess(e) && e.rtt == v.rtt)
              && forall e :: e in tr && TcpSuccess(e) ==> v.rtt <= e.rtt
  {
    if v.Winner? {
      var e := WinnerEvent(cfg, tr, k, v);
    } else {
      VerdictExact(cfg, tr[..k], v);
      forall e | e in tr ensures !PingSuccess(e) {
        NobodyMeansNoPing(cfg, tr, k, e);
      }
    }
    if !FirstPortWin(cfg, tr[..k], v) {
      forall e | e in tr && TcpSuccess(e) ensures exists j :: LiveTcp(tr[..k], j) && tr[..k][j] == e {
        PrefixHasTcp(cfg, tr, k, v, e);
      }
    }
  }

  lemma NoTimers(tr: seq<Event>, k: nat)
    requires forall j :: 0 <= j < |tr| ==> !tr[j].Deadline? && !tr[j].Budget?
    requires k <= |tr|
    ensures !HasDeadline(tr[..k]) && !BudgetFirst(tr[..k])
    ensures forall j :: 0 <= j < k ==> !tr[..k][j].Deadline? && !tr[..k][j].Budget?
  {
  }

  /** Two orders of the same results give the same class, and the same round trip for later ports. */
  lemma OrderDoesNotMatter(cfg: Config, tr1: seq<Event>, tr2: seq<Event>)
    requires Admissible(cfg, tr1) && Complete(cfg, tr1)
    requires Admissible(cfg, tr2) && Complete(cfg, tr2)
    requires multiset(tr1) == multiset(tr2)
    ensures Run(cfg, tr1).Done? && Run(cfg, tr2).Done?
    ensures ClassOf(Run(cfg, tr1).v) == ClassOf(Run(cfg, tr2).v)
    ensures ClassOf(Run(cfg, tr1).v) == LaterPort ==> Run(cfg, tr1).v.rtt == Run(cfg, tr2).v.rtt
  {
    forall e ensures e in tr1 <==> e in tr2 {
      assert e in tr1 <==> e in multiset(tr1);
      assert e in tr2 <==> e in multiset(tr2);
    }
    RaceConfluence(cfg, tr1);
    RaceConfluence(cfg, tr2);
    if ClassOf(Run(cfg, tr1).v) == LaterPort {
      var e1 :| e1 in tr1 && TcpSuccess(e1) && e1.rtt == Run(cfg, tr1).v.rtt;
      var e2 :| e2 in tr2 && TcpSuccess(e2) && e2.rtt == Run(cfg, tr2).v.rtt;
      assert e1 in tr2 && e2 in tr1;
    }
  }
}
