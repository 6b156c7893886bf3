/**
 When a hot name lapses. The conditions under which the prefetch schedule keeps a name warm are exact:
 wherever one of them fails there is a run in which the name is ranked and resolved at every sweep, and
 yet its cache entry is gone before anything refreshes it.
 */
module PrefetchLapses {

  import opened Options
  import opened Dns
  import opened Keys
  import opened PrefetchSchedule

  // ---------------------------------------------------------------------------
  // Runs in which nothing happens
  // ---------------------------------------------------------------------------

  /** Every sweep ranks the member and can resolve it. */
  ghost predicate AlwaysHot(evs: seq<Event>, member: string) {
    forall k :: 0 <= k < |evs| ==> HotEvent(evs[k], member)
  }

  predicate HotEvent(e: Event, member: string) {
    e.Swept? ==> member in e.w.top && ResultOf(e.w.result, member).Answered?
  }

  lemma {:induction false} HotIsKeptUp(tab: TypeTable, evs: seq<Event>, sweep: int, member: string)
    requires ParseMember(tab, member).Some? && AlwaysHot(evs, member) && SweepCount(evs) > 0
    ensures KeptUp(tab, evs, sweep, member)
  {
    var n := |evs| - 1;
    assert HotEvent(evs[n], member);
    if evs[n].Stored? {
      HotIsKeptUp(tab, evs[..n], sweep, member);
    }
  }

  /** Every fixed domain is scheduled for later. */
  predicate Quiet(next: map<string, int>, fixed: seq<Fixed>, now: int) {
    forall i :: 0 <= i < |fixed| ==> Scheduled(next, FixedKey(fixed[i].domain), now)
  }

  lemma {:induction false} QuietFixed(st: Schedule, fixed: seq<Fixed>, results: map<string, Result>, sweep: int, now: int)
    requires Quiet(st.next, fixed, now)
    ensures SweepFixed(st, fixed, results, sweep, now) == st
  {
    if fixed != [] {
      QuietFixed(st, fixed[..|fixed| - 1], results, sweep, now);
    }
  }

  /** With one ranked member, the dynamic part of a sweep refreshes it, if it is due, and nothing else. */
  lemma OnlyMember(tab: TypeTable, st: Schedule, m: string, results: map<string, Result>, sweep: int, now: int)
    requires ParseMember(tab, m).Some?
    ensures SweepMembers(tab, st, DueDynamic(tab, [m], st.next, now), results, sweep, now)
            == if IsDue(tab, st.next, now, m) then RefreshMember(tab, st, m, ResultOf(results, m), sweep, now) else st
  {
    assert [m][..0] == [] && DueDynamic(tab, [], st.next, now) == [];
    assert [m][0] == m;
  }

  lemma IdleSweep(tab: TypeTable, st: Schedule, w: Sweep, sweep: int, now: int, member: string)
    requires ParseMember(tab, member).Some? && w.top == [member]
    requires Quiet(st.next, w.fixed, now) && Waits(EntryOf(tab, st, member), now)
    ensures RunSweep(tab, st, w, sweep, now) == st
  {
    QuietFixed(st, w.fixed, w.fixedResult, sweep, now);
    OnlyMember(tab, st, member, w.result, sweep, now);
  }

  /** What the events of a run may be: fixed domains from a list, and stores on the member's key or not. */
  ghost predicate Allowed(tab: TypeTable, e: Event, member: string, domains: set<string>, stores: bool)
    requires ParseMember(tab, member).Some?
  {
    match e
    case Swept(w) => forall i :: 0 <= i < |w.fixed| ==> w.fixed[i].domain in domains
    case Stored(name, qtype, _, _) => stores || CacheKey(name, qtype) != MemberKey(tab, member)
  }

  ghost predicate AllowedRun(tab: TypeTable, evs: seq<Event>, member: string, domains: set<string>, stores: bool)
    requires ParseMember(tab, member).Some?
  {
    forall k :: 0 <= k < |evs| ==> Allowed(tab, evs[k], member, domains, stores)
  }

  /** A run with the lifetimes and events at issue, in which the member is hot throughout. */
  ghost predicate HotRun(tab: TypeTable, evs: seq<Event>, sweep: int, lives: Lifetimes, member: string, domains: set<string>, stores: bool)
    requires ParseMember(tab, member).Some?
  {
    && RegularRun(tab, evs, sweep, lives, member) && AlwaysHot(evs, member)
    && AllowedRun(tab, evs, member, domains, stores)
  }

  lemma RegularMore(tab: TypeTable, evs: seq<Event>, e: Event, sweep: int, lives: Lifetimes, member: string)
    requires ParseMember(tab, member).Some? && RegularRun(tab, evs, sweep, lives, member)
    requires Regular(tab, e, sweep, lives, member, SweepCount(evs))
    ensures RegularRun(tab, evs + [e], sweep, lives, member)
  {
    assert (evs + [e])[..|evs|] == evs;
  }

  lemma AllowedMore(tab: TypeTable, evs: seq<Event>, e: Event, member: string, domains: set<string>, stores: bool)
    requires ParseMember(tab, member).Some? && AllowedRun(tab, evs, member, domains, stores)
    requires Allowed(tab, e, member, domains, stores)
    ensures AllowedRun(tab, evs + [e], member, domains, stores)
  {
  }

  lemma HotMore(evs: seq<Event>, e: Event, member: string)
    requires AlwaysHot(evs, member) && HotEvent(e, member)
    ensures AlwaysHot(evs + [e], member)
  {
  }

  lemma HotRunMore(tab: TypeTable, evs: seq<Event>, e: Event, sweep: int, lives: Lifetimes, member: string, domains: set<string>, stores: bool)
    requires ParseMember(tab, member).Some? && HotRun(tab, evs, sweep, lives, member, domains, stores)
    requires Regular(tab, e, sweep, lives, member, SweepCount(evs)) && Allowed(tab, e, member, domains, stores)
    requires HotEvent(e, member)
    ensures HotRun(tab, evs + [e], sweep, lives, member, domains, stores)
  {
    RegularMore(tab, evs, e, sweep, lives, member);
    AllowedMore(tab, evs, e, member, domains, stores);
    HotMore(evs, e, member);
  }

  /** One run prolongs another by repetitions of one sweep. */
  ghost predicate Repeats(evs: seq<Event>, w: Sweep, evs': seq<Event>) {
    |evs| <= |evs'| && forall k :: 0 <= k < |evs'| ==> evs'[k] == if k < |evs| then evs[k] else Swept(w)
  }

  /** Until sweep `last`, a sweep with nothing due can be repeated. */
  ghost predicate Idle(tab: TypeTable, st: Schedule, w: Sweep, sweep: int, lives: Lifetimes, member: string, last: nat)
    requires ParseMember(tab, member).Some?
  {
    && w.top == [member] && ResultOf(w.result, member).Answered? && Regular(tab, Swept(w), sweep, lives, member, 0)
    && Quiet(st.next, w.fixed, (last - 1) * sweep) && Waits(EntryOf(tab, st, member), (last - 1) * sweep)
  }

  lemma IdleStep(tab: TypeTable, st: Schedule, w: Sweep, sweep: int, lives: Lifetimes, member: string, last: nat, count: nat)
    requires ParseMember(tab, member).Some? && sweep > 0 && count < last && Idle(tab, st, w, sweep, lives, member, last)
    ensures StepEvent(tab, st, Swept(w), sweep, count * sweep) == st
  {
    MulMonotone(count, last - 1, sweep);
    IdleSweep(tab, st, w, sweep, count * sweep, member);
  }

  /** The same sweep, over and over, until sweep `last`. */
  lemma {:induction false} IdleRun(tab: TypeTable, evs: seq<Event>, w: Sweep, sweep: int, lives: Lifetimes, member: string, domains: set<string>, stores: bool, last: nat)
    returns (evs': seq<Event>)
    requires ParseMember(tab, member).Some? && sweep > 0 && Allowed(tab, Swept(w), member, domains, stores)
    requires HotRun(tab, evs, sweep, lives, member, domains, stores) && SweepCount(evs) <= last
    requires Idle(tab, RunEvents(tab, evs, sweep), w, sweep, lives, member, last)
    ensures HotRun(tab, evs', sweep, lives, member, domains, stores) && SweepCount(evs') == last
    ensures RunEvents(tab, evs', sweep) == RunEvents(tab, evs, sweep) && Repeats(evs, w, evs')
    decreases last - SweepCount(evs)
  {
    if SweepCount(evs) == last {
      evs' := evs;
    } else {
      IdleStep(tab, RunEvents(tab, evs, sweep), w, sweep, lives, member, last, SweepCount(evs));
      OneMore(tab, evs, Swept(w), sweep);
      HotRunMore(tab, evs, Swept(w), sweep, lives, member, domains, stores);
      evs' := IdleRun(tab, evs + [Swept(w)], w, sweep, lives, member, domains, stores, last);
    }
  }

  // ---------------------------------------------------------------------------
  // Lapses
  // ---------------------------------------------------------------------------

  /** The member was kept up to the last sweep and yet its entry is gone when the next one comes. */
  ghost predicate Lapses(tab: TypeTable, evs: seq<Event>, sweep: int, member: string)
    requires ParseMember(tab, member).Some?
  {
    KeptUp(tab, evs, sweep, member) && !Warm(tab, evs, sweep, member)
  }

  function HotSweep(fixed: seq<Fixed>, fixedResult: map<string, Result>, member: string, ttl: int): Sweep {
    Sweep(fixed, [member], fixedResult, map[member := Answered(ttl)])
  }

  function FirstState(tab: TypeTable, member: string, ttl: int, sweep: int): Schedule
    requires ParseMember(tab, member).Some?
  {
    Schedule(map[DynamicKey(member) := NextDelay(ttl, sweep)], map[MemberKey(tab, member) := ttl])
  }

  lemma FirstSweepRuns(tab: TypeTable, fixed: seq<Fixed>, member: string, ttl: int, sweep: int)
    requires ParseMember(tab, member).Some? && ttl > 0 && |fixed| <= 1
    ensures RunSweep(tab, Schedule(map[], map[]), HotSweep(fixed, map[], member, ttl), sweep, 0)
            == FirstState(tab, member, ttl, sweep)
  {
    var w := HotSweep(fixed, map[], member, ttl);
    var st := Schedule(map[], map[]);
    assert SweepFixed(st, w.fixed, w.fixedResult, sweep, 0) == st by {
      if fixed != [] {
        assert fixed[..0] == [];
      }
    }
    OnlyMember(tab, st, member, w.result, sweep, 0);
  }

  lemma HotSweepRegular(tab: TypeTable, fixed: seq<Fixed>, member: string, ttl: int, sweep: int, lives: Lifetimes, domains: set<string>, stores: bool)
    requires ParseMember(tab, member).Some? && lives.Has(ttl)
    requires forall i :: 0 <= i < |fixed| ==> fixed[i].domain in domains
    ensures var e := Swept(HotSweep(fixed, map[], member, ttl));
            Regular(tab, e, sweep, lives, member, 0) && Allowed(tab, e, member, domains, stores) && HotEvent(e, member)
  {
  }

  lemma EmptyRun(tab: TypeTable, sweep: int, lives: Lifetimes, member: string, domains: set<string>, stores: bool)
    requires ParseMember(tab, member).Some?
    ensures HotRun(tab, [], sweep, lives, member, domains, stores)
    ensures RunEvents(tab, [], sweep) == Schedule(map[], map[]) && SweepCount([]) == 0
  {
  }

  /** A first sweep that refreshes the member, and no fixed domain. */
  lemma FirstSweep(tab: TypeTable, fixed: seq<Fixed>, member: string, ttl: int, sweep: int, lives: Lifetimes, domains: set<string>, stores: bool)
    returns (evs: seq<Event>)
    requires ParseMember(tab, member).Some? && ttl > 0 && lives.Has(ttl)
    requires |fixed| <= 1 && forall i :: 0 <= i < |fixed| ==> fixed[i].domain in domains
    ensures evs == [Swept(HotSweep(fixed, map[], member, ttl))] && SweepCount(evs) == 1
    ensures HotRun(tab, evs, sweep, lives, member, domains, stores)
    ensures RunEvents(tab, evs, sweep) == FirstState(tab, member, ttl, sweep)
  {
    var w := HotSweep(fixed, map[], member, ttl);
    FirstSweepRuns(tab, fixed, member, ttl, sweep);
    OneMore(tab, [], Swept(w), sweep);
    EmptyRun(tab, sweep, lives, member, domains, stores);
    HotSweepRegular(tab, fixed, member, ttl, sweep, lives, domains, stores);
    HotRunMore(tab, [], Swept(w), sweep, lives, member, domains, stores);
    evs := [] + [Swept(w)];
  }

  /** From a state in which the entry ends before the member is due, the member lapses. */
  lemma LapseFrom(tab: TypeTable, evs: seq<Event>, w: Sweep, sweep: int, lives: Lifetimes, member: string, domains: set<string>, stores: bool, last: nat)
    returns (evs': seq<Event>)
    requires ParseMember(tab, member).Some? && sweep > 0 && Allowed(tab, Swept(w), member, domains, stores)
    requires HotRun(tab, evs, sweep, lives, member, domains, stores) && 0 < SweepCount(evs) <= last
    requires Idle(tab, RunEvents(tab, evs, sweep), w, sweep, lives, member, last)
    requires !LiveAt(EntryOf(tab, RunEvents(tab, evs, sweep), member), last, sweep)
    ensures HotRun(tab, evs', sweep, lives, member, domains, stores) && Lapses(tab, evs', sweep, member)
    ensures Repeats(evs, w, evs')
  {
    evs' := IdleRun(tab, evs, w, sweep, lives, member, domains, stores, last);
    HotIsKeptUp(tab, evs', sweep, member);
  }

  /** Every answer for the member has this lifetime, and nothing else writes its key. */
  ghost predicate Steady(tab: TypeTable, e: Event, member: string, ttl: int)
    requires ParseMember(tab, member).Some?
  {
    && NotPinned(tab, e, member)
    && match e
       case Swept(w) => ResultOf(w.result, member).Answered? ==> ResultOf(w.result, member).ttl == ttl
       case Stored(name, qtype, _, _) => CacheKey(name, qtype) != MemberKey(tab, member)
  }

  ghost predicate SteadyRun(tab: TypeTable, evs: seq<Event>, member: string, ttl: int)
    requires ParseMember(tab, member).Some?
  {
    forall k :: 0 <= k < |evs| ==> Steady(tab, evs[k], member, ttl)
  }

  /** A lifetime that does not outlast its period: the name lapses although nothing else interferes. */
  lemma ShortLifeLapses(tab: TypeTable, member: string, ttl: int, sweep: int, lives: Lifetimes, domains: set<string>, stores: bool)
    returns (evs: seq<Event>)
    requires ParseMember(tab, member).Some? && sweep > 0 && ttl > 0 && lives.Has(ttl) && !Outlasting(ttl, sweep)
    ensures HotRun(tab, evs, sweep, lives, member, domains, stores) && Lapses(tab, evs, sweep, member)
    ensures SteadyRun(tab, evs, member, ttl)
  {
    var w := HotSweep([], map[], member, ttl);
    evs := FirstSweep(tab, [], member, ttl, sweep, lives, domains, stores);
    PeriodBounds(ttl, sweep);
    evs := LapseFrom(tab, evs, w, sweep, lives, member, domains, stores, Period(ttl, sweep));
  }

  /**
   A refresh with the greatest lifetime is put off the longest. Then a request handler stores an answer
   with the least lifetime.
   */
  lemma StoredNameLapses(tab: TypeTable, member: string, sweep: int, lives: Lifetimes, domains: set<string>) returns (evs: seq<Event>)
    requires ParseMember(tab, member).Some? && sweep > 0 && 0 < lives.least <= lives.most
    requires lives.least <= lives.Longest(sweep) * sweep
    ensures HotRun(tab, evs, sweep, lives, member, domains, true) && Lapses(tab, evs, sweep, member)
  {
    PeriodBounds(lives.most, sweep);
    var w := HotSweep([], map[], member, lives.most);
    evs := FirstSweep(tab, [], member, lives.most, sweep, lives, domains, true);
    var q := ParseMember(tab, member).value;
    var store := Stored(q.0, q.1, lives.least, 0);
    OneMore(tab, evs, store, sweep);
    HotRunMore(tab, evs, store, sweep, lives, member, domains, true);
    evs := LapseFrom(tab, evs + [store], w, sweep, lives, member, domains, true, lives.Longest(sweep));
  }

  function PinnedState(tab: TypeTable, member: string, domain: string, sweep: int, lives: Lifetimes): Schedule
    requires ParseMember(tab, member).Some?
  {
    Schedule(map[DynamicKey(member) := NextDelay(lives.most, sweep), FixedKey(domain) := sweep + HOUR],
             map[MemberKey(tab, member) := sweep + lives.least])
  }

  /** The listed refresh of a pinned name shortens the entry that the ranked one relies on. */
  lemma PinnedRefresh(tab: TypeTable, member: string, f: Fixed, sweep: int, lives: Lifetimes)
    requires Ranks(tab, member) && Pins(tab, f.domain, member) && f.interval == Some(3600) && sweep > 0 && lives.least > 0
    ensures RefreshFixed(FirstState(tab, member, lives.most, sweep), f, Answered(lives.least), sweep, sweep)
            == PinnedState(tab, member, f.domain, sweep, lives)
    ensures FixedKey(f.domain) != DynamicKey(member)
  {
    ScheduleKeysDisjoint(tab, f.domain, member);
  }

  lemma PinnedSweep(tab: TypeTable, member: string, f: Fixed, sweep: int, lives: Lifetimes)
    requires Ranks(tab, member) && Pins(tab, f.domain, member) && f.interval == Some(3600)
    requires 0 < sweep < NextDelay(lives.most, sweep) && lives.least > 0
    ensures RunSweep(tab, FirstState(tab, member, lives.most, sweep),
                     HotSweep([f], map[f.domain := Answered(lives.least)], member, lives.most), sweep, sweep)
            == PinnedState(tab, member, f.domain, sweep, lives)
  {
    var w := HotSweep([f], map[f.domain := Answered(lives.least)], member, lives.most);
    var st := FirstState(tab, member, lives.most, sweep);
    PinnedRefresh(tab, member, f, sweep, lives);
    OnlyDomain(st, f, w.fixedResult, sweep, sweep);
    OnlyMember(tab, PinnedState(tab, member, f.domain, sweep, lives), member, w.result, sweep, sweep);
  }

  lemma OnlyDomain(st: Schedule, f: Fixed, results: map<string, Result>, sweep: int, now: int)
    ensures SweepFixed(st, [f], results, sweep, now) == RefreshFixed(st, f, ResultOf(results, f.domain), sweep, now)
  {
    assert [f][..0] == [] && SweepFixed(st, [], results, sweep, now) == st;
    assert [f][0] == f;
  }

  /** Any domain that is on the fixed list and ranked for type A has one cache key for both. */
  lemma ListedAndRanked(tab: TypeTable, domain: string, member: string)
    requires WellFormed(tab) && TYPE_A in tab.names && member == CountMember(tab, domain, TYPE_A)
    ensures ParseMember(tab, member).Some? && Pins(tab, domain, member)
  {
    MemberRoundTrip(tab, domain, TYPE_A);
  }

  /** A name that is also on the fixed list, whose listed refresh gets the least lifetime. */
  lemma PinnedNameLapses(tab: TypeTable, member: string, domain: string, sweep: int, lives: Lifetimes, domains: set<string>, stores: bool)
    returns (evs: seq<Event>)
    requires Ranks(tab, member) && Pins(tab, domain, member) && domain in domains
    requires sweep > 0 && 0 < lives.least <= lives.most && sweep + lives.least <= lives.Longest(sweep) * sweep
    ensures HotRun(tab, evs, sweep, lives, member, domains, stores) && Lapses(tab, evs, sweep, member)
  {
    var ttl, last := lives.most, lives.Longest(sweep);
    PeriodBounds(ttl, sweep);
    DelayBounds(ttl, sweep);
    if last < 2 {
      MulMonotone(last, 1, sweep);
    }
    MulMonotone(1, last - 1, sweep);
    var f := Fixed(domain, Some(3600));
    var w := HotSweep([f], map[domain := Answered(lives.least)], member, ttl);
    evs := FirstSweep(tab, [f], member, ttl, sweep, lives, domains, stores);
    PinnedSweep(tab, member, f, sweep, lives);
    OneMore(tab, evs, Swept(w), sweep);
    HotRunMore(tab, evs, Swept(w), sweep, lives, member, domains, stores);
    evs := LapseFrom(tab, evs + [Swept(w)], w, sweep, lives, member, domains, stores, last);
  }

  // ---------------------------------------------------------------------------
  // The exact conditions
  // ---------------------------------------------------------------------------

  ghost predicate NeverLapsesAt(tab: TypeTable, member: string, ttl: int, sweep: int)
    requires ParseMember(tab, member).Some?
  {
    forall evs :: SteadyRun(tab, evs, member, ttl) ==> !Lapses(tab, evs, sweep, member)
  }

  lemma {:induction false} SteadyIsGentle(tab: TypeTable, evs: seq<Event>, member: string, ttl: int, sweep: int)
    requires ParseMember(tab, member).Some? && sweep > 0 && SteadyRun(tab, evs, member, ttl) && Outlasting(ttl, sweep)
    ensures RegularRun(tab, evs, sweep, Lifetimes(ttl, ttl), member) && GentleRun(tab, evs, sweep, Lifetimes(ttl, ttl), member)
    ensures OutlastingRun(evs, sweep, member)
  {
    if evs != [] {
      SteadyIsGentle(tab, evs[..|evs| - 1], member, ttl, sweep);
      assert Steady(tab, evs[|evs| - 1], member, ttl);
    }
  }

  /**
   When all answers for a name have one lifetime and nothing else writes its key, it lapses in no run
   if and only if the lifetime exceeds the refresh period, counted in whole sweeps.
   */
  lemma NeverLapsesIff(tab: TypeTable, member: string, ttl: int, sweep: int)
    requires Ranks(tab, member) && sweep > 0 && ttl > 0
    ensures NeverLapsesAt(tab, member, ttl, sweep) <==> Period(ttl, sweep) * sweep < ttl
  {
    if Outlasting(ttl, sweep) {
      PeriodBounds(ttl, sweep);
      MulMonotone(1, Period(ttl, sweep), sweep);
      forall evs | SteadyRun(tab, evs, member, ttl) ensures !Lapses(tab, evs, sweep, member) {
        SteadyIsGentle(tab, evs, member, ttl, sweep);
        ReachableCover(tab, evs, sweep, Lifetimes(ttl, ttl), member);
      }
    } else {
      var evs := ShortLifeLapses(tab, member, ttl, sweep, Lifetimes(ttl, ttl), {}, false);
    }
  }

  /** A name whose lifetime equals the sweep period lapses, although it is refreshed at every sweep. */
  lemma OneSweepLifetimeLapses(tab: TypeTable, member: string, sweep: int)
    requires Ranks(tab, member) && sweep > 0
    ensures !NeverLapsesAt(tab, member, sweep, sweep)
  {
    NeverLapsesIff(tab, member, sweep, sweep);
    PeriodBounds(sweep, sweep);
    MulMonotone(1, Period(sweep, sweep), sweep);
  }

  /** No allowed run with these lifetimes has a lapse. */
  ghost predicate LapseFree(tab: TypeTable, member: string, sweep: int, lives: Lifetimes, domains: set<string>, stores: bool)
    requires ParseMember(tab, member).Some?
  {
    forall evs ::
      RegularRun(tab, evs, sweep, lives, member) && AllowedRun(tab, evs, member, domains, stores)
      ==> !Lapses(tab, evs, sweep, member)
  }

  ghost predicate Unpinned(tab: TypeTable, member: string, domains: set<string>)
    requires ParseMember(tab, member).Some?
  {
    forall d :: d in domains ==> !Pins(tab, d, member)
  }

  lemma {:induction false} AllowedIsGentle(tab: TypeTable, evs: seq<Event>, sweep: int, lives: Lifetimes, member: string, domains: set<string>, stores: bool)
    requires ParseMember(tab, member).Some? && sweep > 0
    requires RegularRun(tab, evs, sweep, lives, member) && AllowedRun(tab, evs, member, domains, stores)
    requires Unpinned(tab, member, domains) || sweep + lives.least > lives.Longest(sweep) * sweep
    requires !stores || lives.least > lives.Longest(sweep) * sweep
    ensures GentleRun(tab, evs, sweep, lives, member)
  {
    if evs != [] {
      AllowedIsGentle(tab, evs[..|evs| - 1], sweep, lives, member, domains, stores);
      assert Allowed(tab, evs[|evs| - 1], member, domains, stores);
    }
  }

  /** Up to the threshold there is always a lifetime at issue that does not outlast its period. */
  lemma WholeSweeps(sweep: int, lives: Lifetimes) returns (ttl: int)
    requires sweep >= 5 && 0 < lives.least <= lives.most && lives.least <= Threshold(lives.most, sweep)
    ensures lives.Has(ttl) && !Outlasting(ttl, sweep)
  {
    var k, p := DueAt(lives.least, sweep), lives.Longest(sweep);
    PeriodBounds(lives.most, sweep);
    DelayBounds(lives.most, sweep);
    DueBounds(lives.least, sweep);
    DueIff(lives.least, 0, sweep);
    DueIff(lives.least, 4, sweep);
    DueIff(lives.least, p, sweep);
    if p < 4 {
      MulMonotone(p, 4, sweep);
    } else {
      MulMonotone(4, p, sweep);
    }
    if k * sweep <= lives.most {
      ttl := k * sweep;
      MulMonotone(k - 1, p - 1, sweep);
      PeriodIsWhole(k, sweep, k * sweep);
    } else {
      ttl := lives.most;
      MulMonotone(k, p, sweep);
    }
  }

  /** A lifetime of one to four sweeps has a period of as many. */
  lemma PeriodIsWhole(k: int, sweep: int, ttl: int)
    requires sweep >= 5 && 1 <= k <= 4 && ttl == k * sweep && (k - 1) * sweep < HOUR
    ensures !Outlasting(ttl, sweep)
  {
    var d := NextDelay(ttl, sweep);
    DueIff(d, k - 1, sweep);
    MulMonotone(k, Period(ttl, sweep), sweep);
  }

  /**
   The exact condition, for every sweep period, every range of lifetimes, every fixed list and with or
   without stores by request handlers. The longest refresh period is that of the greatest lifetime, the
   ceiling of Server.cache. A name that is kept up never lapses, in any run, if and only if the least
   lifetime exceeds four sweeps, or the longest period if that is shorter; no fixed domain shares its
   cache key, or a listed refresh one sweep after a ranked one still outlasts the longest period; and
   handlers do not store its answers, or these outlast the longest period too.
   */
  lemma LapseFreeIff(tab: TypeTable, member: string, sweep: int, lives: Lifetimes, domains: set<string>, stores: bool)
    requires Ranks(tab, member) && sweep >= 5 && 0 < lives.least <= lives.most
    ensures LapseFree(tab, member, sweep, lives, domains, stores) <==>
            && lives.least > Threshold(lives.most, sweep)
            && (Unpinned(tab, member, domains) || sweep + lives.least > lives.Longest(sweep) * sweep)
            && (!stores || lives.least > lives.Longest(sweep) * sweep)
  {
    if lives.least <= Threshold(lives.most, sweep) {
      var ttl := WholeSweeps(sweep, lives);
      var evs := ShortLifeLapses(tab, member, ttl, sweep, lives, domains, stores);
      assert AllowedRun(tab, evs, member, domains, stores);
    } else if !Unpinned(tab, member, domains) && sweep + lives.least <= lives.Longest(sweep) * sweep {
      var d :| d in domains && Pins(tab, d, member);
      var evs := PinnedNameLapses(tab, member, d, sweep, lives, domains, stores);
      assert AllowedRun(tab, evs, member, domains, stores);
    } else if stores && lives.least <= lives.Longest(sweep) * sweep {
      var evs := StoredNameLapses(tab, member, sweep, lives, domains);
      assert AllowedRun(tab, evs, member, domains, stores);
    } else {
      NothingLapses(tab, member, sweep, lives, domains, stores);
    }
  }

  lemma NothingLapses(tab: TypeTable, member: string, sweep: int, lives: Lifetimes, domains: set<string>, stores: bool)
    requires Ranks(tab, member) && sweep > 0 && Threshold(lives.most, sweep) < lives.least <= lives.most && lives.most > 0
    requires Unpinned(tab, member, domains) || sweep + lives.least > lives.Longest(sweep) * sweep
    requires !stores || lives.least > lives.Longest(sweep) * sweep
    ensures LapseFree(tab, member, sweep, lives, domains, stores)
  {
    OutlastsPeriod(lives.least, lives.most, sweep);
    forall evs | RegularRun(tab, evs, sweep, lives, member) && AllowedRun(tab, evs, member, domains, stores)
      ensures !Lapses(tab, evs, sweep, member)
    {
      AllowedIsGentle(tab, evs, sweep, lives, member, domains, stores);
      LongLivesOutlast(tab, evs, sweep, lives, member);
      ReachableCover(tab, evs, sweep, lives, member);
    }
  }

  lemma LowCeiling(most: int, sweep: int)
    requires sweep > 0 && 0 < most <= 5 * sweep
    ensures Threshold(most, sweep) == Period(most, sweep) * sweep
  {
    DelayBounds(most, sweep);
    DueIff(NextDelay(most, sweep), 4, sweep);
  }

  /** Under a ceiling of up to five sweeps, neither listed refreshes nor stores matter. */
  lemma LowCeilingIff(tab: TypeTable, member: string, sweep: int, lives: Lifetimes, domains: set<string>, stores: bool)
    requires Ranks(tab, member) && sweep >= 5 && 0 < lives.least <= lives.most <= 5 * sweep
    ensures LapseFree(tab, member, sweep, lives, domains, stores) <==> lives.least > lives.Longest(sweep) * sweep
  {
    LapseFreeIff(tab, member, sweep, lives, domains, stores);
    LowCeiling(lives.most, sweep);
    var bound := lives.Longest(sweep) * sweep;
    assert lives.least > bound ==> sweep + lives.least > bound;
  }

  lemma ExamplePeriod(sweep: int, most: int)
    requires sweep == 60 * SECOND && most == 300 * SECOND
    ensures Period(most, sweep) * sweep == 240 * SECOND
  {
  }

  /**
   With the settings of the example configuration, a ceiling of 300s and a sweep every 60s, a name never
   lapses if and only if its lifetimes exceed 240s, whatever is listed or stored.
   */
  lemma ExampleSettingsIff(tab: TypeTable, member: string, sweep: int, lives: Lifetimes, domains: set<string>, stores: bool)
    requires Ranks(tab, member) && sweep == 60 * SECOND && 0 < lives.least <= lives.most == 300 * SECOND
    ensures LapseFree(tab, member, sweep, lives, domains, stores) <==> lives.least > 240 * SECOND
  {
    LowCeilingIff(tab, member, sweep, lives, domains, stores);
    ExamplePeriod(sweep, lives.most);
  }
}
