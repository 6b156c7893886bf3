/**
 The prefetch sweep of internal/server/server.go and stats.go: fixed domains and top-ranked names,
 rescheduled in one `next` map, refresh entries of the Redis cache. A sweep is instantaneous. Between
 sweeps, request handlers write the same cache.
 */
module PrefetchSchedule {

  import opened Options
  import opened Dns
  import opened Keys

  const HOUR := 3600 * SECOND

  /** prefetchNextDelay: 80% of the cache lifetime, at least a sweep, and, above all, at most an hour. */
  function NextDelay(ttl: int, sweep: int): int {
    if ttl <= 0 then
      sweep
    else
      var d := ttl * 4 / 5;
      var d1 := if d < sweep then sweep else d;
      if d1 > HOUR then HOUR else d1
  }

  /** What resolving a name gave; `ttl` is the lifetime Server.cache returned, 0 when it did not cache. */
  datatype Result = Failed | Unpackable | Answered(ttl: int)

  /** `cache` maps a Redis cache key to its expiry. */
  datatype Schedule = Schedule(next: map<string, int>, cache: map<string, int>)

  datatype Fixed = Fixed(domain: string, interval: Option<int>)

  /** One sweep: the fixed domains, the ranked members, and what resolving each name gives. */
  datatype Sweep = Sweep(fixed: seq<Fixed>, top: seq<string>, fixedResult: map<string, Result>, result: map<string, Result>)

  function ResultOf(results: map<string, Result>, name: string): Result {
    if name in results then results[name] else Failed
  }

  predicate Scheduled(next: map<string, int>, key: string, now: int) {
    key in next && now < next[key]
  }

  function WriteCache(cache: map<string, int>, key: string, ttl: int, now: int): map<string, int> {
    if ttl <= 0 then cache else cache[key := now + ttl]
  }

  // ---------------------------------------------------------------------------
  // Fixed domains
  // ---------------------------------------------------------------------------

  /** A missing or non-positive interval falls back to the sweep period, in whole seconds. */
  function IntervalOf(f: Fixed, sweep: int): int {
    if f.interval.None? || f.interval.value <= 0 then sweep / SECOND else f.interval.value
  }

  function RefreshFixed(st: Schedule, f: Fixed, res: Result, sweep: int, now: int): Schedule {
    var name := FixedKey(f.domain);
    if Scheduled(st.next, name, now) || !res.Answered? then
      st
    else
      Schedule(st.next[name := now + IntervalOf(f, sweep) * SECOND],
               WriteCache(st.cache, CacheKey(name, TYPE_A), res.ttl, now))
  }

  function SweepFixed(st: Schedule, fixed: seq<Fixed>, results: map<string, Result>, sweep: int, now: int): Schedule {
    if fixed == [] then
      st
    else
      var f := fixed[|fixed| - 1];
      RefreshFixed(SweepFixed(st, fixed[..|fixed| - 1], results, sweep, now), f, ResultOf(results, f.domain), sweep, now)
  }

  // ---------------------------------------------------------------------------
  // Ranked names
  // ---------------------------------------------------------------------------

  /** The cache key a ranked member's refresh writes. */
  function MemberKey(tab: TypeTable, member: string): string
    requires ParseMember(tab, member).Some?
  {
    CacheKey(ParseMember(tab, member).value.0, ParseMember(tab, member).value.1)
  }

  predicate IsDue(tab: TypeTable, next: map<string, int>, now: int, member: string) {
    ParseMember(tab, member).Some? && !Scheduled(next, DynamicKey(member), now)
  }

  /** dueDynamic: the parseable members not scheduled for later, in ranking order. */
  function DueDynamic(tab: TypeTable, top: seq<string>, next: map<string, int>, now: int): (due: seq<string>)
    ensures forall m :: m in due <==> m in top && IsDue(tab, next, now, m)
  {
    if top == [] then
      []
    else
      var n := |top| - 1;
      assert top == top[..n] + [top[n]];
      var init := DueDynamic(tab, top[..n], next, now);
      if IsDue(tab, next, now, top[n]) then init + [top[n]] else init
  }

  ghost predicate Distinct(names: seq<string>) { forall i, j :: 0 <= i < j < |names| ==> names[i] != names[j] }

  /** The positions of the due members in the ranking. */
  function DuePositions(tab: TypeTable, top: seq<string>, next: map<string, int>, now: int): seq<nat> {
    if top == [] then
      []
    else
      var n: nat := |top| - 1;
      var init := DuePositions(tab, top[..n], next, now);
      if IsDue(tab, next, now, top[n]) then init + [n] else init
  }

  /** The due members keep the order of the ranking: they stand at increasing positions of it. */
  lemma {:induction false} DueKeepsOrder(tab: TypeTable, top: seq<string>, next: map<string, int>, now: int)
    ensures var due, at := DueDynamic(tab, top, next, now), DuePositions(tab, top, next, now);
            && |at| == |due|
            && (forall k :: 0 <= k < |at| ==> at[k] < |top| && top[at[k]] == due[k])
            && (forall j, k :: 0 <= j < k < |at| ==> at[j] < at[k])
  {
    if top != [] {
      DueKeepsOrder(tab, top[..|top| - 1], next, now);
    }
  }

  lemma {:induction false} DueDistinct(tab: TypeTable, top: seq<string>, next: map<string, int>, now: int)
    requires Distinct(top)
    ensures Distinct(DueDynamic(tab, top, next, now))
  {
    if top != [] {
      var n := |top| - 1;
      DueDistinct(tab, top[..n], next, now);
      forall m | m in DueDynamic(tab, top[..n], next, now) ensures m != top[n] {
        assert m in top[..n];
      }
    }
  }

  function RefreshMember(tab: TypeTable, st: Schedule, member: string, res: Result, sweep: int, now: int): Schedule
    requires ParseMember(tab, member).Some?
  {
    var key := DynamicKey(member);
    match res
    case Failed => st.(next := st.next[key := now + sweep])
    case Unpackable => st
    case Answered(ttl) =>
      Schedule(st.next[key := now + NextDelay(ttl, sweep)], WriteCache(st.cache, MemberKey(tab, member), ttl, now))
  }

  function SweepMembers(tab: TypeTable, st: Schedule, due: seq<string>, results: map<string, Result>, sweep: int, now: int): Schedule
    requires forall m :: m in due ==> ParseMember(tab, m).Some?
  {
    if due == [] then
      st
    else
      var m := due[|due| - 1];
      RefreshMember(tab, SweepMembers(tab, st, due[..|due| - 1], results, sweep, now), m, ResultOf(results, m), sweep, now)
  }

  /** prefetchSweep. */
  function RunSweep(tab: TypeTable, st: Schedule, w: Sweep, sweep: int, now: int): Schedule {
    var st1 := SweepFixed(st, w.fixed, w.fixedResult, sweep, now);
    SweepMembers(tab, st1, DueDynamic(tab, w.top, st1.next, now), w.result, sweep, now)
  }

  /** The server's schedule and the cache it refreshes, updated in place. */
  class Prefetcher {
    var next: map<string, int>
    var cache: map<string, int>
    const sweep: int
    const tab: TypeTable

    constructor (tab: TypeTable, sweep: int)
      ensures next == map[] && cache == map[] && this.sweep == sweep && this.tab == tab
    {
      next, cache := map[], map[];
      this.sweep, this.tab := sweep, tab;
    }

    method FindDue(top: seq<string>, now: int) returns (due: seq<string>)
      ensures due == DueDynamic(tab, top, next, now)
    {
      due := [];
      for i := 0 to |top|
        invariant due == DueDynamic(tab, top[..i], next, now)
      {
        assert top[..i + 1][..i] == top[..i];
        if ParseMember(tab, top[i]).Some? && !(DynamicKey(top[i]) in next && now < next[DynamicKey(top[i])]) {
          due := due + [top[i]];
        }
      }
      assert top[..|top|] == top;
    }

    method RefreshRanked(m: string, res: Result, now: int)
      requires ParseMember(tab, m).Some?
      modifies this
      ensures Schedule(next, cache) == RefreshMember(tab, old(Schedule(next, cache)), m, res, sweep, now)
    {
      var key := DynamicKey(m);
      match res
      case Failed =>
        next := next[key := now + sweep];
      case Unpackable =>
      case Answered(ttl) =>
        if ttl > 0 {
          cache := cache[MemberKey(tab, m) := now + ttl];
        }
        next := next[key := now + NextDelay(ttl, sweep)];
    }

    method PrefetchDynamic(top: seq<string>, results: map<string, Result>, now: int)
      modifies this
      ensures Schedule(next, cache) ==
              SweepMembers(tab, old(Schedule(next, cache)), DueDynamic(tab, top, old(next), now), results, sweep, now)
    {
      var due := FindDue(top, now);
      for i := 0 to |due|
        invariant forall m :: m in due[..i] ==> m in due
        invariant Schedule(next, cache) == SweepMembers(tab, old(Schedule(next, cache)), due[..i], results, sweep, now)
      {
        assert due[..i + 1][..i] == due[..i];
        assert due[i] in due;
        RefreshRanked(due[i], ResultOf(results, due[i]), now);
      }
      assert due[..|due|] == due;
    }

    method RefreshDomain(f: Fixed, res: Result, now: int)
      modifies this
      ensures Schedule(next, cache) == RefreshFixed(old(Schedule(next, cache)), f, res, sweep, now)
    {
      var name := FixedKey(f.domain);
      if name in next && now < next[name] {
        return;
      }
      if res.Answered? {
        if res.ttl > 0 {
          cache := cache[CacheKey(name, TYPE_A) := now + res.ttl];
        }
        next := next[name := now + IntervalOf(f, sweep) * SECOND];
      }
    }

    method PrefetchSweep(w: Sweep, now: int)
      modifies this
      ensures Schedule(next, cache) == RunSweep(tab, old(Schedule(next, cache)), w, sweep, now)
    {
      for i := 0 to |w.fixed|
        invariant Schedule(next, cache) == SweepFixed(old(Schedule(next, cache)), w.fixed[..i], w.fixedResult, sweep, now)
      {
        assert w.fixed[..i + 1][..i] == w.fixed[..i];
        RefreshDomain(w.fixed[i], ResultOf(w.fixedResult, w.fixed[i].domain), now);
      }
      assert w.fixed[..|w.fixed|] == w.fixed;
      PrefetchDynamic(w.top, w.result, now);
    }
  }

  // ---------------------------------------------------------------------------
  // Runs
  // ---------------------------------------------------------------------------

  /** A sweep, or the answer that a request handler stores between sweeps, after a miss it saw earlier. */
  datatype Event = Swept(w: Sweep) | Stored(name: string, qtype: QType, ttl: int, at: int)

  function SweepCount(evs: seq<Event>): nat {
    if evs == [] then 0 else SweepCount(evs[..|evs| - 1]) + if evs[|evs| - 1].Swept? then 1 else 0
  }

  function StepEvent(tab: TypeTable, st: Schedule, e: Event, sweep: int, now: int): Schedule {
    match e
    case Swept(w) => RunSweep(tab, st, w, sweep, now)
    case Stored(name, qtype, ttl, at) => st.(cache := WriteCache(st.cache, CacheKey(name, qtype), ttl, at))
  }

  /** The schedule after a run; its sweeps take place at instants 0, sweep, 2*sweep, ... */
  function RunEvents(tab: TypeTable, evs: seq<Event>, sweep: int): Schedule {
    if evs == [] then
      Schedule(map[], map[])
    else
      var n := |evs| - 1;
      StepEvent(tab, RunEvents(tab, evs[..n], sweep), evs[n], sweep, SweepCount(evs[..n]) * sweep)
  }

  lemma OneMore(tab: TypeTable, evs: seq<Event>, e: Event, sweep: int)
    ensures SweepCount(evs + [e]) == SweepCount(evs) + if e.Swept? then 1 else 0
    ensures RunEvents(tab, evs + [e], sweep)
            == StepEvent(tab, RunEvents(tab, evs, sweep), e, sweep, SweepCount(evs) * sweep)
  {
    assert (evs + [e])[..|evs|] == evs;
  }

  // ---------------------------------------------------------------------------
  // One member's view of a run
  // ---------------------------------------------------------------------------

  /** When a member is next due, and when its cache entry expires. */
  datatype Entry = Entry(next: Option<int>, expire: Option<int>)

  function Get(m: map<string, int>, key: string): Option<int> { if key in m then Some(m[key]) else None }

  function EntryOf(tab: TypeTable, st: Schedule, member: string): Entry
    requires ParseMember(tab, member).Some?
  {
    Entry(Get(st.next, DynamicKey(member)), Get(st.cache, MemberKey(tab, member)))
  }

  predicate Waits(e: Entry, now: int) { e.next.Some? && now < e.next.value }

  function Write(e: Entry, ttl: int, at: int): Entry { if ttl > 0 then e.(expire := Some(at + ttl)) else e }

  /** What resolving a due member makes of its entry. */
  function Renewed(e: Entry, res: Result, sweep: int, now: int): Entry {
    match res
    case Failed => e.(next := Some(now + sweep))
    case Unpackable => e
    case Answered(ttl) => Write(e, ttl, now).(next := Some(now + NextDelay(ttl, sweep)))
  }

  /** What the dynamic part of a sweep makes of a member's entry. */
  function Refresh(e: Entry, ranked: bool, res: Result, sweep: int, now: int): Entry {
    if !ranked || Waits(e, now) then e else Renewed(e, res, sweep, now)
  }

  /** Distinct type names denote distinct types. */
  ghost predicate TypesInjective(tab: TypeTable) {
    forall s, s' :: s in tab.types && s' in tab.types && tab.types[s] == tab.types[s'] ==> s == s'
  }

  /** A member that parses, under a table whose names and types correspond. */
  ghost predicate Ranks(tab: TypeTable, member: string) {
    WellFormed(tab) && TypesInjective(tab) && ParseMember(tab, member).Some?
  }

  /** Distinct members refresh distinct cache keys. */
  lemma MemberKeysDistinct(tab: TypeTable, m: string, m': string)
    requires TypesInjective(tab)
    requires ParseMember(tab, m).Some? && ParseMember(tab, m').Some?
    requires MemberKey(tab, m) == MemberKey(tab, m')
    ensures m == m'
  {
    var p, p' := ParseMember(tab, m).value, ParseMember(tab, m').value;
    CacheKeyInjective(p.0, p.1, p'.0, p'.1);
    var i, i' := LastIndex(m, '|'), LastIndex(m', '|');
    assert m == m[..i] + "|" + m[i + 1..];
    assert m' == m'[..i'] + "|" + m'[i' + 1..];
  }

  /** A fixed domain that refreshes the member's own cache key. */
  predicate Pins(tab: TypeTable, domain: string, member: string)
    requires ParseMember(tab, member).Some?
  {
    CacheKey(FixedKey(domain), TYPE_A) == MemberKey(tab, member)
  }

  /** What the fixed part of a sweep can do to a member's entry: at most rewrite it, if pinned. */
  ghost predicate FixedMoves(tab: TypeTable, fixed: seq<Fixed>, results: map<string, Result>, now: int, member: string, e: Entry, e': Entry)
    requires ParseMember(tab, member).Some?
  {
    || e' == e
    || exists i :: 0 <= i < |fixed| && Pins(tab, fixed[i].domain, member)
         && ResultOf(results, fixed[i].domain).Answered?
         && e' == Write(e, ResultOf(results, fixed[i].domain).ttl, now)
  }

  lemma DomainMoves(tab: TypeTable, st: Schedule, f: Fixed, res: Result, sweep: int, now: int, member: string)
    requires WellFormed(tab) && ParseMember(tab, member).Some?
    ensures var e, e' := EntryOf(tab, st, member), EntryOf(tab, RefreshFixed(st, f, res, sweep, now), member);
            e' == e || (Pins(tab, f.domain, member) && res.Answered? && e' == Write(e, res.ttl, now))
  {
    ScheduleKeysDisjoint(tab, f.domain, member);
  }

  lemma {:induction false} FixedPart(tab: TypeTable, st: Schedule, fixed: seq<Fixed>, results: map<string, Result>, sweep: int, now: int, member: string)
    requires WellFormed(tab) && ParseMember(tab, member).Some?
    ensures FixedMoves(tab, fixed, results, now, member,
                       EntryOf(tab, st, member), EntryOf(tab, SweepFixed(st, fixed, results, sweep, now), member))
  {
    if fixed != [] {
      var n := |fixed| - 1;
      var init := fixed[..n];
      FixedPart(tab, st, init, results, sweep, now, member);
      DomainMoves(tab, SweepFixed(st, init, results, sweep, now), fixed[n], ResultOf(results, fixed[n].domain), sweep, now, member);
      assert forall i :: 0 <= i < n ==> init[i] == fixed[i];
    }
  }

  lemma KeysApart(tab: TypeTable, other: string, member: string)
    requires TypesInjective(tab) && ParseMember(tab, member).Some? && ParseMember(tab, other).Some? && other != member
    ensures DynamicKey(other) != DynamicKey(member) && MemberKey(tab, other) != MemberKey(tab, member)
  {
    if DynamicKey(other) == DynamicKey(member) {
      DynamicKeyInjective(other, member);
    }
    if MemberKey(tab, other) == MemberKey(tab, member) {
      MemberKeysDistinct(tab, other, member);
    }
  }

  /** Refreshing one member renews its own entry and leaves every other as it is. */
  lemma RefreshSeen(tab: TypeTable, st: Schedule, one: string, res: Result, sweep: int, now: int, member: string)
    requires TypesInjective(tab) && ParseMember(tab, member).Some? && ParseMember(tab, one).Some?
    ensures EntryOf(tab, RefreshMember(tab, st, one, res, sweep, now), member)
            == if one == member then Renewed(EntryOf(tab, st, member), res, sweep, now) else EntryOf(tab, st, member)
  {
    if one != member {
      KeysApart(tab, one, member);
    }
  }

  lemma DistinctLast(due: seq<string>, member: string)
    requires Distinct(due) && due != []
    ensures Distinct(due[..|due| - 1]) && forall m :: m in due[..|due| - 1] ==> m in due
    ensures due[|due| - 1] == member ==> member !in due[..|due| - 1] && member in due
    ensures due[|due| - 1] != member ==> (member in due <==> member in due[..|due| - 1])
  {
    assert due == due[..|due| - 1] + [due[|due| - 1]];
  }

  /** Sweeping the due members refreshes this member's entry once if it is due, and not otherwise. */
  lemma {:induction false} SweepSeenByMember(tab: TypeTable, st: Schedule, due: seq<string>, results: map<string, Result>, sweep: int, now: int, member: string)
    requires TypesInjective(tab) && ParseMember(tab, member).Some?
    requires forall m :: m in due ==> ParseMember(tab, m).Some?
    requires Distinct(due)
    ensures EntryOf(tab, SweepMembers(tab, st, due, results, sweep, now), member)
            == if member in due then Renewed(EntryOf(tab, st, member), ResultOf(results, member), sweep, now)
               else EntryOf(tab, st, member)
  {
    if due != [] {
      var n := |due| - 1;
      DistinctLast(due, member);
      SweepSeenByMember(tab, st, due[..n], results, sweep, now, member);
      RefreshSeen(tab, SweepMembers(tab, st, due[..n], results, sweep, now), due[n], ResultOf(results, due[n]), sweep, now, member);
    }
  }

  /** The entry after the fixed part of a sweep. */
  function AfterFixed(tab: TypeTable, st: Schedule, w: Sweep, sweep: int, now: int, member: string): Entry
    requires ParseMember(tab, member).Some?
  {
    EntryOf(tab, SweepFixed(st, w.fixed, w.fixedResult, sweep, now), member)
  }

  /** A sweep, seen by one member: no other member's refresh touches its entry. */
  lemma OneSweep(tab: TypeTable, st: Schedule, w: Sweep, sweep: int, now: int, member: string)
    requires Ranks(tab, member) && Distinct(w.top)
    ensures EntryOf(tab, RunSweep(tab, st, w, sweep, now), member)
            == Refresh(AfterFixed(tab, st, w, sweep, now, member), member in w.top, ResultOf(w.result, member), sweep, now)
    ensures FixedMoves(tab, w.fixed, w.fixedResult, now, member,
                       EntryOf(tab, st, member), AfterFixed(tab, st, w, sweep, now, member))
  {
    var st1 := SweepFixed(st, w.fixed, w.fixedResult, sweep, now);
    FixedPart(tab, st, w.fixed, w.fixedResult, sweep, now, member);
    DueDistinct(tab, w.top, st1.next, now);
    SweepSeenByMember(tab, st1, DueDynamic(tab, w.top, st1.next, now), w.result, sweep, now, member);
  }

  /**
   What a sweep does for a member that no fixed domain pins. If it is due and ranked, a failure puts it
   off by a sweep, and an answer writes its entry and schedules it; in all other cases nothing changes.
   */
  lemma SweepLaws(tab: TypeTable, st: Schedule, w: Sweep, sweep: int, now: int, member: string)
    requires Ranks(tab, member) && NotPinned(tab, Swept(w), member)
    ensures var st' := RunSweep(tab, st, w, sweep, now);
            var next, next' := Get(st.next, DynamicKey(member)), Get(st'.next, DynamicKey(member));
            var expire, expire' := Get(st.cache, MemberKey(tab, member)), Get(st'.cache, MemberKey(tab, member));
            var res := ResultOf(w.result, member);
            if member in w.top && (next.None? || next.value <= now) && !res.Unpackable? then
              if res.Failed? then next' == Some(now + sweep) && expire' == expire
              else next' == Some(now + NextDelay(res.ttl, sweep)) && expire' == if res.ttl > 0 then Some(now + res.ttl) else expire
            else next' == next && expire' == expire
  {
    OneSweep(tab, st, w, sweep, now, member);
  }

  /** No other domain of the list has this one's name. */
  ghost predicate OnlyAt(fixed: seq<Fixed>, k: nat, key: string) {
    && k < |fixed| && FixedKey(fixed[k].domain) == key
    && forall i :: 0 <= i < |fixed| && i != k ==> FixedKey(fixed[i].domain) != key
  }

  /** When a domain is due after a sweep that may refresh it. */
  function NextFixed(next: Option<int>, f: Fixed, res: Result, sweep: int, now: int): Option<int> {
    if (next.Some? && now < next.value) || !res.Answered? then next else Some(now + IntervalOf(f, sweep) * SECOND)
  }

  lemma RefreshedNext(st: Schedule, f: Fixed, res: Result, sweep: int, now: int, key: string)
    ensures var next := Get(RefreshFixed(st, f, res, sweep, now).next, key);
            next == if key == FixedKey(f.domain) then NextFixed(Get(st.next, key), f, res, sweep, now) else Get(st.next, key)
  {
  }

  /** The last domain of the list settles its own key, and the rest the others. */
  lemma FixedLast(st: Schedule, fixed: seq<Fixed>, results: map<string, Result>, sweep: int, now: int, key: string)
    requires fixed != []
    ensures var n := |fixed| - 1;
            var next := Get(SweepFixed(st, fixed[..n], results, sweep, now).next, key);
            Get(SweepFixed(st, fixed, results, sweep, now).next, key)
            == if key == FixedKey(fixed[n].domain) then NextFixed(next, fixed[n], ResultOf(results, fixed[n].domain), sweep, now)
               else next
  {
    var n := |fixed| - 1;
    RefreshedNext(SweepFixed(st, fixed[..n], results, sweep, now), fixed[n], ResultOf(results, fixed[n].domain), sweep, now, key);
  }

  lemma {:induction false} OthersLeaveFixed(st: Schedule, fixed: seq<Fixed>, results: map<string, Result>, sweep: int, now: int, key: string)
    requires forall i :: 0 <= i < |fixed| ==> FixedKey(fixed[i].domain) != key
    ensures Get(SweepFixed(st, fixed, results, sweep, now).next, key) == Get(st.next, key)
  {
    if fixed != [] {
      OthersLeaveFixed(st, fixed[..|fixed| - 1], results, sweep, now, key);
      FixedLast(st, fixed, results, sweep, now, key);
    }
  }

  lemma OnlyAtPrefix(fixed: seq<Fixed>, k: nat, key: string)
    requires OnlyAt(fixed, k, key)
    ensures var init := fixed[..|fixed| - 1];
            if k < |fixed| - 1 then OnlyAt(init, k, key) else forall i :: 0 <= i < |init| ==> FixedKey(init[i].domain) != key
  {
    var init := fixed[..|fixed| - 1];
    assert forall i :: 0 <= i < |init| ==> init[i] == fixed[i];
  }

  lemma {:induction false} FixedSeen(st: Schedule, fixed: seq<Fixed>, results: map<string, Result>, sweep: int, now: int, k: nat, key: string)
    requires OnlyAt(fixed, k, key)
    ensures Get(SweepFixed(st, fixed, results, sweep, now).next, key)
            == NextFixed(Get(st.next, key), fixed[k], ResultOf(results, fixed[k].domain), sweep, now)
  {
    OnlyAtPrefix(fixed, k, key);
    FixedLast(st, fixed, results, sweep, now, key);
    if k < |fixed| - 1 {
      FixedSeen(st, fixed[..|fixed| - 1], results, sweep, now, k, key);
    } else {
      OthersLeaveFixed(st, fixed[..|fixed| - 1], results, sweep, now, key);
    }
  }

  lemma {:induction false} MembersLeaveFixed(tab: TypeTable, st: Schedule, due: seq<string>, results: map<string, Result>, sweep: int, now: int, domain: string)
    requires WellFormed(tab) && forall m :: m in due ==> ParseMember(tab, m).Some?
    ensures Get(SweepMembers(tab, st, due, results, sweep, now).next, FixedKey(domain)) == Get(st.next, FixedKey(domain))
  {
    if due != [] {
      var n := |due| - 1;
      assert due[n] in due && forall m :: m in due[..n] ==> m in due;
      MembersLeaveFixed(tab, st, due[..n], results, sweep, now, domain);
      ScheduleKeysDisjoint(tab, domain, due[n]);
    }
  }

  lemma FixedNext(tab: TypeTable, st: Schedule, w: Sweep, sweep: int, now: int, k: nat, key: string)
    requires WellFormed(tab) && OnlyAt(w.fixed, k, key)
    ensures Get(RunSweep(tab, st, w, sweep, now).next, key)
            == NextFixed(Get(st.next, key), w.fixed[k], ResultOf(w.fixedResult, w.fixed[k].domain), sweep, now)
  {
    var st1 := SweepFixed(st, w.fixed, w.fixedResult, sweep, now);
    FixedSeen(st, w.fixed, w.fixedResult, sweep, now, k, key);
    MembersLeaveFixed(tab, st1, DueDynamic(tab, w.top, st1.next, now), w.result, sweep, now, w.fixed[k].domain);
  }

  /** A domain that is due and resolves is put off by its interval, or by the sweep period in whole seconds. */
  ghost predicate PutOff(next: Option<int>, next': Option<int>, f: Fixed, res: Result, sweep: int, now: int) {
    if (next.None? || next.value <= now) && res.Answered? then
      && next'.Some?
      && (f.interval.Some? && f.interval.value > 0 ==> next'.value == now + f.interval.value * 1_000_000_000)
      && (f.interval.None? || f.interval.value <= 0 ==>
            next'.value <= now + sweep < next'.value + 1_000_000_000 && (next'.value - now) % 1_000_000_000 == 0)
    else next' == next
  }

  lemma NextFixedPutsOff(next: Option<int>, f: Fixed, res: Result, sweep: int, now: int)
    requires sweep >= 0
    ensures PutOff(next, NextFixed(next, f, res, sweep, now), f, res, sweep, now)
  {
    WholeSeconds(sweep);
  }

  /**
   When a listed domain is next refreshed: a sweep that finds it due and resolves it puts it off by its own
   interval in seconds, or by the sweep period in whole seconds if it has none; a sweep that fails leaves
   it due, and one that comes too early leaves it alone.
   */
  lemma FixedLaws(tab: TypeTable, st: Schedule, w: Sweep, sweep: int, now: int, k: nat, key: string)
    requires WellFormed(tab) && OnlyAt(w.fixed, k, key) && sweep >= 0
    ensures PutOff(Get(st.next, key), Get(RunSweep(tab, st, w, sweep, now).next, key),
                   w.fixed[k], ResultOf(w.fixedResult, w.fixed[k].domain), sweep, now)
  {
    FixedNext(tab, st, w, sweep, now, k, key);
    NextFixedPutsOff(Get(st.next, key), w.fixed[k], ResultOf(w.fixedResult, w.fixed[k].domain), sweep, now);
  }

  lemma WholeSeconds(sweep: int)
    requires sweep >= 0
    ensures var d := sweep / SECOND * SECOND; d <= sweep < d + SECOND && d % SECOND == 0
  {
  }

  /** A listed refresh writes the domain's own cache entry, unless a ranked refresh does so again. */
  lemma FixedWrites(st: Schedule, f: Fixed, res: Result, sweep: int, now: int)
    ensures var st' := RefreshFixed(st, f, res, sweep, now);
            var key := CacheKey(Canonical(f.domain), 1);
            if res.Answered? && res.ttl > 0 && !(FixedKey(f.domain) in st.next && now < st.next[FixedKey(f.domain)])
            then st'.cache == st.cache[key := now + res.ttl] else st'.cache == st.cache
  {
  }

  /** What an event is to one member. */
  datatype Sight = Seen(ranked: bool, res: Result) | Written(ttl: int, at: int)

  function StepSight(e: Entry, x: Sight, sweep: int, now: int): Entry {
    match x
    case Seen(ranked, res) => Refresh(e, ranked, res, sweep, now)
    case Written(ttl, at) => Write(e, ttl, at)
  }

  function SightOf(tab: TypeTable, e: Event, member: string): Sight
    requires ParseMember(tab, member).Some?
  {
    match e
    case Swept(w) => Seen(member in w.top, ResultOf(w.result, member))
    case Stored(name, qtype, ttl, at) =>
      Written(if CacheKey(name, qtype) == MemberKey(tab, member) then ttl else 0, at)
  }

  function SightsOf(tab: TypeTable, evs: seq<Event>, member: string): (r: seq<Sight>)
    requires ParseMember(tab, member).Some?
    ensures |r| == |evs| && forall k :: 0 <= k < |r| ==> r[k] == SightOf(tab, evs[k], member)
  {
    seq(|evs|, k requires 0 <= k < |evs| => SightOf(tab, evs[k], member))
  }

  function SeenCount(xs: seq<Sight>): nat {
    if xs == [] then 0 else SeenCount(xs[..|xs| - 1]) + if xs[|xs| - 1].Seen? then 1 else 0
  }

  function RunSights(xs: seq<Sight>, sweep: int): Entry {
    if xs == [] then
      Entry(None, None)
    else
      var n := |xs| - 1;
      StepSight(RunSights(xs[..n], sweep), xs[n], sweep, SeenCount(xs[..n]) * sweep)
  }

  ghost predicate NotPinned(tab: TypeTable, e: Event, member: string)
    requires ParseMember(tab, member).Some?
  {
    e.Swept? ==> Distinct(e.w.top) && forall i :: 0 <= i < |e.w.fixed| ==> !Pins(tab, e.w.fixed[i].domain, member)
  }

  lemma StepSeenByMember(tab: TypeTable, st: Schedule, e: Event, sweep: int, now: int, member: string)
    requires Ranks(tab, member) && NotPinned(tab, e, member)
    ensures EntryOf(tab, StepEvent(tab, st, e, sweep, now), member)
            == StepSight(EntryOf(tab, st, member), SightOf(tab, e, member), sweep, now)
  {
    if e.Swept? {
      OneSweep(tab, st, e.w, sweep, now, member);
    }
  }

  lemma SightsStep(tab: TypeTable, evs: seq<Event>, sweep: int, member: string)
    requires ParseMember(tab, member).Some? && evs != []
    ensures var n := |evs| - 1;
            var xs, xs' := SightsOf(tab, evs[..n], member), SightsOf(tab, evs, member);
            && RunSights(xs', sweep) == StepSight(RunSights(xs, sweep), SightOf(tab, evs[n], member), sweep, SeenCount(xs) * sweep)
            && SeenCount(xs') == SeenCount(xs) + if evs[n].Swept? then 1 else 0
  {
    var n := |evs| - 1;
    assert SightsOf(tab, evs, member)[..n] == SightsOf(tab, evs[..n], member);
  }

  /** The shared schedule, projected to a member that no fixed domain pins, is that member's own recurrence. */
  lemma {:induction false} RunSeenByMember(tab: TypeTable, evs: seq<Event>, sweep: int, member: string)
    requires Ranks(tab, member)
    requires forall k :: 0 <= k < |evs| ==> NotPinned(tab, evs[k], member)
    ensures EntryOf(tab, RunEvents(tab, evs, sweep), member) == RunSights(SightsOf(tab, evs, member), sweep)
    ensures SweepCount(evs) == SeenCount(SightsOf(tab, evs, member))
  {
    if evs != [] {
      var n := |evs| - 1;
      RunSeenByMember(tab, evs[..n], sweep, member);
      SightsStep(tab, evs, sweep, member);
      StepSeenByMember(tab, RunEvents(tab, evs[..n], sweep), evs[n], sweep, SweepCount(evs[..n]) * sweep, member);
    }
  }

  // ---------------------------------------------------------------------------
  // Which sweep comes first
  // ---------------------------------------------------------------------------

  /** The number of the first sweep at or after an instant. */
  function DueAt(t: int, sweep: int): int
    requires sweep > 0
  {
    (t + sweep - 1) / sweep
  }

  lemma MulMonotone(a: int, b: int, c: int)
    requires a <= b && c > 0
    ensures a * c <= b * c
  {
  }

  lemma DueBounds(t: int, sweep: int)
    requires sweep > 0
    ensures (DueAt(t, sweep) - 1) * sweep < t <= DueAt(t, sweep) * sweep
  {
    var x := t + sweep - 1;
    assert x == (x / sweep) * sweep + x % sweep;
  }

  lemma DueIff(t: int, k: int, sweep: int)
    requires sweep > 0
    ensures DueAt(t, sweep) <= k <==> t <= k * sweep
  {
    DueBounds(t, sweep);
    if DueAt(t, sweep) <= k {
      MulMonotone(DueAt(t, sweep), k, sweep);
    } else {
      MulMonotone(k, DueAt(t, sweep) - 1, sweep);
    }
  }

  lemma Spread(a: int, b: int, c: int)
    ensures (a + b) * c == a * c + b * c
  {
  }

  /** Counting from sweep c instead of sweep 0. */
  lemma DueShift(c: int, x: int, sweep: int)
    requires sweep > 0
    ensures DueAt(c * sweep + x, sweep) == c + DueAt(x, sweep)
  {
    var d, d' := DueAt(x, sweep), DueAt(c * sweep + x, sweep);
    Spread(c, d, sweep);
    DueIff(x, d, sweep);
    DueIff(c * sweep + x, c + d, sweep);
    Spread(c, d' - c, sweep);
    DueIff(c * sweep + x, d', sweep);
    DueIff(x, d' - c, sweep);
  }

  /** The number of sweeps from a refresh with this lifetime to the next. */
  function Period(ttl: int, sweep: int): int
    requires sweep > 0
  {
    DueAt(NextDelay(ttl, sweep), sweep)
  }

  /** The delay is 80% of the lifetime wherever neither the sweep period nor the hour binds. */
  lemma DelayBounds(ttl: int, sweep: int)
    requires ttl > 0
    ensures var d := NextDelay(ttl, sweep);
            && d <= HOUR
            && (sweep <= HOUR ==> d >= sweep)
            && (sweep < d ==> 5 * d <= 4 * ttl)
            && (d < HOUR ==> 4 * ttl < 5 * d + 5)
  {
  }

  /** An answer that is not cached is tried again at the next sweep, and a long sweep period gives an hour. */
  lemma DelayExtremes(ttl: int, sweep: int)
    ensures ttl <= 0 ==> NextDelay(ttl, sweep) == sweep
    ensures ttl > 0 && sweep >= HOUR ==> NextDelay(ttl, sweep) == 3600 * 1_000_000_000
  {
  }

  /** The delay is less than a sweep exactly when the hour cap undercuts the sweep period. */
  lemma DelayBelowSweepIff(ttl: int, sweep: int)
    ensures NextDelay(ttl, sweep) < sweep <==> ttl > 0 && sweep > HOUR
  {
  }

  lemma PeriodBounds(ttl: int, sweep: int)
    requires sweep > 0 && ttl > 0
    ensures 1 <= Period(ttl, sweep)
    ensures (Period(ttl, sweep) - 1) * sweep < NextDelay(ttl, sweep) <= Period(ttl, sweep) * sweep
  {
    var d := NextDelay(ttl, sweep);
    DueBounds(d, sweep);
    DueIff(d, 0, sweep);
  }

  /** A longer lifetime is never refreshed sooner. */
  lemma PeriodMonotone(ttl: int, most: int, sweep: int)
    requires sweep > 0 && 0 < ttl <= most
    ensures Period(ttl, sweep) <= Period(most, sweep)
  {
    assert NextDelay(ttl, sweep) <= NextDelay(most, sweep);
    DueBounds(NextDelay(most, sweep), sweep);
    DueIff(NextDelay(ttl, sweep), Period(most, sweep), sweep);
  }

  /** The lifetime reaches beyond the sweep at which its own refresh is due. */
  predicate Outlasting(ttl: int, sweep: int)
    requires sweep > 0
  {
    Period(ttl, sweep) * sweep < ttl
  }

  /** Four sweeps, or the longest period if that is shorter: the lifetimes above it outlast their period. */
  function Threshold(most: int, sweep: int): int
    requires sweep > 0
  {
    if Period(most, sweep) < 4 then Period(most, sweep) * sweep else 4 * sweep
  }

  /** The arithmetic of a delay longer than four sweeps. */
  lemma FourFifths(p: int, d: int, ttl: int, sweep: int, product: int)
    requires p >= 5 && sweep > 0 && product == (p - 1) * sweep
    requires product < d && 5 * d <= 4 * ttl
    ensures p * sweep < ttl
  {
    MulMonotone(4, p - 1, sweep);
    Spread(p - 1, 1, sweep);
  }

  /** A refresh with a lifetime above the threshold comes again before the entry expires. */
  lemma OutlastsPeriod(ttl: int, most: int, sweep: int)
    requires sweep > 0 && Threshold(most, sweep) < ttl <= most && most > 0
    ensures Outlasting(ttl, sweep) && ttl > sweep
  {
    PeriodBounds(most, sweep);
    MulMonotone(1, Period(most, sweep), sweep);
    var p, d := Period(ttl, sweep), NextDelay(ttl, sweep);
    PeriodBounds(ttl, sweep);
    PeriodMonotone(ttl, most, sweep);
    DelayBounds(ttl, sweep);
    if Period(most, sweep) < 4 {
      MulMonotone(p, Period(most, sweep), sweep);
    } else if p <= 4 {
      MulMonotone(p, 4, sweep);
    } else {
      MulMonotone(4, p - 1, sweep);
      FourFifths(p, d, ttl, sweep, (p - 1) * sweep);
    }
  }

  // ---------------------------------------------------------------------------
  // No lapse
  // ---------------------------------------------------------------------------

  /** The lifetimes at issue: the ceiling of Server.cache is the most, and records may ask for less. */
  datatype Lifetimes = Lifetimes(least: int, most: int) {

    predicate Has(ttl: int) { least <= ttl <= most }

    /** The most sweeps from one refresh to the next. */
    function Longest(sweep: int): int
      requires sweep > 0
    {
      Period(most, sweep)
    }
  }

  /** Every answer for the member's cache key has a lifetime at issue, and stores fall between their sweeps. */
  ghost predicate Regular(tab: TypeTable, e: Event, sweep: int, lives: Lifetimes, member: string, count: nat)
    requires ParseMember(tab, member).Some?
  {
    match e
    case Swept(w) =>
      && Distinct(w.top)
      && (ResultOf(w.result, member).Answered? ==> lives.Has(ResultOf(w.result, member).ttl))
      && (forall i :: 0 <= i < |w.fixed| && Pins(tab, w.fixed[i].domain, member) ==>
            ResultOf(w.fixedResult, w.fixed[i].domain).Answered? ==>
              lives.Has(ResultOf(w.fixedResult, w.fixed[i].domain).ttl))
    case Stored(name, qtype, ttl, at) =>
      CacheKey(name, qtype) == MemberKey(tab, member) ==>
        lives.Has(ttl) && (count - 1) * sweep <= at <= count * sweep
  }

  ghost predicate RegularRun(tab: TypeTable, evs: seq<Event>, sweep: int, lives: Lifetimes, member: string)
    requires ParseMember(tab, member).Some?
  {
    evs != [] ==>
      var n := |evs| - 1;
      && RegularRun(tab, evs[..n], sweep, lives, member)
      && Regular(tab, evs[n], sweep, lives, member, SweepCount(evs[..n]))
  }

  /** Every answer that reschedules the member outlasts the period it is given. */
  ghost predicate OutlastingRun(evs: seq<Event>, sweep: int, member: string)
    requires sweep > 0
  {
    evs != [] ==>
      var n := |evs| - 1;
      OutlastingRun(evs[..n], sweep, member) && OutlastingEvent(evs[n], sweep, member)
  }

  predicate OutlastingEvent(e: Event, sweep: int, member: string)
    requires sweep > 0
  {
    e.Swept? && ResultOf(e.w.result, member).Answered? ==> Outlasting(ResultOf(e.w.result, member).ttl, sweep)
  }

  /** The entry outlasts the sweep at which the member is next due. */
  predicate Covered(e: Entry, count: int, sweep: int, lives: Lifetimes)
    requires sweep > 0
  {
    e.next.Some? ==>
      var due := DueAt(e.next.value, sweep);
      && due <= count - 1 + lives.Longest(sweep)
      && (due > count ==> e.expire.Some? && e.expire.value > due * sweep)
  }

  /** Writes from outside the schedule must not undercut it. */
  ghost predicate Gentle(tab: TypeTable, st: Schedule, e: Event, sweep: int, lives: Lifetimes, member: string, count: nat)
    requires ParseMember(tab, member).Some? && sweep > 0
  {
    match e
    case Swept(w) => NotPinned(tab, e, member) || sweep + lives.least > lives.Longest(sweep) * sweep
    case Stored(name, qtype, _, _) =>
      || CacheKey(name, qtype) != MemberKey(tab, member)
      || lives.least > lives.Longest(sweep) * sweep
      || Covered(EntryOf(tab, StepEvent(tab, st, e, sweep, count * sweep), member), count, sweep, lives)
  }

  ghost predicate GentleRun(tab: TypeTable, evs: seq<Event>, sweep: int, lives: Lifetimes, member: string)
    requires ParseMember(tab, member).Some? && sweep > 0
  {
    evs != [] ==>
      var n := |evs| - 1;
      && GentleRun(tab, evs[..n], sweep, lives, member)
      && Gentle(tab, RunEvents(tab, evs[..n], sweep), evs[n], sweep, lives, member, SweepCount(evs[..n]))
  }

  /** A write that leaves at least this much is beyond the sweep at which the member is due. */
  lemma WriteCovers(e: Entry, ttl: int, at: int, count: int, sweep: int, lives: Lifetimes)
    requires sweep > 0 && Covered(e, count, sweep, lives) && ttl > 0
    requires at + ttl > (count - 1) * sweep + lives.Longest(sweep) * sweep
    ensures Covered(Write(e, ttl, at), count, sweep, lives)
  {
    if e.next.Some? {
      var due := DueAt(e.next.value, sweep);
      MulMonotone(due, count - 1 + lives.Longest(sweep), sweep);
      Spread(count - 1, lives.Longest(sweep), sweep);
    }
  }

  /** The lifetime that the fixed part of a sweep gave to the member's entry, if it wrote it. */
  lemma FixedLife(tab: TypeTable, w: Sweep, sweep: int, lives: Lifetimes, member: string, count: nat, e: Entry, e': Entry) returns (ttl: int)
    requires ParseMember(tab, member).Some? && Regular(tab, Swept(w), sweep, lives, member, count)
    requires FixedMoves(tab, w.fixed, w.fixedResult, count * sweep, member, e, e') && e' != e
    ensures !NotPinned(tab, Swept(w), member) && lives.Has(ttl) && e' == Write(e, ttl, count * sweep)
  {
    var i :| 0 <= i < |w.fixed| && Pins(tab, w.fixed[i].domain, member)
             && ResultOf(w.fixedResult, w.fixed[i].domain).Answered?
             && e' == Write(e, ResultOf(w.fixedResult, w.fixed[i].domain).ttl, count * sweep);
    ttl := ResultOf(w.fixedResult, w.fixed[i].domain).ttl;
  }

  lemma LongWriteCovers(e: Entry, ttl: int, sweep: int, lives: Lifetimes, count: nat)
    requires sweep > 0 && sweep < lives.least <= lives.most && Covered(e, count, sweep, lives) && lives.Has(ttl)
    requires sweep + lives.least > lives.Longest(sweep) * sweep
    ensures Covered(Write(e, ttl, count * sweep), count, sweep, lives)
  {
    PeriodBounds(lives.most, sweep);
    Spread(count - 1, 1, sweep);
    WriteCovers(e, ttl, count * sweep, count, sweep, lives);
  }

  lemma FixedCovers(tab: TypeTable, w: Sweep, sweep: int, lives: Lifetimes, member: string, count: nat, e: Entry, e': Entry)
    requires ParseMember(tab, member).Some? && sweep > 0 && sweep < lives.least <= lives.most
    requires Covered(e, count, sweep, lives) && Regular(tab, Swept(w), sweep, lives, member, count)
    requires NotPinned(tab, Swept(w), member) || sweep + lives.least > lives.Longest(sweep) * sweep
    requires FixedMoves(tab, w.fixed, w.fixedResult, count * sweep, member, e, e')
    ensures Covered(e', count, sweep, lives) && e'.next == e.next
  {
    if e' != e {
      var ttl := FixedLife(tab, w, sweep, lives, member, count, e, e');
      LongWriteCovers(e, ttl, sweep, lives, count);
    }
  }

  /** The dynamic part of sweep `count` keeps the entry covered; if it kept the member up, to the next sweep. */
  lemma RefreshCovers(e: Entry, ranked: bool, res: Result, sweep: int, lives: Lifetimes, count: nat)
    requires sweep > 0 && sweep < lives.least <= lives.most && Covered(e, count, sweep, lives)
    requires res.Answered? ==> lives.Has(res.ttl) && Outlasting(res.ttl, sweep)
    ensures var e' := Refresh(e, ranked, res, sweep, count * sweep);
            && Covered(e', count + 1, sweep, lives)
            && (Waits(e, count * sweep) || (ranked && res.Answered?) ==>
                  e'.expire.Some? && e'.expire.value > (count + 1) * sweep)
  {
    var now := count * sweep;
    PeriodBounds(lives.most, sweep);
    if e.next.Some? {
      DueIff(e.next.value, count, sweep);
    }
    if Waits(e, now) {
      MulMonotone(count + 1, DueAt(e.next.value, sweep), sweep);
    } else if ranked && res.Failed? {
      DueShift(count, sweep, sweep);
      DueIff(sweep, 1, sweep);
    } else if ranked && res.Answered? {
      DueShift(count, NextDelay(res.ttl, sweep), sweep);
      PeriodBounds(res.ttl, sweep);
      PeriodMonotone(res.ttl, lives.most, sweep);
      Spread(count, Period(res.ttl, sweep), sweep);
      MulMonotone(count + 1, count + Period(res.ttl, sweep), sweep);
    }
  }

  lemma SweepKeepsCover(tab: TypeTable, st: Schedule, w: Sweep, sweep: int, lives: Lifetimes, member: string, count: nat)
    requires Ranks(tab, member) && sweep > 0 && sweep < lives.least <= lives.most
    requires Covered(EntryOf(tab, st, member), count, sweep, lives)
    requires Regular(tab, Swept(w), sweep, lives, member, count) && Gentle(tab, st, Swept(w), sweep, lives, member, count)
    requires OutlastingEvent(Swept(w), sweep, member)
    ensures var e, e' := EntryOf(tab, st, member), EntryOf(tab, RunSweep(tab, st, w, sweep, count * sweep), member);
            && Covered(e', count + 1, sweep, lives)
            && (Waits(e, count * sweep) || (member in w.top && ResultOf(w.result, member).Answered?) ==>
                  e'.expire.Some? && e'.expire.value > (count + 1) * sweep)
  {
    OneSweep(tab, st, w, sweep, count * sweep, member);
    var e1 := AfterFixed(tab, st, w, sweep, count * sweep, member);
    FixedCovers(tab, w, sweep, lives, member, count, EntryOf(tab, st, member), e1);
    RefreshCovers(e1, member in w.top, ResultOf(w.result, member), sweep, lives, count);
  }

  lemma StoreKeepsCover(tab: TypeTable, st: Schedule, e: Event, sweep: int, lives: Lifetimes, member: string, count: nat)
    requires ParseMember(tab, member).Some? && e.Stored? && sweep > 0 && sweep < lives.least <= lives.most
    requires Covered(EntryOf(tab, st, member), count, sweep, lives)
    requires Regular(tab, e, sweep, lives, member, count) && Gentle(tab, st, e, sweep, lives, member, count)
    ensures var x, x' := EntryOf(tab, st, member), EntryOf(tab, StepEvent(tab, st, e, sweep, count * sweep), member);
            && Covered(x', count, sweep, lives)
            && (x' == x || (x'.expire.Some? && x'.expire.value > count * sweep))
  {
    PeriodBounds(lives.most, sweep);
    if CacheKey(e.name, e.qtype) == MemberKey(tab, member) {
      Spread(count - 1, 1, sweep);
      if lives.least > lives.Longest(sweep) * sweep {
        WriteCovers(EntryOf(tab, st, member), e.ttl, e.at, count, sweep, lives);
      }
    }
  }

  /** The entry is live at the sweep of this number. */
  predicate LiveAt(e: Entry, count: int, sweep: int) { e.expire.Some? && e.expire.value > count * sweep }

  /** The sweep finds the member not yet due, or ranks it and resolves it. */
  predicate KeepsUp(tab: TypeTable, st: Schedule, w: Sweep, now: int, member: string)
    requires ParseMember(tab, member).Some?
  {
    || Waits(EntryOf(tab, st, member), now)
    || (member in w.top && ResultOf(w.result, member).Answered?)
  }

  /** The last sweep of the run kept the member up. */
  ghost predicate KeptUp(tab: TypeTable, evs: seq<Event>, sweep: int, member: string)
    requires ParseMember(tab, member).Some?
  {
    evs != [] &&
    var n := |evs| - 1;
    match evs[n]
    case Swept(w) => KeepsUp(tab, RunEvents(tab, evs[..n], sweep), w, SweepCount(evs[..n]) * sweep, member)
    case Stored(_, _, _, _) => KeptUp(tab, evs[..n], sweep, member)
  }

  /** The member's entry is live at the next sweep. */
  predicate Warm(tab: TypeTable, evs: seq<Event>, sweep: int, member: string)
    requires ParseMember(tab, member).Some?
  {
    LiveAt(EntryOf(tab, RunEvents(tab, evs, sweep), member), SweepCount(evs), sweep)
  }

  lemma EventKeepsCover(tab: TypeTable, st: Schedule, e: Event, sweep: int, lives: Lifetimes, member: string, count: nat)
    requires Ranks(tab, member) && sweep > 0 && sweep < lives.least <= lives.most
    requires Covered(EntryOf(tab, st, member), count, sweep, lives)
    requires Regular(tab, e, sweep, lives, member, count) && Gentle(tab, st, e, sweep, lives, member, count)
    requires OutlastingEvent(e, sweep, member)
    ensures var x, x' := EntryOf(tab, st, member), EntryOf(tab, StepEvent(tab, st, e, sweep, count * sweep), member);
            var count' := if e.Swept? then count + 1 else count;
            && Covered(x', count', sweep, lives)
            && ((if e.Swept? then KeepsUp(tab, st, e.w, count * sweep, member) else LiveAt(x, count, sweep)) ==>
                  LiveAt(x', count', sweep))
  {
    match e
    case Swept(w) => SweepKeepsCover(tab, st, w, sweep, lives, member, count);
    case Stored(_, _, _, _) => StoreKeepsCover(tab, st, e, sweep, lives, member, count);
  }

  /** The entry is covered and, if the member was kept up, live at the next sweep. */
  ghost predicate Sound(tab: TypeTable, evs: seq<Event>, sweep: int, lives: Lifetimes, member: string)
    requires ParseMember(tab, member).Some? && sweep > 0
  {
    && Covered(EntryOf(tab, RunEvents(tab, evs, sweep), member), SweepCount(evs), sweep, lives)
    && (KeptUp(tab, evs, sweep, member) ==> Warm(tab, evs, sweep, member))
  }

  /** What the last event of a run makes of its parts. */
  lemma LastEvent(tab: TypeTable, evs: seq<Event>, sweep: int, member: string)
    requires ParseMember(tab, member).Some? && evs != []
    ensures var init, e := evs[..|evs| - 1], evs[|evs| - 1];
            var st, count := RunEvents(tab, init, sweep), SweepCount(init);
            && RunEvents(tab, evs, sweep) == StepEvent(tab, st, e, sweep, count * sweep)
            && SweepCount(evs) == (if e.Swept? then count + 1 else count)
            && (KeptUp(tab, evs, sweep, member) <==>
                  if e.Swept? then KeepsUp(tab, st, e.w, count * sweep, member) else KeptUp(tab, init, sweep, member))
  {
  }

  /** A run in which the lifetimes are at issue, outside writes are gentle and refreshes outlast their period. */
  ghost predicate GoodRun(tab: TypeTable, evs: seq<Event>, sweep: int, lives: Lifetimes, member: string)
    requires ParseMember(tab, member).Some? && sweep > 0
  {
    && RegularRun(tab, evs, sweep, lives, member) && GentleRun(tab, evs, sweep, lives, member)
    && OutlastingRun(evs, sweep, member)
  }

  lemma GoodParts(tab: TypeTable, evs: seq<Event>, sweep: int, lives: Lifetimes, member: string)
    requires ParseMember(tab, member).Some? && sweep > 0 && evs != [] && GoodRun(tab, evs, sweep, lives, member)
    ensures var init, e := evs[..|evs| - 1], evs[|evs| - 1];
            && GoodRun(tab, init, sweep, lives, member)
            && Regular(tab, e, sweep, lives, member, SweepCount(init))
            && Gentle(tab, RunEvents(tab, init, sweep), e, sweep, lives, member, SweepCount(init))
            && OutlastingEvent(e, sweep, member)
  {
  }

  lemma SoundStep(tab: TypeTable, evs: seq<Event>, sweep: int, lives: Lifetimes, member: string)
    requires Ranks(tab, member) && sweep > 0 && sweep < lives.least <= lives.most && evs != []
    requires GoodRun(tab, evs, sweep, lives, member) && Sound(tab, evs[..|evs| - 1], sweep, lives, member)
    ensures Sound(tab, evs, sweep, lives, member)
  {
    var init, e := evs[..|evs| - 1], evs[|evs| - 1];
    GoodParts(tab, evs, sweep, lives, member);
    EventKeepsCover(tab, RunEvents(tab, init, sweep), e, sweep, lives, member, SweepCount(init));
    LastEvent(tab, evs, sweep, member);
  }

  lemma {:induction false} ReachableCover(tab: TypeTable, evs: seq<Event>, sweep: int, lives: Lifetimes, member: string)
    requires Ranks(tab, member) && sweep > 0 && sweep < lives.least <= lives.most
    requires RegularRun(tab, evs, sweep, lives, member) && GentleRun(tab, evs, sweep, lives, member)
    requires OutlastingRun(evs, sweep, member)
    ensures Sound(tab, evs, sweep, lives, member)
  {
    if evs != [] {
      GoodParts(tab, evs, sweep, lives, member);
      ReachableCover(tab, evs[..|evs| - 1], sweep, lives, member);
      SoundStep(tab, evs, sweep, lives, member);
    }
  }

  /**
   A hot name does not lapse. Take any run of sweeps and of answers stored by request handlers, in which
   the name may come and go in the ranking and fail to resolve, whose answers outlast the periods they
   are given, and whose outside writes do not undercut the schedule. After any sweep that found the name
   not yet due, or that ranked and resolved it, its entry is live until the next sweep.
   */
  lemma HotNameNeverLapses(tab: TypeTable, evs: seq<Event>, sweep: int, lives: Lifetimes, member: string)
    requires Ranks(tab, member) && sweep > 0 && sweep < lives.least <= lives.most
    requires RegularRun(tab, evs, sweep, lives, member) && GentleRun(tab, evs, sweep, lives, member)
    requires OutlastingRun(evs, sweep, member) && KeptUp(tab, evs, sweep, member)
    ensures var cache := RunEvents(tab, evs, sweep).cache;
            MemberKey(tab, member) in cache && cache[MemberKey(tab, member)] > SweepCount(evs) * sweep
  {
    ReachableCover(tab, evs, sweep, lives, member);
  }

  lemma {:induction false} LongLivesOutlast(tab: TypeTable, evs: seq<Event>, sweep: int, lives: Lifetimes, member: string)
    requires ParseMember(tab, member).Some? && sweep > 0 && Threshold(lives.most, sweep) < lives.least <= lives.most && lives.most > 0
    requires RegularRun(tab, evs, sweep, lives, member)
    ensures OutlastingRun(evs, sweep, member)
  {
    if evs != [] {
      var n := |evs| - 1;
      LongLivesOutlast(tab, evs[..n], sweep, lives, member);
      if evs[n].Swept? && ResultOf(evs[n].w.result, member).Answered? {
        OutlastsPeriod(ResultOf(evs[n].w.result, member).ttl, lives.most, sweep);
      }
    }
  }
}
