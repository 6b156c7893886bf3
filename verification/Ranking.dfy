/**
 The decaying query ranking of internal/server/stats.go: a sorted set of members whose scores are
 incremented by flushed counts and multiplied, pruned and trimmed by every sweep. The three commands of
 a sweep travel in one pipeline without a transaction, so counts may be flushed between them.
 */
module Ranking {

  type Scores = map<string, real>

  const PRUNE_BELOW := 0.5
  const MAX_MEMBERS := 10000

  function Score(s: Scores, m: string): real { if m in s then s[m] else 0.0 }

  // ---------------------------------------------------------------------------
  // Counting
  // ---------------------------------------------------------------------------

  /** A flush: ZINCRBY 1 for every member of the batch, in order. */
  function IncrAll(s: Scores, batch: seq<string>): Scores {
    if batch == [] then
      s
    else
      var s1 := IncrAll(s, batch[..|batch| - 1]);
      var m := batch[|batch| - 1];
      s1[m := Score(s1, m) + 1.0]
  }

  /** A flush adds to each member's score the number of its occurrences in the batch. */
  lemma {:induction false} FlushAddsCounts(s: Scores, batch: seq<string>, m: string)
    ensures Score(IncrAll(s, batch), m) == Score(s, m) + multiset(batch)[m] as real
    ensures m in IncrAll(s, batch) <==> m in s || m in batch
  {
    if batch != [] {
      var n := |batch| - 1;
      FlushAddsCounts(s, batch[..n], m);
      assert batch == batch[..n] + [batch[n]];
    }
  }

  // ---------------------------------------------------------------------------
  // Decay
  // ---------------------------------------------------------------------------

  /** The weight a sweep gives: multiplication by the decay factor. */
  function Times(f: real): real -> real { (x: real) => x * f }

  /** ZUNIONSTORE with a weight. */
  function Weighted(s: Scores, w: real -> real): Scores { map m | m in s :: w(s[m]) }

  function Pruned(s: Scores): Scores { map m | m in s && s[m] > PRUNE_BELOW :: s[m] }

  /** Redis orders members of equal score lexicographically. */
  predicate Lex(a: string, b: string) {
    b != [] && (a == [] || a[0] < b[0] || (a[0] == b[0] && Lex(a[1..], b[1..])))
  }

  /** `a` ranks above `b`. */
  predicate Above(s: Scores, a: string, b: string)
    requires a in s && b in s
  {
    s[b] < s[a] || (s[b] == s[a] && Lex(b, a))
  }

  function Superiors(s: Scores, m: string): set<string>
    requires m in s
  {
    set x | x in s && Above(s, x, m)
  }

  /** ZREMRANGEBYRANK 0 -(cap+1): only the `cap` highest-ranked members stay. */
  function Trimmed(s: Scores, cap: nat): Scores {
    map m | m in s && |Superiors(s, m)| < cap :: s[m]
  }

  /** What a sweep leaves before its trim, when `mid` is flushed before the pruning and `late` after it. */
  function Untrimmed(s: Scores, w: real -> real, mid: seq<string>, late: seq<string>): Scores {
    IncrAll(Pruned(IncrAll(Weighted(s, w), mid)), late)
  }

  function DecayedBy(s: Scores, w: real -> real, mid: seq<string>, late: seq<string>): Scores {
    Trimmed(Untrimmed(s, w, mid, late), MAX_MEMBERS)
  }

  // The rank order is a strict total order.

  lemma {:induction false} LexTotal(a: string, b: string)
    ensures a == b || Lex(a, b) || Lex(b, a)
    ensures !(Lex(a, b) && Lex(b, a))
  {
    if a != [] && b != [] && a[0] == b[0] {
      LexTotal(a[1..], b[1..]);
      assert a == [a[0]] + a[1..] && b == [b[0]] + b[1..];
    }
  }

  lemma {:induction false} LexTransitive(a: string, b: string, c: string)
    requires Lex(a, b) && Lex(b, c)
    ensures Lex(a, c)
  {
    if a != [] && a[0] == b[0] && b[0] == c[0] {
      LexTransitive(a[1..], b[1..], c[1..]);
    }
  }

  lemma AboveTotal(s: Scores, a: string, b: string)
    requires a in s && b in s
    ensures a == b || Above(s, a, b) || Above(s, b, a)
    ensures !(Above(s, a, b) && Above(s, b, a))
  {
    LexTotal(a, b);
  }

  lemma AboveTransitive(s: Scores, a: string, b: string, c: string)
    requires a in s && b in s && c in s && Above(s, a, b) && Above(s, b, c)
    ensures Above(s, a, c)
  {
    if s[a] == s[b] == s[c] {
      LexTransitive(c, b, a);
    }
  }

  /** A member that ranks below all the others. */
  predicate IsLowest(s: Scores, low: string) {
    low in s && forall x :: x in s && x != low ==> Above(s, x, low)
  }

  lemma LowestExists(s: Scores) returns (low: string)
    requires s != map[]
    ensures IsLowest(s, low)
    decreases |s|
  {
    low :| low in s;
    if s.Keys != {low} {
      var rest := s - {low};
      assert low !in rest && rest.Keys == s.Keys - {low};
      assert s.Keys - {low} != {};
      var l := LowestExists(rest);
      AboveTotal(s, low, l);
      if Above(s, l, low) {
        forall x | x in s && x != low ensures Above(s, x, low) {
          if x != l {
            assert Above(rest, x, l);
            AboveTransitive(s, x, l, low);
          }
        }
      } else {
        forall x | x in s && x != l ensures Above(s, x, l) {
          if x != low {
            assert Above(rest, x, l);
          }
        }
        low := l;
      }
    }
  }

  /** Removing the lowest of too many members does not change what trimming keeps. */
  lemma DropLowest(s: Scores, low: string, cap: nat)
    requires IsLowest(s, low) && |s| > cap
    ensures Trimmed(s - {low}, cap) == Trimmed(s, cap)
  {
    var r := s - {low};
    AboveTotal(s, low, low);
    assert Superiors(s, low) == s.Keys - {low};
    forall m | m in r ensures Superiors(r, m) == Superiors(s, m) {
      AboveTotal(s, low, m);
    }
  }

  lemma TrimOfFew(s: Scores, cap: nat)
    requires |s| <= cap
    ensures Trimmed(s, cap) == s
  {
    forall m | m in s ensures |Superiors(s, m)| < cap {
      AboveTotal(s, m, m);
      var sup := Superiors(s, m);
      assert m !in sup && sup <= s.Keys - {m};
      assert s.Keys - {m} == sup + (s.Keys - {m} - sup);
    }
  }

  /** At most `cap` members remain, and exactly `cap` when there were more. */
  lemma {:induction false} TrimSize(s: Scores, cap: nat)
    ensures |Trimmed(s, cap)| == if |s| <= cap then |s| else cap
    decreases |s|
  {
    if |s| <= cap {
      TrimOfFew(s, cap);
    } else {
      assert s != map[];
      var low := LowestExists(s);
      DropLowest(s, low, cap);
      assert (s - {low}).Keys == s.Keys - {low};
      assert |s - {low}| == |s| - 1;
      TrimSize(s - {low}, cap);
    }
  }

  lemma SuperiorsShrink(s: Scores, hi: string, lo: string)
    requires hi in s && lo in s && Above(s, hi, lo)
    ensures |Superiors(s, hi)| < |Superiors(s, lo)|
  {
    var a, b := Superiors(s, hi), Superiors(s, lo);
    forall x | x in a ensures x in b {
      AboveTransitive(s, x, hi, lo);
    }
    AboveTotal(s, hi, hi);
    assert hi in b - a;
    assert b == a + (b - a);
  }

  /** Two names differ first at a position, or one is a proper prefix of the other. */
  lemma {:induction false} LexExact(a: string, b: string)
    ensures Lex(a, b) <==>
            || (|a| < |b| && a == b[..|a|])
            || (exists i :: 0 <= i < |a| && i < |b| && a[..i] == b[..i] && a[i] < b[i])
  {
    if a != [] && b != [] {
      LexExact(a[1..], b[1..]);
      if a[0] == b[0] {
        LexTail(a, b);
      } else if a[0] < b[0] {
        assert a[..0] == b[..0];
      }
    }
  }

  /** Equal first letters leave the comparison to the rest. */
  lemma LexTail(a: string, b: string)
    requires a != [] && b != [] && a[0] == b[0]
    ensures (|a| < |b| && a == b[..|a|]) <==> (|a[1..]| < |b[1..]| && a[1..] == b[1..][..|a[1..]|])
    ensures (exists i :: 0 <= i < |a| && i < |b| && a[..i] == b[..i] && a[i] < b[i])
            <==> (exists i :: 0 <= i < |a[1..]| && i < |b[1..]| && a[1..][..i] == b[1..][..i] && a[1..][i] < b[1..][i])
  {
    var x, y := a[1..], b[1..];
    assert a == [a[0]] + x && b == [b[0]] + y;
    if |a| < |b| {
      assert b[..|a|] == [b[0]] + y[..|x|];
    }
    forall i | 0 <= i < |x| && i < |y| ensures a[..i + 1] == [a[0]] + x[..i] && b[..i + 1] == [b[0]] + y[..i] {}
    if i :| 0 <= i < |a| && i < |b| && a[..i] == b[..i] && a[i] < b[i] {
      assert i > 0;
      assert x[..i - 1] == a[..i][1..] && y[..i - 1] == b[..i][1..];
      assert x[i - 1] < y[i - 1];
    }
    if i :| 0 <= i < |x| && i < |y| && x[..i] == y[..i] && x[i] < y[i] {
      assert a[..i + 1] == b[..i + 1] && a[i + 1] < b[i + 1];
    }
  }

  /** Whoever is trimmed ranks below everyone who stays: by score, and by name where scores are equal. */
  lemma TrimKeepsTheBest(s: Scores, cap: nat, kept: string, gone: string)
    requires kept in Trimmed(s, cap) && gone in s && gone !in Trimmed(s, cap)
    ensures s[kept] >= s[gone] && (s[kept] == s[gone] ==> Lex(gone, kept))
  {
    AboveTotal(s, kept, gone);
    if Above(s, gone, kept) {
      SuperiorsShrink(s, gone, kept);
    }
  }

  /** The sorted set dns:count:q. */
  class RankStore {
    var scores: Scores

    constructor ()
      ensures scores == map[]
    {
      scores := map[];
    }

    method Flush(batch: seq<string>)
      modifies this
      ensures scores == IncrAll(old(scores), batch)
    {
      for i := 0 to |batch|
        invariant scores == IncrAll(old(scores), batch[..i])
      {
        assert batch[..i + 1][..i] == batch[..i];
        scores := scores[batch[i] := Score(scores, batch[i]) + 1.0];
      }
      assert batch[..|batch|] == batch;
    }

    /** Decay, with the counts that happen to be flushed between its three commands. */
    method Decay(f: real, mid: seq<string>, late: seq<string>)
      modifies this
      ensures f >= 1.0 || f <= 0.0 ==> scores == old(scores)
      ensures 0.0 < f < 1.0 ==> scores == DecayedBy(old(scores), Times(f), mid, late) && |scores| <= 10000
    {
      if f >= 1.0 || f <= 0.0 {
        return;
      }
      scores := map m | m in scores :: scores[m] * f;
      assert scores == Weighted(old(scores), Times(f));
      Flush(mid);
      scores := map m | m in scores && scores[m] > PRUNE_BELOW :: scores[m];
      Flush(late);
      TrimSize(scores, MAX_MEMBERS);
      scores := Trimmed(scores, MAX_MEMBERS);
    }
  }

  // ---------------------------------------------------------------------------
  // What a sweep does to scores, for any strictly increasing weight
  // ---------------------------------------------------------------------------

  ghost predicate Increasing(w: real -> real) {
    w(0.0) == 0.0 && forall x, y :: Raises(w, x, y)
  }

  predicate Raises(w: real -> real, x: real, y: real) { x < y ==> w(x) < w(y) }

  lemma TimesIncreasing(f: real)
    requires f > 0.0
    ensures Increasing(Times(f))
  {
    forall x: real, y: real ensures Raises(Times(f), x, y) {
      assert x < y ==> (y - x) * f > 0.0;
    }
  }

  function Count(batch: seq<string>, m: string): nat { multiset(batch)[m] }

  /** A score after a sweep: weighted and counted, pruned at the line, and counted again. */
  function AfterSweep(x: real, w: real -> real, mid: seq<string>, late: seq<string>, m: string): real {
    var y := w(x) + Count(mid, m) as real;
    (if y > PRUNE_BELOW then y else 0.0) + Count(late, m) as real
  }

  lemma UntrimmedScore(s: Scores, w: real -> real, mid: seq<string>, late: seq<string>, m: string)
    requires w(0.0) == 0.0
    ensures Score(Untrimmed(s, w, mid, late), m) == AfterSweep(Score(s, m), w, mid, late, m)
  {
    FlushAddsCounts(Weighted(s, w), mid, m);
    FlushAddsCounts(Pruned(IncrAll(Weighted(s, w), mid)), late, m);
  }

  /** Whoever is left after the pruning is above its line, and so is whoever is counted after it. */
  lemma UntrimmedAbove(s: Scores, w: real -> real, mid: seq<string>, late: seq<string>, m: string)
    requires w(0.0) == 0.0 && m in Untrimmed(s, w, mid, late)
    ensures Untrimmed(s, w, mid, late)[m] > PRUNE_BELOW
  {
    var p := Pruned(IncrAll(Weighted(s, w), mid));
    FlushAddsCounts(p, late, m);
    if m !in p {
      assert m in multiset(late);
    }
  }

  /** Survivors have their weighted and counted score, above the pruning line. */
  lemma DecayEffect(s: Scores, w: real -> real, mid: seq<string>, late: seq<string>, m: string)
    requires w(0.0) == 0.0 && m in DecayedBy(s, w, mid, late)
    ensures DecayedBy(s, w, mid, late)[m] == AfterSweep(Score(s, m), w, mid, late, m)
    ensures DecayedBy(s, w, mid, late)[m] > 0.5
    ensures m in s || m in mid || m in late
  {
    UntrimmedScore(s, w, mid, late, m);
    UntrimmedAbove(s, w, mid, late, m);
    FlushAddsCounts(Weighted(s, w), mid, m);
    FlushAddsCounts(Pruned(IncrAll(Weighted(s, w), mid)), late, m);
  }

  /** At most MAX_MEMBERS members survive a sweep. */
  lemma DecayCaps(s: Scores, w: real -> real, mid: seq<string>, late: seq<string>)
    ensures |DecayedBy(s, w, mid, late)| <= 10000
    ensures |Untrimmed(s, w, mid, late)| >= 10000 ==> |DecayedBy(s, w, mid, late)| == 10000
  {
    TrimSize(Untrimmed(s, w, mid, late), MAX_MEMBERS);
  }

  /** Survivors that are not counted meanwhile keep their order. */
  lemma DecayKeepsOrder(s: Scores, w: real -> real, mid: seq<string>, late: seq<string>, a: string, b: string)
    requires Increasing(w) && a in DecayedBy(s, w, mid, late) && b in DecayedBy(s, w, mid, late)
    requires a !in mid && a !in late && b !in mid && b !in late
    ensures a in s && b in s && (DecayedBy(s, w, mid, late)[a] < DecayedBy(s, w, mid, late)[b] <==> s[a] < s[b])
  {
    DecayEffect(s, w, mid, late, a);
    DecayEffect(s, w, mid, late, b);
    assert Raises(w, s[a], s[b]) && Raises(w, s[b], s[a]);
  }

  /** A sweep that has no need to trim keeps whoever stays above the pruning line. */
  lemma UntrimmedSurvives(s: Scores, w: real -> real, mid: seq<string>, late: seq<string>, m: string)
    requires |Untrimmed(s, w, mid, late)| <= MAX_MEMBERS && m in s && w(s[m]) > PRUNE_BELOW
    ensures m in DecayedBy(s, w, mid, late)
  {
    FlushAddsCounts(Weighted(s, w), mid, m);
    FlushAddsCounts(Pruned(IncrAll(Weighted(s, w), mid)), late, m);
    TrimOfFew(Untrimmed(s, w, mid, late), MAX_MEMBERS);
  }

  /** The counts flushed before a sweep and between its commands. */
  datatype Counts = Counts(before: seq<string>, mid: seq<string>, late: seq<string>) {

    predicate Has(m: string) { m in before || m in mid || m in late }
  }

  /** One round: counts, and then a sweep. */
  predicate Swept(s: Scores, b: Counts, w: real -> real, s': Scores) {
    s' == DecayedBy(IncrAll(s, b.before), w, b.mid, b.late)
  }

  /** The rankings before and after each sweep of a run. */
  ghost predicate IsRun(states: seq<Scores>, rounds: seq<Counts>, w: real -> real) {
    && |states| == |rounds| + 1
    && forall k :: 0 <= k < |rounds| ==> Swept(states[k], rounds[k], w, states[k + 1])
  }

  /** A member's score as the weighting leaves it: the sum over an interval is from one of these to the next. */
  function Weighed(s: Scores, b: Counts, w: real -> real, m: string): real {
    w(Score(s, m) + Count(b.before, m) as real)
  }

  lemma WeightMonotone(w: real -> real, x: real, y: real)
    requires Increasing(w) && x <= y
    ensures w(x) <= w(y)
  {
    assert Raises(w, x, y);
  }

  /** What a sweep leaves of a member is at most what the weighting left, and the counts since. */
  lemma SweptBelow(s: Scores, b: Counts, w: real -> real, s': Scores, m: string)
    requires Swept(s, b, w, s') && Increasing(w) && Score(s, m) >= 0.0
    ensures 0.0 <= Score(s', m) <= Weighed(s, b, w, m) + Count(b.mid, m) as real + Count(b.late, m) as real
    ensures m in s' ==> s'[m] > PRUNE_BELOW
  {
    FlushAddsCounts(s, b.before, m);
    WeightMonotone(w, 0.0, Score(s, m) + Count(b.before, m) as real);
    if m in s' {
      DecayEffect(IncrAll(s, b.before), w, b.mid, b.late, m);
    }
  }

  /** Whoever is there or counted stays, with at least the weight of what it had, if above the line. */
  lemma SweptAbove(s: Scores, b: Counts, w: real -> real, s': Scores, m: string, x: real)
    requires Swept(s, b, w, s') && Increasing(w)
    requires |Untrimmed(IncrAll(s, b.before), w, b.mid, b.late)| <= MAX_MEMBERS
    requires (m in s || m in b.before) && Score(s, m) + Count(b.before, m) as real >= x && w(x) > PRUNE_BELOW
    ensures m in s' && s'[m] >= w(x)
  {
    var t := IncrAll(s, b.before);
    FlushAddsCounts(s, b.before, m);
    WeightMonotone(w, x, t[m]);
    UntrimmedSurvives(t, w, b.mid, b.late, m);
    DecayEffect(t, w, b.mid, b.late, m);
  }

  // ---------------------------------------------------------------------------
  // One member's scores over a run
  // ---------------------------------------------------------------------------

  /** The counts of a member between two weightings: the end of one round and the start of the next. */
  function Between(rounds: seq<Counts>, k: nat, m: string): nat
    requires k < |rounds|
  {
    Count(rounds[k].before, m) + if k == 0 then 0 else Count(rounds[k - 1].mid, m) + Count(rounds[k - 1].late, m)
  }

  /** The score after k weightings of a member counted q times before each and never dropped. */
  function Steady(s0: real, q: real, w: real -> real, k: nat): real {
    if k == 0 then s0 else w(Steady(s0, q, w, k - 1) + q)
  }

  lemma {:induction false} ScoresNonNegative(states: seq<Scores>, rounds: seq<Counts>, w: real -> real, m: string, k: nat)
    requires IsRun(states, rounds, w) && Increasing(w) && Score(states[0], m) >= 0.0 && k < |states|
    ensures Score(states[k], m) >= 0.0
  {
    if k > 0 {
      ScoresNonNegative(states, rounds, w, m, k - 1);
      SweptBelow(states[k - 1], rounds[k - 1], w, states[k], m);
    }
  }

  /** From one weighting to the next a score gains no more than the counts in between. */
  lemma NextWeighed(s: Scores, b: Counts, s': Scores, b': Counts, w: real -> real, m: string, q: nat)
    requires Swept(s, b, w, s') && Increasing(w) && Score(s, m) >= 0.0
    requires Count(b'.before, m) + Count(b.mid, m) + Count(b.late, m) <= q
    ensures Weighed(s', b', w, m) <= w(Weighed(s, b, w, m) + q as real)
  {
    SweptBelow(s, b, w, s', m);
    var x, y, z := Count(b'.before, m) as real, Count(b.mid, m) as real, Count(b.late, m) as real;
    assert x + y + z <= q as real;
    WeightMonotone(w, Score(s', m) + x, Weighed(s, b, w, m) + q as real);
  }

  lemma FirstWeighed(s: Scores, b: Counts, w: real -> real, m: string, q: nat)
    requires Increasing(w) && Count(b.before, m) <= q
    ensures Weighed(s, b, w, m) <= w(Score(s, m) + q as real)
  {
    WeightMonotone(w, Score(s, m) + Count(b.before, m) as real, Score(s, m) + q as real);
  }

  lemma {:induction false} WeighedBelowSteady(states: seq<Scores>, rounds: seq<Counts>, w: real -> real, m: string, q: nat, k: nat)
    requires IsRun(states, rounds, w) && Increasing(w) && Score(states[0], m) >= 0.0 && k < |rounds|
    requires forall i: nat :: i < |rounds| ==> Between(rounds, i, m) <= q
    ensures Weighed(states[k], rounds[k], w, m) <= Steady(Score(states[0], m), q as real, w, k + 1)
  {
    assert Between(rounds, k, m) <= q;
    if k == 0 {
      FirstWeighed(states[0], rounds[0], w, m, q);
    } else {
      WeighedBelowSteady(states, rounds, w, m, q, k - 1);
      ScoresNonNegative(states, rounds, w, m, k - 1);
      NextWeighed(states[k - 1], rounds[k - 1], states[k], rounds[k], w, m, q);
      WeightMonotone(w, Weighed(states[k - 1], rounds[k - 1], w, m) + q as real,
                     Steady(Score(states[0], m), q as real, w, k) + q as real);
    }
  }

  /** The counts of a member after the last weighting of a run. */
  function Since(rounds: seq<Counts>, m: string): nat {
    if rounds == [] then 0 else Count(rounds[|rounds| - 1].mid, m) + Count(rounds[|rounds| - 1].late, m)
  }

  /** The score that a run leaves: what the last weighting left at most, and the counts since. */
  lemma LastScore(states: seq<Scores>, rounds: seq<Counts>, w: real -> real, m: string, q: nat)
    requires IsRun(states, rounds, w) && Increasing(w) && Score(states[0], m) >= 0.0
    requires forall i: nat :: i < |rounds| ==> Between(rounds, i, m) <= q
    ensures Score(states[|rounds|], m)
            <= Steady(Score(states[0], m), q as real, w, |rounds|) + Since(rounds, m) as real
    ensures rounds != [] && m in states[|rounds|] ==> Score(states[|rounds|], m) > PRUNE_BELOW
  {
    if rounds != [] {
      var n := |rounds| - 1;
      WeighedBelowSteady(states, rounds, w, m, q, n);
      ScoresNonNegative(states, rounds, w, m, n);
      SweptBelow(states[n], rounds[n], w, states[n + 1], m);
    }
  }

  ghost predicate Uncounted(rounds: seq<Counts>, m: string) { forall k :: 0 <= k < |rounds| ==> !rounds[k].Has(m) }

  lemma UncountedBetween(rounds: seq<Counts>, m: string)
    requires Uncounted(rounds, m)
    ensures forall k: nat :: k < |rounds| ==> Between(rounds, k, m) <= 0
  {
    forall k: nat | k < |rounds| ensures Between(rounds, k, m) <= 0 {
      assert !rounds[k].Has(m);
      assert k > 0 ==> !rounds[k - 1].Has(m);
    }
  }

  /** A member never counted again has at most its weighted score, so it is dropped at the pruning line. */
  lemma DroppedAtLine(states: seq<Scores>, rounds: seq<Counts>, w: real -> real, m: string)
    requires IsRun(states, rounds, w) && Increasing(w) && rounds != [] && Score(states[0], m) >= 0.0
    requires Uncounted(rounds, m) && Steady(Score(states[0], m), 0.0, w, |rounds|) <= PRUNE_BELOW
    ensures m !in states[|rounds|]
  {
    assert !rounds[|rounds| - 1].Has(m);
    UncountedBetween(rounds, m);
    LastScore(states, rounds, w, m, 0);
  }

  ghost predicate Shrinking(w: real -> real) { forall x :: x >= 0.0 ==> 0.0 <= w(x) <= x }

  lemma {:induction false} SteadyShrinks(w: real -> real, i: nat, k: nat)
    requires Shrinking(w) && i <= k
    ensures 0.0 <= Steady(1.0, 0.0, w, k) <= Steady(1.0, 0.0, w, i)
  {
    if i < k {
      SteadyShrinks(w, i, k - 1);
    } else if k > 0 {
      SteadyShrinks(w, k - 1, k - 1);
    }
  }

  /** No sweep of the run has more members than it keeps. */
  ghost predicate NeedsNoTrim(states: seq<Scores>, rounds: seq<Counts>, w: real -> real)
    requires |states| == |rounds| + 1
  {
    forall k :: 0 <= k < |rounds| ==> TrimsNothing(states[k], rounds[k], w)
  }

  predicate TrimsNothing(s: Scores, b: Counts, w: real -> real) {
    |Untrimmed(IncrAll(s, b.before), w, b.mid, b.late)| <= MAX_MEMBERS
  }

  lemma {:induction false} StaysAboveLine(states: seq<Scores>, rounds: seq<Counts>, w: real -> real, m: string, k: nat)
    requires IsRun(states, rounds, w) && Increasing(w) && Shrinking(w) && 1 <= k <= |rounds| && m in rounds[0].before
    requires Score(states[0], m) >= 0.0 && Steady(1.0, 0.0, w, k) > PRUNE_BELOW && NeedsNoTrim(states, rounds, w)
    ensures m in states[k] && states[k][m] >= Steady(1.0, 0.0, w, k)
  {
    var x := Steady(1.0, 0.0, w, k - 1);
    assert Steady(1.0, 0.0, w, k) == w(x) by {
      assert x + 0.0 == x;
    }
    if k > 1 {
      SteadyShrinks(w, k - 1, k);
      StaysAboveLine(states, rounds, w, m, k - 1);
    } else {
      assert m in multiset(rounds[0].before);
    }
    assert TrimsNothing(states[k - 1], rounds[k - 1], w);
    SweptAbove(states[k - 1], rounds[k - 1], w, states[k], m, x);
  }

  // ---------------------------------------------------------------------------
  // Geometric decay
  // ---------------------------------------------------------------------------

  function Pow(f: real, k: nat): real { if k == 0 then 1.0 else f * Pow(f, k - 1) }

  /** f + f^2 + ... + f^k */
  function GeometricSum(f: real, k: nat): real { if k == 0 then 0.0 else f * GeometricSum(f, k - 1) + f }

  /** s0*f^k + q*(f + f^2 + ... + f^k) */
  function GeometricBound(s0: real, q: real, f: real, k: nat): real { s0 * Pow(f, k) + q * GeometricSum(f, k) }

  /** s0*f^k */
  function Faded(s0: real, f: real, k: nat): real { s0 * Pow(f, k) }

  lemma TimesShrinking(f: real)
    requires 0.0 < f < 1.0
    ensures Increasing(Times(f)) && Shrinking(Times(f))
  {
    TimesIncreasing(f);
    forall x: real | x >= 0.0 ensures 0.0 <= Times(f)(x) <= x {
      assert (1.0 - f) * x >= 0.0;
    }
  }

  lemma SumStep(g: real, g': real, p: real, p': real, f: real)
    requires g * (1.0 - f) == f * (1.0 - p) && g' == f * g + f && p' == f * p
    ensures g' * (1.0 - f) == f * (1.0 - p')
  {
    calc {
      g' * (1.0 - f);
      f * (g * (1.0 - f)) + f * (1.0 - f);
      f * (f * (1.0 - p)) + f * (1.0 - f);
      f * (1.0 - f * p);
    }
  }

  lemma {:induction false} SumMultiplied(f: real, k: nat, g: real, p: real)
    requires g == GeometricSum(f, k) && p == Pow(f, k)
    ensures g * (1.0 - f) == f * (1.0 - p)
  {
    if k > 0 {
      var g0, p0 := GeometricSum(f, k - 1), Pow(f, k - 1);
      SumMultiplied(f, k - 1, g0, p0);
      SumStep(g0, g, p0, p, f);
    }
  }

  lemma Divide(g: real, y: real, d: real)
    requires d > 0.0 && g * d == y
    ensures g == y / d
  {
  }

  /** The geometric sum is f*(1 - f^k)/(1 - f). */
  lemma GeometricSumClosed(f: real, k: nat)
    requires 0.0 < f < 1.0
    ensures GeometricSum(f, k) == f * (1.0 - Pow(f, k)) / (1.0 - f)
  {
    SumMultiplied(f, k, GeometricSum(f, k), Pow(f, k));
    Divide(GeometricSum(f, k), f * (1.0 - Pow(f, k)), 1.0 - f);
  }

  lemma BoundStep(b: real, s0: real, p: real, q: real, g: real, f: real)
    requires b == s0 * p + q * g
    ensures (b + q) * f == s0 * (f * p) + q * (f * g + f)
  {
  }

  lemma GeometricStep(s0: real, q: real, f: real, k: nat, b: real)
    requires b == GeometricBound(s0, q, f, k)
    ensures (b + q) * f == GeometricBound(s0, q, f, k + 1)
  {
    BoundStep(b, s0, Pow(f, k), q, GeometricSum(f, k), f);
  }

  lemma {:induction false} SteadyForm(s0: real, q: real, f: real, k: nat)
    ensures Steady(s0, q, Times(f), k) == GeometricBound(s0, q, f, k)
  {
    if k > 0 {
      SteadyForm(s0, q, f, k - 1);
      GeometricStep(s0, q, f, k - 1, Steady(s0, q, Times(f), k - 1));
    }
  }

  lemma Reassociate(s0: real, p: real, f: real)
    ensures s0 * p * f == s0 * (f * p)
  {
  }

  lemma {:induction false} SteadyFades(s0: real, f: real, k: nat)
    ensures Steady(s0, 0.0, Times(f), k) == Faded(s0, f, k)
  {
    if k > 0 {
      SteadyFades(s0, f, k - 1);
      Reassociate(s0, Pow(f, k - 1), f);
    }
  }

  /**
   With at most q counts of a member from one weighting to the next, its score after k of them is at most
   s0*f^k + q*(f + f^2 + ... + f^k), where the sum is f*(1 - f^k)/(1 - f), and the counts since.
   */
  lemma ScoreBound(states: seq<Scores>, rounds: seq<Counts>, f: real, m: string, q: nat)
    requires 0.0 < f < 1.0 && IsRun(states, rounds, Times(f)) && Score(states[0], m) >= 0.0
    requires forall i: nat :: i < |rounds| ==> Between(rounds, i, m) <= q
    ensures Score(states[|rounds|], m)
            <= GeometricBound(Score(states[0], m), q as real, f, |rounds|) + Since(rounds, m) as real
  {
    TimesShrinking(f);
    SteadyForm(Score(states[0], m), q as real, f, |rounds|);
    LastScore(states, rounds, Times(f), m, q);
  }

  /** A member never counted again is dropped as soon as s0*f^k reaches the pruning line. */
  lemma ForgottenIsDropped(states: seq<Scores>, rounds: seq<Counts>, f: real, m: string)
    requires 0.0 < f < 1.0 && IsRun(states, rounds, Times(f)) && rounds != [] && Score(states[0], m) >= 0.0
    requires Uncounted(rounds, m)
    requires Faded(Score(states[0], m), f, |rounds|) <= 0.5
    ensures m !in states[|rounds|]
  {
    TimesShrinking(f);
    SteadyFades(Score(states[0], m), f, |rounds|);
    DroppedAtLine(states, rounds, Times(f), m);
  }

  /**
   A member counted before the first of k sweeps is still ranked after them while f^k exceeds the
   pruning line and no sweep needs to trim: so one counted that often is never dropped.
   */
  lemma CountedStaysRanked(states: seq<Scores>, rounds: seq<Counts>, f: real, m: string)
    requires 0.0 < f < 1.0 && IsRun(states, rounds, Times(f)) && rounds != [] && m in rounds[0].before
    requires Score(states[0], m) >= 0.0 && Faded(1.0, f, |rounds|) > 0.5
    requires NeedsNoTrim(states, rounds, Times(f))
    ensures m in states[|rounds|] && states[|rounds|][m] >= Faded(1.0, f, |rounds|)
  {
    TimesShrinking(f);
    SteadyFades(1.0, f, |rounds|);
    StaysAboveLine(states, rounds, Times(f), m, |rounds|);
  }
}
