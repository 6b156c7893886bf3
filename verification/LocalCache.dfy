/** The client's versioned local cache: localGet, localSet and the clear of SwapRedis. */
module LocalCache {

  import opened Options
  import opened Dns

  datatype Entry = Entry(wire: Msg, expire: int, resolvedAt: int)

  type Cache = map<string, Entry>

  /** localSet's write: an entry with a later stamp is never overwritten. */
  function SetEntry(c: Cache, key: string, e: Entry): Cache {
    if key in c && c[key].resolvedAt > e.resolvedAt then c else c[key := e]
  }

  /** The effects on the cache; a read has none. */
  datatype Op = Set(key: string, e: Entry) | Remove(key: string) | Clear

  function ApplyOp(c: Cache, op: Op): Cache {
    match op
    case Set(key, e) => SetEntry(c, key, e)
    case Remove(key) => c - {key}
    case Clear => map[]
  }

  /** The cache after a history of effects, in the order in which the lock admitted them. */
  function Replay(h: seq<Op>): Cache {
    if h == [] then map[] else ApplyOp(Replay(h[..|h| - 1]), h[|h| - 1])
  }

  // ---------------------------------------------------------------------------
  // The cache refines an argmax over its history
  // ---------------------------------------------------------------------------

  predicate Erases(op: Op, key: string) { op.Clear? || (op.Remove? && op.key == key) }

  /** Effect i wrote this key, and the key has not been removed since. */
  ghost predicate StandingWrite(h: seq<Op>, key: string, i: int) {
    && 0 <= i < |h| && h[i].Set? && h[i].key == key
    && forall j :: i <= j < |h| ==> !Erases(h[j], key)
  }

  /** The latest-arriving of the standing writes with the greatest stamp. */
  ghost predicate Champion(h: seq<Op>, key: string, i: int) {
    && StandingWrite(h, key, i)
    && forall j :: StandingWrite(h, key, j) ==>
         h[j].e.resolvedAt <= h[i].e.resolvedAt && (j > i ==> h[j].e.resolvedAt < h[i].e.resolvedAt)
  }

  lemma StandingStep(h: seq<Op>, key: string)
    requires h != []
    ensures forall i :: i < |h| - 1 ==>
              (StandingWrite(h, key, i) <==> StandingWrite(h[..|h| - 1], key, i) && !Erases(h[|h| - 1], key))
    ensures StandingWrite(h, key, |h| - 1) <==> h[|h| - 1].Set? && h[|h| - 1].key == key
  {
    var init := h[..|h| - 1];
    assert forall j :: 0 <= j < |init| ==> init[j] == h[j];
  }

  lemma ChampionStays(h: seq<Op>, key: string, i: int)
    requires h != [] && Champion(h[..|h| - 1], key, i) && !Erases(h[|h| - 1], key)
    requires h[|h| - 1].Set? && h[|h| - 1].key == key ==> h[|h| - 1].e.resolvedAt < h[i].e.resolvedAt
    ensures Champion(h, key, i)
  {
    StandingStep(h, key);
    forall j | StandingWrite(h, key, j)
      ensures h[j].e.resolvedAt <= h[i].e.resolvedAt && (j > i ==> h[j].e.resolvedAt < h[i].e.resolvedAt)
    {
      if j < |h| - 1 {
        assert StandingWrite(h[..|h| - 1], key, j);
      }
    }
  }

  lemma ChampionArrives(h: seq<Op>, key: string)
    requires h != [] && h[|h| - 1].Set? && h[|h| - 1].key == key
    requires forall j :: StandingWrite(h[..|h| - 1], key, j) ==> h[j].e.resolvedAt <= h[|h| - 1].e.resolvedAt
    ensures Champion(h, key, |h| - 1)
  {
    StandingStep(h, key);
    forall j | StandingWrite(h, key, j) ensures h[j].e.resolvedAt <= h[|h| - 1].e.resolvedAt {
      if j < |h| - 1 {
        assert StandingWrite(h[..|h| - 1], key, j);
      }
    }
  }

  /** The write that a key holds after a history. */
  lemma {:induction false} Holder(h: seq<Op>, key: string) returns (i: int)
    ensures key in Replay(h) ==> Champion(h, key, i) && Replay(h)[key] == h[i].e
    ensures key !in Replay(h) ==> forall j :: !StandingWrite(h, key, j)
  {
    i := -1;
    if h != [] {
      var n := |h| - 1;
      var op := h[n];
      i := Holder(h[..n], key);
      StandingStep(h, key);
      if op.Set? && op.key == key {
        if key in Replay(h[..n]) && h[i].e.resolvedAt > op.e.resolvedAt {
          ChampionStays(h, key, i);
        } else {
          ChampionArrives(h, key);
          i := n;
        }
      } else if key in Replay(h) {
        ChampionStays(h, key, i);
      }
    }
  }

  /**
   For every history, a key is cached exactly when some write of it still stands, and then its entry
   is the latest-arriving write among those with the greatest stamp.
   */
  lemma CacheIsArgmax(h: seq<Op>, key: string)
    ensures key in Replay(h) <==> exists i :: StandingWrite(h, key, i)
    ensures key in Replay(h) ==> exists i :: Champion(h, key, i) && Replay(h)[key] == h[i].e
  {
    var i := Holder(h, key);
    if key in Replay(h) {
      assert StandingWrite(h, key, i);
    }
  }

  /** Among the writes that still stand, the cached stamp is the greatest: no stale overwrite. */
  lemma NoStaleOverwrite(h: seq<Op>, key: string, i: int)
    requires StandingWrite(h, key, i)
    ensures key in Replay(h) && Replay(h)[key].resolvedAt >= h[i].e.resolvedAt
  {
    CacheIsArgmax(h, key);
  }

  /** The client's `local` map, with the history of its effects. */
  class ClientCache {
    var local: Cache
    const localTTL: int
    ghost var history: seq<Op>

    ghost predicate Valid()
      reads this
    {
      local == Replay(history)
    }

    constructor (localTTL: int)
      ensures Valid() && local == map[] && history == [] && this.localTTL == localTTL
    {
      local := map[];
      history := [];
      this.localTTL := localTTL;
    }

    method LocalSet(key: string, wire: Msg, resolvedAt: int, now: int)
      requires Valid()
      modifies this
      ensures Valid()
      ensures history == old(history) + [Set(key, Entry(wire, now + LocalTtl(localTTL, wire), resolvedAt))]
    {
      var ttl := localTTL;
      var min := ComputeMinTtl(wire);
      if min > 0 {
        ttl := min * SECOND;
      }
      var e := Entry(wire, now + ttl, resolvedAt);
      history := history + [Set(key, e)];
      assert history[..|history| - 1] == old(history);
      if key in local && local[key].resolvedAt > resolvedAt {
        return;
      }
      local := local[key := e];
    }

    /** localGet's first phase, under the read lock. */
    method Peek(key: string) returns (e: Option<Entry>)
      ensures e == if key in local then Some(local[key]) else None
    {
      if key in local {
        return Some(local[key]);
      }
      return None;
    }

    /** localGet's second phase: by now the key may hold another entry, and is deleted all the same. */
    method Conclude(key: string, e: Entry, now: int) returns (hit: Option<Msg>)
      requires Valid()
      modifies this
      ensures Valid()
      ensures now <= e.expire ==> hit == Some(e.wire) && history == old(history) && local == old(local)
      ensures now > e.expire ==> hit == None && history == old(history) + [Remove(key)]
    {
      if now > e.expire {
        history := history + [Remove(key)];
        assert history[..|history| - 1] == old(history);
        local := local - {key};
        return None;
      }
      return Some(e.wire);
    }

    /** A hit is the entry cached, and is never past its expiry. */
    method LocalGet(key: string, now: int) returns (hit: Option<Msg>)
      requires Valid()
      modifies this
      ensures Valid()
      ensures hit.Some? <==> key in old(local) && now <= old(local)[key].expire
      ensures hit.Some? ==> hit == Some(old(local)[key].wire) && local == old(local)
      ensures hit.None? ==> local == old(local) - {key}
    {
      var e := Peek(key);
      if e.None? {
        return None;
      }
      hit := Conclude(key, e.value, now);
      if hit.None? {
        assert history[..|history| - 1] == old(history);
      }
    }

    /** SwapRedis starts a new cache. */
    method Clear()
      requires Valid()
      modifies this
      ensures Valid() && local == map[] && history == old(history) + [Op.Clear]
    {
      history := history + [Op.Clear];
      assert history[..|history| - 1] == old(history);
      local := map[];
    }
  }
}
