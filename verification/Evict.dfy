/** `maxmemory`: which key goes, and when a command may have its memory. */
module Eviction {
  import opened ByteStrings
  import opened Stores
  import opened Watches

  datatype Policy =
    | NoEviction
    | AllkeysLru | AllkeysLfu | AllkeysRandom
    | VolatileLru | VolatileLfu | VolatileRandom | VolatileTtl

  /** The policies that spare every key without a deadline. */
  predicate VolatileOnly(p: Policy) {
    p.VolatileLru? || p.VolatileLfu? || p.VolatileRandom? || p.VolatileTtl?
  }

  const MAX_EVICTIONS_PER_PASS: nat := 10_000

  /** Where a candidate without an expiry sorts: the last second a 32-bit clock can tell, in
      nanoseconds. */
  const FAR_FUTURE: int := 4_294_967_295_000_000_000

  function Deadline(c: Candidate): int {
    if c.expireAt.Some? then c.expireAt.value else FAR_FUTURE
  }

  /** `a` should go before `b`. A random policy has no preference. */
  predicate GoesBefore(p: Policy, a: Candidate, b: Candidate) {
    match p
    case AllkeysLru => a.lastAccess < b.lastAccess
    case VolatileLru => a.lastAccess < b.lastAccess
    case AllkeysLfu => a.freq < b.freq || (a.freq == b.freq && a.lastAccess < b.lastAccess)
    case VolatileLfu => a.freq < b.freq || (a.freq == b.freq && a.lastAccess < b.lastAccess)
    case VolatileTtl => Deadline(a) < Deadline(b)
    case _ => false
  }

  /** Nothing in the sample goes before candidate `i`, and it goes before all drawn earlier. */
  predicate IsBest(p: Policy, candidates: seq<Candidate>, i: nat)
    requires i < |candidates|
  {
    && (forall j | 0 <= j < i :: GoesBefore(p, candidates[i], candidates[j]))
    && (forall j | 0 <= j < |candidates| :: !GoesBefore(p, candidates[j], candidates[i]))
  }

  /** The choice, policy by policy: the least recently used; the least frequently used, and of those the least
      recently; the soonest to expire, a key without a deadline last; or just the first drawn. */
  lemma ChosenByPolicy(p: Policy, candidates: seq<Candidate>, i: nat)
    requires i < |candidates| && IsBest(p, candidates, i) && !p.NoEviction?
    ensures forall j | 0 <= j < |candidates| ::
              var c, d := candidates[i], candidates[j];
              match p
              case AllkeysLru => c.lastAccess <= d.lastAccess
              case VolatileLru => c.lastAccess <= d.lastAccess
              case AllkeysLfu => c.freq < d.freq || (c.freq == d.freq && c.lastAccess <= d.lastAccess)
              case VolatileLfu => c.freq < d.freq || (c.freq == d.freq && c.lastAccess <= d.lastAccess)
              case VolatileTtl =>
                && (c.expireAt.Some? && d.expireAt.Some? ==> c.expireAt.value <= d.expireAt.value)
                && (c.expireAt.None? && d.expireAt.Some? ==> d.expireAt.value >= 4_294_967_295_000_000_000)
              case _ => i == 0
  {
    if p.AllkeysRandom? || p.VolatileRandom? {
      assert !GoesBefore(p, candidates[i], candidates[0]);
    }
  }

  /** The best victim of a sample: none goes before it, and of equals it is the first drawn. */
  method Choose(p: Policy, candidates: seq<Candidate>) returns (victim: Option<Candidate>)
    ensures victim.Some? <==> !p.NoEviction? && candidates != []
    ensures victim.Some? ==> exists i | 0 <= i < |candidates| :: victim.value == candidates[i] && IsBest(p, candidates, i)
  {
    if p.NoEviction? || candidates == [] { return None; }
    var best := 0;
    for k := 1 to |candidates|
      invariant 0 <= best < k
      invariant forall j | 0 <= j < best :: GoesBefore(p, candidates[best], candidates[j])
      invariant forall j | 0 <= j < k :: !GoesBefore(p, candidates[j], candidates[best])
      invariant best > 0 ==> !p.AllkeysRandom? && !p.VolatileRandom?
    {
      if GoesBefore(p, candidates[k], candidates[best]) { best := k; }
    }
    return Some(candidates[best]);
  }

  class Evictor {
    const store: Store
    const watch: Watch
    const maxMemory: nat
    const policy: Policy
    const samples: nat
    var evictedKeys: nat
    /** The last reading of the memory counter. */
    var lastUsed: nat

    constructor (store: Store, watch: Watch, maxMemory: nat, policy: Policy, samples: nat)
      ensures this.store == store && this.watch == watch && this.maxMemory == maxMemory
      ensures this.policy == policy && this.samples == samples && evictedKeys == 0
    {
      this.store, this.watch, this.maxMemory, this.policy, this.samples := store, watch, maxMemory, policy, samples;
      evictedKeys, lastUsed := 0, 0;
    }

    /** Takes a new reading of the memory in use and compares it with the limit. */
    method WithinLimit() returns (within: bool)
      modifies this`lastUsed
      ensures within <==> maxMemory == 0 || lastUsed <= maxMemory
    {
      lastUsed := *;
      within := maxMemory == 0 || lastUsed <= maxMemory;
    }

    /** Draws a sample and gives up the policy's choice from it, if there is one. */
    method EvictOne(now: int) returns (victim: Option<Bytes>, ghost candidates: seq<Candidate>)
      requires store.Valid() && !policy.NoEviction?
      modifies this`evictedKeys, store, watch
      ensures store.Valid() && SameAccess(old(store.entries), store.entries)
      ensures Describes(candidates, old(store.entries), {})
      ensures victim.None? <==> candidates == []
      ensures victim.None? ==> NothingToTake(policy, samples, store.View(), now)
      ensures victim.None? ==> store.View() == old(store.View()) && watch.keys == old(watch.keys) && evictedKeys == old(evictedKeys)
      ensures victim.Some? ==>
                && victim.value in old(store.View()) && IsVictim(policy, candidates, victim.value)
                && IsLive(old(store.View())[victim.value].expireAt, now)
                && (VolatileOnly(policy) ==> old(store.View())[victim.value].expireAt.Some?)
                && store.View() == old(store.View()) - {victim.value}
                && watch.keys == Bumped(old(watch.keys), {victim.value}) && evictedKeys == old(evictedKeys) + 1
    {
      hide IsBest, Drawn, NothingToTake;
      ghost var draws, decayed;
      var sampled;
      sampled, draws, decayed := store.Sample(VolatileOnly(policy), samples, now);
      var best := Choose(policy, sampled);
      if best.None? {
        NothingSampled(policy, samples, store, draws, decayed, now);
        return None, sampled;
      }
      var key := best.value.key;
      assert best.value in sampled && key in store.View();
      var evicted := store.Evict(key);
      if evicted {
        evictedKeys := evictedKeys + 1;
        watch.Touch(key);
      }
      return Some(key), sampled;
    }

    /** Gives up keys one by one while memory is over the limit; `ok` if it no longer is. `removed` lists
        them in the order they went, `drawn` the sample each was chosen from. */
    method MakeRoom(now: int)
      returns (ok: bool, ghost removed: seq<Bytes>, ghost drawn: seq<seq<Candidate>>, ghost readings: seq<nat>)
      requires store.Valid()
      modifies this`evictedKeys, this`lastUsed, store, watch
      // Success means within the limit, and failure that nothing more could be done about it
      ensures ok <==> maxMemory == 0 || lastUsed <= maxMemory
      ensures !ok ==> policy.NoEviction? || |removed| == 10_000 || NothingToTake(policy, samples, store.View(), now)
      // A key goes only while the last reading is over the limit
      ensures |readings| == |removed| + 1 && readings[|removed|] == lastUsed
      ensures forall i | 0 <= i < |removed| :: 0 < maxMemory < readings[i]
      // Exactly the removed keys are gone, each counted once, each watcher told once
      ensures store.Valid() && store.View() == old(store.View()) - Elements(removed)
      ensures evictedKeys == old(evictedKeys) + |removed|
      ensures watch.keys == Bumped(old(watch.keys), Elements(removed))
      // Only keys the policy may take, and only live ones
      ensures policy.NoEviction? ==> removed == []
      ensures MayTake(policy, old(store.View()), removed, now)
      ensures |removed| <= 10_000
      // Each was the policy's choice from a sample of what was there, as it was
      ensures WereVictims(policy, old(store.entries), removed, drawn)
    {
      hide IsVictim, Describes, Bumped, SameAccess, WereVictims, NothingToTake, MayTake, Elements, KeysIndexed,
        VolatileIndexed, VolatileMeansExpiry, ViewOf;
      removed, drawn := [], [];
      NothingRemoved(policy, store.entries, store.View(), watch.keys, now);
      ok := WithinLimit();
      readings := [lastUsed];
      if ok || policy.NoEviction? { return; }
      for pass := 0 to MAX_EVICTIONS_PER_PASS
        invariant store.Valid() && store.View() == old(store.View()) - Elements(removed)
        invariant evictedKeys == old(evictedKeys) + |removed|
        invariant watch.keys == Bumped(old(watch.keys), Elements(removed))
        invariant MayTake(policy, old(store.View()), removed, now)
        invariant |removed| == pass && |readings| == pass + 1 && readings[pass] == lastUsed && 0 < maxMemory < lastUsed
        invariant forall i | 0 <= i < |removed| :: maxMemory < readings[i]
        invariant SameAccess(old(store.entries), store.entries) && WereVictims(policy, old(store.entries), removed, drawn)
      {
        if VolatileOnly(policy) && store.volatile == [] {
          NoneToTake(policy, samples, store, now);
          return false, removed, drawn, readings;
        }
        ghost var entries1, view1 := store.entries, store.View();
        var victim;
        ghost var candidates;
        victim, candidates := EvictOne(now);
        if victim.None? { return false, removed, drawn, readings; }
        Described(candidates, entries1, store.entries, old(store.entries), removed);
        OneMore(policy, old(store.entries), removed, drawn, candidates, victim.value);
        RemovedOne(policy, old(store.View()), old(watch.keys), removed, victim.value, view1, now);
        removed, drawn := removed + [victim.value], drawn + [candidates];
        ok := WithinLimit();
        readings := readings + [lastUsed];
        if ok { return; }
      }
      return false, removed, drawn, readings;
    }
  }

  /** The keys named are live ones and, under a volatile policy, have a deadline; none is named twice. */
  ghost predicate MayTake(p: Policy, view: View, removed: seq<Bytes>, now: int) {
    && NoRepeat(removed)
    && forall k | k in removed ::
         k in view && IsLive(view[k].expireAt, now)
         && (p in {VolatileLru, VolatileLfu, VolatileRandom, VolatileTtl} ==> view[k].expireAt.Some?)
  }

  /** There is no key the policy may take, or expired ones got in the way of the draws. */
  ghost predicate NothingToTake(p: Policy, samples: nat, view: View, now: int) {
    || samples == 0
    || (exists k :: k in view && !IsLive(view[k].expireAt, now))
    || forall k | k in view :: p in {VolatileLru, VolatileLfu, VolatileRandom, VolatileTtl} && view[k].expireAt.None?
  }

  /** A sample is empty only if there was nothing to draw from or what was drawn had expired. */
  lemma NothingSampled(p: Policy, samples: nat, store: Store, draws: seq<nat>, decayed: seq<nat>, now: int)
    requires store.Valid()
    requires var pool := if VolatileOnly(p) then store.volatile else store.keys;
             |draws| == |decayed| == (if pool == [] then 0 else samples) && Drawn(store.entries, pool, draws, decayed, now) == []
    ensures NothingToTake(p, samples, store.View(), now)
  {
    var pool := if VolatileOnly(p) then store.volatile else store.keys;
    if pool == [] {
      NoneVolatile(store);
    } else if samples > 0 {
      var k := pool[draws[samples - 1] % |pool|];
      assert k in pool && !IsLive(store.View()[k].expireAt, now);
    }
  }

  lemma NoneVolatile(store: Store)
    requires store.Valid()
    ensures store.keys == [] ==> store.View() == map[]
    ensures store.volatile == [] ==> forall k | k in store.View() :: store.View()[k].expireAt.None?
  {
  }

  lemma NoneToTake(p: Policy, samples: nat, store: Store, now: int)
    requires store.Valid() && VolatileOnly(p) && store.volatile == []
    ensures NothingToTake(p, samples, store.View(), now)
  {
    NoneVolatile(store);
  }

  /** Each key in turn was the policy's choice from its sample, which described what was left then. */
  ghost predicate WereVictims(p: Policy, entries: map<Bytes, Entry>, removed: seq<Bytes>, drawn: seq<seq<Candidate>>) {
    && |drawn| == |removed|
    && forall i | 0 <= i < |removed| :: IsVictim(p, drawn[i], removed[i]) && Describes(drawn[i], entries, Elements(removed[..i]))
  }

  /** The key is that of a best candidate. */
  predicate IsVictim(p: Policy, candidates: seq<Candidate>, key: Bytes) {
    exists i | 0 <= i < |candidates| :: candidates[i].key == key && IsBest(p, candidates, i)
  }

  /** The candidates are entries, other than those gone, with their own access data and deadline. */
  predicate Describes(candidates: seq<Candidate>, entries: map<Bytes, Entry>, gone: set<Bytes>) {
    forall c | c in candidates ::
      && c.key in entries && c.key !in gone
      && c.lastAccess == entries[c.key].access.at && c.expireAt == entries[c.key].expireAt
  }

  lemma Described(candidates: seq<Candidate>, entries: map<Bytes, Entry>, after: map<Bytes, Entry>, before: map<Bytes, Entry>, removed: seq<Bytes>)
    requires ViewOf(entries) == ViewOf(before) - Elements(removed) && SameAccess(before, entries)
    requires Describes(candidates, entries, {}) && SameAccess(entries, after)
    ensures Describes(candidates, before, Elements(removed)) && SameAccess(before, after)
  {
    forall c | c in candidates ensures c.key in before && c.key !in Elements(removed) && entries[c.key].expireAt == before[c.key].expireAt {
      assert c.key in ViewOf(entries);
      assert ViewOf(entries)[c.key] == ViewOf(before)[c.key];
    }
  }

  lemma OneMore(p: Policy, entries: map<Bytes, Entry>, removed: seq<Bytes>, drawn: seq<seq<Candidate>>, candidates: seq<Candidate>, key: Bytes)
    requires WereVictims(p, entries, removed, drawn)
    requires IsVictim(p, candidates, key) && Describes(candidates, entries, Elements(removed))
    ensures WereVictims(p, entries, removed + [key], drawn + [candidates])
  {
    hide IsVictim, Describes;
    var more, all := removed + [key], drawn + [candidates];
    assert removed[..|removed|] == removed;
    forall i | 0 <= i < |more| ensures IsVictim(p, all[i], more[i]) && Describes(all[i], entries, Elements(more[..i])) {
      assert more[..i] == removed[..i];
    }
  }

  function Elements(s: seq<Bytes>): set<Bytes> {
    set k | k in s
  }

  lemma NothingRemoved(p: Policy, entries: map<Bytes, Entry>, view: View, counts: map<Bytes, Watched>, now: int)
    ensures SameAccess(entries, entries) && WereVictims(p, entries, [], []) && MayTake(p, view, [], now)
    ensures view - Elements([]) == view && Bumped(counts, Elements([])) == counts
  {
  }

  lemma RemovedOne(p: Policy, view: View, counts: map<Bytes, Watched>, removed: seq<Bytes>, key: Bytes, left: View, now: int)
    requires MayTake(p, view, removed, now) && left == view - Elements(removed)
    requires key in left && IsLive(left[key].expireAt, now) && (VolatileOnly(p) ==> left[key].expireAt.Some?)
    ensures MayTake(p, view, removed + [key], now)
    ensures left - {key} == view - Elements(removed + [key])
    ensures Bumped(Bumped(counts, Elements(removed)), {key}) == Bumped(counts, Elements(removed + [key]))
  {
    assert Elements(removed + [key]) == Elements(removed) + {key};
    forall i | 0 <= i < |removed| ensures removed[i] != key {
      assert removed[i] in removed;
    }
  }
}
