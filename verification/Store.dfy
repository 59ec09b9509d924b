/** The keyspace: a map of entries beside two swap-remove index vectors with back-pointers. */
module Stores {
  import opened ByteStrings
  import opened Values

  datatype Access = Access(at: nat, freq: nat)

  datatype Entry = Entry(value: Value, expireAt: Option<int>, slot: nat, volatileSlot: Option<nat>, access: Access)

  /** What a policy gets to know about a key. */
  datatype Candidate = Candidate(key: Bytes, lastAccess: nat, freq: nat, expireAt: Option<int>)

  /** What a key means to its users: a value and perhaps a deadline. */
  datatype Item = Item(value: Value, expireAt: Option<int>)

  type View = map<Bytes, Item>

  predicate IsLive(expireAt: Option<int>, now: int) {
    expireAt.None? || expireAt.value > now
  }

  /** `key` is dropped if its deadline has passed. */
  function Expired(view: View, key: Bytes, now: int): View {
    if key in view && !IsLive(view[key].expireAt, now) then view - {key} else view
  }

  function Living(view: View, now: int): View {
    map k | k in view && IsLive(view[k].expireAt, now) :: view[k]
  }

  /** The last element moves into the hole. */
  function SwapRemove<T>(s: seq<T>, i: nat): seq<T>
    requires i < |s|
  {
    s[i := s[|s| - 1]][..|s| - 1]
  }

  /** `keys` lists the map's keys, each entry's slot pointing at itself. */
  ghost predicate KeysIndexed(entries: map<Bytes, Entry>, keys: seq<Bytes>) {
    && (forall k | k in entries :: entries[k].slot < |keys| && keys[entries[k].slot] == k)
    && (forall i | 0 <= i < |keys| :: keys[i] in entries && entries[keys[i]].slot == i)
  }

  /** `volatile` lists the keys whose entry points into it. */
  ghost predicate VolatileIndexed(entries: map<Bytes, Entry>, volatile: seq<Bytes>) {
    && (forall k | k in entries && entries[k].volatileSlot.Some? ::
          entries[k].volatileSlot.value < |volatile| && volatile[entries[k].volatileSlot.value] == k)
    && (forall i | 0 <= i < |volatile| :: volatile[i] in entries && entries[volatile[i]].volatileSlot == Some(i))
  }

  /** The entries that point into `volatile` are the ones that carry an expiry. */
  predicate VolatileMeansExpiry(entries: map<Bytes, Entry>) {
    forall k | k in entries :: entries[k].expireAt.Some? <==> entries[k].volatileSlot.Some?
  }

  function ViewOf(entries: map<Bytes, Entry>): View {
    map k | k in entries :: Item(entries[k].value, entries[k].expireAt)
  }

  /** What is still there was last used when it was. */
  predicate SameAccess(before: map<Bytes, Entry>, after: map<Bytes, Entry>) {
    forall k | k in after :: k in before && after[k].access == before[k].access
  }

  /** The candidates these draws come to: each draw that falls on a live key is one, in order. */
  function Drawn(entries: map<Bytes, Entry>, pool: seq<Bytes>, draws: seq<nat>, decayed: seq<nat>, now: int): seq<Candidate>
    requires |draws| == |decayed| && (draws != [] ==> pool != [])
  {
    if draws == [] then []
    else
      var last := |draws| - 1;
      var key := pool[draws[last] % |pool|];
      Drawn(entries, pool, draws[..last], decayed[..last], now)
      + if key in entries && IsLive(entries[key].expireAt, now)
        then [Candidate(key, entries[key].access.at, decayed[last], entries[key].expireAt)] else []
  }

  class Store {
    var entries: map<Bytes, Entry>
    /** The keys once each, so that one can be drawn by a random index. */
    var keys: seq<Bytes>
    /** The keys that carry an expiry. */
    var volatile: seq<Bytes>
    /** Ticks once per access. */
    var clock: nat

    ghost predicate Valid()
      reads this
    {
      && KeysIndexed(entries, keys)
      && VolatileIndexed(entries, volatile)
      && VolatileMeansExpiry(entries)
      && forall k | k in entries :: entries[k].access.at <= clock
    }

    ghost function View(): View
      reads this
    {
      ViewOf(entries)
    }

    constructor ()
      ensures Valid() && View() == map[]
    {
      entries, keys, volatile, clock := map[], [], [], 0;
    }

    // ----------------------------------------------------------------
    // Adding and removing keys

    /** Stores an entry. A key that was there already keeps its place in both vectors. */
    method InsertEntry(key: Bytes, entry: Entry)
      requires Valid() && entry.access.at <= clock
      modifies this
      ensures Valid() && View() == old(View())[key := Item(entry.value, entry.expireAt)]
      ensures clock == old(clock)
    {
      InsertIndexed(entries, keys, volatile, key, entry);
      hide KeysIndexed, VolatileIndexed;
      if key in entries {
        entries := entries[key := entry.(slot := entries[key].slot, volatileSlot := entries[key].volatileSlot)];
      } else {
        entries := entries[key := entry.(slot := |keys|, volatileSlot := None)];
        keys := keys + [key];
      }
      assert View() == old(View())[key := Item(entry.value, entry.expireAt)];
      SyncVolatile(key);
    }

    /** Puts `key` into the vector of volatile keys or takes it out, as its deadline says. */
    method SyncVolatile(key: Bytes)
      requires KeysIndexed(entries, keys) && VolatileIndexed(entries, volatile)
      requires forall k | k in entries && k != key :: entries[k].expireAt.Some? <==> entries[k].volatileSlot.Some?
      requires forall k | k in entries :: entries[k].access.at <= clock
      modifies this`entries, this`volatile
      ensures Valid() && View() == old(View())
      ensures forall k | k in old(entries) :: k in entries && entries[k].access == old(entries)[k].access
    {
      hide KeysIndexed, VolatileIndexed;
      if key !in entries { return; }
      var entry := entries[key];
      if entry.expireAt.Some? && entry.volatileSlot.None? {
        AttachIndexed(entries, keys, volatile, key);
        var slot := |volatile|;
        volatile := volatile + [key];
        entries := entries[key := entry.(volatileSlot := Some(slot))];
      } else if entry.expireAt.None? && entry.volatileSlot.Some? {
        DetachIndexed(entries, keys, volatile, key);
        entries := entries[key := entry.(volatileSlot := None)];
        DetachVolatile(entry.volatileSlot.value);
      }
    }

    /** Takes the hole left at `slot` out of the volatile index and repairs the key that moved. */
    method DetachVolatile(slot: nat)
      requires slot < |volatile|
      modifies this`entries, this`volatile
      ensures volatile == SwapRemove(old(volatile), slot)
      ensures entries == RepairVolatile(old(entries), volatile, slot)
    {
      volatile := SwapRemove(volatile, slot);
      if slot < |volatile| {
        var moved := volatile[slot];
        if moved in entries {
          entries := entries[moved := entries[moved].(volatileSlot := Some(slot))];
        }
      }
    }

    /** Takes a key out, and closes the gaps it leaves in both vectors. */
    method RemoveEntry(key: Bytes) returns (removed: Option<Entry>)
      requires Valid()
      modifies this
      ensures Valid() && View() == old(View()) - {key} && clock == old(clock)
      ensures removed == if key in old(entries) then Some(old(entries)[key]) else None
      ensures SameAccess(old(entries), entries)
    {
      hide KeysIndexed, VolatileIndexed, VolatileMeansExpiry, SameContents, ViewOf, SameAccess;
      if key !in entries {
        NoEntryRemoved(entries, key);
        return None;
      }
      var entry := entries[key];
      RemoveIndexed(entries, keys, volatile, key);
      entries := entries - {key};
      keys := SwapRemove(keys, entry.slot);
      if entry.slot < |keys| {
        var moved := keys[entry.slot];
        if moved in entries {
          entries := entries[moved := entries[moved].(slot := entry.slot)];
        }
      }
      if entry.volatileSlot.Some? {
        DetachVolatile(entry.volatileSlot.value);
      }
      RestIsSame(old(entries), entries, key);
      return Some(entry);
    }

    // ----------------------------------------------------------------
    // Lookups

    /** Records an access; how far the frequency counter climbs is up to chance. */
    method Touch(key: Bytes)
      requires Valid()
      modifies this`entries, this`clock
      ensures Valid() && View() == old(View()) && clock == old(clock) + 1
      ensures key in entries ==> forall k | k in entries && k != key :: entries[k].access.at < entries[key].access.at
    {
      clock := clock + 1;
      if key in entries {
        var freq: nat := *;
        Revalue(entries, keys, volatile, key, entries[key].(access := Access(clock, freq)));
        hide KeysIndexed, VolatileIndexed;
        entries := entries[key := entries[key].(access := Access(clock, freq))];
      }
    }

    method ExpireIfDue(key: Bytes, now: int)
      requires Valid()
      modifies this
      ensures Valid() && View() == Expired(old(View()), key, now) && clock == old(clock)
    {
      if key in entries && !IsLive(entries[key].expireAt, now) {
        var gone := RemoveEntry(key);
      }
    }

    /** Looks a key up: an expired entry is dropped instead of found, and one that is found becomes the most
        recently used. */
    method Find(key: Bytes, now: int) returns (found: bool)
      requires Valid()
      modifies this
      ensures Valid() && View() == Expired(old(View()), key, now)
      ensures found <==> key in entries
      ensures found ==> forall k | k in entries && k != key :: entries[k].access.at < entries[key].access.at
    {
      hide KeysIndexed, VolatileIndexed, VolatileMeansExpiry;
      ExpireIfDue(key, now);
      found := key in entries;
      if found { Touch(key); }
    }

    // ----------------------------------------------------------------
    // Mutators

    method Del(key: Bytes, now: int) returns (deleted: bool)
      requires Valid()
      modifies this
      ensures Valid() && View() == old(View()) - {key}
      ensures deleted <==> key in Living(old(View()), now)
    {
      hide KeysIndexed, VolatileIndexed, VolatileMeansExpiry;
      deleted := Find(key, now);
      if !deleted { return; }
      var gone := RemoveEntry(key);
    }

    method DeleteIfEmpty(key: Bytes, now: int)
      requires Valid()
      modifies this
      ensures Valid()
      ensures var view := Expired(old(View()), key, now);
              View() == if key in view && IsEmptyCollection(view[key].value) then view - {key} else view
    {
      hide KeysIndexed, VolatileIndexed, VolatileMeansExpiry;
      var found := Find(key, now);
      if found && IsEmptyCollection(entries[key].value) {
        var gone := RemoveEntry(key);
      }
    }

    method SetExpireAt(key: Bytes, at: Option<int>, now: int) returns (found: bool)
      requires Valid()
      modifies this
      ensures Valid() && (found <==> key in Living(old(View()), now))
      ensures var view := Expired(old(View()), key, now);
              View() == if key in view then view[key := view[key].(expireAt := at)] else view
    {
      hide KeysIndexed, VolatileIndexed, ViewOf;
      found := Find(key, now);
      ViewPut(entries, key, at);
      if found {
        Revalue(entries, keys, volatile, key, entries[key].(expireAt := at));
        entries := entries[key := entries[key].(expireAt := at)];
        SyncVolatile(key);
      }
    }

    method SetString(key: Bytes, text: Bytes)
      requires Valid()
      modifies this
      ensures Valid() && View() == old(View())[key := Item(Str(text), None)]
    {
      InsertEntry(key, Entry(Str(text), None, 0, None, Access(clock, 5)));
    }

    method Overwrite(key: Bytes, value: Value)
      requires Valid() && key in entries
      modifies this`entries
      ensures Valid() && View() == old(View())[key := old(View())[key].(value := value)]
    {
      Revalue(entries, keys, volatile, key, entries[key].(value := value));
      hide KeysIndexed, VolatileIndexed;
      entries := entries[key := entries[key].(value := value)];
    }

    /** Moves `key`, deadline and all, replacing whatever was at `newKey`. */
    method Rename(key: Bytes, newKey: Bytes, now: int) returns (found: bool)
      requires Valid()
      modifies this
      ensures Valid() && (found <==> key in Living(old(View()), now))
      ensures var view := Expired(old(View()), key, now);
              View() == if key in view && key != newKey then (view - {key})[newKey := view[key]] else view
    {
      hide KeysIndexed, VolatileIndexed, VolatileMeansExpiry;
      found := Find(key, now);
      if !found || key == newKey { return; }
      var entry := RemoveEntry(key);
      InsertEntry(newKey, entry.value);
    }

    /** Stores the value and the deadline of `key` under `dest` too, unless there is no such key (`None`) or
        `dest` may not be overwritten (`Some(false)`). */
    method Copy(key: Bytes, dest: Bytes, replace: bool, now: int) returns (copied: Option<bool>)
      requires Valid()
      modifies this
      ensures Valid()
      ensures var looked := Expired(old(View()), key, now);
              var view := if key in looked && !replace then Expired(looked, dest, now) else looked;
              && copied == (if key !in looked then None else Some(replace || dest !in view))
              && View() == if copied == Some(true) then view[dest := view[key]] else view
    {
      hide KeysIndexed, VolatileIndexed, VolatileMeansExpiry;
      var found := Find(key, now);
      assert View().Keys == entries.Keys;
      if !found { return None; }
      if !replace {
        var taken := Find(dest, now);
        assert View().Keys == entries.Keys;
        if taken { return Some(false); }
      }
      InsertEntry(dest, entries[key]);
      return Some(true);
    }

    method Flush() returns (removed: nat)
      requires Valid()
      modifies this
      ensures Valid() && View() == map[] && removed == |old(View())|
    {
      removed := |entries|;
      assert View().Keys == entries.Keys;
      entries, keys, volatile := map[], [], [];
    }

    /** Drops exactly the keys whose deadline has passed. */
    method SweepExpired(now: int)
      requires Valid()
      modifies this
      ensures Valid() && View() == Living(old(View()), now)
    {
      hide KeysIndexed, VolatileIndexed, VolatileMeansExpiry;
      var due := set k | k in entries && !IsLive(entries[k].expireAt, now);
      while due != {}
        invariant Valid()
        invariant forall k :: k in due <==> k in View() && !IsLive(View()[k].expireAt, now)
        invariant Living(View(), now) == Living(old(View()), now)
        decreases due
      {
        var key :| key in due;
        ghost var before := View();
        var gone := RemoveEntry(key);
        assert Living(View(), now) == Living(before, now);
        due := due - {key};
      }
      assert forall k | k in View() :: IsLive(View()[k].expireAt, now);
      assert Living(View(), now) == View();
    }

    /** Draws keys, of all or only of the volatile ones, and describes those that have not expired. The
        draws, and the frequencies as they have decayed by now, are anything. */
    method Sample(volatileOnly: bool, count: nat, now: int) returns (sampled: seq<Candidate>, ghost draws: seq<nat>, ghost decayed: seq<nat>)
      requires Valid()
      ensures |draws| == |decayed| == (if (if volatileOnly then volatile else keys) == [] then 0 else count)
      ensures sampled == Drawn(entries, if volatileOnly then volatile else keys, draws, decayed, now)
      ensures forall c | c in sampled ::
                && c.key in entries && IsLive(entries[c.key].expireAt, now)
                && c.expireAt == entries[c.key].expireAt && c.lastAccess == entries[c.key].access.at
                && (volatileOnly ==> c.expireAt.Some?)
    {
      sampled, draws, decayed := [], [], [];
      var pool := if volatileOnly then volatile else keys;
      if pool == [] { return; }
      for i := 0 to count
        invariant |draws| == |decayed| == i
        invariant sampled == Drawn(entries, pool, draws, decayed, now)
        invariant forall c | c in sampled ::
                    && c.key in entries && IsLive(entries[c.key].expireAt, now)
                    && c.expireAt == entries[c.key].expireAt && c.lastAccess == entries[c.key].access.at
                    && (volatileOnly ==> c.expireAt.Some?)
      {
        var drawn: nat, freq: nat := *, *;
        var key := pool[drawn % |pool|];
        assert (draws + [drawn])[..i] == draws && (decayed + [freq])[..i] == decayed;
        draws, decayed := draws + [drawn], decayed + [freq];
        if key in entries && IsLive(entries[key].expireAt, now) {
          var entry := entries[key];
          sampled := sampled + [Candidate(key, entry.access.at, freq, entry.expireAt)];
        }
      }
    }

    method Evict(key: Bytes) returns (evicted: bool)
      requires Valid()
      modifies this
      ensures Valid() && View() == old(View()) - {key} && (evicted <==> key in old(View()))
      ensures SameAccess(old(entries), entries)
    {
      var gone := RemoveEntry(key);
      return gone.Some?;
    }

    // ----------------------------------------------------------------
    // What the index vectors are for

    /** The key vector is a permutation of the map's keys, so a draw from it is a draw from them. */
    lemma KeysArePermutation()
      requires Valid()
      ensures multiset(keys) == multiset(View().Keys)
      ensures |keys| == |View()|
    {
      assert View().Keys == entries.Keys;
      PermutationOf(keys, View().Keys);
    }

    lemma VolatileIsPermutation()
      requires Valid()
      ensures multiset(volatile) == multiset(set k | k in View() && View()[k].expireAt.Some?)
    {
      var some := set k | k in View() && View()[k].expireAt.Some?;
      forall k ensures k in some <==> k in volatile {
        if k in some { assert volatile[entries[k].volatileSlot.value] == k; }
      }
      PermutationOf(volatile, some);
    }
  }

  /** The key that moved into the hole learns its new slot. */
  function RepairVolatile(entries: map<Bytes, Entry>, volatile: seq<Bytes>, slot: nat): map<Bytes, Entry> {
    if slot < |volatile| && volatile[slot] in entries
    then entries[volatile[slot] := entries[volatile[slot]].(volatileSlot := Some(slot))]
    else entries
  }

  function RepairKeys(entries: map<Bytes, Entry>, keys: seq<Bytes>, slot: nat): map<Bytes, Entry> {
    if slot < |keys| && keys[slot] in entries
    then entries[keys[slot] := entries[keys[slot]].(slot := slot)]
    else entries
  }

  /** Same keys, same contents, whatever the slots. */
  ghost predicate SameContents(a: map<Bytes, Entry>, b: map<Bytes, Entry>) {
    a.Keys == b.Keys && forall k | k in a ::
      a[k].value == b[k].value && a[k].expireAt == b[k].expireAt && a[k].access == b[k].access
  }

  lemma ViewPut(entries: map<Bytes, Entry>, key: Bytes, at: Option<int>)
    ensures ViewOf(entries).Keys == entries.Keys
    ensures key in entries ==>
              ViewOf(entries[key := entries[key].(expireAt := at)]) == ViewOf(entries)[key := ViewOf(entries)[key].(expireAt := at)]
  {
  }

  lemma RestIsSame(before: map<Bytes, Entry>, after: map<Bytes, Entry>, key: Bytes)
    requires SameContents(after, before - {key})
    ensures ViewOf(after) == ViewOf(before) - {key} && SameAccess(before, after)
    ensures after.Keys == before.Keys - {key} && forall k | k in after :: after[k].access == before[k].access
  {
  }

  lemma NoEntryRemoved(entries: map<Bytes, Entry>, key: Bytes)
    requires key !in entries
    ensures ViewOf(entries) == ViewOf(entries) - {key} && SameAccess(entries, entries)
  {
  }

  lemma InsertIndexed(entries: map<Bytes, Entry>, keys: seq<Bytes>, volatile: seq<Bytes>, key: Bytes, entry: Entry)
    requires KeysIndexed(entries, keys) && VolatileIndexed(entries, volatile)
    ensures key in entries ==>
              var after := entries[key := entry.(slot := entries[key].slot, volatileSlot := entries[key].volatileSlot)];
              KeysIndexed(after, keys) && VolatileIndexed(after, volatile)
    ensures key !in entries ==>
              var after := entries[key := entry.(slot := |keys|, volatileSlot := None)];
              KeysIndexed(after, keys + [key]) && VolatileIndexed(after, volatile)
  {
  }

  /** Changing an entry without moving it. */
  lemma Revalue(entries: map<Bytes, Entry>, keys: seq<Bytes>, volatile: seq<Bytes>, key: Bytes, entry: Entry)
    requires KeysIndexed(entries, keys) && VolatileIndexed(entries, volatile) && key in entries
    requires entry.slot == entries[key].slot && entry.volatileSlot == entries[key].volatileSlot
    ensures KeysIndexed(entries[key := entry], keys) && VolatileIndexed(entries[key := entry], volatile)
  {
  }

  lemma AttachIndexed(entries: map<Bytes, Entry>, keys: seq<Bytes>, volatile: seq<Bytes>, key: Bytes)
    requires KeysIndexed(entries, keys) && VolatileIndexed(entries, volatile)
    requires key in entries && entries[key].volatileSlot.None?
    ensures var after := entries[key := entries[key].(volatileSlot := Some(|volatile|))];
            KeysIndexed(after, keys) && VolatileIndexed(after, volatile + [key])
  {
  }

  /** Swap-remove keeps the key vector exact, whether the hole is the last place or not. */
  lemma RemoveKeysIndexed(entries: map<Bytes, Entry>, keys: seq<Bytes>, key: Bytes)
    requires KeysIndexed(entries, keys) && key in entries
    ensures var slot := entries[key].slot;
            var left := SwapRemove(keys, slot);
            var after := RepairKeys(entries - {key}, left, slot);
            && KeysIndexed(after, left) && SameContents(after, entries - {key})
            && forall k | k in after :: after[k].volatileSlot == entries[k].volatileSlot
  {
    var slot, last := entries[key].slot, |keys| - 1;
    var left := SwapRemove(keys, slot);
    var after := RepairKeys(entries - {key}, left, slot);
    assert entries[keys[last]].slot == last;
    forall i | 0 <= i < |left| ensures left[i] in after && after[left[i]].slot == i {
      assert left[i] == if i == slot then keys[last] else keys[i];
      assert entries[keys[i]].slot == i;
    }
    forall k | k in after ensures after[k].slot < |left| && left[after[k].slot] == k {
      if entries[k].slot == last {
        assert k == keys[last];
      }
    }
  }

  lemma RemoveVolatileIndexed(entries: map<Bytes, Entry>, volatile: seq<Bytes>, after: map<Bytes, Entry>, key: Bytes, slot: nat)
    requires VolatileIndexed(entries, volatile) && key in entries && entries[key].volatileSlot == Some(slot)
    requires after.Keys == entries.Keys - {key} || (after.Keys == entries.Keys && after[key].volatileSlot == None)
    requires forall k | k in after && k != key :: after[k].volatileSlot == entries[k].volatileSlot
    ensures var left := SwapRemove(volatile, slot);
            var repaired := RepairVolatile(after, left, slot);
            && VolatileIndexed(repaired, left) && SameContents(repaired, after)
            && forall k | k in repaired :: repaired[k].slot == after[k].slot
                                           && (repaired[k].volatileSlot.Some? <==> after[k].volatileSlot.Some?)
  {
    assert entries[volatile[|volatile| - 1]].volatileSlot == Some(|volatile| - 1);
    assert VolatileIndexed(RepairVolatile(after, SwapRemove(volatile, slot), slot), SwapRemove(volatile, slot)) by {
      RepairedBack(entries, volatile, after, key, slot);
      RepairedForth(entries, volatile, after, key, slot);
    }
    hide VolatileIndexed;
    RepairKeepsContents(after, SwapRemove(volatile, slot), slot);
    var left := SwapRemove(volatile, slot);
    if slot < |left| {
      assert left[slot] == volatile[|volatile| - 1] != key;
    }
  }

  lemma RepairKeepsContents(entries: map<Bytes, Entry>, volatile: seq<Bytes>, slot: nat)
    ensures SameContents(RepairVolatile(entries, volatile, slot), entries)
    ensures forall k | k in entries :: RepairVolatile(entries, volatile, slot)[k].slot == entries[k].slot
  {
  }

  lemma RepairedBack(entries: map<Bytes, Entry>, volatile: seq<Bytes>, after: map<Bytes, Entry>, key: Bytes, slot: nat)
    requires VolatileIndexed(entries, volatile) && key in entries && entries[key].volatileSlot == Some(slot)
    requires after.Keys == entries.Keys - {key} || (after.Keys == entries.Keys && after[key].volatileSlot == None)
    requires forall k | k in after && k != key :: after[k].volatileSlot == entries[k].volatileSlot
    ensures var left := SwapRemove(volatile, slot);
            var repaired := RepairVolatile(after, left, slot);
            forall i | 0 <= i < |left| :: left[i] in repaired && repaired[left[i]].volatileSlot == Some(i)
  {
    var last, left := |volatile| - 1, SwapRemove(volatile, slot);
    assert entries[volatile[last]].volatileSlot == Some(last);
    forall i | 0 <= i < |left|
      ensures left[i] in RepairVolatile(after, left, slot) && RepairVolatile(after, left, slot)[left[i]].volatileSlot == Some(i)
    {
      assert left[i] == if i == slot then volatile[last] else volatile[i];
      assert entries[volatile[i]].volatileSlot == Some(i);
    }
  }

  lemma RepairedForth(entries: map<Bytes, Entry>, volatile: seq<Bytes>, after: map<Bytes, Entry>, key: Bytes, slot: nat)
    requires VolatileIndexed(entries, volatile) && key in entries && entries[key].volatileSlot == Some(slot)
    requires after.Keys == entries.Keys - {key} || (after.Keys == entries.Keys && after[key].volatileSlot == None)
    requires forall k | k in after && k != key :: after[k].volatileSlot == entries[k].volatileSlot
    ensures var left := SwapRemove(volatile, slot);
            var repaired := RepairVolatile(after, left, slot);
            forall k | k in repaired && repaired[k].volatileSlot.Some? ::
              repaired[k].volatileSlot.value < |left| && left[repaired[k].volatileSlot.value] == k
  {
    var last, left := |volatile| - 1, SwapRemove(volatile, slot);
    var repaired := RepairVolatile(after, left, slot);
    assert entries[volatile[last]].volatileSlot == Some(last);
    forall k | k in repaired && repaired[k].volatileSlot.Some?
      ensures repaired[k].volatileSlot.value < |left| && left[repaired[k].volatileSlot.value] == k
    {
      if k != key && entries[k].volatileSlot == Some(last) {
        assert k == volatile[last];
      }
    }
  }

  lemma SlotsAgree(a: map<Bytes, Entry>, b: map<Bytes, Entry>, keys: seq<Bytes>)
    requires KeysIndexed(a, keys) && b.Keys == a.Keys && forall k | k in b :: b[k].slot == a[k].slot
    ensures KeysIndexed(b, keys)
  {
  }

  lemma DetachIndexed(entries: map<Bytes, Entry>, keys: seq<Bytes>, volatile: seq<Bytes>, key: Bytes)
    requires KeysIndexed(entries, keys) && VolatileIndexed(entries, volatile)
    requires key in entries && entries[key].volatileSlot.Some?
    ensures var slot := entries[key].volatileSlot.value;
            slot < |volatile| &&
            var left := SwapRemove(volatile, slot);
            var after := RepairVolatile(entries[key := entries[key].(volatileSlot := None)], left, slot);
            && KeysIndexed(after, keys) && VolatileIndexed(after, left) && SameContents(after, entries)
            && after[key].volatileSlot == None
            && forall k | k in after && k != key :: after[k].volatileSlot.Some? <==> entries[k].volatileSlot.Some?
  {
    var slot := entries[key].volatileSlot.value;
    var cleared := entries[key := entries[key].(volatileSlot := None)];
    RemoveVolatileIndexed(entries, volatile, cleared, key, slot);
    SlotsAgree(entries, RepairVolatile(cleared, SwapRemove(volatile, slot), slot), keys);
  }

  lemma RemoveIndexed(entries: map<Bytes, Entry>, keys: seq<Bytes>, volatile: seq<Bytes>, key: Bytes)
    requires KeysIndexed(entries, keys) && VolatileIndexed(entries, volatile) && VolatileMeansExpiry(entries) && key in entries
    ensures var slot, mark := entries[key].slot, entries[key].volatileSlot;
            slot < |keys| && (mark.Some? ==> mark.value < |volatile|) &&
            var left := SwapRemove(keys, slot);
            var repaired := RepairKeys(entries - {key}, left, slot);
            var marks := if mark.Some? then SwapRemove(volatile, mark.value) else volatile;
            var after := if mark.Some? then RepairVolatile(repaired, marks, mark.value) else repaired;
            && KeysIndexed(after, left) && VolatileIndexed(after, marks) && VolatileMeansExpiry(after)
            && SameContents(after, entries - {key})
  {
    var slot, mark := entries[key].slot, entries[key].volatileSlot;
    var left := SwapRemove(keys, slot);
    var repaired := RepairKeys(entries - {key}, left, slot);
    RemoveKeysIndexed(entries, keys, key);
    hide KeysIndexed;
    if mark.Some? {
      RemoveVolatileIndexed(entries, volatile, repaired, key, mark.value);
      SlotsAgree(repaired, RepairVolatile(repaired, SwapRemove(volatile, mark.value), mark.value), left);
    } else {
      UnmarkedRemoved(entries, repaired, volatile, key);
    }
  }

  lemma UnmarkedRemoved(entries: map<Bytes, Entry>, after: map<Bytes, Entry>, volatile: seq<Bytes>, key: Bytes)
    requires VolatileIndexed(entries, volatile) && key in entries && entries[key].volatileSlot.None?
    requires after.Keys == entries.Keys - {key} && forall k | k in after :: after[k].volatileSlot == entries[k].volatileSlot
    ensures VolatileIndexed(after, volatile)
  {
  }

  /** A list without repeats is a permutation of its elements. */
  lemma {:induction false} PermutationOf(s: seq<Bytes>, elements: set<Bytes>)
    requires forall k :: k in s <==> k in elements
    requires forall i, j | 0 <= i < j < |s| :: s[i] != s[j]
    ensures multiset(s) == multiset(elements) && |s| == |elements|
    decreases |s|
  {
    if s == [] {
      assert elements == {};
    } else {
      var last, rest := s[|s| - 1], s[..|s| - 1];
      assert s == rest + [last];
      forall k ensures k in rest <==> k in elements - {last} {
        if k in elements && k != last { assert k in s; }
        if k in rest { var i :| 0 <= i < |rest| && rest[i] == k; assert s[i] == k; }
      }
      PermutationOf(rest, elements - {last});
    }
  }
}
