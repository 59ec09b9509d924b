/** Optimistic transactions: version counters, shared by every client that watches a key and
    forgotten when the last one stops, tell each client exactly what Redis's dirty marks would. */
module Watches {
  import opened ByteStrings

  datatype Watched = Watched(version: nat, watchers: nat)

  /** A watched key and the version a client saw on beginning to watch it. */
  datatype Tracked = Tracked(key: Bytes, version: nat)

  class Watch {
    var keys: map<Bytes, Watched>

    constructor ()
      ensures keys == map[]
    {
      keys := map[];
    }

    /** Counts one more watcher of a key, and reads its version. */
    method Register(key: Bytes) returns (version: nat)
      modifies this
      ensures var entry := if key in old(keys) then old(keys)[key] else Watched(0, 0);
              version == entry.version && keys == old(keys)[key := entry.(watchers := entry.watchers + 1)]
    {
      var entry := if key in keys then keys[key] else Watched(0, 0);
      keys := keys[key := entry.(watchers := entry.watchers + 1)];
      return entry.version;
    }

    /** Drops one watcher, forgetting the key once the last one goes. The count never underflows. */
    method Unwatch(key: Bytes)
      requires key in keys ==> keys[key].watchers > 0
      modifies this
      ensures keys == if key !in old(keys) then old(keys)
                      else if old(keys)[key].watchers == 1 then old(keys) - {key}
                      else old(keys)[key := old(keys)[key].(watchers := old(keys)[key].watchers - 1)]
    {
      if key !in keys { return; }
      keys := keys[key := keys[key].(watchers := keys[key].watchers - 1)];
      if keys[key].watchers == 0 {
        keys := keys - {key};
      }
    }

    function Version(key: Bytes): Option<nat>
      reads this
    {
      if key in keys then Some(keys[key].version) else None
    }

    method Touch(key: Bytes)
      modifies this
      ensures keys == Bumped(old(keys), {key})
    {
      if key in keys {
        keys := keys[key := keys[key].(version := keys[key].version + 1)];
      }
    }

    method TouchAll()
      modifies this
      ensures keys == Bumped(old(keys), old(keys).Keys)
    {
      var left := keys.Keys;
      while left != {}
        invariant left <= keys.Keys
        invariant keys == Bumped(old(keys), old(keys).Keys - left)
        decreases left
      {
        var key :| key in left;
        keys := keys[key := keys[key].(version := keys[key].version + 1)];
        left := left - {key};
      }
    }
  }

  /** Every tracked key among `touched` carries its next version. */
  function Bumped(keys: map<Bytes, Watched>, touched: set<Bytes>): map<Bytes, Watched> {
    map k | k in keys :: if k in touched then keys[k].(version := keys[k].version + 1) else keys[k]
  }

  predicate Lists(list: seq<Tracked>, key: Bytes) {
    exists i | 0 <= i < |list| :: list[i].key == key
  }

  function Listed(list: seq<Tracked>): set<Bytes> {
    set t | t in list :: t.key
  }

  /** The clients whose list names `key`. */
  function Listers(clients: map<nat, seq<Tracked>>, key: Bytes): set<nat> {
    set id | id in clients && Lists(clients[id], key)
  }

  ghost predicate NoRepeats(list: seq<Tracked>) {
    forall i, j | 0 <= i < j < |list| :: list[i].key != list[j].key
  }

  /** Each recorded version is at most the current one, and less exactly for a dirty key. */
  ghost predicate Exact(keys: map<Bytes, Watched>, list: seq<Tracked>, dirty: set<Bytes>) {
    && NoRepeats(list)
    && dirty <= Listed(list)
    && forall t | t in list ::
         t.key in keys && t.version <= keys[t.key].version
         && (t.key in dirty <==> t.version < keys[t.key].version)
  }

  /** Every client's list is exact, and each tracked key's count is the number of clients that list
      it, never zero. */
  ghost predicate Consistent(keys: map<Bytes, Watched>, clients: map<nat, seq<Tracked>>, dirty: map<nat, set<Bytes>>) {
    && dirty.Keys == clients.Keys
    && (forall id | id in clients :: Exact(keys, clients[id], dirty[id]))
    && (forall k | k in keys :: keys[k].watchers == |Listers(clients, k)| && keys[k].watchers > 0)
  }

  /** The registry with all its clients. `dirty` is the reference: the marks Redis would keep, set by
      a write on every client watching the key, cleared when the client stops watching. */
  class Registry {
    const watch: Watch
    var clients: map<nat, seq<Tracked>>
    ghost var dirty: map<nat, set<Bytes>>

    ghost predicate Valid()
      reads this, watch
    {
      Consistent(watch.keys, clients, dirty)
    }

    constructor ()
      ensures Valid() && clients == map[] && fresh(watch)
    {
      watch := new Watch();
      clients, dirty := map[], map[];
    }

    method Connect(id: nat)
      requires Valid() && id !in clients
      modifies this
      ensures Valid() && clients == old(clients)[id := []] && dirty == old(dirty)[id := {}]
    {
      ghost var before := clients;
      clients, dirty := clients[id := []], dirty[id := {}];
      forall k ensures Listers(clients, k) == Listers(before, k) {
      }
    }

    /** Puts a key on a client's list, unless it is there already: the first reading stands. */
    method WatchOne(id: nat, key: Bytes)
      requires Valid() && id in clients
      modifies this, watch
      ensures Valid() && clients.Keys == old(clients).Keys && dirty == old(dirty)
      ensures Listed(clients[id]) == Listed(old(clients)[id]) + {key}
      ensures forall other | other in clients && other != id :: clients[other] == old(clients)[other]
    {
      hide Consistent;
      if Lists(clients[id], key) {
        ListedWhenLists(clients[id], key);
        return;
      }
      WatchStep(watch.keys, clients, dirty, id, key);
      ghost var list := clients[id];
      var version := watch.Register(key);
      clients := clients[id := clients[id] + [Tracked(key, version)]];
      assert Listed(list + [Tracked(key, version)]) == Listed(list) + {key} by { ListedAppend(list, Tracked(key, version)); }
    }

    /** Drops the first key of a client's list. */
    method DropOne(id: nat)
      requires Valid() && id in clients && clients[id] != []
      modifies this, watch
      ensures Valid() && clients == old(clients)[id := old(clients)[id][1..]]
      ensures dirty == old(dirty)[id := old(dirty)[id] - {old(clients)[id][0].key}]
    {
      DropStep(watch.keys, clients, dirty, id);
      hide Consistent, Listers;
      var t := clients[id][0];
      watch.Unwatch(t.key);
      clients := clients[id := clients[id][1..]];
      dirty := dirty[id := dirty[id] - {t.key}];
    }

    /** UNWATCH, DISCARD, EXEC and a hang-up all empty the list, entry by entry. */
    method UnwatchAll(id: nat)
      requires Valid() && id in clients
      modifies this, watch
      ensures Valid() && clients == old(clients)[id := []] && dirty == old(dirty)[id := {}]
    {
      hide Consistent;
      assert clients == clients[id := clients[id]] && dirty == dirty[id := dirty[id]] by { SameKeys(); }
      while clients[id] != []
        invariant Valid() && id in clients && id in dirty
        invariant clients == old(clients)[id := clients[id]] && dirty == old(dirty)[id := dirty[id]]
        decreases |clients[id]|
      {
        DropOne(id);
      }
      NothingDirty(watch.keys, clients, dirty, id);
    }

    lemma SameKeys()
      requires Valid()
      ensures dirty.Keys == clients.Keys
    {
    }

    /** What a client watches is tracked. */
    lemma ListedAreTracked()
      requires Valid()
      ensures forall id | id in clients :: Listed(clients[id]) <= watch.keys.Keys
    {
      forall id | id in clients ensures Listed(clients[id]) <= watch.keys.Keys {
        assert Exact(watch.keys, clients[id], dirty[id]);
      }
    }

    /** A key was written: Redis would mark every client that watches it. */
    method Touch(key: Bytes)
      requires Valid()
      modifies this, watch
      ensures Valid() && clients == old(clients)
      ensures dirty == Marked(old(dirty), clients, {key})
      ensures watch.keys.Keys == old(watch.keys).Keys
    {
      watch.Touch(key);
      ghost var dirty0 := dirty;
      dirty := Marked(dirty, clients, {key});
      forall id | id in clients ensures Exact(watch.keys, clients[id], dirty[id]) {
        MarkedExact(old(watch.keys), clients[id], dirty0[id], {key});
      }
    }

    /** A flush touches every key at once. */
    method TouchAll()
      requires Valid()
      modifies this, watch
      ensures Valid() && clients == old(clients)
      ensures dirty == Marked(old(dirty), clients, old(watch.keys).Keys)
      ensures forall id | id in clients :: dirty[id] == Listed(clients[id])
    {
      watch.TouchAll();
      ghost var keys0, dirty0 := old(watch.keys), dirty;
      dirty := Marked(dirty, clients, keys0.Keys);
      forall id | id in clients
        ensures Exact(watch.keys, clients[id], dirty[id]) && dirty[id] == Listed(clients[id])
      {
        assert Exact(keys0, clients[id], dirty0[id]);
        MarkedExact(keys0, clients[id], dirty0[id], keys0.Keys);
      }
    }

    /** Compares the versions on a client's list with the present ones. */
    method WatchBroken(id: nat) returns (broken: bool)
      requires Valid() && id in clients
      ensures broken <==> dirty[id] != {}
    {
      broken := false;
      for i := 0 to |clients[id]|
        invariant !broken && forall j | 0 <= j < i :: clients[id][j].key !in dirty[id]
      {
        var t := clients[id][i];
        assert t in clients[id];
        if watch.Version(t.key) != Some(t.version) { return true; }
      }
      assert dirty[id] == {};
    }

    /** The check at the head of EXEC: it aborts exactly when some key this client watches was touched
        since the client began to watch it, and it always ends the watch. */
    method ExecCheck(id: nat) returns (broken: bool)
      requires Valid() && id in clients
      modifies this, watch
      ensures Valid() && clients == old(clients)[id := []] && dirty == old(dirty)[id := {}]
      ensures broken <==> old(dirty)[id] != {}
    {
      broken := WatchBroken(id);
      UnwatchAll(id);
    }

    /** A departing connection leaves no trace. */
    method Forget(id: nat)
      requires Valid() && id in clients
      modifies this, watch
      ensures Valid() && clients == old(clients) - {id} && dirty == old(dirty) - {id}
    {
      hide Consistent;
      UnwatchAll(id);
      ForgetStep(watch.keys, clients, dirty, id);
      clients, dirty := clients - {id}, dirty - {id};
      assert clients == old(clients) - {id};
    }

    /** The registry holds exactly the keys somebody watches. */
    lemma TracksExactlyTheWatched(key: Bytes)
      requires Valid()
      ensures key in watch.keys <==> exists id | id in clients :: Lists(clients[id], key)
    {
      if key in watch.keys {
        assert Listers(clients, key) != {};
        var id :| id in Listers(clients, key);
      }
      forall id | id in clients ensures Lists(clients[id], key) ==> key in watch.keys {
        ListedIsTracked(watch.keys, clients[id], dirty[id], key);
      }
    }
  }

  /** Redis's marks after the keys in `touched` were written. */
  ghost function Marked(dirty: map<nat, set<Bytes>>, clients: map<nat, seq<Tracked>>, touched: set<Bytes>): map<nat, set<Bytes>>
    requires dirty.Keys == clients.Keys
  {
    map id | id in dirty :: dirty[id] + (touched * Listed(clients[id]))
  }

  lemma MarkedTwice(dirty: map<nat, set<Bytes>>, clients: map<nat, seq<Tracked>>, a: set<Bytes>, b: set<Bytes>)
    requires dirty.Keys == clients.Keys
    ensures Marked(Marked(dirty, clients, a), clients, b) == Marked(dirty, clients, a + b)
    ensures Marked(dirty, clients, {}) == dirty
  {
    hide Listed;
    forall id | id in dirty
      ensures Marked(Marked(dirty, clients, a), clients, b)[id] == Marked(dirty, clients, a + b)[id]
      ensures Marked(dirty, clients, {})[id] == dirty[id]
    {
      TwiceOne(dirty[id], Listed(clients[id]), a, b);
    }
    assert Marked(Marked(dirty, clients, a), clients, b).Keys == Marked(dirty, clients, a + b).Keys == dirty.Keys;
  }

  lemma TwiceOne(d: set<Bytes>, list: set<Bytes>, a: set<Bytes>, b: set<Bytes>)
    ensures d + a * list + b * list == d + (a + b) * list
    ensures d + {} * list == d
  {
  }

  lemma MarkedExact(keys: map<Bytes, Watched>, list: seq<Tracked>, dirty: set<Bytes>, touched: set<Bytes>)
    requires Exact(keys, list, dirty)
    ensures Exact(Bumped(keys, touched), list, dirty + (touched * Listed(list)))
  {
  }

  lemma NotListed(list: seq<Tracked>, key: Bytes)
    requires !Lists(list, key)
    ensures key !in Listed(list) && forall t | t in list :: t.key != key
  {
    forall t | t in list ensures t.key != key {
      var i :| 0 <= i < |list| && list[i] == t;
    }
  }

  lemma ListedWhenLists(list: seq<Tracked>, key: Bytes)
    requires Lists(list, key)
    ensures key in Listed(list) && Listed(list) + {key} == Listed(list)
  {
    var i :| 0 <= i < |list| && list[i].key == key;
    assert list[i] in list;
  }

  lemma ListedAppend(list: seq<Tracked>, t: Tracked)
    ensures Listed(list + [t]) == Listed(list) + {t.key}
  {
    forall k ensures k in Listed(list + [t]) <==> k in Listed(list) + {t.key} {
      if k in Listed(list) { var u :| u in list && u.key == k; assert u in list + [t]; }
      assert t in list + [t];
    }
  }

  lemma ListedIsTracked(keys: map<Bytes, Watched>, list: seq<Tracked>, dirty: set<Bytes>, key: Bytes)
    requires Exact(keys, list, dirty)
    ensures Lists(list, key) ==> key in keys
  {
  }

  /** A list stays exact while its keys keep their versions. */
  lemma ExactSameVersions(keys: map<Bytes, Watched>, after: map<Bytes, Watched>, list: seq<Tracked>, dirty: set<Bytes>)
    requires Exact(keys, list, dirty)
    requires forall t | t in list :: t.key in after && after[t.key].version == keys[t.key].version
    ensures Exact(after, list, dirty)
  {
  }

  lemma ExactAppend(keys: map<Bytes, Watched>, list: seq<Tracked>, dirty: set<Bytes>, t: Tracked)
    requires Exact(keys, list, dirty) && !Lists(list, t.key)
    requires t.key in keys && t.version == keys[t.key].version
    ensures Exact(keys, list + [t], dirty)
  {
    NotListed(list, t.key);
    ListedAppend(list, t);
  }

  lemma WatchStep(keys: map<Bytes, Watched>, clients: map<nat, seq<Tracked>>, dirty: map<nat, set<Bytes>>, id: nat, key: Bytes)
    requires Consistent(keys, clients, dirty) && id in clients && !Lists(clients[id], key)
    ensures var entry := if key in keys then keys[key] else Watched(0, 0);
            Consistent(keys[key := entry.(watchers := entry.watchers + 1)],
                       clients[id := clients[id] + [Tracked(key, entry.version)]], dirty)
  {
    hide Exact, Lists, Listed;
    var entry := if key in keys then keys[key] else Watched(0, 0);
    var t := Tracked(key, entry.version);
    var keys', clients' := keys[key := entry.(watchers := entry.watchers + 1)], clients[id := clients[id] + [t]];
    ListersGrow(clients, id, t);
    forall other | other in clients
      ensures Exact(keys', clients[other], dirty[other])
      ensures key !in keys ==> other !in Listers(clients, key)
    {
      ListedIsTracked(keys, clients[other], dirty[other], key);
      SameVersionsElsewhere(keys, keys', clients[other], dirty[other], key);
      ExactSameVersions(keys, keys', clients[other], dirty[other]);
    }
    if key !in keys { assert Listers(clients, key) == {}; }
    ExactAppend(keys', clients[id], dirty[id], t);
  }

  lemma SameVersionsElsewhere(keys: map<Bytes, Watched>, after: map<Bytes, Watched>, list: seq<Tracked>, dirty: set<Bytes>, key: Bytes)
    requires Exact(keys, list, dirty) && keys.Keys <= after.Keys
    requires forall k | k in keys :: after[k].version == keys[k].version
    ensures forall t | t in list :: t.key in after && after[t.key].version == keys[t.key].version
  {
  }

  lemma DropStep(keys: map<Bytes, Watched>, clients: map<nat, seq<Tracked>>, dirty: map<nat, set<Bytes>>, id: nat)
    requires Consistent(keys, clients, dirty) && id in clients && clients[id] != []
    ensures var key := clients[id][0].key;
            && key in keys && keys[key].watchers > 0
            && Consistent(if keys[key].watchers == 1 then keys - {key}
                          else keys[key := keys[key].(watchers := keys[key].watchers - 1)],
                          clients[id := clients[id][1..]], dirty[id := dirty[id] - {key}])
  {
    hide Lists, Listed, Exact;
    var list := clients[id];
    var key := list[0].key;
    TailExact(keys, list, dirty[id]);
    ListersShrink(clients, id);
    var keys' := if keys[key].watchers == 1 then keys - {key} else keys[key := keys[key].(watchers := keys[key].watchers - 1)];
    ExactSameVersions(keys, keys', list[1..], dirty[id] - {key});
    forall other | other in clients && other != id ensures Exact(keys', clients[other], dirty[other]) {
      ListsTogether(keys, clients, dirty, id, other);
      ExactSameVersions(keys, keys', clients[other], dirty[other]);
    }
  }

  /** Another client's keys stay tracked when `id` drops its first: if they share it, it has at least
      two watchers. */
  lemma ListsTogether(keys: map<Bytes, Watched>, clients: map<nat, seq<Tracked>>, dirty: map<nat, set<Bytes>>, id: nat, other: nat)
    requires Consistent(keys, clients, dirty) && id in clients && clients[id] != [] && other in clients && other != id
    ensures forall t | t in clients[other] :: t.key in keys && (t.key == clients[id][0].key ==> keys[t.key].watchers >= 2)
  {
    hide Listers;
    assert Exact(keys, clients[other], dirty[other]);
    forall t | t in clients[other] && t.key == clients[id][0].key ensures keys[t.key].watchers >= 2 {
      assert clients[id][0] in clients[id];
      TwoListers(clients, id, other, t.key);
    }
  }

  lemma ForgetStep(keys: map<Bytes, Watched>, clients: map<nat, seq<Tracked>>, dirty: map<nat, set<Bytes>>, id: nat)
    requires Consistent(keys, clients, dirty) && id in clients && clients[id] == []
    ensures Consistent(keys, clients - {id}, dirty - {id})
  {
    hide Exact;
    forall k ensures Listers(clients - {id}, k) == Listers(clients, k) {
    }
  }

  lemma NothingDirty(keys: map<Bytes, Watched>, clients: map<nat, seq<Tracked>>, dirty: map<nat, set<Bytes>>, id: nat)
    requires Consistent(keys, clients, dirty) && id in clients && clients[id] == []
    ensures dirty[id] == {}
  {
    assert Exact(keys, clients[id], dirty[id]);
  }

  lemma ListersGrow(clients: map<nat, seq<Tracked>>, id: nat, t: Tracked)
    requires id in clients && !Lists(clients[id], t.key)
    ensures var after := clients[id := clients[id] + [t]];
            && |Listers(after, t.key)| == |Listers(clients, t.key)| + 1
            && forall k | k != t.key :: Listers(after, k) == Listers(clients, k)
  {
    var list := clients[id] + [t];
    var after := clients[id := list];
    forall k ensures Lists(list, k) <==> k == t.key || Lists(clients[id], k) {
      if k == t.key { assert list[|list| - 1].key == k; }
      if Lists(clients[id], k) {
        var i :| 0 <= i < |clients[id]| && clients[id][i].key == k;
        assert list[i].key == k;
      }
    }
    assert Listers(after, t.key) == Listers(clients, t.key) + {id};
  }

  lemma ListersShrink(clients: map<nat, seq<Tracked>>, id: nat)
    requires id in clients && clients[id] != [] && NoRepeats(clients[id])
    ensures var t, after := clients[id][0], clients[id := clients[id][1..]];
            && id in Listers(clients, t.key)
            && |Listers(after, t.key)| == |Listers(clients, t.key)| - 1
            && forall k | k != t.key :: Listers(after, k) == Listers(clients, k)
  {
    var list, t := clients[id], clients[id][0];
    var rest, after := list[1..], clients[id := list[1..]];
    forall k ensures Lists(rest, k) <==> k != t.key && Lists(list, k) {
      if Lists(rest, k) {
        var i :| 0 <= i < |rest| && rest[i].key == k;
        assert list[i + 1].key == k;
      }
      if k != t.key && Lists(list, k) {
        var i :| 0 <= i < |list| && list[i].key == k;
        assert rest[i - 1].key == k;
      }
    }
    assert list[0].key == t.key;
    assert Listers(after, t.key) == Listers(clients, t.key) - {id};
  }

  lemma TwoListers(clients: map<nat, seq<Tracked>>, a: nat, b: nat, key: Bytes)
    requires a in clients && b in clients && a != b
    requires exists t | t in clients[a] :: t.key == key
    requires exists t | t in clients[b] :: t.key == key
    ensures |Listers(clients, key)| >= 2
  {
    forall id | id in {a, b} ensures Lists(clients[id], key) {
      var t :| t in clients[id] && t.key == key;
      var i :| 0 <= i < |clients[id]| && clients[id][i] == t;
    }
    assert {a, b} <= Listers(clients, key);
    var rest := Listers(clients, key) - {a, b};
    assert Listers(clients, key) == {a, b} + rest;
  }

  lemma TailExact(keys: map<Bytes, Watched>, list: seq<Tracked>, dirty: set<Bytes>)
    requires Exact(keys, list, dirty) && list != []
    ensures Exact(keys, list[1..], dirty - {list[0].key}) && NoRepeats(list) && list[0].key in keys
    ensures forall u | u in list[1..] :: u.key in keys
    ensures forall u | u in list[1..] :: u.key != list[0].key
  {
    var rest := list[1..];
    assert list == [list[0]] + rest;
    forall u | u in rest ensures u.key != list[0].key && u in list {
      var i :| 0 <= i < |rest| && rest[i] == u;
      assert list[i + 1] == u;
    }
    forall i, j | 0 <= i < j < |rest| ensures rest[i].key != rest[j].key {
      assert rest[i] == list[i + 1] && rest[j] == list[j + 1];
    }
    forall k | k in dirty - {list[0].key} ensures k in Listed(rest) {
      var t :| t in list && t.key == k;
      assert t in rest;
    }
  }
}
