/** Saving the keyspace to a dump and loading it back. */
module Persistence {
  import opened ByteStrings
  import Resp
  import opened Values
  import opened Dumps
  import opened DumpFiles
  import St = Stores

  /** Nanoseconds in a millisecond: deadlines are kept in the one and dumped in the other. */
  const MILLI: int := 1_000_000

  // ------------------------------------------------------------------
  // What a dump's listings stand for

  function MapOf<K, V>(pairs: seq<(K, V)>): map<K, V> {
    if pairs == [] then map[] else MapOf(pairs[..|pairs| - 1])[pairs[|pairs| - 1].0 := pairs[|pairs| - 1].1]
  }

  lemma MapOfMore<K, V>(pairs: seq<(K, V)>, pair: (K, V))
    ensures MapOf(pairs + [pair]) == MapOf(pairs)[pair.0 := pair.1]
  {
    assert (pairs + [pair])[..|pairs|] == pairs;
  }

  function ListedVector(reading: Reading, config: Config, vector: Option<Bytes>): Option<Bytes> {
    if vector.Some? && config.mode != Search && |vector.value| / 4 == config.dim then
      Some(if config.metric == Cosine then reading.normalized(vector.value) else vector.value)
    else None
  }

  function RecordOf(reading: Reading, config: Config, r: ListedRecord): Record {
    Record(r.id, r.text, MapOf(r.meta), r.importance, r.created * MILLI, r.updated * MILLI,
           if r.expireAt.Some? then Some(r.expireAt.value * MILLI) else None,
           ListedVector(reading, config, r.vector))
  }

  /** A record as it is loaded: times in nanoseconds, and its vector only if the index holds vectors of that width,
      scaled under the cosine metric. */
  lemma RecordLoaded(reading: Reading, config: Config, r: ListedRecord)
    ensures var l := RecordOf(reading, config, r);
            && l.id == r.id && l.text == r.text && l.importance == r.importance
            && l.createdAt == r.created * 1_000_000 && l.updatedAt == r.updated * 1_000_000
            && l.expireAt == (if r.expireAt.Some? then Some(r.expireAt.value * 1_000_000) else None)
            && (l.vector.Some? <==>
                  r.vector.Some? && (config.mode == Vector || config.mode == Hybrid) && |r.vector.value| / 4 == config.dim)
            && (l.vector.Some? ==>
                  l.vector.value == if config.metric == Cosine then reading.normalized(r.vector.value) else r.vector.value)
  {
  }

  function RecordsOf(reading: Reading, config: Config, records: seq<ListedRecord>): map<Bytes, Record> {
    if records == [] then map[]
    else
      var last := records[|records| - 1];
      RecordsOf(reading, config, records[..|records| - 1])[last.id := RecordOf(reading, config, last)]
  }

  /** The value a listing stands for. */
  function ValueOf(reading: Reading, l: Listing): Value {
    match l
    case AsString(text) => Str(text)
    case AsList(items) => ListOf(items)
    case AsSet(items) => SetOf(set x | x in items)
    case AsHash(pairs) => HashOf(MapOf(pairs))
    case AsZset(scored) => ZsetOf(MapOf(scored))
    case AsMemory(config, nextId, records) => MemoryOf(Memory(config, RecordsOf(reading, config, records), nextId))
  }

  // ------------------------------------------------------------------
  // What a value comes back as

  /** A moment in whole milliseconds; none before the epoch. */
  function Millis(at: int): nat {
    if at < 0 then 0 else at / MILLI
  }

  function Whole(at: int): nat {
    Millis(at) * MILLI
  }

  function SavedRecord(r: Record): Record {
    r.(createdAt := Whole(r.createdAt), updatedAt := Whole(r.updatedAt),
       expireAt := if r.expireAt.Some? then Some(Whole(r.expireAt.value)) else None)
  }

  function SavedRecords(records: map<Bytes, Record>, now: int): map<Bytes, Record> {
    map id | id in records && St.IsLive(records[id].expireAt, now) :: SavedRecord(records[id])
  }

  /** A value as a dump made at `now` keeps it: a memory index loses the records that have expired and
      the fractions of a millisecond of those that have not; every other value is kept whole. */
  function Saved(v: Value, now: int): Value {
    if v.MemoryOf? then MemoryOf(v.memory.(records := SavedRecords(v.memory.records, now))) else v
  }

  /** A key's deadline in a dump made at `now`: the milliseconds on the clock and the milliseconds
      left, each rounded down. */
  function DeadlineMillis(expireAt: Option<int>, now: int): int {
    if expireAt.None? then -1 else now / MILLI + (expireAt.value - now) / MILLI
  }

  function Restored(expireAt: Option<int>, now: int): Option<int> {
    if expireAt.None? then None else Some(DeadlineMillis(expireAt, now) * MILLI)
  }

  /** A deadline comes back in the millisecond it was in, or in the one before if the clock was
      further into its millisecond than the deadline is into its own. */
  lemma RestoredToTheMillisecond(deadline: int, now: int)
    requires 0 <= now < deadline
    ensures var restored := Restored(Some(deadline), now).value;
            restored == (if now % MILLI <= deadline % MILLI then deadline / MILLI else deadline / MILLI - 1) * MILLI
  {
    assert deadline == MILLI * (deadline / MILLI) + deadline % MILLI;
    assert now == MILLI * (now / MILLI) + now % MILLI;
  }

  /** Loaded on the very clock it was saved at, a key survives exactly when it had a whole
      millisecond left. */
  lemma SurvivesWithAMillisecondLeft(deadline: int, now: int)
    requires 0 <= now < deadline
    ensures St.IsLive(Restored(Some(deadline), now), now) <==> deadline - now >= MILLI
  {
  }

  /** So a live key's deadline can slip by a millisecond, and a live key can be lost. */
  lemma DeadlinesCanSlip()
    ensures Millis(Restored(Some(3_500_000), 1_600_000).value) == 2 != Millis(3_500_000)
    ensures St.IsLive(Some(500_000), 0) && !St.IsLive(Restored(Some(500_000), 0), 0)
  {
  }

  /** The keyspace a dump of `view` made at `now` restores at `later`. */
  function Reloaded(view: St.View, now: int, later: int): St.View {
    map k | k in view && St.IsLive(view[k].expireAt, now) && St.IsLive(Restored(view[k].expireAt, now), later) ::
      St.Item(Saved(view[k].value, now), Restored(view[k].expireAt, now))
  }

  // ------------------------------------------------------------------
  // What can be dumped

  predicate StorableRecord(reading: Reading, config: Config, id: Bytes, r: Record) {
    && r.id == id
    && Printed(reading.float, r.importance) && reading.clamp(r.importance) == r.importance
    && Millis(r.createdAt) <= I64_MAX && Millis(r.updatedAt) <= I64_MAX
    && (r.expireAt.Some? ==> Millis(r.expireAt.value) <= I64_MAX)
    && (r.vector.Some? ==>
          && config.mode != Search && config.dim > 0
          && |r.vector.value| == 4 * config.dim && reading.finite(r.vector.value)
          && (config.metric == Cosine ==> reading.normalized(r.vector.value) == r.vector.value))
  }

  /** The numbers in a value print and parse, fit 64 bits, and are what the server would have stored. */
  predicate Storable(reading: Reading, v: Value) {
    match v
    case ZsetOf(scores) => forall m | m in scores :: Printed(reading.score, scores[m])
    case MemoryOf(memory) =>
      && ProperConfig(reading, memory.config) && memory.nextId > 0
      && forall id | id in memory.records :: StorableRecord(reading, memory.config, id, memory.records[id])
    case _ => true
  }

  predicate AllStorable(reading: Reading, view: St.View) {
    forall k | k in view ::
      && Storable(reading, view[k].value) && !IsEmptyCollection(view[k].value)
      && (view[k].expireAt.Some? ==> view[k].expireAt.value / MILLI <= I64_MAX)
  }

  // ------------------------------------------------------------------
  // Listing values

  /** A set's members, in some order. */
  method ListMembers(members: set<Bytes>) returns (items: seq<Bytes>)
    ensures (set x | x in items) == members
  {
    items := [];
    var left := members;
    while left != {}
      invariant left <= members && forall x :: x in items <==> x in members && x !in left
      decreases left
    {
      var member :| member in left;
      left := left - {member};
      items := items + [member];
    }
  }

  /** A map's pairs, in some order. */
  method ListPairs<V>(m: map<Bytes, V>) returns (pairs: seq<(Bytes, V)>)
    ensures MapOf(pairs) == m
    ensures forall i | 0 <= i < |pairs| :: pairs[i].0 in m && pairs[i].1 == m[pairs[i].0]
  {
    pairs := [];
    var left := m.Keys;
    while left != {}
      invariant left <= m.Keys && MapOf(pairs) == m - left
      invariant forall i | 0 <= i < |pairs| :: pairs[i].0 in m && pairs[i].1 == m[pairs[i].0]
      decreases left
    {
      var k :| k in left;
      MapOfMore(pairs, (k, m[k]));
      left := left - {k};
      pairs := pairs + [(k, m[k])];
    }
  }

  /** A record as the dump spells it. */
  method ListRecord(reading: Reading, config: Config, id: Bytes, r: Record) returns (l: ListedRecord)
    requires StorableRecord(reading, config, id, r)
    ensures l.id == id && RecordOf(reading, config, l) == SavedRecord(r) && ProperRecord(reading, l)
  {
    hide Printed;
    var meta := ListPairs(r.meta);
    l := ListedRecord(r.id, r.text, Millis(r.createdAt), Millis(r.updatedAt), r.importance,
                      if r.expireAt.Some? then Some(Millis(r.expireAt.value)) else None, meta, r.vector);
  }

  lemma RecordsOfMore(reading: Reading, config: Config, records: seq<ListedRecord>, r: ListedRecord)
    ensures RecordsOf(reading, config, records + [r]) == RecordsOf(reading, config, records)[r.id := RecordOf(reading, config, r)]
  {
    assert (records + [r])[..|records|] == records;
  }

  /** A memory index's live records, in some order. */
  method ListRecords(reading: Reading, config: Config, records: map<Bytes, Record>, now: int) returns (listed: seq<ListedRecord>)
    requires forall id | id in records :: StorableRecord(reading, config, id, records[id])
    ensures RecordsOf(reading, config, listed) == SavedRecords(records, now)
    ensures forall i | 0 <= i < |listed| :: ProperRecord(reading, listed[i])
  {
    hide StorableRecord, ProperRecord, RecordOf, SavedRecord, SavedRecords, RecordsOf;
    listed := [];
    var left := set id | id in records && St.IsLive(records[id].expireAt, now);
    SavedAre(reading, config, records, now);
    NoneLeft(SavedRecords(records, now));
    while left != {}
      invariant left <= SavedRecords(records, now).Keys && SavedRecords(records, now).Keys <= records.Keys
      invariant RecordsOf(reading, config, listed) == SavedRecords(records, now) - left
      invariant forall i | 0 <= i < |listed| :: ProperRecord(reading, listed[i])
      decreases left
    {
      var id :| id in left;
      var r := ListRecord(reading, config, id, records[id]);
      RecordsOfMore(reading, config, listed, r);
      OneLess(SavedRecords(records, now), left, id);
      left := left - {id};
      listed := listed + [r];
    }
    AllLeft(SavedRecords(records, now));
  }

  lemma SavedAre(reading: Reading, config: Config, records: map<Bytes, Record>, now: int)
    ensures SavedRecords(records, now).Keys == set id | id in records && St.IsLive(records[id].expireAt, now)
    ensures forall id | id in SavedRecords(records, now) :: SavedRecords(records, now)[id] == SavedRecord(records[id])
    ensures RecordsOf(reading, config, []) == map[]
  {
    hide SavedRecord;
  }

  lemma NoneLeft<V>(m: map<Bytes, V>)
    ensures m - m.Keys == map[]
  {
  }

  lemma AllLeft<V>(m: map<Bytes, V>)
    ensures m - {} == m
  {
  }

  lemma OneLess<V>(m: map<Bytes, V>, left: set<Bytes>, id: Bytes)
    requires id in left && id in m
    ensures (m - left)[id := m[id]] == m - (left - {id})
  {
  }

  /** A listing that stands for what a dump keeps of `v`. */
  method List(reading: Reading, v: Value, now: int) returns (l: Listing)
    requires Storable(reading, v)
    ensures ValueOf(reading, l) == Saved(v, now) && ProperListing(reading, l)
  {
    hide Printed, ProperConfig, StorableRecord, ProperRecord, RecordsOf, SavedRecord;
    match v
    case Str(text) => l := AsString(text);
    case ListOf(items) => l := AsList(items);
    case SetOf(members) =>
      var items := ListMembers(members);
      l := AsSet(items);
    case HashOf(fields) =>
      var pairs := ListPairs(fields);
      l := AsHash(pairs);
    case ZsetOf(scores) =>
      var scored := ListPairs(scores);
      l := AsZset(scored);
    case MemoryOf(memory) =>
      var records := ListRecords(reading, memory.config, memory.records, now);
      l := AsMemory(memory.config, memory.nextId, records);
  }

  // ------------------------------------------------------------------
  // Saving

  /** `entries` lists exactly the live keys of `view`, each once, as a dump made at `now` keeps them. */
  ghost predicate ListsKeys(reading: Reading, entries: seq<Entry>, view: St.View, keys: set<Bytes>, now: int) {
    && (forall i | 0 <= i < |entries| ::
          && entries[i].key in keys && entries[i].key in view
          && ValueOf(reading, entries[i].listing) == Saved(view[entries[i].key].value, now)
          && entries[i].expireAt == DeadlineMillis(view[entries[i].key].expireAt, now))
    && (forall i, j | 0 <= i < j < |entries| :: entries[i].key != entries[j].key)
    && (forall k | k in keys :: exists i | 0 <= i < |entries| :: entries[i].key == k)
  }

  lemma ListsMore(reading: Reading, entries: seq<Entry>, view: St.View, keys: set<Bytes>, now: int, e: Entry)
    requires ListsKeys(reading, entries, view, keys, now)
    requires e.key !in keys && e.key in view && ValueOf(reading, e.listing) == Saved(view[e.key].value, now)
    requires e.expireAt == DeadlineMillis(view[e.key].expireAt, now)
    ensures ListsKeys(reading, entries + [e], view, keys + {e.key}, now)
  {
    hide ValueOf, Saved, DeadlineMillis;
    var more := entries + [e];
    forall k | k in keys + {e.key} ensures exists i | 0 <= i < |more| :: more[i].key == k {
      if k == e.key {
        assert more[|entries|].key == k;
      } else {
        var i :| 0 <= i < |entries| && entries[i].key == k;
        assert more[i].key == k;
      }
    }
  }

  lemma {:induction false} EntriesTextMore(entries: seq<Entry>, e: Entry)
    requires Weighted(entries + [e])
    ensures Weighted(entries) && Weighted([e]) && (e.listing.AsMemory? ==> |e.listing.config.weights| == 4)
    ensures EntriesText(entries + [e]) == EntriesText(entries) + EntryText(e)
    decreases |entries|
  {
    hide EntryText;
    assert (entries + [e])[|entries|] == e;
    assert forall i | 0 <= i < |entries| :: (entries + [e])[i] == entries[i];
    if entries == [] {
      assert entries + [e] == [e] && [e][1..] == [];
    } else {
      assert (entries + [e])[1..] == entries[1..] + [e];
      EntriesTextMore(entries[1..], e);
      TextsJoined(EntryText(entries[0]), EntriesText(entries[1..]), EntryText(e));
    }
  }

  lemma TextsJoined(a: Bytes, b: Bytes, c: Bytes)
    ensures a + (b + c) == (a + b) + c
  {
  }

  lemma ProperMore(reading: Reading, entries: seq<Entry>, e: Entry)
    requires Proper(reading, entries) && ProperListing(reading, e.listing) && I64_MIN <= e.expireAt <= I64_MAX
    ensures Proper(reading, entries + [e]) && Weighted(entries + [e])
  {
    hide ProperListing;
    ProperIsWeighted(reading, entries + [e]);
  }

  /** `bytes` is the dump of `entries`, which list the given keys. */
  ghost predicate IsDump(reading: Reading, bytes: Bytes, entries: seq<Entry>, view: St.View, keys: set<Bytes>, now: int) {
    && Proper(reading, entries) && Weighted(entries) && bytes == DumpText(entries)
    && ListsKeys(reading, entries, view, keys, now)
  }

  lemma DumpsNothing(reading: Reading, view: St.View, now: int)
    ensures IsDump(reading, Magic() + [LF], [], view, {}, now)
  {
    assert Magic() + [LF] + [] == Magic() + [LF];
  }

  lemma DumpsMore(reading: Reading, bytes: Bytes, entries: seq<Entry>, view: St.View, keys: set<Bytes>, now: int, e: Entry)
    requires IsDump(reading, bytes, entries, view, keys, now) && Describes(reading, e, view, now)
    requires e.key !in keys
    ensures e.listing.AsMemory? ==> |e.listing.config.weights| == 4
    ensures IsDump(reading, bytes + EntryText(e), entries + [e], view, keys + {e.key}, now)
  {
    hide ProperListing, EntriesText, EntryText, Magic, ValueOf, Saved, DeadlineMillis, ListsKeys, Proper, Weighted;
    ProperMore(reading, entries, e);
    EntriesTextMore(entries, e);
    ListsMore(reading, entries, view, keys, now, e);
    assert Magic() + [LF] + EntriesText(entries) + EntryText(e) == Magic() + [LF] + (EntriesText(entries) + EntryText(e));
  }

  /** `e` is what a dump made at `now` says of its key. */
  predicate Describes(reading: Reading, e: Entry, view: St.View, now: int) {
    && e.key in view
    && ValueOf(reading, e.listing) == Saved(view[e.key].value, now)
    && e.expireAt == DeadlineMillis(view[e.key].expireAt, now)
    && ProperListing(reading, e.listing) && I64_MIN <= e.expireAt <= I64_MAX
    && (e.listing.AsMemory? ==> |e.listing.config.weights| == 4)
  }

  /** Writes every live key, its value and its deadline. */
  method Save(reading: Reading, store: St.Store, now: int) returns (bytes: Bytes, ghost entries: seq<Entry>)
    requires store.Valid() && AllStorable(reading, store.View()) && now >= 0
    modifies store
    ensures store.Valid() && store.View() == old(store.View())
    ensures IsDump(reading, bytes, entries, store.View(), St.Living(store.View(), now).Keys, now)
  {
    hide AllStorable, IsDump, Describes, St.Store.Valid, Magic;
    var writer := new DumpWriter();
    writer.Write(Magic());
    writer.Write([LF]);
    entries := [];
    ghost var view, live := store.View(), St.Living(store.View(), now).Keys;
    DumpsNothing(reading, view, now);
    var left := set k | k in store.entries && St.IsLive(store.entries[k].expireAt, now);
    assert left == live;
    assert live - left == {} && writer.out == Magic() + [LF];
    while left != {}
      invariant store.Valid() && store.View() == view && left <= live
      invariant fresh(writer) && IsDump(reading, writer.out, entries, view, live - left, now)
      decreases left
    {
      var key :| key in left;
      ghost var before := writer.out;
      ghost var e := SaveKey(reading, store, writer, key, now);
      DumpsMore(reading, before, entries, view, live - left, now, e);
      assert live - left + {key} == live - (left - {key});
      left := left - {key};
      entries := entries + [e];
    }
    assert live - left == live;
    bytes := writer.out;
  }

  method SaveKey(reading: Reading, store: St.Store, writer: DumpWriter, key: Bytes, now: int) returns (ghost e: Entry)
    requires store.Valid() && key in store.View() && St.IsLive(store.View()[key].expireAt, now)
    requires AllStorable(reading, store.View()) && now >= 0
    modifies store, writer
    ensures store.Valid() && store.View() == old(store.View())
    ensures e.key == key && Describes(reading, e, store.View(), now)
    ensures (e.listing.AsMemory? ==> |e.listing.config.weights| == 4) && writer.out == old(writer.out) + EntryText(e)
  {
    hide ValueOf, Saved, ProperListing, AllStorable, DeadlineMillis, EntryText, St.KeysIndexed, St.VolatileIndexed;
    var found := store.Find(key, now);
    assert store.View().Keys == store.entries.Keys;
    assert store.View()[key].expireAt == store.entries[key].expireAt;
    var listed := ListKey(reading, store, key, now);
    writer.Put(listed);
    e := listed;
  }

  method ListKey(reading: Reading, store: St.Store, key: Bytes, now: int) returns (e: Entry)
    requires store.Valid() && key in store.entries && St.IsLive(store.entries[key].expireAt, now)
    requires AllStorable(reading, store.View()) && now >= 0
    ensures e.key == key && Describes(reading, e, store.View(), now)
  {
    hide ValueOf, Saved, Storable, St.KeysIndexed, St.VolatileIndexed;
    var entry := store.entries[key];
    assert store.View()[key] == St.Item(entry.value, entry.expireAt);
    var l := List(reading, entry.value, now);
    var ttl := if entry.expireAt.Some? then (entry.expireAt.value - now) / MILLI else -1;
    e := Entry(key, l, if ttl < 0 then -1 else now / MILLI + ttl);
  }

  // ------------------------------------------------------------------
  // Loading

  /** A listing added to a value already at its key, or `None` where it does not apply. */
  function Extended(v: Value, l: Listing): Option<Value> {
    match (v, l)
    case (ListOf(items), AsList(more)) => Some(ListOf(items + more))
    case (SetOf(members), AsSet(more)) => Some(SetOf(members + set x | x in more))
    case (HashOf(fields), AsHash(more)) => Some(HashOf(fields + MapOf(more)))
    case (ZsetOf(scores), AsZset(more)) => Some(ZsetOf(scores + MapOf(more)))
    case _ => None
  }

  /** An entry's value put at its key: a string over whatever is there, a collection onto its kind. */
  function Placed(reading: Reading, view: St.View, e: Entry, now: int): St.View {
    if e.listing.AsString? then view[e.key := St.Item(Str(e.listing.text), None)]
    else
      var looked := St.Expired(view, e.key, now);
      if e.key !in looked then looked[e.key := St.Item(ValueOf(reading, e.listing), None)]
      else
        match Extended(looked[e.key].value, e.listing)
        case Some(v) => looked[e.key := looked[e.key].(value := v)]
        case None => looked
  }

  function Dated(view: St.View, e: Entry, now: int): St.View {
    var looked := St.Expired(view, e.key, now);
    if e.expireAt >= 0 && e.key in looked then looked[e.key := looked[e.key].(expireAt := Some(e.expireAt * MILLI))]
    else if e.expireAt >= 0 then looked
    else view
  }

  function Pruned(view: St.View, e: Entry, now: int): St.View {
    var looked := St.Expired(view, e.key, now);
    if e.key in looked && IsEmptyCollection(looked[e.key].value) then looked - {e.key} else looked
  }

  function Installed(reading: Reading, view: St.View, e: Entry, now: int): St.View {
    Pruned(Dated(Placed(reading, view, e, now), e, now), e, now)
  }

  function AllInstalled(reading: Reading, view: St.View, entries: seq<Entry>, now: int): St.View {
    if entries == [] then view
    else Installed(reading, AllInstalled(reading, view, entries[..|entries| - 1], now), entries[|entries| - 1], now)
  }

  /** Of pairs that name one key the last counts. */
  lemma {:induction false} LastPairCounts<K, V>(pairs: seq<(K, V)>, i: nat)
    requires i < |pairs| && forall j | i < j < |pairs| :: pairs[j].0 != pairs[i].0
    ensures pairs[i].0 in MapOf(pairs) && MapOf(pairs)[pairs[i].0] == pairs[i].1
    decreases |pairs|
  {
    if i < |pairs| - 1 { LastPairCounts(pairs[..|pairs| - 1], i); }
  }

  /** Loading onto a key that holds something: a string takes its place; a list is appended, members are added, pairs
      overwrite; anything of another kind changes nothing. */
  lemma LoadedOnto(reading: Reading, view: St.View, e: Entry, now: int)
    requires e.key in view && view[e.key].expireAt.None? && !IsEmptyCollection(view[e.key].value) && e.expireAt < 0
    ensures var v, after := view[e.key].value, Installed(reading, view, e, now);
            && e.key in after && after == view[e.key := after[e.key]] && after[e.key].expireAt.None?
            && var w := after[e.key].value;
            && (e.listing.AsString? ==> w == Str(e.listing.text))
            && (v.ListOf? && e.listing.AsList? ==> w == ListOf(v.items + e.listing.items))
            && (v.SetOf? && e.listing.AsSet? ==> w.SetOf? && forall x :: x in w.members <==> x in v.members || x in e.listing.items)
            && (v.HashOf? && e.listing.AsHash? ==>
                  w.HashOf? && forall f | f in v.fields || f in MapOf(e.listing.pairs) ::
                    f in w.fields && w.fields[f] == if f in MapOf(e.listing.pairs) then MapOf(e.listing.pairs)[f] else v.fields[f])
            && (v.ZsetOf? && e.listing.AsZset? ==>
                  w.ZsetOf? && forall m | m in v.scores || m in MapOf(e.listing.scored) ::
                    m in w.scores && w.scores[m] == if m in MapOf(e.listing.scored) then MapOf(e.listing.scored)[m] else v.scores[m])
            && (!e.listing.AsString? && !SameKind(v, e.listing) ==> w == v)
  {
    hide MapOf, ValueOf;
  }

  predicate SameKind(v: Value, l: Listing) {
    || (v.ListOf? && l.AsList?) || (v.SetOf? && l.AsSet?) || (v.HashOf? && l.AsHash?) || (v.ZsetOf? && l.AsZset?)
  }

  method Place(reading: Reading, store: St.Store, e: Entry, now: int)
    requires store.Valid()
    modifies store
    ensures store.Valid() && store.View() == Placed(reading, old(store.View()), e, now)
  {
    hide St.KeysIndexed, St.VolatileIndexed, ValueOf, Extended;
    if e.listing.AsString? {
      store.SetString(e.key, e.listing.text);
      return;
    }
    var found := store.Find(e.key, now);
    assert store.View().Keys == store.entries.Keys;
    if found {
      assert store.View()[e.key].value == store.entries[e.key].value;
      var v := Extended(store.entries[e.key].value, e.listing);
      if v.Some? { store.Overwrite(e.key, v.value); }
    } else {
      store.InsertEntry(e.key, St.Entry(ValueOf(reading, e.listing), None, 0, None, St.Access(store.clock, 5)));
    }
  }

  method Install(reading: Reading, store: St.Store, e: Entry, now: int)
    requires store.Valid()
    modifies store
    ensures store.Valid() && store.View() == Installed(reading, old(store.View()), e, now)
  {
    hide Placed, St.Expired, IsEmptyCollection;
    Place(reading, store, e, now);
    if e.expireAt >= 0 {
      var _ := store.SetExpireAt(e.key, Some(e.expireAt * MILLI), now);
    }
    // Nothing is stored under a key that holds an empty collection.
    store.DeleteIfEmpty(e.key, now);
  }

  predicate Starts(text: Bytes, with: Bytes) {
    |with| <= |text| && text[..|with|] == with
  }

  /** The entries of a dump, or `None` if it is no dump of a version this reads, or reading broke. */
  function EntriesOf(reading: Reading, bytes: Bytes): Option<seq<Entry>> {
    match LineAt(reading, bytes, 0)
    case Got(magic, next) =>
      if Starts(magic, Magic()) || Starts(magic, Ascii("KLYRO-DUMP 2")) then EntriesAt(reading, bytes, next) else None
    case _ => None
  }

  /** Loads a dump, all of it or none. */
  method Load(reading: Reading, store: St.Store, bytes: Bytes, now: int)
    requires store.Valid()
    modifies store
    ensures store.Valid()
    ensures store.View() == match EntriesOf(reading, bytes)
                            case Some(entries) => AllInstalled(reading, old(store.View()), entries, now)
                            case None => old(store.View())
  {
    hide LineAt, EntriesAt, Installed, Magic, Ascii, Starts;
    var reader := new DumpReader(reading, bytes);
    var magic := reader.Line();
    if !magic.Got? || !(Starts(magic.value, Magic()) || Starts(magic.value, Ascii("KLYRO-DUMP 2"))) { return; }
    var loaded := reader.Entries();
    if loaded.None? { return; }
    var entries := loaded.value;
    for i := 0 to |entries|
      invariant store.Valid() && store.View() == AllInstalled(reading, old(store.View()), entries[..i], now)
    {
      assert entries[..i + 1][..i] == entries[..i];
      Install(reading, store, entries[i], now);
    }
    assert entries[..|entries|] == entries;
  }

  // ------------------------------------------------------------------
  // Loading undoes saving

  lemma DumpIsRead(reading: Reading, entries: seq<Entry>)
    requires Faithful(reading) && Proper(reading, entries) && Weighted(entries)
    ensures EntriesOf(reading, DumpText(entries)) == Some(entries)
  {
    hide EntriesAt, LineAt, EntriesText;
    var bytes := DumpText(entries);
    assert Sits(bytes, 0, Magic() + [LF]);
    assert IsLine(Magic());
    LineThere(reading, bytes, 0, Magic());
    assert bytes[|Magic()| + 1..] == EntriesText(entries);
    EntriesThere(reading, bytes, |Magic()| + 1, entries);
  }

  /** One entry at a fresh key: there if its deadline has not passed and it is not empty. */
  lemma FreshInstalled(reading: Reading, view: St.View, e: Entry, now: int)
    requires e.key !in view
    ensures var item := St.Item(ValueOf(reading, e.listing), if e.expireAt >= 0 then Some(e.expireAt * MILLI) else None);
            Installed(reading, view, e, now)
            == if St.IsLive(item.expireAt, now) && !IsEmptyCollection(item.value) then view[e.key := item] else view
  {
    hide IsEmptyCollection;
    var item := St.Item(ValueOf(reading, e.listing), if e.expireAt >= 0 then Some(e.expireAt * MILLI) else None);
    assert Placed(reading, view, e, now) == view[e.key := St.Item(item.value, None)];
    assert Dated(Placed(reading, view, e, now), e, now) == view[e.key := item];
    assert view[e.key := item] - {e.key} == view;
  }

  function Reinstated(reading: Reading, e: Entry): St.Item {
    St.Item(ValueOf(reading, e.listing), if e.expireAt >= 0 then Some(e.expireAt * MILLI) else None)
  }

  lemma {:induction false} AllFresh(reading: Reading, entries: seq<Entry>, now: int)
    requires forall i, j | 0 <= i < j < |entries| :: entries[i].key != entries[j].key
    requires forall i | 0 <= i < |entries| :: !IsEmptyCollection(ValueOf(reading, entries[i].listing))
    ensures forall i | 0 <= i < |entries| && St.IsLive(Reinstated(reading, entries[i]).expireAt, now) ::
              var view := AllInstalled(reading, map[], entries, now);
              entries[i].key in view && view[entries[i].key] == Reinstated(reading, entries[i])
    ensures forall k | k in AllInstalled(reading, map[], entries, now) ::
              exists i | 0 <= i < |entries| :: entries[i].key == k && St.IsLive(Reinstated(reading, entries[i]).expireAt, now)
    decreases |entries|
  {
    hide ValueOf, IsEmptyCollection, Installed;
    if entries != [] {
      var rest, last := entries[..|entries| - 1], entries[|entries| - 1];
      AllFresh(reading, rest, now);
      var before := AllInstalled(reading, map[], rest, now);
      assert last.key !in before;
      FreshInstalled(reading, before, last, now);
      assert forall i | 0 <= i < |rest| :: rest[i] == entries[i];
      forall k | k in AllInstalled(reading, map[], entries, now)
        ensures exists i | 0 <= i < |entries| :: entries[i].key == k && St.IsLive(Reinstated(reading, entries[i]).expireAt, now)
      {
        if k == last.key {
          assert entries[|entries| - 1].key == k;
        } else {
          var i :| 0 <= i < |rest| && rest[i].key == k && St.IsLive(Reinstated(reading, rest[i]).expireAt, now);
          assert entries[i].key == k;
        }
      }
    }
  }

  lemma SavedNotEmpty(v: Value, now: int)
    ensures IsEmptyCollection(Saved(v, now)) == IsEmptyCollection(v)
  {
  }

  lemma DeadlineSign(expireAt: Option<int>, now: int)
    requires now >= 0 && St.IsLive(expireAt, now)
    ensures (DeadlineMillis(expireAt, now) >= 0) == expireAt.Some?
  {
  }

  lemma EntryReinstated(reading: Reading, entries: seq<Entry>, view: St.View, now: int, i: nat)
    requires now >= 0 && AllStorable(reading, view) && i < |entries|
    requires ListsKeys(reading, entries, view, St.Living(view, now).Keys, now)
    ensures entries[i].key in view
    ensures Reinstated(reading, entries[i])
            == St.Item(Saved(view[entries[i].key].value, now), Restored(view[entries[i].key].expireAt, now))
    ensures !IsEmptyCollection(ValueOf(reading, entries[i].listing))
  {
    hide ValueOf, Saved, Storable, IsEmptyCollection, DeadlineMillis;
    DeadlineSign(view[entries[i].key].expireAt, now);
    SavedNotEmpty(view[entries[i].key].value, now);
  }

  /** Installing what a dump of `view` lists into an empty keyspace restores every live key: its type,
      its contents, and its deadline to the millisecond. */
  lemma LoadUndoesSave(reading: Reading, entries: seq<Entry>, view: St.View, now: int, later: int)
    requires now >= 0 && AllStorable(reading, view)
    requires ListsKeys(reading, entries, view, St.Living(view, now).Keys, now)
    ensures AllInstalled(reading, map[], entries, later) == Reloaded(view, now, later)
  {
    hide ValueOf, Saved, Storable, AllInstalled, IsEmptyCollection, Reinstated, Restored;
    forall i | 0 <= i < |entries|
      ensures entries[i].key in view && Reinstated(reading, entries[i])
              == St.Item(Saved(view[entries[i].key].value, now), Restored(view[entries[i].key].expireAt, now))
      ensures !IsEmptyCollection(ValueOf(reading, entries[i].listing))
    {
      EntryReinstated(reading, entries, view, now, i);
    }
    AllFresh(reading, entries, later);
    var loaded, wanted := AllInstalled(reading, map[], entries, later), Reloaded(view, now, later);
    forall k | k in wanted ensures k in loaded && loaded[k] == wanted[k] {
      assert k in St.Living(view, now);
      var i :| 0 <= i < |entries| && entries[i].key == k;
      assert St.IsLive(Reinstated(reading, entries[i]).expireAt, later);
    }
    forall k | k in loaded ensures k in wanted {
      var i :| 0 <= i < |entries| && entries[i].key == k && St.IsLive(Reinstated(reading, entries[i]).expireAt, later);
    }
  }

  /** A server stopped at `now` and started at `later` on the dump it left. */
  method SaveAndReload(reading: Reading, store: St.Store, now: int, later: int) returns (reloaded: St.Store)
    requires store.Valid() && AllStorable(reading, store.View()) && Faithful(reading) && now >= 0
    modifies store
    ensures store.Valid() && store.View() == old(store.View())
    ensures fresh(reloaded) && reloaded.Valid() && reloaded.View() == Reloaded(store.View(), now, later)
  {
    hide Proper, Weighted, ListsKeys, AllStorable, Faithful, DumpText, St.Store.Valid, AllInstalled, EntriesOf, Reloaded;
    ghost var entries;
    var bytes;
    bytes, entries := Save(reading, store, now);
    reloaded := new St.Store();
    Load(reading, reloaded, bytes, later);
    DumpIsRead(reading, entries);
    LoadUndoesSave(reading, entries, store.View(), now, later);
  }
}
