/** A memory index: one record store with an inverted index and a vector array kept in step. */
module Memories {
  import opened ByteStrings
  import opened TextIndexes
  import opened TextCopies
  import VI = VectorIndexes
  import W = Wording

  datatype Mode = SearchMode | VectorMode | HybridMode

  predicate IndexesText(m: Mode) { m != VectorMode }

  predicate StoresVectors(m: Mode) { m != SearchMode }

  /** A record. Its embedding lives in the vector array, at `slot`. */
  datatype Record = Record(
    id: Bytes, text: Bytes, meta: map<Bytes, Bytes>, importance: real,
    createdAt: int, updatedAt: int, expireAt: Option<int>, slot: Option<nat>)

  datatype AddRequest = AddRequest(
    id: Option<Bytes>, text: Bytes, vector: Option<seq<real>>, meta: map<Bytes, Bytes>,
    importance: Option<real>, ttl: Option<nat>, requireNew: bool, requireExisting: bool)

  datatype MemoryError =
    | VectorsNotSupported | TextNotSupported | VectorRequired
    | WrongDimension | ZeroVector | ExistenceUnmet | Full | TooLargeToScan

  datatype Result<T> = Done(value: T) | Failed(error: MemoryError)

  predicate IsLive(r: Record, now: int) {
    r.expireAt.None? || r.expireAt.value > now
  }

  function Clamp(x: real): real {
    if x < 0.0 then 0.0 else if x > 1.0 then 1.0 else x
  }

  /** The token lists of the stored texts, each under the cap it was indexed under. */
  function TextsOf(records: map<Bytes, Record>, caps: map<Bytes, nat>): Docs {
    map id | id in records && id in caps :: Tokens(records[id].text, caps[id])
  }

  /** Every record with a vector owns a slot of its own, from which the vector last stored for it reads
      back. A slot in use that nobody owns is leaked. */
  ghost predicate Paired(records: map<Bytes, Record>, owner: map<nat, Bytes>, owned: map<nat, seq<real>>, last: map<Bytes, seq<real>>) {
    && owner.Keys <= owned.Keys
    && (forall s | s in owner :: owner[s] in records && records[owner[s]].slot == Some(s))
    && (forall id | id in last :: id in records && records[id].slot.Some?)
    && (forall id | id in records && records[id].slot.Some? ::
          && id in last
          && records[id].slot.value in owner && owner[records[id].slot.value] == id
          && owned[records[id].slot.value] == last[id])
  }

  lemma SlotKept(records: map<Bytes, Record>, owner: map<nat, Bytes>, owned: map<nat, seq<real>>, last: map<Bytes, seq<real>>, id: Bytes, record: Record)
    requires Paired(records, owner, owned, last)
    requires record.slot == if id in records then records[id].slot else None
    ensures Paired(records[id := record], owner, owned, last)
  {
  }

  lemma SlotReused(records: map<Bytes, Record>, owner: map<nat, Bytes>, owned: map<nat, seq<real>>, last: map<Bytes, seq<real>>, id: Bytes, record: Record, vector: seq<real>)
    requires Paired(records, owner, owned, last)
    requires id in records && record.slot == records[id].slot && record.slot.Some?
    ensures record.slot.value in owned
    ensures owned[record.slot.value := vector].Keys == owned.Keys
    ensures Paired(records[id := record], owner, owned[record.slot.value := vector], last[id := vector])
  {
  }

  lemma SlotTaken(records: map<Bytes, Record>, owner: map<nat, Bytes>, owned: map<nat, seq<real>>, last: map<Bytes, seq<real>>, id: Bytes, record: Record, vector: seq<real>)
    requires Paired(records, owner, owned, last)
    requires id in records ==> records[id].slot.None?
    requires record.slot.Some? && record.slot.value !in owned
    ensures owner.Keys == owned.Keys <==> owner[record.slot.value := id].Keys == owned[record.slot.value := vector].Keys
    ensures Paired(records[id := record], owner[record.slot.value := id], owned[record.slot.value := vector], last[id := vector])
  {
    var slot := record.slot.value;
    assert slot !in owner;
    assert owner.Keys == owner[slot := id].Keys - {slot} && owned.Keys == owned[slot := vector].Keys - {slot};
  }

  lemma SlotFreed(records: map<Bytes, Record>, owner: map<nat, Bytes>, owned: map<nat, seq<real>>, last: map<Bytes, seq<real>>, id: Bytes)
    requires Paired(records, owner, owned, last) && id in records
    ensures records[id].slot.None? ==> id !in last && Paired(records - {id}, owner, owned, last)
    ensures records[id].slot.Some? ==>
              && id in last && records[id].slot.value in owned
              && Paired(records - {id}, owner - {records[id].slot.value}, owned - {records[id].slot.value}, last - {id})
              && Paired(records - {id}, owner - {records[id].slot.value}, owned, last - {id})
              && (owner.Keys == owned.Keys ==> (owner - {records[id].slot.value}).Keys == (owned - {records[id].slot.value}).Keys)
  {
  }

  lemma Smaller<K, V>(m: map<K, V>, k: K)
    requires k in m
    ensures |m - {k}| == |m| - 1
  {
    assert m.Keys == (m - {k}).Keys + {k};
  }

  /** As many slots are in use as records have vectors. */
  lemma {:induction false} SlotCount(records: map<Bytes, Record>, owner: map<nat, Bytes>, owned: map<nat, seq<real>>, last: map<Bytes, seq<real>>)
    requires Paired(records, owner, owned, last) && owner.Keys == owned.Keys
    ensures |owned| == |last|
    decreases |records|
  {
    if records == map[] {
      assert owner == map[] && owned == map[] && last == map[];
    } else {
      hide Paired;
      var id :| id in records;
      SlotFreed(records, owner, owned, last, id);
      Smaller(records, id);
      if records[id].slot.None? {
        SlotCount(records - {id}, owner, owned, last);
      } else {
        var slot := records[id].slot.value;
        SlotCount(records - {id}, owner - {slot}, owned - {slot}, last - {id});
        Smaller(owned, slot);
        Smaller(last, id);
      }
    }
  }

  lemma TextsPut(records: map<Bytes, Record>, caps: map<Bytes, nat>, id: Bytes, record: Record, cap: nat)
    requires caps.Keys == records.Keys
    ensures TextsOf(records[id := record], caps[id := cap]) == TextsOf(records, caps)[id := Tokens(record.text, cap)]
    ensures id in records ==> id in TextsOf(records, caps) && TextsOf(records, caps)[id] == Tokens(records[id].text, caps[id])
    ensures id !in records ==> id !in TextsOf(records, caps)
  {
    hide Tokens;
  }

  lemma TextsDrop(records: map<Bytes, Record>, caps: map<Bytes, nat>, id: Bytes)
    requires caps.Keys == records.Keys
    ensures TextsOf(records - {id}, caps - {id}) == TextsOf(records, caps) - {id}
  {
    hide Tokens;
  }

  function Lookup(records: map<Bytes, Record>, id: Bytes): Option<Record> {
    if id in records then Some(records[id]) else None
  }

  /** The record an add leaves behind, but for a slot it takes. A record that expired and was not
      swept yet keeps its old deadline. */
  function Updated(existing: Option<Record>, request: AddRequest, id: Bytes, now: int): (r: Record)
    ensures r.slot == (if existing.Some? then existing.value.slot else None)
    ensures r.id == if existing.Some? then existing.value.id else id
  {
    var base := if existing.Some? then existing.value.(text := request.text, updatedAt := now)
                else Record(id, request.text, map[], 0.5, now, now, None, None);
    base.(meta := base.meta + request.meta,
          importance := if request.importance.Some? then Clamp(request.importance.value) else base.importance,
          expireAt := if request.ttl.Some? then Some(now + request.ttl.value) else base.expireAt)
  }

  /** An added record is live exactly when it is given time to live, or is given none and does not
      replace a record that has expired. */
  lemma AddedIsLive(existing: Option<Record>, request: AddRequest, id: Bytes, now: int)
    ensures IsLive(Updated(existing, request, id, now), now) <==>
            if request.ttl.Some? then request.ttl.value > 0 else existing.None? || IsLive(existing.value, now)
  {
  }

  /** Some of `from`, with the vectors they had there. */
  /** What an added record holds, but for its slot: the text is the request's and now is when it was updated;
      a metadata field has the request's value, else the one it had; importance is the request's, brought
      between 0 and 1, else what it was, else one half; it expires as the request says, else as it did; it
      was created when it was, or now. */
  ghost predicate HoldsRequest(r: Record, request: AddRequest, before: Option<Record>, id: Bytes, now: int) {
    && r.id == id && r.text == request.text && r.updatedAt == now
    && (forall f :: f in r.meta <==> f in request.meta || (before.Some? && f in before.value.meta))
    && (forall f | f in r.meta :: r.meta[f] == if f in request.meta then request.meta[f] else before.value.meta[f])
    && r.importance == (if request.importance.Some? then
                          var x := request.importance.value; if x < 0.0 then 0.0 else if 1.0 < x then 1.0 else x
                        else if before.Some? then before.value.importance
                        else 0.5)
    && r.expireAt == (if request.ttl.Some? then Some(now + request.ttl.value) else if before.Some? then before.value.expireAt else None)
    && r.createdAt == if before.Some? then before.value.createdAt else now
  }

  lemma UpdatedHolds(existing: Option<Record>, request: AddRequest, id: Bytes, now: int)
    requires existing.Some? ==> existing.value.id == id
    ensures HoldsRequest(Updated(existing, request, id, now), request, existing, id, now)
  {
  }

  lemma HoldsWhateverSlot(r: Record, updated: Record, request: AddRequest, before: Option<Record>, id: Bytes, now: int)
    requires r.(slot := None) == updated.(slot := None) && HoldsRequest(updated, request, before, id, now)
    ensures HoldsRequest(r, request, before, id, now)
  {
    assert r.(slot := None).meta == updated.(slot := None).meta && r == updated.(slot := r.slot);
  }

  ghost predicate Copied(from: map<Bytes, Record>, last: map<Bytes, seq<real>>, to: map<Bytes, Record>, toLast: map<Bytes, seq<real>>) {
    && to.Keys <= from.Keys
    && (forall id | id in to :: to[id].(slot := None) == from[id].(slot := None))
    && toLast == last - (from.Keys - to.Keys)
  }

  lemma CopiedMore(from: map<Bytes, Record>, last: map<Bytes, seq<real>>, to: map<Bytes, Record>, toLast: map<Bytes, seq<real>>, id: Bytes, record: Record)
    requires Copied(from, last, to, toLast)
    requires id in from && id !in to && record.(slot := None) == from[id].(slot := None)
    ensures Copied(from, last, to[id := record], if id in last then toLast[id := last[id]] else toLast)
  {
  }

  /** The records that pass a filter. */
  function Keeps(records: map<Bytes, Record>, filter: Record -> bool): Bytes -> bool {
    id => id in records && filter(records[id])
  }

  /** What a vector query scores: every record that passes the filter and has a vector, by how well
      that vector matches. */
  ghost function Similarities(records: map<Bytes, Record>, last: map<Bytes, seq<real>>, filter: Record -> bool, similarity: seq<real> -> real): map<Bytes, real> {
    map id | id in last && id in records && filter(records[id]) :: similarity(last[id])
  }

  /** Scaling a vector twice is scaling it once. */
  ghost predicate Idempotent(normalize: seq<real> -> seq<real>) {
    forall v :: normalize(normalize(v)) == normalize(v)
  }

  function Expired(records: map<Bytes, Record>, now: int): set<Bytes> {
    set id | id in records && !IsLive(records[id], now)
  }

  /** Un-indexing a record under this cap would clear every term it was indexed under. */
  predicate Clears(records: map<Bytes, Record>, caps: map<Bytes, nat>, id: Bytes, cap: nat) {
    id in records && id in caps ==> TermsOf(Tokens(records[id].text, caps[id])) <= Cleared(Some(records[id].text), cap)
  }

  /** The id the server assigns when its counter stands at `n`. */
  function AssignedId(n: nat): Bytes {
    [109] + Decimal(n)
  }

  /** The counter only grows, so no two assigned ids are the same. */
  lemma AssignedIdsDiffer(m: nat, n: nat)
    requires m != n
    ensures AssignedId(m) != AssignedId(n)
  {
    hide Decimal;
    if AssignedId(m) == AssignedId(n) {
      assert AssignedId(m)[1..] == Decimal(m) && AssignedId(n)[1..] == Decimal(n);
      DecimalInjective(m, n);
    }
  }

  predicate AllClear(records: map<Bytes, Record>, caps: map<Bytes, nat>, ids: set<Bytes>, cap: nat) {
    forall id | id in ids :: Clears(records, caps, id, cap)
  }

  lemma AllClearMore(records: map<Bytes, Record>, caps: map<Bytes, nat>, ids: set<Bytes>, id: Bytes, cap: nat)
    ensures AllClear(records, caps, ids + {id}, cap) <==> AllClear(records, caps, ids, cap) && Clears(records, caps, id, cap)
    ensures AllClear(records, caps, {}, cap)
  {
    hide Clears;
  }

  class Memory {
    const mode: Mode
    const isZero: seq<real> -> bool
    const text: TextIndex
    const vectors: VI.VectorIndex
    var records: map<Bytes, Record>
    var nextId: nat
    ghost var owner: map<nat, Bytes>
    /** For each record that has a vector, the one last stored for it. */
    ghost var last: map<Bytes, seq<real>>
    /** The cap each text was last indexed under: the configured one can change between calls. */
    ghost var caps: map<Bytes, nat>

    /** What every call keeps: the documents counted are the stored texts, and records with a vector own
        a slot each. */
    ghost predicate Sound()
      reads this, text, vectors
    {
      && text.Sound() && vectors.Valid()
      && caps.Keys == records.Keys
      && text.docs == (if IndexesText(mode) then TextsOf(records, caps) else map[])
      && (forall id | id in records :: records[id].id == id)
      && Paired(records, owner, vectors.owned, last)
      && (if StoresVectors(mode) then vectors.dim > 0 else vectors.dim == 0 && last == map[])
      && Idempotent(vectors.normalize)
      && (forall id | id in last :: |last[id]| == vectors.dim && vectors.Stored(last[id]) == last[id])
    }

    /** No slot is leaked. */
    ghost predicate Tight()
      reads this`owner, vectors`owned
    {
      owner.Keys == vectors.owned.Keys
    }

    /** The three structures agree: the inverted index is exactly that of the stored texts, and slots
        in use and records with a vector belong to each other one to one. */
    ghost predicate Valid()
      reads this, text, vectors
    {
      Sound() && text.Valid() && Tight()
    }

    /** `dim` is the embedding width, ignored when the mode keeps no vectors. */
    constructor (mode: Mode, dim: nat, normalizes: bool, normalize: seq<real> -> seq<real>, isZero: seq<real> -> bool)
      requires Idempotent(normalize) && forall v :: |normalize(v)| == |v|
      requires StoresVectors(mode) ==> dim > 0
      ensures Valid() && fresh(text) && fresh(vectors)
      ensures records == map[] && last == map[] && caps == map[] && nextId == 1
      ensures this.mode == mode && this.isZero == isZero
      ensures vectors.normalizes == normalizes && vectors.normalize == normalize
      ensures vectors.dim == if StoresVectors(mode) then dim else 0
    {
      this.mode, this.isZero := mode, isZero;
      text := new TextIndex();
      vectors := new VI.VectorIndex(if StoresVectors(mode) then dim else 0, normalizes, normalize);
      records, nextId, owner, last, caps := map[], 1, map[], map[], map[];
      new;
      assert TextsOf(map[], map[]) == map[];
    }

    /** The vector index counts the records that have a vector. */
    lemma LiveIsTheRecordsWithVectors()
      requires Sound()
      ensures Tight() ==> vectors.live == |last|
      ensures last.Keys == set id | id in records && records[id].slot.Some?
    {
      if Tight() { SlotCount(records, owner, vectors.owned, last); }
    }

    /** Checks a vector's width and, where vectors are normalized, that it has a direction. */
    function Validate(values: seq<real>): Option<MemoryError> {
      if |values| != vectors.dim then Some(WrongDimension)
      else if vectors.normalizes && isZero(values) then Some(ZeroVector)
      else None
    }

    /** Why an add would be refused, if it would. */
    function Refusal(request: AddRequest, id: Bytes, maxRecords: nat, now: int): Option<MemoryError>
      reads this
    {
      var existing := id in records && IsLive(records[id], now);
      if (request.requireNew && existing) || (request.requireExisting && !existing) then Some(ExistenceUnmet)
      else if !existing && maxRecords > 0 && |records| >= maxRecords then Some(Full)
      else if request.vector.Some? then
        if StoresVectors(mode) then Validate(request.vector.value) else Some(VectorsNotSupported)
      else if mode == VectorMode && !existing then Some(VectorRequired)
      else None
    }

    /** The id a request names, or the next server-assigned one. */
    function IdFor(request: AddRequest): Bytes
      reads this
    {
      if request.id.Some? then request.id.value else AssignedId(nextId)
    }

    /** Stores a record, or refuses and leaves the records and both indexes as they were. An id the
        server assigned is spent either way. The indexes stay exact just when this call's cap clears
        whatever the id's previous text was indexed under. */
    method Add(request: AddRequest, maxTerms: nat, maxRecords: nat, now: int) returns (r: Result<Bytes>)
      requires Sound()
      modifies this, text, vectors
      ensures Sound()
      ensures nextId == old(nextId) + if request.id.None? then 1 else 0
      ensures r.Failed? <==> old(Refusal(request, IdFor(request), maxRecords, now)).Some?
      ensures r.Failed? ==>
                && Some(r.error) == old(Refusal(request, IdFor(request), maxRecords, now))
                && records == old(records) && last == old(last) && caps == old(caps) && owner == old(owner)
                && unchanged(text) && unchanged(vectors)
      ensures r.Done? ==>
                && r.value == old(IdFor(request)) && caps == old(caps)[r.value := maxTerms]
                && r.value in records && records == old(records)[r.value := records[r.value]]
                && records[r.value].(slot := None) == old(Updated(Lookup(records, IdFor(request)), request, IdFor(request), now)).(slot := None)
                && last == if request.vector.Some? then old(last)[r.value := vectors.Stored(request.vector.value)] else old(last)
      // Field by field: what the request says, else what was there, else the default
      ensures r.Done? ==> HoldsRequest(records[r.value], request, old(Lookup(records, IdFor(request))), old(IdFor(request)), now)
      ensures r.Done? && request.id.None? ==> r.value == Ascii("m") + Decimal(old(nextId))
      ensures old(Valid()) ==> (Valid() <==> (r.Done? && IndexesText(mode) ==> Clears(old(records), old(caps), r.value, maxTerms)))
    {
      hide Tokens, TextsOf, Paired, TextIndex.Sound, TextIndex.Valid, VI.VectorIndex.Valid, Idempotent, Decimal, Updated, Refusal, Clears,
        HoldsRequest;
      var id := IdFor(request);
      var refusal := Check(request, id, maxRecords, now);
      if request.id.None? { nextId := nextId + 1; }
      if refusal.Some? { return Failed(refusal.value); }

      var record := Updated(Lookup(records, id), request, id, now);
      UpdatedHolds(Lookup(records, id), request, id, now);
      Put(id, record, request.vector, maxTerms);
      HoldsWhateverSlot(records[id], record, request, old(Lookup(records, IdFor(request))), id, now);
      return Done(id);
    }

    /** Why an add is refused: each reason if and only if it is the first of them that applies. */
    lemma RefusedFor(request: AddRequest, id: Bytes, maxRecords: nat, now: int)
      ensures var r := Refusal(request, id, maxRecords, now);
              var live := id in records && (records[id].expireAt.None? || now < records[id].expireAt.value);
              var clash := (request.requireNew && live) || (request.requireExisting && !live);
              var full := !clash && !live && 0 < maxRecords <= |records|;
              var fits, given := !clash && !full, request.vector.Some?;
              && (r == Some(ExistenceUnmet) <==> clash)
              && (r == Some(Full) <==> full)
              && (r == Some(VectorsNotSupported) <==> fits && given && mode == SearchMode)
              && (r == Some(WrongDimension) <==> fits && given && mode != SearchMode && |request.vector.value| != vectors.dim)
              && (r == Some(ZeroVector) <==>
                    && fits && given && mode != SearchMode && |request.vector.value| == vectors.dim
                    && vectors.normalizes && isZero(request.vector.value))
              && (r == Some(VectorRequired) <==> fits && !given && mode == VectorMode && !live)
              && (r.Some? ==> r.value in [ExistenceUnmet, Full, VectorsNotSupported, WrongDimension, ZeroVector, VectorRequired])
    {
    }

    /** The checks an add makes before it changes anything. */
    method Check(request: AddRequest, id: Bytes, maxRecords: nat, now: int) returns (problem: Option<MemoryError>)
      ensures problem == Refusal(request, id, maxRecords, now)
      ensures problem.None? && request.vector.Some? ==> StoresVectors(mode) && |request.vector.value| == vectors.dim
    {
      var existing := id in records && IsLive(records[id], now);
      if (request.requireNew && existing) || (request.requireExisting && !existing) { return Some(ExistenceUnmet); }
      if !existing && maxRecords > 0 && |records| >= maxRecords { return Some(Full); }
      if request.vector.Some? {
        if !StoresVectors(mode) { return Some(VectorsNotSupported); }
        problem := Validate(request.vector.value);
        return;
      }
      return if mode == VectorMode && !existing then Some(VectorRequired) else None;
    }

    /** Installs a record and brings both indexes in step with it. */
    method Put(id: Bytes, record: Record, vector: Option<seq<real>>, maxTerms: nat)
      requires Sound() && record.id == id
      requires record.slot == if id in records then records[id].slot else None
      requires vector.Some? ==> StoresVectors(mode) && |vector.value| == vectors.dim
      modifies this`records, this`owner, this`last, this`caps, text, vectors
      ensures Sound() && id in records && records == old(records)[id := records[id]] && caps == old(caps)[id := maxTerms]
      ensures records[id].(slot := None) == record.(slot := None)
      ensures last == if vector.Some? then old(last)[id := vectors.Stored(vector.value)] else old(last)
      ensures old(Tight()) ==> Tight()
      ensures old(text.Valid()) ==> (text.Valid() <==> (IndexesText(mode) ==> Clears(old(records), old(caps), id, maxTerms)))
    {
      hide Tokens, TextsOf, Paired, TextIndex.Sound, TextIndex.Valid, VI.VectorIndex.Valid, Idempotent, Clears, Tight,
        VI.VectorIndex.Stored, IndexesText;
      var previous := if id in records then Some(records[id].text) else None;
      var placed := record;
      Reindex(id, previous, record, maxTerms);
      placed := Settle(id, record, vector);
      TextsSame(records, caps[id := maxTerms], id, record, placed);
      records, caps := records[id := placed], caps[id := maxTerms];
    }

    /** Gives a record the vector it comes with, if it comes with one. */
    method Settle(id: Bytes, record: Record, vector: Option<seq<real>>) returns (placed: Record)
      requires vectors.Valid() && Idempotent(vectors.normalize) && Paired(records, owner, vectors.owned, last)
      requires record.slot == if id in records then records[id].slot else None
      requires vector.Some? ==> vectors.dim > 0 && |vector.value| == vectors.dim
      modifies this`owner, this`last, vectors
      ensures vectors.Valid() && Paired(records[id := placed], owner, vectors.owned, last)
      ensures Tight() <==> old(Tight())
      ensures placed.(slot := None) == record.(slot := None)
      ensures last == if vector.Some? then old(last)[id := vectors.Stored(vector.value)] else old(last)
      ensures vector.Some? ==>
                && |vectors.Stored(vector.value)| == vectors.dim
                && vectors.Stored(vectors.Stored(vector.value)) == vectors.Stored(vector.value)
    {
      hide Paired, VI.VectorIndex.Valid, Idempotent;
      placed := record;
      if vector.Some? {
        StoredIsUnit(vector.value);
        placed := Place(id, record, vector.value);
      } else {
        SlotKept(records, owner, vectors.owned, last, id, record);
      }
    }

    lemma StoredIsUnit(values: seq<real>)
      requires Idempotent(vectors.normalize) && vectors.Valid()
      ensures |vectors.Stored(values)| == |values| && vectors.Stored(vectors.Stored(values)) == vectors.Stored(values)
    {
      assert vectors.normalize(vectors.normalize(values)) == vectors.normalize(values);
    }

    /** Indexes a record's text in the place of its previous one. */
    method Reindex(id: Bytes, previous: Option<Bytes>, record: Record, maxTerms: nat)
      requires text.Sound() && caps.Keys == records.Keys
      requires text.docs == if IndexesText(mode) then TextsOf(records, caps) else map[]
      requires previous == if id in records then Some(records[id].text) else None
      modifies text
      ensures text.Sound()
      ensures text.docs == if IndexesText(mode) then TextsOf(records[id := record], caps[id := maxTerms]) else map[]
      ensures old(text.Valid()) ==> (text.Valid() <==> (IndexesText(mode) ==> Clears(records, caps, id, maxTerms)))
    {
      hide Tokens, TextsOf, TextIndex.Sound, TextIndex.Valid, Cleared;
      if IndexesText(mode) {
        TextsPut(records, caps, id, record, maxTerms);
        text.Index(id, previous, record.text, maxTerms);
      }
    }

    /** Puts a record's vector in the slot it has, or in one nobody owns. */
    method Place(id: Bytes, record: Record, values: seq<real>) returns (placed: Record)
      requires vectors.Valid() && vectors.dim > 0 && |values| == vectors.dim
      requires Paired(records, owner, vectors.owned, last)
      requires record.slot == if id in records then records[id].slot else None
      modifies this`owner, this`last, vectors
      ensures Tight() <==> old(Tight())
      ensures vectors.Valid() && Paired(records[id := placed], owner, vectors.owned, last)
      ensures placed.(slot := None) == record.(slot := None) && placed.slot.Some?
      ensures last == old(last)[id := vectors.Stored(values)]
    {
      hide Paired, VI.SlotsOk;
      if record.slot.Some? {
        SlotReused(records, owner, vectors.owned, last, id, record, vectors.Stored(values));
        vectors.Overwrite(record.slot.value, values);
        placed := record;
      } else {
        ghost var owned := vectors.owned;
        var slot := vectors.Insert(values);
        placed := record.(slot := Some(slot));
        SlotTaken(records, owner, owned, last, id, placed, vectors.Stored(values));
        owner := owner[slot := id];
      }
      last := last[id := vectors.Stored(values)];
    }

    /** Removes a record from all three structures. Its postings all go just when this call's cap clears
        every term its text was indexed under. */
    method Del(id: Bytes, maxTerms: nat) returns (found: bool)
      requires Sound()
      modifies this`records, this`owner, this`last, this`caps, text, vectors
      ensures Sound() && found == (id in old(records))
      ensures records == old(records) - {id} && last == old(last) - {id} && caps == old(caps) - {id}
      ensures old(Valid()) ==> (Valid() <==> (IndexesText(mode) ==> Clears(old(records), old(caps), id, maxTerms)))
      ensures old(Valid()) && !Valid() ==> text.HasLeftover()
      ensures old(text.HasLeftover()) ==> text.HasLeftover()
    {
      hide Tokens, TextsOf, Paired, TextIndex.Sound, TextIndex.Valid, TextIndex.HasLeftover, VI.VectorIndex.Valid, Idempotent, Cleared, Tight;
      if id !in records {
        NotStored(records, owner, vectors.owned, last, id);
        assert caps - {id} == caps;
        return false;
      }
      var record := records[id];
      SlotFreed(records, owner, vectors.owned, last, id);
      Unindex(id, record, maxTerms);
      FreeSlot(id, record);
      records, caps := records - {id}, caps - {id};
      return true;
    }

    /** Frees the slot of a record that is to go. */
    method FreeSlot(id: Bytes, record: Record)
      requires vectors.Valid() && Paired(records, owner, vectors.owned, last)
      requires id in records && records[id] == record && (record.slot.Some? ==> vectors.dim > 0)
      modifies this`owner, this`last, vectors
      ensures vectors.Valid() && Paired(records - {id}, owner, vectors.owned, last) && last == old(last) - {id}
      ensures old(Tight()) ==> Tight()
    {
      hide Paired, VI.VectorIndex.Valid;
      SlotFreed(records, owner, vectors.owned, last, id);
      NotOwned(records, owner, vectors.owned, last, id);
      if record.slot.Some? {
        vectors.Remove(record.slot.value);
        owner, last := owner - {record.slot.value}, last - {id};
      }
    }

    /** Un-indexes a record's text. */
    method Unindex(id: Bytes, record: Record, maxTerms: nat)
      requires text.Sound() && caps.Keys == records.Keys
      requires text.docs == if IndexesText(mode) then TextsOf(records, caps) else map[]
      requires id in records && records[id] == record
      modifies text
      ensures text.Sound()
      ensures text.docs == if IndexesText(mode) then TextsOf(records - {id}, caps - {id}) else map[]
      ensures old(text.Valid()) ==> (text.Valid() <==> (IndexesText(mode) ==> Clears(records, caps, id, maxTerms)))
      ensures old(text.Valid()) && !text.Valid() ==> text.HasLeftover()
      ensures old(text.HasLeftover()) ==> text.HasLeftover()
    {
      hide Tokens, TextsOf, TextIndex.Sound, TextIndex.Valid, TextIndex.HasLeftover, Cleared;
      TextsPut(records, caps, id, record, maxTerms);
      TextsDrop(records, caps, id);
      if IndexesText(mode) { text.Remove(id, record.text, maxTerms); }
    }

    /** Drops exactly the records whose own deadline has passed. */
    method SweepExpired(maxTerms: nat, now: int) returns (count: nat)
      requires Sound()
      modifies this`records, this`owner, this`last, this`caps, text, vectors
      ensures Sound() && count == |old(Expired(records, now))|
      ensures records == old(records) - old(Expired(records, now)) && last == old(last) - old(Expired(records, now))
      ensures old(Valid()) ==> (Valid() <==> (IndexesText(mode) ==> AllClear(old(records), old(caps), old(Expired(records, now)), maxTerms)))
    {
      hide Clears, AllClear, Sound, Tight, Valid, TextIndex.HasLeftover, Swept, ValidIf, Expired;
      SweepStarts(maxTerms);
      var dead := Expired(records, now);
      ghost var gone: set<Bytes> := {};
      var left := dead;
      while left != {}
        invariant left <= dead && gone == dead - left && Sound()
        invariant Swept(old(records), old(last), old(caps), gone)
        invariant old(Valid()) ==> ValidIf(IndexesText(mode) ==> AllClear(old(records), old(caps), gone, maxTerms))
        decreases |left|
      {
        var id :| id in left;
        SweepOne(id, maxTerms, old(records), old(last), old(caps), gone, old(Valid()));
        left, gone := left - {id}, gone + {id};
      }
      assert gone == dead;
      SweepEnds(old(records), old(last), old(caps), gone);
      return |dead|;
    }

    lemma SweepStarts(maxTerms: nat)
      ensures Swept(records, last, caps, {}) && AllClear(records, caps, {}, maxTerms) && (Valid() ==> ValidIf(true))
    {
    }

    lemma SweepEnds(records0: map<Bytes, Record>, last0: map<Bytes, seq<real>>, caps0: map<Bytes, nat>, gone: set<Bytes>)
      requires Swept(records0, last0, caps0, gone)
      ensures records == records0 - gone && last == last0 - gone
      ensures forall clear :: ValidIf(clear) ==> (Valid() <==> clear)
    {
      hide TextIndex.HasLeftover, Sound, TextIndex.Valid;
      if text.HasLeftover() { LeftoverInvalid(); }
    }

    /** What is left once these records are gone. */
    ghost predicate Swept(records0: map<Bytes, Record>, last0: map<Bytes, seq<real>>, caps0: map<Bytes, nat>, gone: set<Bytes>)
      reads this
    {
      records == records0 - gone && last == last0 - gone && caps == caps0 - gone
    }

    ghost predicate ValidIf(clear: bool)
      reads this, text, vectors
    {
      if clear then Valid() else text.HasLeftover()
    }

    method SweepOne(id: Bytes, maxTerms: nat, ghost records0: map<Bytes, Record>, ghost last0: map<Bytes, seq<real>>, ghost caps0: map<Bytes, nat>,
                    ghost gone: set<Bytes>, ghost exact: bool)
      requires Sound() && Swept(records0, last0, caps0, gone) && id !in gone
      requires exact ==> ValidIf(IndexesText(mode) ==> AllClear(records0, caps0, gone, maxTerms))
      modifies this`records, this`owner, this`last, this`caps, text, vectors
      ensures Sound() && Swept(records0, last0, caps0, gone + {id})
      ensures exact ==> ValidIf(IndexesText(mode) ==> AllClear(records0, caps0, gone + {id}, maxTerms))
    {
      hide Clears, AllClear, Sound, Tight, Valid, TextIndex.HasLeftover;
      MinusOne(records0, gone, id);
      MinusOne(last0, gone, id);
      MinusOne(caps0, gone, id);
      ClearsAlike(records0, caps0, gone, id, maxTerms);
      AllClearMore(records0, caps0, gone, id, maxTerms);
      var _ := Del(id, maxTerms);
    }

    lemma LeftoverInvalid()
      requires text.HasLeftover()
      ensures !Valid()
    {
      text.LeftoverInvalid();
    }

    /** Puts in a record that a dump held. An id that is stored already is overwritten: its old slot leaks,
        and its old terms stay in the keyword index. */
    method LoadRecord(record: Record, vector: Option<seq<real>>, maxTerms: nat)
      requires Sound()
      modifies this`records, this`owner, this`last, this`caps, text, vectors
      ensures Sound() && record.id in records && records == old(records)[record.id := records[record.id]]
      ensures caps == old(caps)[record.id := maxTerms]
      ensures records[record.id].(slot := None) == record.(slot := None)
      ensures last == if vector.Some? && StoresVectors(mode) && |vector.value| == vectors.dim
                      then old(last)[record.id := vectors.Stored(vector.value)] else old(last) - {record.id}
      ensures old(Valid()) ==> (Valid() <==> (record.id in old(records) ==>
                && old(records)[record.id].slot.None?
                && (IndexesText(mode) ==> Tokens(old(records)[record.id].text, old(caps)[record.id]) == [])))
    {
      hide Tokens, TextsOf, Paired, TextIndex.Sound, TextIndex.Valid, VI.VectorIndex.Valid, Idempotent, Tight;
      var id, usable := record.id, vector.Some? && StoresVectors(mode) && |vector.value| == vectors.dim;
      var bare := record.(slot := None);
      IndexAnew(id, bare, maxTerms);
      var placed := GiveSlot(id, bare, if usable then vector else None);
      TextsSame(records, caps[id := maxTerms], id, bare, placed);
      records, caps := records[id := placed], caps[id := maxTerms];
    }

    /** Gives a record that replaces whatever is stored a slot of its own, if it has a vector. */
    method GiveSlot(id: Bytes, bare: Record, vector: Option<seq<real>>) returns (placed: Record)
      requires vectors.Valid() && Idempotent(vectors.normalize) && Paired(records, owner, vectors.owned, last)
      requires bare.slot == None && (vector.Some? ==> vectors.dim > 0 && |vector.value| == vectors.dim)
      modifies this`records, this`owner, this`last, vectors
      ensures vectors.Valid() && Paired(records[id := placed], owner, vectors.owned, last) && records == old(records)
      ensures old(Tight()) ==> (Tight() <==> (id in records ==> records[id].slot.None?))
      ensures placed.(slot := None) == bare
      ensures last == if vector.Some? then old(last)[id := vectors.Stored(vector.value)] else old(last) - {id}
      ensures vector.Some? ==>
                && |vectors.Stored(vector.value)| == vectors.dim
                && vectors.Stored(vectors.Stored(vector.value)) == vectors.Stored(vector.value)
    {
      hide Paired, VI.VectorIndex.Valid, Idempotent, Tight;
      var records0 := records;
      Forget(id);
      placed := Settle(id, bare, vector);
      assert records[id := placed] == records0[id := placed];
      records := records0;
    }

    /** Indexes a text without un-indexing any. */
    method IndexAnew(id: Bytes, record: Record, maxTerms: nat)
      requires text.Sound() && caps.Keys == records.Keys
      requires text.docs == if IndexesText(mode) then TextsOf(records, caps) else map[]
      modifies text
      ensures text.Sound()
      ensures text.docs == if IndexesText(mode) then TextsOf(records[id := record], caps[id := maxTerms]) else map[]
      ensures old(text.Valid()) ==> (text.Valid() <==> (IndexesText(mode) && id in records ==> Tokens(records[id].text, caps[id]) == []))
    {
      hide Tokens, TextsOf, TextIndex.Sound, TextIndex.Valid;
      if IndexesText(mode) {
        TextsPut(records, caps, id, record, maxTerms);
        if id in records { NoTermsNoLength(Tokens(records[id].text, caps[id])); }
        text.Index(id, None, record.text, maxTerms);
      }
    }

    /** Lets go of a record, but of no slot. */
    method Forget(id: Bytes)
      requires Paired(records, owner, vectors.owned, last)
      modifies this`records, this`owner, this`last
      ensures Paired(records, owner, vectors.owned, last)
      ensures records == old(records) - {id} && last == old(last) - {id}
      ensures old(Tight()) ==> (Tight() <==> (id in old(records) ==> old(records)[id].slot.None?))
    {
      hide Paired;
      if id !in records {
        NotStored(records, owner, vectors.owned, last, id);
        return;
      }
      SlotFreed(records, owner, vectors.owned, last, id);
      NotOwned(records, owner, vectors.owned, last, id);
      if records[id].slot.Some? { owner := owner - {records[id].slot.value}; }
      last := last - {id};
      records := records - {id};
    }

    /** Keyword search, from the index as it stands. On an exact index it is BM25 over the stored texts:
        the best `limit` of the records that pass the filter and share a term with the query. */
    method SearchText(ln: real -> real, query: Bytes, limit: nat, filter: Record -> bool, maxTerms: nat) returns (r: Result<seq<Hit>>)
      requires Sound()
      ensures r == Failed(TextNotSupported) <==> mode == VectorMode
      ensures IndexesText(mode) ==>
                && r.Done?
                && TopOf(r.value, IndexScores(ln, text.postings, text.docLen, text.totalLen, Tokens(query, maxTerms), Keeps(records, filter)), limit)
      ensures IndexesText(mode) && text.Valid() ==>
                TopOf(r.value, Scores(ln, TextsOf(records, caps), Tokens(query, maxTerms), Keeps(records, filter)), limit)
      ensures r.Done? ==> forall h | h in r.value :: h.id in records && filter(records[h.id])
      // However the query's letters are written
      ensures IndexesText(mode) ==>
                forall other | W.SameButCase(query, other) ::
                  TopOf(r.value, IndexScores(ln, text.postings, text.docLen, text.totalLen, Tokens(other, maxTerms), Keeps(records, filter)), limit)
    {
      hide Tokens, TextsOf, Paired, TopOf, Scores, IndexScores, Keeps, TextIndex.Valid;
      if !IndexesText(mode) { return Failed(TextNotSupported); }
      forall other | W.SameButCase(query, other) ensures Tokens(other, maxTerms) == Tokens(query, maxTerms) {
        W.CaseIgnored(query, other, maxTerms);
      }
      var terms := Tokenize(query, maxTerms);
      var hits := text.Search(ln, terms, limit, Keeps(records, filter));
      ShownPass(hits, ln, text.postings, text.docLen, text.totalLen, terms, records, filter, limit);
      return Done(hits);
    }

    /** Exact nearest neighbours: the best `limit` of the records that pass the filter and have a
        vector, each scored on the vector last stored for it. */
    method SearchVector(similarity: seq<real> -> real, width: nat, limit: nat, filter: Record -> bool, maxScan: nat) returns (r: Result<seq<Hit>>)
      requires Sound()
      ensures r == Failed(VectorsNotSupported) <==> mode == SearchMode
      ensures r == Failed(WrongDimension) <==> mode != SearchMode && width != vectors.dim
      ensures r == Failed(TooLargeToScan) <==> StoresVectors(mode) && width == vectors.dim && vectors.live > maxScan
      ensures StoresVectors(mode) && width == vectors.dim && vectors.live <= maxScan ==>
                r.Done? && TopOf(r.value, Similarities(records, last, filter, similarity), limit)
      ensures r.Done? ==>
                forall h | h in r.value ::
                  h.id in records && filter(records[h.id]) && h.id in last && h.score == similarity(last[h.id])
      ensures Tight() ==> vectors.live == |last|
    {
      LiveIsTheRecordsWithVectors();
      if !StoresVectors(mode) { return Failed(VectorsNotSupported); }
      if width != vectors.dim { return Failed(WrongDimension); }
      if vectors.live > maxScan { return Failed(TooLargeToScan); }
      var scores := ScoreVectors(similarity, filter);
      var all := SortHits(scores);
      Truncated(all, scores, limit);
      return Done(if |all| <= limit then all else all[..limit]);
    }

    /** Rebuilds the index from its live records into a new one: every live record is there, with the
        vector it had here, and its text is indexed under no cap. */
    method Clone(now: int) returns (copy: Memory)
      requires Sound()
      ensures fresh(copy) && fresh(copy.text) && fresh(copy.vectors) && copy.Valid()
      ensures copy.mode == mode && copy.nextId == (if nextId > 1 then nextId else 1)
      ensures copy.records.Keys == records.Keys - Expired(records, now)
      ensures forall id | id in copy.records :: copy.records[id].(slot := None) == records[id].(slot := None) && copy.caps[id] == USIZE_MAX
      ensures copy.last == last - Expired(records, now)
      ensures copy.text.docs == if IndexesText(mode) then CopyTexts(records, now) else map[]
    {
      hide Tokens, TextsOf, Paired, TextIndex.Sound, TextIndex.Valid, VI.VectorIndex.Valid, Idempotent, CopyTexts;
      VectorsNormalize();
      copy := new Memory(mode, vectors.dim, vectors.normalizes, vectors.normalize, isZero);
      var expired := Expired(records, now);
      CopyRecords(copy, records.Keys - expired);
      assert records.Keys - (records.Keys - expired) == expired;
      CopiedTexts(records, copy.records, copy.caps, now);
      copy.nextId := if nextId > 1 then nextId else 1;
    }

    method CopyRecords(copy: Memory, live: set<Bytes>)
      requires Sound() && copy.Valid() && copy != this && copy.text != text && copy.vectors != vectors
      requires copy.mode == mode && copy.vectors.dim == vectors.dim
      requires copy.vectors.normalizes == vectors.normalizes && copy.vectors.normalize == vectors.normalize
      requires copy.records == map[] && copy.last == map[] && live <= records.Keys
      modifies copy`records, copy`owner, copy`last, copy`caps, copy.text, copy.vectors
      ensures copy.Valid() && copy.records.Keys == live && Copied(records, last, copy.records, copy.last)
      ensures forall id | id in copy.caps :: copy.caps[id] == USIZE_MAX
    {
      var left := live;
      hide Sound, Valid, Copied;
      NoneCopied();
      copy.CapsKeys();
      while left != {}
        invariant Sound() && copy.Valid()
        invariant left <= live && copy.records.Keys == live - left
        invariant Copied(records, last, copy.records, copy.last)
        invariant forall id | id in copy.caps :: copy.caps[id] == USIZE_MAX
        decreases |left|
      {
        var id :| id in left;
        ghost var to, toLast := copy.records, copy.last;
        left := left - {id};
        CopyRecord(copy, id);
        CopiedMore(records, last, to, toLast, id, copy.records[id]);
      }
    }

    lemma CapsKeys()
      requires Valid()
      ensures caps.Keys == records.Keys
    {
    }

    lemma NoneCopied()
      requires Sound()
      ensures Copied(records, last, map[], map[])
    {
      assert forall id | id in last :: id in records;
    }

    method CopyRecord(copy: Memory, id: Bytes)
      requires Sound() && copy.Valid() && copy != this && copy.text != text && copy.vectors != vectors
      requires copy.mode == mode && copy.vectors.dim == vectors.dim
      requires copy.vectors.normalizes == vectors.normalizes && copy.vectors.normalize == vectors.normalize
      requires id in records && id !in copy.records
      modifies copy`records, copy`owner, copy`last, copy`caps, copy.text, copy.vectors
      ensures Sound() && copy.Valid() && records == old(records)
      ensures id in copy.records && copy.records == old(copy.records)[id := copy.records[id]]
      ensures copy.records[id].(slot := None) == records[id].(slot := None)
      ensures copy.caps == old(copy.caps)[id := USIZE_MAX]
      ensures copy.last == if id in last then old(copy.last)[id := last[id]] else old(copy.last)
    {
      hide Sound, Valid;
      var vector := ReadVector(id);
      WithVector(id);
      copy.LoadNew(records[id], vector, USIZE_MAX);
    }

    /** Reinstates a record under an id that is not stored. */
    method LoadNew(record: Record, vector: Option<seq<real>>, maxTerms: nat)
      requires Valid() && record.id !in records
      modifies this`records, this`owner, this`last, this`caps, text, vectors
      ensures Valid() && record.id in records && records == old(records)[record.id := records[record.id]]
      ensures caps == old(caps)[record.id := maxTerms]
      ensures records[record.id].(slot := None) == record.(slot := None)
      ensures last == if vector.Some? && StoresVectors(mode) && |vector.value| == vectors.dim
                      then old(last)[record.id := vectors.Stored(vector.value)] else old(last)
    {
      hide Sound, TextIndex.Valid, Tight, Tokens;
      NotLast(record.id);
      LoadRecord(record, vector, maxTerms);
    }

    lemma NotLast(id: Bytes)
      requires Sound() && id !in records
      ensures last - {id} == last
    {
    }

    lemma WithVector(id: Bytes)
      requires Sound() && id in records
      ensures records[id].id == id
      ensures id in last ==> StoresVectors(mode) && |last[id]| == vectors.dim && vectors.Stored(last[id]) == last[id]
    {
    }

    lemma VectorsNormalize()
      requires Sound()
      ensures forall v :: |vectors.normalize(v)| == |v|
    {
    }

    /** A record's embedding, as last stored. */
    method ReadVector(id: Bytes) returns (vector: Option<seq<real>>)
      requires Sound() && id in records
      ensures vector == if id in last then Some(last[id]) else None
    {
      hide Tokens, TextsOf, Idempotent, Agrees, VI.SlotsOk;
      var record := records[id];
      if record.slot.None? { return None; }
      vector := vectors.Get(record.slot.value);
    }

    method ScoreVectors(similarity: seq<real> -> real, filter: Record -> bool) returns (scores: map<Bytes, real>)
      requires Sound()
      ensures scores == Similarities(records, last, filter, similarity)
    {
      hide Sound;
      scores := map[];
      var left := records;
      NoSimilarities(records, last, filter, similarity);
      while left != map[]
        invariant left.Keys <= records.Keys
        invariant scores == Similarities(records - left.Keys, last, filter, similarity)
        decreases |left|
      {
        var id :| id in left;
        Smaller(left, id);
        var row := ReadVector(id);
        MoreSimilarities(records, left.Keys, last, filter, similarity, id);
        left := left - {id};
        if filter(records[id]) && row.Some? { scores := scores[id := similarity(row.value)]; }
      }
      assert records - {} == records;
    }
  }

  lemma NoSimilarities(records: map<Bytes, Record>, last: map<Bytes, seq<real>>, filter: Record -> bool, similarity: seq<real> -> real)
    ensures Similarities(records - records.Keys, last, filter, similarity) == map[]
  {
  }

  lemma MoreSimilarities(records: map<Bytes, Record>, left: set<Bytes>, last: map<Bytes, seq<real>>, filter: Record -> bool, similarity: seq<real> -> real, id: Bytes)
    requires id in left && left <= records.Keys
    ensures var before := Similarities(records - left, last, filter, similarity);
            Similarities(records - (left - {id}), last, filter, similarity)
            == if filter(records[id]) && id in last then before[id := similarity(last[id])] else before
  {
  }

  /** A record that expired a moment ago and was not swept, added again as a new one and without a time
      to live: nothing refuses it, and what it stores has expired. */
  lemma AddedAgainStaysExpired(m: Memory, now: int, stale: Record, request: AddRequest)
    requires m.mode == SearchMode && m.records == map[[97] := stale]
    requires stale == Record([97], [98], map[], 0.5, now - 2, now - 2, Some(now - 1), None)
    requires request == AddRequest(Some([97]), [99], None, map[], None, None, true, false)
    ensures m.IdFor(request) == [97] && m.Refusal(request, [97], 0, now).None?
    ensures !IsLive(Updated(Lookup(m.records, [97]), request, [97], now), now)
  {
  }

  lemma NotOwned(records: map<Bytes, Record>, owner: map<nat, Bytes>, owned: map<nat, seq<real>>, last: map<Bytes, seq<real>>, id: Bytes)
    requires Paired(records, owner, owned, last) && id in records
    ensures records[id].slot.None? ==> last - {id} == last
    ensures records[id].slot.Some? ==> records[id].slot.value in owned
  {
  }

  /** Only the text of a record matters to the keyword index. */
  lemma TextsSame(records: map<Bytes, Record>, caps: map<Bytes, nat>, id: Bytes, a: Record, b: Record)
    requires a.(slot := None) == b.(slot := None)
    ensures TextsOf(records[id := a], caps) == TextsOf(records[id := b], caps)
  {
    hide Tokens;
    assert a.(slot := None).text == b.(slot := None).text;
  }

  lemma MinusOne<V>(m: map<Bytes, V>, gone: set<Bytes>, id: Bytes)
    ensures m - gone - {id} == m - (gone + {id})
  {
  }

  lemma ClearsAlike(records: map<Bytes, Record>, caps: map<Bytes, nat>, gone: set<Bytes>, id: Bytes, cap: nat)
    requires id !in gone
    ensures Clears(records - gone, caps - gone, id, cap) <==> Clears(records, caps, id, cap)
  {
    hide Tokens, Cleared;
  }

  /** The terms a copy indexes: all those of every live text. */
  function CopyTexts(records: map<Bytes, Record>, now: int): Docs {
    map id | id in records && IsLive(records[id], now) :: Tokens(records[id].text, USIZE_MAX)
  }

  lemma CopiedTexts(records: map<Bytes, Record>, copied: map<Bytes, Record>, caps: map<Bytes, nat>, now: int)
    requires copied.Keys == records.Keys - Expired(records, now) && caps.Keys == copied.Keys
    requires forall id | id in copied :: copied[id].(slot := None) == records[id].(slot := None) && caps[id] == USIZE_MAX
    ensures TextsOf(copied, caps) == CopyTexts(records, now)
  {
    hide Tokens;
    forall id | id in copied ensures copied[id].text == records[id].text {
      assert copied[id].(slot := None).text == records[id].(slot := None).text;
    }
  }

  predicate Uncut(record: Record, cap: nat) {
    |Tokens(record.text, USIZE_MAX)| <= cap
  }

  /** A copy's keyword index is the original's exactly when no record had expired without being swept
      and no text had been cut. As for what they answer to queries, which never show an expired record:
      they answer alike under every logarithm exactly when every term stands the same in every live
      record. When nothing had expired, that is when no text had been cut, and any one increasing
      logarithm tells. When no live text had been cut, it is when there is nothing to find, or the average
      length and the idf of every findable term are the same without the expired records. When both had
      happened it takes a coincidence: a higher average in the original. */
  lemma CopyAnswers(records: map<Bytes, Record>, caps: map<Bytes, nat>, now: int)
    requires caps.Keys == records.Keys && forall id | id in caps :: 1 <= caps[id] <= USIZE_MAX
    ensures var docs, copied := TextsOf(records, caps), CopyTexts(records, now);
            && (copied == docs <==> Expired(records, now) == {} && forall id | id in records :: Uncut(records[id], caps[id]))
            && (SameAnswers(docs, copied) <==> forall id, term | id in copied :: SameStanding(docs, copied, id, term))
    ensures var docs, copied := TextsOf(records, caps), CopyTexts(records, now);
            Expired(records, now) == {} ==>
              forall ln | Increases(ln) :: AlikeUnder(ln, docs, copied) <==> forall id | id in records :: Uncut(records[id], caps[id])
    ensures var docs, copied := TextsOf(records, caps), CopyTexts(records, now);
            (forall id | id in copied :: Uncut(records[id], caps[id])) ==>
              (SameAnswers(docs, copied) <==>
                Termless(copied)
                || (Average(docs) == Average(copied) && forall id, term | Holds(copied, id, term) :: SameIdf(docs, copied, term)))
    ensures var docs, copied := TextsOf(records, caps), CopyTexts(records, now);
            (exists id | id in copied :: !Uncut(records[id], caps[id])) && SameAnswers(docs, copied) ==>
              Expired(records, now) != {} && Average(copied) < Average(docs)
  {
    hide TextsOf, CopyTexts, Expired, SameAnswers, SameStanding, SameIdf, Average, AlikeUnder, Uncut, Tokens;
    var docs, copied := TextsOf(records, caps), CopyTexts(records, now);
    CopyIndexed(records, caps, now);
    StatisticsTell(docs, copied);
    if Expired(records, now) == {} {
      forall ln | Increases(ln) ensures AlikeUnder(ln, docs, copied) <==> copied == docs {
        NothingExpired(ln, docs, copied);
      }
    }
    if forall id | id in copied :: Uncut(records[id], caps[id]) {
      NothingCut(docs, copied);
    } else if SameAnswers(docs, copied) {
      var id :| id in copied && !Uncut(records[id], caps[id]);
      SomeGrew(docs, copied, id);
    }
  }

  lemma CopyIndexed(records: map<Bytes, Record>, caps: map<Bytes, nat>, now: int)
    requires caps.Keys == records.Keys && forall id | id in caps :: 1 <= caps[id] <= USIZE_MAX
    ensures var docs, copied := TextsOf(records, caps), CopyTexts(records, now);
            && (copied == docs <==> Expired(records, now) == {} && forall id | id in records :: Uncut(records[id], caps[id]))
            && Grown(docs, copied)
            && docs.Keys == records.Keys && copied.Keys == records.Keys - Expired(records, now)
            && forall id | id in copied :: docs[id] == copied[id] <==> Uncut(records[id], caps[id])
  {
    hide Tokens;
    var docs, copied := TextsOf(records, caps), CopyTexts(records, now);
    forall id | id in records
      ensures docs[id] <= Tokens(records[id].text, USIZE_MAX)
      ensures docs[id] == Tokens(records[id].text, USIZE_MAX) <==> Uncut(records[id], caps[id])
    {
      CapsAgree(records[id].text, caps[id], USIZE_MAX);
      AllTokensExtend(records[id].text, caps[id], USIZE_MAX);
    }
    assert docs.Keys == records.Keys && copied.Keys == records.Keys - Expired(records, now);
    if copied == docs {
      assert forall id | id in Expired(records, now) :: id in docs && id !in copied;
      assert forall id | id in records :: id in copied && copied[id] == docs[id];
    }
  }

  lemma AllTokensExtend(text: Bytes, small: nat, large: nat)
    requires small <= large
    ensures Tokens(text, small) <= Tokens(text, large)
  {
    SmallerCapIsPrefix(text, [], [], small, large);
  }

  /** A keyword search shows only records that pass the filter. */
  lemma ShownPass(hits: seq<Hit>, ln: real -> real, postings: map<Bytes, seq<Posting>>, docLen: map<Bytes, nat>, totalLen: nat,
                  query: seq<Bytes>, records: map<Bytes, Record>, filter: Record -> bool, limit: nat)
    requires TopOf(hits, IndexScores(ln, postings, docLen, totalLen, query, Keeps(records, filter)), limit)
    ensures forall h | h in hits :: h.id in records && filter(records[h.id])
  {
  }

  lemma NotStored(records: map<Bytes, Record>, owner: map<nat, Bytes>, owned: map<nat, seq<real>>, last: map<Bytes, seq<real>>, id: Bytes)
    requires Paired(records, owner, owned, last) && id !in records
    ensures records - {id} == records && last - {id} == last
  {
  }
}
