/** The values a key can hold. */
module Values {
  import opened ByteStrings
  import opened Resp

  datatype Mode = Search | Vector | Hybrid

  datatype Metric = Cosine | L2 | InnerProduct

  /** A memory index's configuration. Weights are named by their printed text; the half-life is in
      whole seconds. */
  datatype Config = Config(mode: Mode, dim: nat, metric: Metric, weights: seq<Score>, halfLife: nat)

  /** One memory record. Times are nanoseconds since the epoch; the embedding is its raw little-endian
      bytes. */
  datatype Record = Record(
    id: Bytes, text: Bytes, meta: map<Bytes, Bytes>, importance: Score,
    createdAt: int, updatedAt: int, expireAt: Option<int>, vector: Option<Bytes>)

  /** A memory index, by the records it holds: its search structures are derived from them. */
  datatype Memory = Memory(config: Config, records: map<Bytes, Record>, nextId: nat)

  datatype Value =
    | Str(text: Bytes)
    | ListOf(items: seq<Bytes>)
    | HashOf(fields: map<Bytes, Bytes>)
    | SetOf(members: set<Bytes>)
    | ZsetOf(scores: map<Bytes, Score>)
    | MemoryOf(memory: Memory)

  /** Whether this is an empty collection, which a keyspace never keeps. A memory index is not one:
      its configuration took a command to establish. */
  predicate IsEmptyCollection(v: Value) {
    match v
    case Str(_) => false
    case ListOf(items) => items == []
    case HashOf(fields) => fields == map[]
    case SetOf(members) => members == {}
    case ZsetOf(scores) => scores == map[]
    case MemoryOf(_) => false
  }

  /** The four of them. */
  lemma EmptyCollections(v: Value)
    ensures IsEmptyCollection(v) <==> v == ListOf([]) || v == HashOf(map[]) || v == SetOf({}) || v == ZsetOf(map[])
  {
  }
}
