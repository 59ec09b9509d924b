/** The dump format: what is written, and what a reader makes of any bytes at all. */
module Dumps {
  import opened ByteStrings
  import opened Resp
  import opened Values

  // ------------------------------------------------------------------
  // Words and lines

  predicate IsSpace(b: Byte) {
    9 <= b <= 13 || b == SPACE
  }

  /** A word of visible ASCII. */
  predicate IsWord(w: Bytes) {
    w != [] && forall i | 0 <= i < |w| :: 33 <= w[i] <= 126
  }

  function WordsFrom(text: Bytes, current: Bytes): seq<Bytes> {
    if text == [] then Finished(current)
    else if IsSpace(text[0]) then Finished(current) + WordsFrom(text[1..], [])
    else WordsFrom(text[1..], current + [text[0]])
  }

  function Finished(word: Bytes): seq<Bytes> {
    if word == [] then [] else [word]
  }

  /** The words of a line. */
  function Words(text: Bytes): seq<Bytes> {
    WordsFrom(text, [])
  }

  function Joined(words: seq<Bytes>): Bytes {
    if words == [] then []
    else if |words| == 1 then words[0]
    else words[0] + [SPACE] + Joined(words[1..])
  }

  predicate AllWords(words: seq<Bytes>) {
    forall i | 0 <= i < |words| :: IsWord(words[i])
  }

  lemma {:induction false} WordPassed(word: Bytes, rest: Bytes, current: Bytes)
    requires forall i | 0 <= i < |word| :: 33 <= word[i] <= 126
    ensures WordsFrom(word + rest, current) == WordsFrom(rest, current + word)
    decreases |word|
  {
    if word == [] {
      assert word + rest == rest && current + word == current;
    } else {
      assert (word + rest)[1..] == word[1..] + rest;
      WordPassed(word[1..], rest, current + [word[0]]);
      assert current + [word[0]] + word[1..] == current + word;
    }
  }

  lemma LastWord(word: Bytes)
    requires IsWord(word)
    ensures Words(word) == [word]
  {
    assert word + [] == word && [] + word == word;
    WordPassed(word, [], []);
  }

  lemma WordThenMore(word: Bytes, more: Bytes)
    requires IsWord(word)
    ensures Words(word + [SPACE] + more) == [word] + Words(more)
  {
    var tail := [SPACE] + more;
    assert word + [SPACE] + more == word + tail && [] + word == word && tail[1..] == more;
    WordPassed(word, tail, []);
  }

  /** Splitting undoes joining. */
  lemma {:induction false} WordsJoined(words: seq<Bytes>)
    requires AllWords(words)
    ensures Words(Joined(words)) == words
    decreases |words|
  {
    hide Words, IsWord;
    if |words| == 0 {
      NoWords();
    } else if |words| == 1 {
      LastWord(words[0]);
      assert words == [words[0]];
    } else {
      WordThenMore(words[0], Joined(words[1..]));
      WordsJoined(words[1..]);
      assert words == [words[0]] + words[1..];
    }
  }

  lemma NoWords()
    ensures Words([]) == []
  {
  }

  /** What a written line may hold: printable ASCII, not ending in a break. */
  predicate IsLine(text: Bytes) {
    forall i | 0 <= i < |text| :: 32 <= text[i] <= 126
  }

  lemma {:induction false} JoinedIsLine(words: seq<Bytes>)
    requires AllWords(words)
    ensures IsLine(Joined(words))
    decreases |words|
  {
    if |words| > 0 { assert IsWord(words[0]); }
    if |words| > 1 { JoinedIsLine(words[1..]); }
  }

  function TrimStart(s: Bytes): Bytes {
    if s != [] && IsSpace(s[0]) then TrimStart(s[1..]) else s
  }

  function TrimEnd(s: Bytes): Bytes {
    if s != [] && IsSpace(s[|s| - 1]) then TrimEnd(s[..|s| - 1]) else s
  }

  function StripBreaks(s: Bytes): Bytes {
    if s != [] && (s[|s| - 1] == CR || s[|s| - 1] == LF) then StripBreaks(s[..|s| - 1]) else s
  }

  /** Just past the next newline, or the end. */
  function LineEnd(bytes: Bytes, pos: nat): (end: nat)
    requires pos < |bytes|
    ensures pos < end <= |bytes|
    decreases |bytes| - pos
  {
    if bytes[pos] == LF || pos + 1 == |bytes| then pos + 1 else LineEnd(bytes, pos + 1)
  }

  lemma {:induction false} LineEndsAt(bytes: Bytes, pos: nat, text: Bytes)
    requires Sits(bytes, pos, text + [LF]) && IsLine(text)
    ensures pos < |bytes| && LineEnd(bytes, pos) == pos + |text| + 1
    decreases |text|
  {
    assert bytes[pos..pos + |text| + 1] == text + [LF];
    assert bytes[pos] == (text + [LF])[0];
    if text != [] {
      assert Sits(bytes, pos + 1, text[1..] + [LF]) by {
        assert bytes[pos + 1..pos + 1 + |text|] == (text + [LF])[1..] == text[1..] + [LF];
      }
      LineEndsAt(bytes, pos + 1, text[1..]);
    }
  }

  // ------------------------------------------------------------------
  // What is written

  /** One memory record as the dump spells it. Times are whole milliseconds. */
  datatype ListedRecord = ListedRecord(
    id: Bytes, text: Bytes, created: nat, updated: nat, importance: Score, expireAt: Option<nat>,
    meta: seq<(Bytes, Bytes)>, vector: Option<Bytes>)

  /** A value as the dump spells it: collections as lists, in the order written. */
  datatype Listing =
    | AsString(text: Bytes)
    | AsList(items: seq<Bytes>)
    | AsSet(items: seq<Bytes>)
    | AsHash(pairs: seq<(Bytes, Bytes)>)
    | AsZset(scored: seq<(Bytes, Score)>)
    | AsMemory(config: Config, nextId: nat, records: seq<ListedRecord>)

  /** One key, its value, and its deadline in milliseconds or -1. */
  datatype Entry = Entry(key: Bytes, listing: Listing, expireAt: int)

  function LineText(words: seq<Bytes>): Bytes {
    Joined(words) + [LF]
  }

  function BlobText(payload: Bytes): Bytes {
    LineText([Decimal(|payload|)]) + payload + [LF]
  }

  function BlobsText(items: seq<Bytes>): Bytes {
    if items == [] then [] else BlobText(items[0]) + BlobsText(items[1..])
  }

  function PairText(pair: (Bytes, Bytes)): Bytes {
    BlobText(pair.0) + BlobText(pair.1)
  }

  function PairsText(pairs: seq<(Bytes, Bytes)>): Bytes {
    if pairs == [] then [] else PairText(pairs[0]) + PairsText(pairs[1..])
  }

  function ScoredText(entry: (Bytes, Score)): Bytes {
    BlobText(entry.0) + entry.1.text + [LF]
  }

  function AllScoredText(scored: seq<(Bytes, Score)>): Bytes {
    if scored == [] then [] else ScoredText(scored[0]) + AllScoredText(scored[1..])
  }

  function ModeName(mode: Mode): Bytes {
    match mode case Search => Ascii("SEARCH") case Vector => Ascii("VECTOR") case Hybrid => Ascii("HYBRID")
  }

  function MetricName(metric: Metric): Bytes {
    match metric case Cosine => Ascii("COSINE") case L2 => Ascii("L2") case InnerProduct => Ascii("IP")
  }

  function ConfigWords(config: Config, nextId: nat): seq<Bytes>
    requires |config.weights| == 4
  {
    [ModeName(config.mode), Decimal(config.dim), MetricName(config.metric),
     config.weights[0].text, config.weights[1].text, config.weights[2].text, config.weights[3].text,
     Decimal(config.halfLife), Decimal(nextId)]
  }

  function RecordWords(r: ListedRecord): seq<Bytes> {
    [Decimal(r.created), Decimal(r.updated), r.importance.text,
     if r.expireAt.Some? then Decimal(r.expireAt.value) else IntText(-1),
     Decimal(|r.meta|), Decimal(if r.vector.Some? then |r.vector.value| / 4 else 0)]
  }

  function VectorText(vector: Option<Bytes>): Bytes {
    if vector.Some? then BlobText(vector.value) else []
  }

  function RecordText(r: ListedRecord): Bytes {
    BlobText(r.id) + BlobText(r.text) + LineText(RecordWords(r)) + PairsText(r.meta) + VectorText(r.vector)
  }

  function RecordsText(records: seq<ListedRecord>): Bytes {
    if records == [] then [] else RecordText(records[0]) + RecordsText(records[1..])
  }

  function Kind(l: Listing): Bytes {
    match l
    case AsString(_) => Ascii("STRING")
    case AsList(_) => Ascii("LIST")
    case AsSet(_) => Ascii("SET")
    case AsHash(_) => Ascii("HASH")
    case AsZset(_) => Ascii("ZSET")
    case AsMemory(_, _, _) => Ascii("MEMORY")
  }

  function Counted(l: Listing): seq<Bytes> {
    match l
    case AsString(_) => []
    case AsList(items) => [Decimal(|items|)]
    case AsSet(items) => [Decimal(|items|)]
    case AsHash(pairs) => [Decimal(|pairs|)]
    case AsZset(scored) => [Decimal(|scored|)]
    case AsMemory(_, _, records) => [Decimal(|records|)]
  }

  function Body(l: Listing): Bytes
    requires l.AsMemory? ==> |l.config.weights| == 4
  {
    match l
    case AsString(text) => BlobText(text)
    case AsList(items) => BlobsText(items)
    case AsSet(items) => BlobsText(items)
    case AsHash(pairs) => PairsText(pairs)
    case AsZset(scored) => AllScoredText(scored)
    case AsMemory(config, nextId, records) => LineText(ConfigWords(config, nextId)) + RecordsText(records)
  }

  function EntryText(e: Entry): Bytes
    requires e.listing.AsMemory? ==> |e.listing.config.weights| == 4
  {
    LineText([Kind(e.listing), IntText(e.expireAt)] + Counted(e.listing)) + BlobText(e.key) + Body(e.listing)
  }

  predicate Weighted(entries: seq<Entry>) {
    forall i | 0 <= i < |entries| :: entries[i].listing.AsMemory? ==> |entries[i].listing.config.weights| == 4
  }

  function EntriesText(entries: seq<Entry>): Bytes
    requires Weighted(entries)
  {
    if entries == [] then [] else EntryText(entries[0]) + EntriesText(entries[1..])
  }

  function Magic(): Bytes {
    Ascii("KLYRO-DUMP 3")
  }

  function DumpText(entries: seq<Entry>): Bytes
    requires Weighted(entries)
  {
    Magic() + [LF] + EntriesText(entries)
  }

  // ------------------------------------------------------------------
  // What a reader makes of bytes

  /** Text and float conversions that are not this model's: UTF-8 validity, reading floats, whether a
      blob's floats are finite, scaling them to unit length, what a weight may be, and clamping an
      importance to its range. */
  datatype Reading = Reading(
    utf8: Bytes -> bool, score: Bytes -> Option<Score>, float: Bytes -> Option<Score>,
    finite: Bytes -> bool, normalized: Bytes -> Bytes, validWeight: Score -> bool,
    clamp: Score -> Score, zero: Score, half: Score, defaultWeights: seq<Score>)

  ghost predicate Faithful(reading: Reading) {
    && (forall s | IsLine(s) :: reading.utf8(s) && reading.utf8(s + [LF]))
    && |reading.defaultWeights| == 4
  }

  /** Something read and the offset after it; nothing there; or an I/O error, which spoils the whole
      load. */
  datatype Read<+T> = Got(value: T, next: nat) | Missing(next: nat) | Broken

  function LineAt(reading: Reading, bytes: Bytes, pos: nat): (r: Read<Bytes>)
    requires pos <= |bytes|
    ensures r.Got? ==> pos < r.next <= |bytes|
    ensures r.Missing? ==> r.next == pos
  {
    if pos == |bytes| then Missing(pos)
    else
      var end := LineEnd(bytes, pos);
      if !reading.utf8(bytes[pos..end]) then Broken else Got(StripBreaks(bytes[pos..end]), end)
  }

  function BlobAt(reading: Reading, bytes: Bytes, pos: nat): (r: Read<Bytes>)
    requires pos <= |bytes|
    ensures r.Got? ==> pos < r.next <= |bytes|
    ensures r.Missing? ==> pos <= r.next <= |bytes|
  {
    match LineAt(reading, bytes, pos)
    case Missing(next) => Missing(next)
    case Broken => Broken
    case Got(header, start) =>
      match ParseNat(TrimEnd(TrimStart(header)))
      case None => Missing(start)
      case Some(len) =>
        if start + len > |bytes| then Broken
        else Got(bytes[start..start + len], if start + len < |bytes| then start + len + 1 else |bytes|)
  }

  function ScoreAt(reading: Reading, bytes: Bytes, pos: nat): (r: Read<Score>)
    requires pos <= |bytes|
    ensures !r.Broken? ==> pos <= r.next <= |bytes|
  {
    match LineAt(reading, bytes, pos)
    case Missing(next) => Missing(next)
    case Broken => Broken
    case Got(text, next) =>
      match reading.score(text) case Some(score) => Got(score, next) case None => Missing(next)
  }

  /** Two things in a row: both are read, whether or not the first is there. */
  function Both<A, B>(a: Read<A>, b: Read<B>): (r: Read<(A, B)>) {
    if a.Broken? || b.Broken? then Broken
    else if a.Got? && b.Got? then Got((a.value, b.value), b.next)
    else Missing(b.next)
  }

  function PairAt(reading: Reading, bytes: Bytes, pos: nat): (r: Read<(Bytes, Bytes)>)
    requires pos <= |bytes|
    ensures !r.Broken? ==> pos <= r.next <= |bytes|
  {
    var a := BlobAt(reading, bytes, pos);
    if a.Broken? then Broken else Both(a, BlobAt(reading, bytes, a.next))
  }

  function ScoredAt(reading: Reading, bytes: Bytes, pos: nat): (r: Read<(Bytes, Score)>)
    requires pos <= |bytes|
    ensures !r.Broken? ==> pos <= r.next <= |bytes|
  {
    var a := BlobAt(reading, bytes, pos);
    if a.Broken? then Broken else Both(a, ScoreAt(reading, bytes, a.next))
  }

  /** One more element in front of the rest. */
  function Before<T>(first: T, rest: Read<seq<T>>): Read<seq<T>> {
    match rest case Got(items, next) => Got([first] + items, next) case other => other
  }

  function BlobsAt(reading: Reading, bytes: Bytes, pos: nat, count: nat): (r: Read<seq<Bytes>>)
    requires pos <= |bytes|
    ensures !r.Missing? && (r.Got? ==> pos <= r.next <= |bytes|)
    decreases count
  {
    if count == 0 then Got([], pos)
    else
      match BlobAt(reading, bytes, pos)
      case Broken => Broken
      case Missing(next) => Got([], next)
      case Got(item, next) => Before(item, BlobsAt(reading, bytes, next, count - 1))
  }

  function PairsAt(reading: Reading, bytes: Bytes, pos: nat, count: nat): (r: Read<seq<(Bytes, Bytes)>>)
    requires pos <= |bytes|
    ensures !r.Missing? && (r.Got? ==> pos <= r.next <= |bytes|)
    decreases count
  {
    if count == 0 then Got([], pos)
    else
      match PairAt(reading, bytes, pos)
      case Broken => Broken
      case Missing(next) => Got([], next)
      case Got(pair, next) => Before(pair, PairsAt(reading, bytes, next, count - 1))
  }

  function AllScoredAt(reading: Reading, bytes: Bytes, pos: nat, count: nat): (r: Read<seq<(Bytes, Score)>>)
    requires pos <= |bytes|
    ensures !r.Missing? && (r.Got? ==> pos <= r.next <= |bytes|)
    decreases count
  {
    if count == 0 then Got([], pos)
    else
      match ScoredAt(reading, bytes, pos)
      case Broken => Broken
      case Missing(next) => Got([], next)
      case Got(entry, next) => Before(entry, AllScoredAt(reading, bytes, next, count - 1))
  }

  function NatOr(word: Bytes, default: nat): nat {
    match ParseNat(word) case Some(n) => n case None => default
  }

  function I64Or(word: Bytes, default: int): int {
    match ParseI64(word) case Some(n) => n case None => default
  }

  /** A moment read back: never before the epoch. */
  function Moment(millis: int): nat {
    if millis < 0 then 0 else millis
  }

  /** The record the words of its line describe, but for its metadata and vector. */
  function Described(reading: Reading, id: Bytes, text: Bytes, words: seq<Bytes>): (r: ListedRecord)
    requires |words| >= 6
    ensures r.meta == [] && r.vector == None
  {
    var deadline := I64Or(words[3], -1);
    ListedRecord(id, text, Moment(I64Or(words[0], -1)), Moment(I64Or(words[1], -1)),
                 reading.clamp(match reading.float(words[2]) case Some(f) => f case None => reading.half),
                 if deadline >= 0 then Some(deadline) else None, [], None)
  }

  /** A memory record. Anything missing from one ends the whole load. */
  function RecordAt(reading: Reading, bytes: Bytes, pos: nat): (r: Read<ListedRecord>)
    requires pos <= |bytes|
    ensures !r.Broken? ==> pos <= r.next <= |bytes|
  {
    var head := PairAt(reading, bytes, pos);
    if head.Broken? then Broken
    else
      match Both(head, LineAt(reading, bytes, head.next))
      case Broken => Broken
      case Missing(next) => Missing(next)
      case Got(((id, text), line), next) =>
        var words := Words(line);
        if |words| < 6 then Missing(next)
        else TailAt(reading, Described(reading, id, text, words), NatOr(words[4], 0), NatOr(words[5], 0), bytes, next)
  }

  /** The metadata and vector that follow a record's line. A vector that is not finite floats is
      dropped. */
  function TailAt(reading: Reading, r: ListedRecord, metaCount: nat, vectorLen: nat, bytes: Bytes, pos: nat): (read: Read<ListedRecord>)
    requires pos <= |bytes|
    ensures !read.Broken? ==> pos <= read.next <= |bytes|
  {
    match PairsAt(reading, bytes, pos, metaCount)
    case Broken => Broken
    case Got(meta, next) =>
      if |meta| < metaCount then Missing(next)
      else if vectorLen == 0 then Got(r.(meta := meta), next)
      else
        match BlobAt(reading, bytes, next)
        case Broken => Broken
        case Missing(end) => Missing(end)
        case Got(blob, end) =>
          Got(r.(meta := meta, vector := if |blob| % 4 == 0 && reading.finite(blob) then Some(blob) else None), end)
  }

  function RecordsAt(reading: Reading, bytes: Bytes, pos: nat, count: nat): (r: Read<seq<ListedRecord>>)
    requires pos <= |bytes|
    ensures !r.Broken? ==> pos <= r.next <= |bytes|
    decreases count
  {
    if count == 0 then Got([], pos)
    else
      match RecordAt(reading, bytes, pos)
      case Broken => Broken
      case Missing(next) => Missing(next)
      case Got(record, next) => Before(record, RecordsAt(reading, bytes, next, count - 1))
  }

  function ParseMode(word: Bytes): Option<Mode> {
    var u := Upper(word);
    if u == Ascii("SEARCH") then Some(Search) else if u == Ascii("VECTOR") then Some(Vector)
    else if u == Ascii("HYBRID") then Some(Hybrid) else None
  }

  function ParseMetric(word: Bytes): Option<Metric> {
    var u := Upper(word);
    if u == Ascii("COSINE") then Some(Cosine) else if u == Ascii("L2") then Some(L2)
    else if u == Ascii("IP") || u == Ascii("INNERPRODUCT") then Some(InnerProduct) else None
  }

  function Weight(reading: Reading, word: Bytes): Score {
    match reading.float(word) case Some(f) => f case None => reading.zero
  }

  const DEFAULT_HALF_LIFE: nat := 7 * 24 * 3600

  function ConfigFrom(reading: Reading, words: seq<Bytes>, mode: Mode, metric: Metric): Config
    requires |words| >= 9
  {
    var weights := [Weight(reading, words[3]), Weight(reading, words[4]), Weight(reading, words[5]), Weight(reading, words[6])];
    Config(mode, if mode == Search then 0 else NatOr(words[1], 0), metric,
           if forall i | 0 <= i < 4 :: reading.validWeight(weights[i]) then weights else reading.defaultWeights,
           NatOr(words[7], DEFAULT_HALF_LIFE))
  }

  function AtLeastOne(n: nat): nat {
    if n == 0 then 1 else n
  }

  function MemoryAt(reading: Reading, bytes: Bytes, pos: nat, count: nat): (r: Read<Listing>)
    requires pos <= |bytes|
    ensures !r.Broken? ==> pos <= r.next <= |bytes|
  {
    match LineAt(reading, bytes, pos)
    case Broken => Broken
    case Missing(next) => Missing(next)
    case Got(line, next) =>
      var words := Words(line);
      if |words| < 9 || ParseMode(words[0]).None? || ParseMetric(words[2]).None? then Missing(next)
      else
        match RecordsAt(reading, bytes, next, count)
        case Broken => Broken
        case Missing(end) => Missing(end)
        case Got(records, end) =>
          Got(AsMemory(ConfigFrom(reading, words, ParseMode(words[0]).value, ParseMetric(words[2]).value),
                       AtLeastOne(NatOr(words[8], 1)), records), end)
  }

  predicate IsKind(kind: Bytes) {
    kind in [Ascii("STRING"), Ascii("LIST"), Ascii("SET"), Ascii("HASH"), Ascii("ZSET"), Ascii("MEMORY")]
  }

  function Listed<T>(read: Read<T>, form: T -> Listing): Read<Listing> {
    match read case Got(v, next) => Got(form(v), next) case Missing(next) => Missing(next) case Broken => Broken
  }

  /** A value of the given kind. A collection cut short is kept as far as it goes. */
  function ListingAt(reading: Reading, kind: Bytes, count: nat, bytes: Bytes, pos: nat): (r: Read<Listing>)
    requires pos <= |bytes| && IsKind(kind)
    ensures !r.Broken? ==> pos <= r.next <= |bytes|
  {
    if kind == Ascii("STRING") then Listed(BlobAt(reading, bytes, pos), v => AsString(v))
    else if kind == Ascii("LIST") then Listed(BlobsAt(reading, bytes, pos, count), v => AsList(v))
    else if kind == Ascii("SET") then Listed(BlobsAt(reading, bytes, pos, count), v => AsSet(v))
    else if kind == Ascii("HASH") then Listed(PairsAt(reading, bytes, pos, count), v => AsHash(v))
    else if kind == Ascii("ZSET") then Listed(AllScoredAt(reading, bytes, pos, count), v => AsZset(v))
    else MemoryAt(reading, bytes, pos, count)
  }

  /** Every entry from `pos` on; `None` if reading broke. */
  function EntriesAt(reading: Reading, bytes: Bytes, pos: nat): Option<seq<Entry>>
    requires pos <= |bytes|
    decreases |bytes| - pos
  {
    match LineAt(reading, bytes, pos)
    case Broken => None
    case Missing(_) => Some([])
    case Got(header, at) =>
      var words := Words(header);
      if |words| < 2 then EntriesAt(reading, bytes, at)
      else
        match BlobAt(reading, bytes, at)
        case Broken => None
        case Missing(_) => Some([])
        case Got(key, body) =>
          if !IsKind(words[0]) then EntriesAt(reading, bytes, body)
          else
            match ListingAt(reading, words[0], if |words| > 2 then NatOr(words[2], 0) else 0, bytes, body)
            case Broken => None
            case Missing(_) => Some([])
            case Got(listing, next) =>
              match EntriesAt(reading, bytes, next)
              case None => None
              case Some(rest) => Some([Entry(key, listing, I64Or(words[1], -1))] + rest)
  }

  // ------------------------------------------------------------------
  // Reading undoes writing

  /** A float whose printed text is one word that `parse` reads back as it. */
  predicate Printed(parse: Bytes -> Option<Score>, s: Score) {
    IsWord(s.text) && parse(s.text) == Some(s)
  }

  predicate ProperRecord(reading: Reading, r: ListedRecord) {
    && Printed(reading.float, r.importance) && reading.clamp(r.importance) == r.importance
    && r.created <= I64_MAX && r.updated <= I64_MAX && (r.expireAt.Some? ==> r.expireAt.value <= I64_MAX)
    && (r.vector.Some? ==> |r.vector.value| >= 4 && |r.vector.value| % 4 == 0 && reading.finite(r.vector.value))
  }

  predicate ProperConfig(reading: Reading, config: Config) {
    && |config.weights| == 4
    && (forall i | 0 <= i < 4 :: Printed(reading.float, config.weights[i]) && reading.validWeight(config.weights[i]))
    && (config.mode == Search ==> config.dim == 0)
  }

  predicate ProperListing(reading: Reading, l: Listing) {
    match l
    case AsZset(scored) => forall i | 0 <= i < |scored| :: Printed(reading.score, scored[i].1)
    case AsMemory(config, nextId, records) =>
      ProperConfig(reading, config) && nextId > 0 && forall i | 0 <= i < |records| :: ProperRecord(reading, records[i])
    case _ => true
  }

  predicate Proper(reading: Reading, entries: seq<Entry>) {
    forall i | 0 <= i < |entries| ::
      ProperListing(reading, entries[i].listing) && I64_MIN <= entries[i].expireAt <= I64_MAX
  }

  lemma ProperIsWeighted(reading: Reading, entries: seq<Entry>)
    requires Proper(reading, entries)
    ensures Weighted(entries)
  {
    forall i | 0 <= i < |entries| && entries[i].listing.AsMemory? ensures |entries[i].listing.config.weights| == 4 {
      assert ProperListing(reading, entries[i].listing);
    }
  }

  lemma LineThere(reading: Reading, bytes: Bytes, pos: nat, text: Bytes)
    requires Faithful(reading) && IsLine(text) && Sits(bytes, pos, text + [LF])
    ensures LineAt(reading, bytes, pos) == Got(text, pos + |text| + 1)
  {
    LineEndsAt(bytes, pos, text);
    var line := text + [LF];
    assert bytes[pos..pos + |text| + 1] == line;
    assert line[..|line| - 1] == text;
    assert StripBreaks(text) == text;
  }

  lemma WordsThere(reading: Reading, bytes: Bytes, pos: nat, words: seq<Bytes>)
    requires Faithful(reading) && AllWords(words) && Sits(bytes, pos, LineText(words))
    ensures LineAt(reading, bytes, pos) == Got(Joined(words), pos + |LineText(words)|)
    ensures Words(Joined(words)) == words
  {
    JoinedIsLine(words);
    LineThere(reading, bytes, pos, Joined(words));
    WordsJoined(words);
  }

  lemma DecimalIsWord(n: nat)
    ensures IsWord(Decimal(n)) && TrimEnd(TrimStart(Decimal(n))) == Decimal(n)
  {
    var s := Decimal(n);
    assert forall i | 0 <= i < |s| :: IsDigit(s[i]);
    assert IsDigit(s[0]) && IsDigit(s[|s| - 1]);
  }

  lemma IntTextIsWord(n: int)
    ensures IsWord(IntText(n))
  {
    var s := IntText(n);
    assert forall i | 0 <= i < |s| :: IsDigit(s[i]) || s[i] == MINUS;
  }

  /** A blob of any bytes at all is read back whole. */
  lemma BlobThere(reading: Reading, bytes: Bytes, pos: nat, payload: Bytes)
    requires Faithful(reading) && Sits(bytes, pos, BlobText(payload))
    ensures BlobAt(reading, bytes, pos) == Got(payload, pos + |BlobText(payload)|)
  {
    hide Words, TrimStart, TrimEnd, Decimal;
    var header := LineText([Decimal(|payload|)]);
    SitsSplit(bytes, pos, header + payload, [LF]);
    SitsSplit(bytes, pos, header, payload);
    DecimalIsWord(|payload|);
    WordsThere(reading, bytes, pos, [Decimal(|payload|)]);
    ParseDecimal(|payload|);
  }

  lemma PairThere(reading: Reading, bytes: Bytes, pos: nat, pair: (Bytes, Bytes))
    requires Faithful(reading) && Sits(bytes, pos, PairText(pair))
    ensures PairAt(reading, bytes, pos) == Got(pair, pos + |PairText(pair)|)
  {
    hide BlobAt, BlobText, Faithful;
    SitsSplit(bytes, pos, BlobText(pair.0), BlobText(pair.1));
    BlobThere(reading, bytes, pos, pair.0);
    BlobThere(reading, bytes, pos + |BlobText(pair.0)|, pair.1);
  }

  lemma WordIsLine(w: Bytes)
    requires IsWord(w)
    ensures IsLine(w)
  {
  }

  lemma ScoredThere(reading: Reading, bytes: Bytes, pos: nat, entry: (Bytes, Score))
    requires Faithful(reading) && Printed(reading.score, entry.1) && Sits(bytes, pos, ScoredText(entry))
    ensures ScoredAt(reading, bytes, pos) == Got(entry, pos + |ScoredText(entry)|)
  {
    hide BlobAt, BlobText, LineAt;
    var (member, score) := entry;
    assert ScoredText(entry) == BlobText(member) + (score.text + [LF]);
    SitsSplit(bytes, pos, BlobText(member), score.text + [LF]);
    BlobThere(reading, bytes, pos, member);
    WordIsLine(score.text);
    LineThere(reading, bytes, pos + |BlobText(member)|, score.text);
  }

  lemma {:induction false} BlobsThere(reading: Reading, bytes: Bytes, pos: nat, items: seq<Bytes>)
    requires Faithful(reading) && Sits(bytes, pos, BlobsText(items))
    ensures BlobsAt(reading, bytes, pos, |items|) == Got(items, pos + |BlobsText(items)|)
    decreases |items|
  {
    hide BlobAt, BlobText, Faithful;
    if items != [] {
      SitsSplit(bytes, pos, BlobText(items[0]), BlobsText(items[1..]));
      BlobThere(reading, bytes, pos, items[0]);
      BlobsThere(reading, bytes, pos + |BlobText(items[0])|, items[1..]);
      assert items == [items[0]] + items[1..];
    }
  }

  lemma {:induction false} PairsThere(reading: Reading, bytes: Bytes, pos: nat, pairs: seq<(Bytes, Bytes)>)
    requires Faithful(reading) && Sits(bytes, pos, PairsText(pairs))
    ensures PairsAt(reading, bytes, pos, |pairs|) == Got(pairs, pos + |PairsText(pairs)|)
    decreases |pairs|
  {
    hide PairAt, PairText, Faithful;
    if pairs != [] {
      SitsSplit(bytes, pos, PairText(pairs[0]), PairsText(pairs[1..]));
      PairThere(reading, bytes, pos, pairs[0]);
      PairsThere(reading, bytes, pos + |PairText(pairs[0])|, pairs[1..]);
      assert pairs == [pairs[0]] + pairs[1..];
    }
  }

  lemma {:induction false} AllScoredThere(reading: Reading, bytes: Bytes, pos: nat, scored: seq<(Bytes, Score)>)
    requires Faithful(reading) && Sits(bytes, pos, AllScoredText(scored))
    requires forall i | 0 <= i < |scored| :: Printed(reading.score, scored[i].1)
    ensures AllScoredAt(reading, bytes, pos, |scored|) == Got(scored, pos + |AllScoredText(scored)|)
    decreases |scored|
  {
    hide ScoredAt, ScoredText, Printed, Faithful;
    if scored != [] {
      SitsSplit(bytes, pos, ScoredText(scored[0]), AllScoredText(scored[1..]));
      ScoredThere(reading, bytes, pos, scored[0]);
      AllScoredThere(reading, bytes, pos + |ScoredText(scored[0])|, scored[1..]);
      assert scored == [scored[0]] + scored[1..];
    }
  }

  lemma RecordWordsRead(reading: Reading, r: ListedRecord)
    requires ProperRecord(reading, r)
    ensures var words := RecordWords(r);
            && AllWords(words) && |words| == 6
            && Described(reading, r.id, r.text, words) == r.(meta := [], vector := None)
            && NatOr(words[4], 0) == |r.meta|
            && NatOr(words[5], 0) == if r.vector.Some? then |r.vector.value| / 4 else 0
  {
    hide Decimal, IntText, ParseI64, ParseNat;
    var words := RecordWords(r);
    forall n: nat ensures IsWord(Decimal(n)) && ParseNat(Decimal(n)) == Some(n) && (n <= I64_MAX ==> ParseI64(Decimal(n)) == Some(n)) {
      DecimalIsWord(n);
      ParseDecimal(n);
    }
    IntTextIsWord(-1);
    ParseIntText(-1);
    assert forall i | 0 <= i < |words| :: IsWord(words[i]);
  }

  lemma RecordThere(reading: Reading, bytes: Bytes, pos: nat, r: ListedRecord)
    requires Faithful(reading) && ProperRecord(reading, r) && Sits(bytes, pos, RecordText(r))
    ensures RecordAt(reading, bytes, pos) == Got(r, pos + |RecordText(r)|)
  {
    hide BlobAt, BlobText, LineAt, LineText, RecordWords, Words, Described, PairsAt, PairsText, TailAt, NatOr, Joined;
    var head, line := BlobText(r.id) + BlobText(r.text), LineText(RecordWords(r));
    assert RecordText(r) == head + line + (PairsText(r.meta) + VectorText(r.vector));
    SitsSplit(bytes, pos, head + line, PairsText(r.meta) + VectorText(r.vector));
    SitsSplit(bytes, pos, head, line);
    PairThere(reading, bytes, pos, (r.id, r.text));
    RecordWordsRead(reading, r);
    WordsThere(reading, bytes, pos + |head|, RecordWords(r));
    TailThere(reading, bytes, pos + |head| + |line|, r);
  }

  lemma TailThere(reading: Reading, bytes: Bytes, pos: nat, r: ListedRecord)
    requires Faithful(reading) && ProperRecord(reading, r) && Sits(bytes, pos, PairsText(r.meta) + VectorText(r.vector))
    ensures TailAt(reading, r.(meta := [], vector := None), |r.meta|, if r.vector.Some? then |r.vector.value| / 4 else 0, bytes, pos)
            == Got(r, pos + |PairsText(r.meta)| + |VectorText(r.vector)|)
  {
    hide BlobAt, BlobText, PairsAt, PairsText, Printed;
    SitsSplit(bytes, pos, PairsText(r.meta), VectorText(r.vector));
    PairsThere(reading, bytes, pos, r.meta);
    if r.vector.Some? {
      BlobThere(reading, bytes, pos + |PairsText(r.meta)|, r.vector.value);
    }
  }

  lemma {:induction false} RecordsThere(reading: Reading, bytes: Bytes, pos: nat, records: seq<ListedRecord>)
    requires Faithful(reading) && Sits(bytes, pos, RecordsText(records))
    requires forall i | 0 <= i < |records| :: ProperRecord(reading, records[i])
    ensures RecordsAt(reading, bytes, pos, |records|) == Got(records, pos + |RecordsText(records)|)
    decreases |records|
  {
    hide RecordAt, RecordText, ProperRecord, Faithful;
    if records != [] {
      SitsSplit(bytes, pos, RecordText(records[0]), RecordsText(records[1..]));
      RecordThere(reading, bytes, pos, records[0]);
      RecordsThere(reading, bytes, pos + |RecordText(records[0])|, records[1..]);
      assert records == [records[0]] + records[1..];
    }
  }

  /** A keyword: visible, with no lower-case letters. */
  predicate Plain(s: string) {
    s != "" && forall i | 0 <= i < |s| :: '!' <= s[i] < 'a'
  }

  lemma PlainText(s: string)
    requires Plain(s)
    ensures IsWord(Ascii(s)) && Upper(Ascii(s)) == Ascii(s)
  {
    assert forall i | 0 <= i < |s| :: Ascii(s)[i] == (s[i] as int) as Byte;
  }

  lemma PlainDiffer(a: string, b: string)
    requires Plain(a) && Plain(b) && a != b
    ensures Ascii(a) != Ascii(b)
  {
    if |a| == |b| {
      var i :| 0 <= i < |a| && a[i] != b[i];
      assert Ascii(a)[i] == (a[i] as int) as Byte && Ascii(b)[i] == (b[i] as int) as Byte;
    }
  }

  lemma NamesRead(mode: Mode, metric: Metric)
    ensures IsWord(ModeName(mode)) && ParseMode(ModeName(mode)) == Some(mode)
    ensures IsWord(MetricName(metric)) && ParseMetric(MetricName(metric)) == Some(metric)
  {
    ModeRead(mode);
    MetricRead(metric);
    hide ModeName, MetricName, ParseMode, ParseMetric;
  }

  lemma ModeRead(mode: Mode)
    ensures IsWord(ModeName(mode)) && ParseMode(ModeName(mode)) == Some(mode)
  {
    hide Ascii, Upper, IsWord;
    PlainText("SEARCH");
    PlainText("VECTOR");
    PlainText("HYBRID");
    PlainDiffer("SEARCH", "VECTOR");
    PlainDiffer("SEARCH", "HYBRID");
    PlainDiffer("VECTOR", "HYBRID");
  }

  lemma MetricRead(metric: Metric)
    ensures IsWord(MetricName(metric)) && ParseMetric(MetricName(metric)) == Some(metric)
  {
    hide Ascii, Upper, IsWord;
    PlainText("COSINE");
    PlainText("L2");
    PlainText("IP");
    PlainDiffer("COSINE", "L2");
    PlainDiffer("COSINE", "IP");
    PlainDiffer("L2", "IP");
  }

  lemma ConfigRead(reading: Reading, config: Config, nextId: nat)
    requires ProperConfig(reading, config) && nextId > 0
    ensures var words := ConfigWords(config, nextId);
            && AllWords(words)
            && ConfigFrom(reading, words, config.mode, config.metric) == config
            && AtLeastOne(NatOr(words[8], 1)) == nextId
  {
    hide Decimal, ParseNat, ModeName, MetricName;
    NamesRead(config.mode, config.metric);
    forall n: nat ensures IsWord(Decimal(n)) && ParseNat(Decimal(n)) == Some(n) {
      DecimalIsWord(n);
      ParseDecimal(n);
    }
    var words := ConfigWords(config, nextId);
    assert forall i | 0 <= i < 4 :: words[3 + i] == config.weights[i].text && Weight(reading, words[3 + i]) == config.weights[i];
    assert [config.weights[0], config.weights[1], config.weights[2], config.weights[3]] == config.weights;
  }

  lemma MemoryThere(reading: Reading, bytes: Bytes, pos: nat, l: Listing)
    requires Faithful(reading) && l.AsMemory? && ProperListing(reading, l) && Sits(bytes, pos, Body(l))
    ensures MemoryAt(reading, bytes, pos, |l.records|) == Got(l, pos + |Body(l)|)
  {
    hide Faithful, Sits, MemoryAt, LineText, RecordsText, ConfigWords, ProperRecord;
    MemoryTextThere(reading, bytes, pos, l.config, l.nextId, l.records);
  }

  lemma MemoryTextThere(reading: Reading, bytes: Bytes, pos: nat, config: Config, nextId: nat, records: seq<ListedRecord>)
    requires Faithful(reading) && ProperConfig(reading, config) && |config.weights| == 4 && nextId > 0
    requires forall i | 0 <= i < |records| :: ProperRecord(reading, records[i])
    requires Sits(bytes, pos, LineText(ConfigWords(config, nextId)) + RecordsText(records))
    ensures MemoryAt(reading, bytes, pos, |records|)
            == Got(AsMemory(config, nextId, records), pos + |LineText(ConfigWords(config, nextId)) + RecordsText(records)|)
  {
    hide Faithful, ProperConfig, MemoryAt, LineAt, LineText, Words, ConfigWords, ConfigFrom, RecordsAt, RecordsText, ProperRecord,
      ParseMode, ParseMetric, Joined, NatOr, ModeName, MetricName, AtLeastOne;
    var words := ConfigWords(config, nextId);
    SitsSplit(bytes, pos, LineText(words), RecordsText(records));
    ConfigRead(reading, config, nextId);
    WordsThere(reading, bytes, pos, words);
    RecordsThere(reading, bytes, pos + |LineText(words)|, records);
    NamesRead(config.mode, config.metric);
    FirstWords(config, nextId);
    MemoryRead(reading, bytes, pos, Joined(words), pos + |LineText(words)|, config.mode, config.metric, records,
               pos + |LineText(words)| + |RecordsText(records)|);
  }

  lemma MemoryRead(reading: Reading, bytes: Bytes, pos: nat, line: Bytes, next: nat, mode: Mode, metric: Metric, records: seq<ListedRecord>, end: nat)
    requires pos <= |bytes| && LineAt(reading, bytes, pos) == Got(line, next) && |Words(line)| >= 9
    requires ParseMode(Words(line)[0]) == Some(mode) && ParseMetric(Words(line)[2]) == Some(metric)
    requires RecordsAt(reading, bytes, next, |records|) == Got(records, end)
    ensures MemoryAt(reading, bytes, pos, |records|)
            == Got(AsMemory(ConfigFrom(reading, Words(line), mode, metric), AtLeastOne(NatOr(Words(line)[8], 1)), records), end)
  {
    hide LineAt, Words, ConfigFrom, RecordsAt, ParseMode, ParseMetric, NatOr;
  }

  lemma FirstWords(config: Config, nextId: nat)
    requires |config.weights| == 4
    ensures var words := ConfigWords(config, nextId);
            |words| == 9 && words[0] == ModeName(config.mode) && words[2] == MetricName(config.metric)
  {
  }

  function Size(l: Listing): nat {
    match l
    case AsString(_) => 0
    case AsList(items) => |items|
    case AsSet(items) => |items|
    case AsHash(pairs) => |pairs|
    case AsZset(scored) => |scored|
    case AsMemory(_, _, records) => |records|
  }

  const KINDS: seq<string> := ["STRING", "LIST", "SET", "HASH", "ZSET", "MEMORY"]

  lemma KindsDiffer()
    ensures forall i, j | 0 <= i < j < |KINDS| :: Ascii(KINDS[i]) != Ascii(KINDS[j])
    ensures forall l: Listing :: IsWord(Kind(l)) && IsKind(Kind(l))
  {
    hide Ascii, IsWord;
    forall i | 0 <= i < |KINDS| ensures Plain(KINDS[i]) && IsWord(Ascii(KINDS[i])) {
      PlainText(KINDS[i]);
    }
    forall i, j | 0 <= i < j < |KINDS| ensures Ascii(KINDS[i]) != Ascii(KINDS[j]) {
      PlainDiffer(KINDS[i], KINDS[j]);
    }
    forall l: Listing ensures IsWord(Kind(l)) && IsKind(Kind(l)) {
      KindIsOne(l);
    }
  }

  lemma KindIsOne(l: Listing)
    ensures exists i | 0 <= i < |KINDS| :: Kind(l) == Ascii(KINDS[i])
    ensures IsKind(Kind(l))
  {
    hide Ascii;
    var i := match l case AsString(_) => 0 case AsList(_) => 1 case AsSet(_) => 2 case AsHash(_) => 3 case AsZset(_) => 4 case AsMemory(_, _, _) => 5;
    assert Kind(l) == Ascii(KINDS[i]);
  }

  lemma ListingThere(reading: Reading, bytes: Bytes, pos: nat, l: Listing)
    requires Faithful(reading) && ProperListing(reading, l) && Sits(bytes, pos, Body(l))
    ensures IsKind(Kind(l)) && ListingAt(reading, Kind(l), Size(l), bytes, pos) == Got(l, pos + |Body(l)|)
  {
    hide BlobAt, BlobsAt, PairsAt, AllScoredAt, MemoryAt, BlobText, BlobsText, PairsText, AllScoredText, RecordsText, ConfigWords, Ascii, IsKind, LineText, ProperRecord, Printed;
    KindsDiffer();
    assert KINDS[0] == "STRING" && KINDS[1] == "LIST" && KINDS[2] == "SET" && KINDS[3] == "HASH" && KINDS[4] == "ZSET" && KINDS[5] == "MEMORY";
    assert forall i, j | 0 <= i < j < 6 :: Ascii(KINDS[i]) != Ascii(KINDS[j]);
    match l
    case AsString(text) => BlobThere(reading, bytes, pos, text);
    case AsList(items) => BlobsThere(reading, bytes, pos, items);
    case AsSet(items) => BlobsThere(reading, bytes, pos, items);
    case AsHash(pairs) => PairsThere(reading, bytes, pos, pairs);
    case AsZset(scored) => AllScoredThere(reading, bytes, pos, scored);
    case AsMemory(_, _, _) => MemoryThere(reading, bytes, pos, l);
  }

  function HeadWords(e: Entry): seq<Bytes> {
    [Kind(e.listing), IntText(e.expireAt)] + Counted(e.listing)
  }

  lemma HeadRead(e: Entry)
    requires I64_MIN <= e.expireAt <= I64_MAX
    ensures var words := HeadWords(e);
            && AllWords(words) && |words| >= 2 && words[0] == Kind(e.listing) && I64Or(words[1], -1) == e.expireAt
            && (if |words| > 2 then NatOr(words[2], 0) else 0) == Size(e.listing)
  {
    hide Decimal, IntText, ParseNat, ParseI64, Kind, Ascii;
    KindsDiffer();
    IntTextIsWord(e.expireAt);
    ParseIntText(e.expireAt);
    DecimalIsWord(Size(e.listing));
    ParseDecimal(Size(e.listing));
  }

  /** What the writer wrote, the reader reads: every entry, in order, with its deadline. */
  lemma {:induction false} EntriesThere(reading: Reading, bytes: Bytes, pos: nat, entries: seq<Entry>)
    requires Faithful(reading) && Proper(reading, entries) && Weighted(entries)
    requires pos <= |bytes| && bytes[pos..] == EntriesText(entries)
    ensures EntriesAt(reading, bytes, pos) == Some(entries)
    decreases |entries|
  {
    hide EntriesAt, EntryText, ProperListing, Faithful;
    if entries != [] {
      var e, rest := entries[0], EntriesText(entries[1..]);
      assert Sits(bytes, pos, EntryText(e) + rest);
      SitsSplit(bytes, pos, EntryText(e), rest);
      EntryThere(reading, bytes, pos, e);
      var next := pos + |EntryText(e)|;
      assert bytes[next..] == rest by {
        assert bytes[pos..][|EntryText(e)|..] == rest;
      }
      EntriesThere(reading, bytes, next, entries[1..]);
      assert entries == [e] + entries[1..];
    } else {
      NothingThere(reading, bytes, pos);
    }
  }

  /** One entry is read, and then whatever follows it. */
  lemma EntryThere(reading: Reading, bytes: Bytes, pos: nat, e: Entry)
    requires Faithful(reading) && ProperListing(reading, e.listing) && I64_MIN <= e.expireAt <= I64_MAX
    requires e.listing.AsMemory? ==> |e.listing.config.weights| == 4
    requires Sits(bytes, pos, EntryText(e))
    ensures EntriesAt(reading, bytes, pos)
            == match EntriesAt(reading, bytes, pos + |EntryText(e)|)
               case None => None
               case Some(rest) => Some([e] + rest)
  {
    hide EntriesAt, EntryText, LineAt, BlobAt, ListingAt, ProperListing, HeadWords, Joined, Words, LineText, BlobText, Body, IsKind, NatOr, I64Or,
      Kind, Size, Faithful;
    var head, key, body := LineText(HeadWords(e)), BlobText(e.key), Body(e.listing);
    EntryIs(e);
    SitsSplit(bytes, pos, head + key, body);
    SitsSplit(bytes, pos, head, key);
    HeadRead(e);
    WordsThere(reading, bytes, pos, HeadWords(e));
    BlobThere(reading, bytes, pos + |head|, e.key);
    ListingThere(reading, bytes, pos + |head| + |key|, e.listing);
    EntryRead(reading, bytes, pos, Joined(HeadWords(e)), pos + |head|, e.key, pos + |head| + |key|, e.listing, pos + |head| + |key| + |body|);
  }

  lemma EntryRead(reading: Reading, bytes: Bytes, pos: nat, header: Bytes, at: nat, key: Bytes, body: nat, listing: Listing, next: nat)
    requires pos <= |bytes| && LineAt(reading, bytes, pos) == Got(header, at) && BlobAt(reading, bytes, at) == Got(key, body)
    requires |Words(header)| >= 2 && IsKind(Words(header)[0])
    requires ListingAt(reading, Words(header)[0], if |Words(header)| > 2 then NatOr(Words(header)[2], 0) else 0, bytes, body) == Got(listing, next)
    ensures EntriesAt(reading, bytes, pos)
            == match EntriesAt(reading, bytes, next)
               case None => None
               case Some(rest) => Some([Entry(key, listing, I64Or(Words(header)[1], -1))] + rest)
  {
    hide LineAt, BlobAt, ListingAt, Words, IsKind, NatOr, I64Or;
  }

  lemma EntryIs(e: Entry)
    requires e.listing.AsMemory? ==> |e.listing.config.weights| == 4
    ensures EntryText(e) == LineText(HeadWords(e)) + BlobText(e.key) + Body(e.listing)
  {
  }

  lemma NothingThere(reading: Reading, bytes: Bytes, pos: nat)
    requires pos == |bytes|
    ensures EntriesAt(reading, bytes, pos) == Some([])
  {
  }
}
