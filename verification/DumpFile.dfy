/** The dump's writer and its reader, a cursor over the bytes. */
module DumpFiles {
  import opened ByteStrings
  import Resp
  import opened Values
  import opened Dumps

  // ------------------------------------------------------------------
  // Writing

  class DumpWriter {
    var out: Bytes

    constructor ()
      ensures out == []
    {
      out := [];
    }

    method Write(text: Bytes)
      modifies this
      ensures out == old(out) + text
    {
      out := out + text;
    }

    method Line(words: seq<Bytes>)
      modifies this
      ensures out == old(out) + LineText(words)
    {
      out := out + Joined(words) + [LF];
    }

    method Blob(payload: Bytes)
      modifies this
      ensures out == old(out) + BlobText(payload)
    {
      hide LineText;
      Line([Decimal(|payload|)]);
      out := out + payload;
      out := out + [LF];
    }

    method Blobs(items: seq<Bytes>)
      modifies this
      ensures out == old(out) + BlobsText(items)
    {
      hide BlobText;
      for i := 0 to |items|
        invariant out + BlobsText(items[i..]) == old(out) + BlobsText(items)
      {
        assert items[i..][0] == items[i] && items[i..][1..] == items[i + 1..];
        Blob(items[i]);
      }
      assert items[|items|..] == [];
    }

    method Pairs(pairs: seq<(Bytes, Bytes)>)
      modifies this
      ensures out == old(out) + PairsText(pairs)
    {
      hide BlobText;
      for i := 0 to |pairs|
        invariant out + PairsText(pairs[i..]) == old(out) + PairsText(pairs)
      {
        assert pairs[i..][0] == pairs[i] && pairs[i..][1..] == pairs[i + 1..];
        Blob(pairs[i].0);
        Blob(pairs[i].1);
      }
      assert pairs[|pairs|..] == [];
    }

    method Scored(scored: seq<(Bytes, Resp.Score)>)
      modifies this
      ensures out == old(out) + AllScoredText(scored)
    {
      hide BlobText;
      for i := 0 to |scored|
        invariant out + AllScoredText(scored[i..]) == old(out) + AllScoredText(scored)
      {
        assert scored[i..][0] == scored[i] && scored[i..][1..] == scored[i + 1..];
        Blob(scored[i].0);
        Write(scored[i].1.text);
        Write([LF]);
      }
      assert scored[|scored|..] == [];
    }

    method PutRecord(r: ListedRecord)
      modifies this
      ensures out == old(out) + RecordText(r)
    {
      hide BlobText, LineText, PairsText, RecordWords;
      Blob(r.id);
      Blob(r.text);
      Line(RecordWords(r));
      Pairs(r.meta);
      if r.vector.Some? { Blob(r.vector.value); }
    }

    method Records(records: seq<ListedRecord>)
      modifies this
      ensures out == old(out) + RecordsText(records)
    {
      hide RecordText;
      for i := 0 to |records|
        invariant out + RecordsText(records[i..]) == old(out) + RecordsText(records)
      {
        assert records[i..][0] == records[i] && records[i..][1..] == records[i + 1..];
        PutRecord(records[i]);
      }
      assert records[|records|..] == [];
    }

    method Put(e: Entry)
      requires e.listing.AsMemory? ==> |e.listing.config.weights| == 4
      modifies this
      ensures out == old(out) + EntryText(e)
    {
      hide BlobText, BlobsText, LineText, PairsText, AllScoredText, RecordsText, ConfigWords, Kind, Counted;
      Line([Kind(e.listing), IntText(e.expireAt)] + Counted(e.listing));
      Blob(e.key);
      match e.listing
      case AsString(text) => Blob(text);
      case AsList(items) => Blobs(items);
      case AsSet(items) => Blobs(items);
      case AsHash(pairs) => Pairs(pairs);
      case AsZset(scored) => Scored(scored);
      case AsMemory(config, nextId, records) =>
        Line(ConfigWords(config, nextId));
        Records(records);
    }
  }

  // ------------------------------------------------------------------
  // Reading

  /** What is read so far in front of the rest. */
  function Ahead<T>(items: seq<T>, rest: Read<seq<T>>): Read<seq<T>> {
    match rest case Got(more, next) => Got(items + more, next) case other => other
  }

  lemma AheadMore<T>(items: seq<T>, item: T, rest: Read<seq<T>>)
    ensures Ahead(items, Before(item, rest)) == Ahead(items + [item], rest)
  {
    if rest.Got? { assert items + ([item] + rest.value) == items + [item] + rest.value; }
  }

  lemma AheadNothing<T>(items: seq<T>, next: nat)
    ensures Ahead(items, Got([], next)) == Got(items, next)
  {
    assert items + [] == items;
  }

  lemma NothingAhead<T>(rest: Read<seq<T>>)
    ensures Ahead([], rest) == rest
  {
    if rest.Got? { assert [] + rest.value == rest.value; }
  }

  class DumpReader {
    const reading: Reading
    const bytes: Bytes
    var pos: nat

    ghost predicate Valid()
      reads this
    {
      pos <= |bytes|
    }

    constructor (reading: Reading, bytes: Bytes)
      ensures Valid() && pos == 0 && this.reading == reading && this.bytes == bytes
    {
      this.reading, this.bytes, pos := reading, bytes, 0;
    }

    method Line() returns (r: Read<Bytes>)
      requires Valid()
      modifies this
      ensures Valid() && r == LineAt(reading, bytes, old(pos)) && (!r.Broken? ==> pos == r.next)
    {
      if pos == |bytes| { return Missing(pos); }
      var start := pos;
      pos := pos + 1;
      while pos < |bytes| && bytes[pos - 1] != LF
        invariant start < pos <= |bytes| && LineEnd(bytes, start) == LineEnd(bytes, pos - 1)
      {
        pos := pos + 1;
      }
      var text := bytes[start..pos];
      if !reading.utf8(text) { return Broken; }
      var end := |text|;
      assert text[..end] == text;
      while end > 0 && (text[end - 1] == CR || text[end - 1] == LF)
        invariant 0 <= end <= |text| && StripBreaks(text[..end]) == StripBreaks(text)
      {
        assert text[..end][..end - 1] == text[..end - 1];
        end := end - 1;
      }
      return Got(text[..end], pos);
    }

    method Blob() returns (r: Read<Bytes>)
      requires Valid()
      modifies this
      ensures Valid() && r == BlobAt(reading, bytes, old(pos)) && (!r.Broken? ==> pos == r.next)
    {
      var header := Line();
      if header.Broken? { return Broken; }
      if header.Missing? { return Missing(pos); }
      var len := ParseNat(TrimEnd(TrimStart(header.value)));
      if len.None? { return Missing(pos); }
      if pos + len.value > |bytes| { return Broken; }
      var payload := bytes[pos..pos + len.value];
      pos := pos + len.value;
      // The newline after the payload is a separator, and may be missing at the very end.
      if pos < |bytes| { pos := pos + 1; }
      return Got(payload, pos);
    }

    method Score() returns (r: Read<Resp.Score>)
      requires Valid()
      modifies this
      ensures Valid() && r == ScoreAt(reading, bytes, old(pos)) && (!r.Broken? ==> pos == r.next)
    {
      var text := Line();
      if text.Broken? { return Broken; }
      if text.Missing? { return Missing(pos); }
      var score := reading.score(text.value);
      return if score.Some? then Got(score.value, pos) else Missing(pos);
    }

    method Pair() returns (r: Read<(Bytes, Bytes)>)
      requires Valid()
      modifies this
      ensures Valid() && r == PairAt(reading, bytes, old(pos)) && (!r.Broken? ==> pos == r.next)
    {
      hide BlobAt;
      var field := Blob();
      if field.Broken? { return Broken; }
      var value := Blob();
      return Both(field, value);
    }

    method Member() returns (r: Read<(Bytes, Resp.Score)>)
      requires Valid()
      modifies this
      ensures Valid() && r == ScoredAt(reading, bytes, old(pos)) && (!r.Broken? ==> pos == r.next)
    {
      hide BlobAt, ScoreAt;
      var member := Blob();
      if member.Broken? { return Broken; }
      var score := Score();
      return Both(member, score);
    }

    method Blobs(count: nat) returns (r: Read<seq<Bytes>>)
      requires Valid()
      modifies this
      ensures Valid() && r == BlobsAt(reading, bytes, old(pos), count) && (!r.Broken? ==> pos == r.next)
    {
      hide BlobAt, Ahead, Before;
      var items: seq<Bytes> := [];
      NothingAhead(BlobsAt(reading, bytes, pos, count));
      for i := 0 to count
        invariant Valid()
        invariant BlobsAt(reading, bytes, old(pos), count) == Ahead(items, BlobsAt(reading, bytes, pos, count - i))
      {
        ghost var start := pos;
        var item := Blob();
        if item.Broken? {
          BrokenStays(items);
          return Broken;
        }
        AheadNothing(items, pos);
        if item.Missing? { return Got(items, pos); }
        AheadMore(items, item.value, BlobsAt(reading, bytes, pos, count - i - 1));
        items := items + [item.value];
      }
      AheadNothing(items, pos);
      return Got(items, pos);
    }

    method Pairs(count: nat) returns (r: Read<seq<(Bytes, Bytes)>>)
      requires Valid()
      modifies this
      ensures Valid() && r == PairsAt(reading, bytes, old(pos), count) && (!r.Broken? ==> pos == r.next)
    {
      hide PairAt, Ahead, Before;
      var pairs: seq<(Bytes, Bytes)> := [];
      NothingAhead(PairsAt(reading, bytes, pos, count));
      for i := 0 to count
        invariant Valid()
        invariant PairsAt(reading, bytes, old(pos), count) == Ahead(pairs, PairsAt(reading, bytes, pos, count - i))
      {
        var pair := Pair();
        if pair.Broken? {
          BrokenStays(pairs);
          return Broken;
        }
        AheadNothing(pairs, pos);
        if pair.Missing? { return Got(pairs, pos); }
        AheadMore(pairs, pair.value, PairsAt(reading, bytes, pos, count - i - 1));
        pairs := pairs + [pair.value];
      }
      AheadNothing(pairs, pos);
      return Got(pairs, pos);
    }

    method Members(count: nat) returns (r: Read<seq<(Bytes, Resp.Score)>>)
      requires Valid()
      modifies this
      ensures Valid() && r == AllScoredAt(reading, bytes, old(pos), count) && (!r.Broken? ==> pos == r.next)
    {
      hide ScoredAt, Ahead, Before;
      var scored: seq<(Bytes, Resp.Score)> := [];
      NothingAhead(AllScoredAt(reading, bytes, pos, count));
      for i := 0 to count
        invariant Valid()
        invariant AllScoredAt(reading, bytes, old(pos), count) == Ahead(scored, AllScoredAt(reading, bytes, pos, count - i))
      {
        var entry := Member();
        if entry.Broken? {
          BrokenStays(scored);
          return Broken;
        }
        AheadNothing(scored, pos);
        if entry.Missing? { return Got(scored, pos); }
        AheadMore(scored, entry.value, AllScoredAt(reading, bytes, pos, count - i - 1));
        scored := scored + [entry.value];
      }
      AheadNothing(scored, pos);
      return Got(scored, pos);
    }

    method Record() returns (r: Read<ListedRecord>)
      requires Valid()
      modifies this
      ensures Valid() && r == RecordAt(reading, bytes, old(pos)) && (!r.Broken? ==> pos == r.next)
    {
      hide PairAt, LineAt, PairsAt, BlobAt, Words, Described, NatOr;
      var head := Pair();
      if head.Broken? { return Broken; }
      var line := Line();
      if line.Broken? { return Broken; }
      if head.Missing? || line.Missing? { return Missing(pos); }
      var words := Words(line.value);
      if |words| < 6 { return Missing(pos); }
      var record := Described(reading, head.value.0, head.value.1, words);
      var metaCount, vectorLen := NatOr(words[4], 0), NatOr(words[5], 0);
      var meta := Pairs(metaCount);
      if meta.Broken? { return Broken; }
      if |meta.value| < metaCount { return Missing(pos); }
      record := record.(meta := meta.value);
      if vectorLen > 0 {
        var blob := Blob();
        if blob.Broken? { return Broken; }
        if blob.Missing? { return Missing(pos); }
        if |blob.value| % 4 == 0 && reading.finite(blob.value) {
          record := record.(vector := Some(blob.value));
        }
      }
      return Got(record, pos);
    }

    method Records(count: nat) returns (r: Read<seq<ListedRecord>>)
      requires Valid()
      modifies this
      ensures Valid() && r == RecordsAt(reading, bytes, old(pos), count) && (!r.Broken? ==> pos == r.next)
    {
      hide RecordAt, Ahead, Before;
      var records: seq<ListedRecord> := [];
      NothingAhead(RecordsAt(reading, bytes, pos, count));
      for i := 0 to count
        invariant Valid()
        invariant RecordsAt(reading, bytes, old(pos), count) == Ahead(records, RecordsAt(reading, bytes, pos, count - i))
      {
        var record := Record();
        BrokenStays(records);
        MissingStays(records);
        if record.Broken? { return Broken; }
        if record.Missing? { return Missing(pos); }
        AheadMore(records, record.value, RecordsAt(reading, bytes, pos, count - i - 1));
        records := records + [record.value];
      }
      AheadNothing(records, pos);
      return Got(records, pos);
    }

    method ReadMemory(count: nat) returns (r: Read<Listing>)
      requires Valid()
      modifies this
      ensures Valid() && r == MemoryAt(reading, bytes, old(pos), count) && (!r.Broken? ==> pos == r.next)
    {
      hide LineAt, Words, ParseMode, ParseMetric, RecordsAt, ConfigFrom, NatOr, AtLeastOne;
      var line := Line();
      if line.Broken? { return Broken; }
      if line.Missing? { return Missing(pos); }
      var words := Words(line.value);
      if |words| < 9 { return Missing(pos); }
      var mode, metric := ParseMode(words[0]), ParseMetric(words[2]);
      if mode.None? || metric.None? { return Missing(pos); }
      var config := ConfigFrom(reading, words, mode.value, metric.value);
      var nextId := AtLeastOne(NatOr(words[8], 1));
      var records := Records(count);
      if records.Broken? { return Broken; }
      if records.Missing? { return Missing(pos); }
      return Got(AsMemory(config, nextId, records.value), pos);
    }

    method ReadListing(kind: Bytes, count: nat) returns (r: Read<Listing>)
      requires Valid() && IsKind(kind)
      modifies this
      ensures Valid() && r == ListingAt(reading, kind, count, bytes, old(pos)) && (!r.Broken? ==> pos == r.next)
    {
      hide BlobAt, BlobsAt, PairsAt, AllScoredAt, MemoryAt, Ascii;
      if kind == Ascii("STRING") {
        var text := Blob();
        return Listed(text, v => AsString(v));
      } else if kind == Ascii("LIST") {
        var items := Blobs(count);
        return Listed(items, v => AsList(v));
      } else if kind == Ascii("SET") {
        var items := Blobs(count);
        return Listed(items, v => AsSet(v));
      } else if kind == Ascii("HASH") {
        var pairs := Pairs(count);
        return Listed(pairs, v => AsHash(v));
      } else if kind == Ascii("ZSET") {
        var scored := Members(count);
        return Listed(scored, v => AsZset(v));
      }
      r := ReadMemory(count);
    }

    /** The rest of the dump, entry by entry. */
    method Entries() returns (loaded: Option<seq<Entry>>)
      requires Valid()
      modifies this
      ensures loaded == EntriesAt(reading, bytes, old(pos))
    {
      hide LineAt, BlobAt, ListingAt, Words, IsKind, NatOr, I64Or;
      var entries: seq<Entry> := [];
      NothingOnto(EntriesAt(reading, bytes, pos));
      while true
        invariant Valid() && EntriesAt(reading, bytes, old(pos)) == Onto(entries, EntriesAt(reading, bytes, pos))
        decreases |bytes| - pos
      {
        var header := Line();
        if header.Broken? { return None; }
        assert entries + [] == entries;
        if header.Missing? { return Some(entries); }
        var words := Words(header.value);
        if |words| < 2 { continue; }
        var expireAt := I64Or(words[1], -1);
        var count := if |words| > 2 then NatOr(words[2], 0) else 0;
        var key := Blob();
        if key.Broken? { return None; }
        if key.Missing? { return Some(entries); }
        if !IsKind(words[0]) { continue; }
        var listing := ReadListing(words[0], count);
        if listing.Broken? { return None; }
        if listing.Missing? { return Some(entries); }
        OntoMore(entries, Entry(key.value, listing.value, expireAt), EntriesAt(reading, bytes, pos));
        entries := entries + [Entry(key.value, listing.value, expireAt)];
      }
    }
  }

  function Onto(entries: seq<Entry>, rest: Option<seq<Entry>>): Option<seq<Entry>> {
    match rest case None => None case Some(more) => Some(entries + more)
  }

  lemma NothingOnto(rest: Option<seq<Entry>>)
    ensures Onto([], rest) == rest
  {
    if rest.Some? { assert [] + rest.value == rest.value; }
  }

  lemma OntoMore(entries: seq<Entry>, e: Entry, rest: Option<seq<Entry>>)
    ensures Onto(entries, Onto([e], rest)) == Onto(entries + [e], rest)
  {
    if rest.Some? { assert entries + ([e] + rest.value) == entries + [e] + rest.value; }
  }

  lemma BrokenStays<T>(items: seq<T>)
    ensures Ahead(items, Broken) == Broken
  {
  }

  lemma MissingStays<T>(items: seq<T>)
    ensures forall next :: Ahead(items, Missing(next)) == Missing(next)
  {
  }
}
