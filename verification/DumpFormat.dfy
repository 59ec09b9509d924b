/** What a dump file looks like, byte for byte. */
module DumpFormats {
  import opened ByteStrings
  import opened Resp
  import opened Values
  import opened Dumps

  /** Words parted by one blank, and a line feed. */
  lemma LineLooks(first: Bytes, others: seq<Bytes>)
    ensures LineText([first]) == first + [10]
    ensures others != [] ==> LineText([first] + others) == first + [32] + LineText(others)
  {
    if others != [] {
      assert ([first] + others)[1..] == others;
      assert first + [32] + Joined(others) + [10] == first + [32] + (Joined(others) + [10]);
    }
  }

  lemma BlobLooks(payload: Bytes)
    ensures BlobText(payload) == Decimal(|payload|) + [10] + payload + [10]
  {
    LineLooks(Decimal(|payload|), []);
  }

  /** A pair is its field and then its value, a member its name and then its score. */
  lemma PairLooks(field: Bytes, value: Bytes, score: Score)
    ensures PairText((field, value))
            == (Decimal(|field|) + [10] + field + [10]) + (Decimal(|value|) + [10] + value + [10])
    ensures ScoredText((field, score)) == (Decimal(|field|) + [10] + field + [10]) + score.text + [10]
  {
    BlobLooks(field);
    BlobLooks(value);
  }

  lemma DumpLooks(entries: seq<Entry>)
    requires Weighted(entries)
    ensures DumpText(entries) == Ascii("KLYRO-DUMP 3\n") + EntriesText(entries)
  {
    assert Ascii("KLYRO-DUMP 3\n") == Ascii("KLYRO-DUMP 3") + [10];
  }

  /** An entry is a line of its kind, its deadline in milliseconds or -1, and its size, and then its key. */
  lemma EntryLooks(e: Entry)
    requires e.listing.AsMemory? ==> |e.listing.config.weights| == 4
    ensures var kind := if e.listing.AsString? then "STRING" else if e.listing.AsList? then "LIST" else if e.listing.AsSet? then "SET"
                        else if e.listing.AsHash? then "HASH" else if e.listing.AsZset? then "ZSET" else "MEMORY";
            var head := Ascii(kind) + [32] + if e.listing.AsString? then IntText(e.expireAt) + [10]
                                             else IntText(e.expireAt) + [32] + (Decimal(Size(e.listing)) + [10]);
            EntryText(e) == head + (Decimal(|e.key|) + [10] + e.key + [10]) + Body(e.listing)
  {
    BlobLooks(e.key);
    hide LineText, BlobText, Body, Decimal, IntText;
    var kind, deadline := Kind(e.listing), IntText(e.expireAt);
    if e.listing.AsString? {
      LineLooks(deadline, []);
      LineLooks(kind, [deadline]);
      assert [kind, deadline] + Counted(e.listing) == [kind] + [deadline];
    } else {
      var size := Decimal(Size(e.listing));
      LineLooks(size, []);
      LineLooks(deadline, [size]);
      LineLooks(kind, [deadline, size]);
      assert [kind, deadline] + Counted(e.listing) == [kind] + [deadline, size] && [deadline, size] == [deadline] + [size];
    }
  }

  /** What a value is after its key: its text, its elements one after another, or a line of its settings and its
      records. */
  lemma BodyLooks(items: seq<Bytes>, pairs: seq<(Bytes, Bytes)>, scored: seq<(Bytes, Score)>)
    ensures items != [] ==>
              && Body(AsString(items[0])) == Decimal(|items[0]|) + [10] + items[0] + [10]
              && Body(AsList(items)) == (Decimal(|items[0]|) + [10] + items[0] + [10]) + Body(AsList(items[1..]))
              && Body(AsSet(items)) == Body(AsList(items))
    ensures pairs != [] ==> Body(AsHash(pairs)) == PairText(pairs[0]) + Body(AsHash(pairs[1..]))
    ensures scored != [] ==> Body(AsZset(scored)) == ScoredText(scored[0]) + Body(AsZset(scored[1..]))
    ensures Body(AsList([])) == Body(AsSet([])) == Body(AsHash([])) == Body(AsZset([])) == []
  {
    if items != [] { BlobLooks(items[0]); }
  }

  /** A memory's settings: mode, dimension, metric, the four weights, half-life in seconds, next id. */
  lemma SettingsLook(config: Config, nextId: nat)
    requires |config.weights| == 4
    ensures var mode := if config.mode == Search then "SEARCH" else if config.mode == Vector then "VECTOR" else "HYBRID";
            var metric := if config.metric == Cosine then "COSINE" else if config.metric == L2 then "L2" else "IP";
            var w := config.weights;
            LineText(ConfigWords(config, nextId))
            == Ascii(mode) + [32] + (Decimal(config.dim) + [32] + (Ascii(metric) + [32] + (w[0].text + [32] + (w[1].text + [32]
               + (w[2].text + [32] + (w[3].text + [32] + (Decimal(config.halfLife) + [32] + (Decimal(nextId) + [10]))))))))
  {
    var words := ConfigWords(config, nextId);
    hide LineText, Decimal;
    NineWords(words);
  }

  lemma NineWords(words: seq<Bytes>)
    requires |words| == 9
    ensures LineText(words)
            == words[0] + [32] + (words[1] + [32] + (words[2] + [32] + (words[3] + [32] + (words[4] + [32]
               + (words[5] + [32] + (words[6] + [32] + (words[7] + [32] + (words[8] + [10]))))))))
  {
    hide LineText;
    WordFirst(words);
    WordFirst(words[1..]);
    WordFirst(words[2..]);
    SixWords(words[3..]);
    assert words[1..][1..] == words[2..] && words[2..][1..] == words[3..];
  }

  lemma SixWords(words: seq<Bytes>)
    requires |words| == 6
    ensures LineText(words)
            == words[0] + [32] + (words[1] + [32] + (words[2] + [32] + (words[3] + [32] + (words[4] + [32] + (words[5] + [10])))))
  {
    hide LineText;
    WordFirst(words);
    WordFirst(words[1..]);
    WordFirst(words[2..]);
    WordFirst(words[3..]);
    WordFirst(words[4..]);
    WordFirst(words[5..]);
    assert words[1..][1..] == words[2..] && words[2..][1..] == words[3..] && words[3..][1..] == words[4..]
        && words[4..][1..] == words[5..];
  }

  lemma WordFirst(words: seq<Bytes>)
    requires words != []
    ensures LineText(words) == if |words| == 1 then words[0] + [10] else words[0] + [32] + LineText(words[1..])
  {
    hide LineText;
    LineLooks(words[0], words[1..]);
    if |words| == 1 { assert words == [words[0]]; } else { assert words == [words[0]] + words[1..]; }
  }

  /** The line of a record: when it was made and last written, its importance, its deadline or -1, how many fields it
      has and how many numbers its vector. */
  function RecordLine(r: ListedRecord): Bytes {
    var deadline := if r.expireAt.Some? then Decimal(r.expireAt.value) else Ascii("-1");
    var length := if r.vector.Some? then |r.vector.value| / 4 else 0;
    Decimal(r.created) + [32] + (Decimal(r.updated) + [32] + (r.importance.text + [32]
    + (deadline + [32] + (Decimal(|r.meta|) + [32] + (Decimal(length) + [10])))))
  }

  lemma RecordLineLooks(r: ListedRecord)
    ensures LineText(RecordWords(r)) == RecordLine(r)
  {
    assert Decimal(1) == [49] && IntText(-1) == Ascii("-1");
    hide LineText, Decimal, IntText, Ascii;
    SixWords(RecordWords(r));
  }

  /** A record: id and text, its line, then the fields and the vector. */
  lemma RecordLooks(r: ListedRecord)
    ensures RecordText(r) == BlobText(r.id) + BlobText(r.text) + RecordLine(r) + PairsText(r.meta)
                             + if r.vector.Some? then BlobText(r.vector.value) else []
  {
    RecordLineLooks(r);
    hide LineText, RecordWords, RecordLine, BlobText, PairsText;
    assert VectorText(r.vector) == if r.vector.Some? then BlobText(r.vector.value) else [];
  }

  /** How settings are read: no dimension for a text index, and a week for a half-life that cannot be read. */
  lemma SettingsRead(reading: Reading, words: seq<Bytes>, mode: Mode, metric: Metric)
    requires |words| >= 9
    ensures var c := ConfigFrom(reading, words, mode, metric);
            && c.mode == mode && c.metric == metric
            && c.dim == (if mode == Search then 0 else if ParseNat(words[1]).Some? then ParseNat(words[1]).value else 0)
            && c.halfLife == if ParseNat(words[7]).Some? then ParseNat(words[7]).value else 604_800
  {
    hide ParseNat;
  }

  /** How a record's line is read: a time that cannot be read, or lies before 1970, is the beginning of 1970; an
      importance that cannot be read is the default, and it is clamped; a deadline is kept unless it is negative. */
  lemma RecordRead(reading: Reading, id: Bytes, text: Bytes, words: seq<Bytes>)
    requires |words| >= 6
    ensures var r := Described(reading, id, text, words);
            && r.id == id && r.text == text
            && r.created == (if ParseI64(words[0]).Some? && ParseI64(words[0]).value > 0 then ParseI64(words[0]).value else 0)
            && r.updated == (if ParseI64(words[1]).Some? && ParseI64(words[1]).value > 0 then ParseI64(words[1]).value else 0)
            && r.importance == reading.clamp(if reading.float(words[2]).Some? then reading.float(words[2]).value else reading.half)
            && r.expireAt == if ParseI64(words[3]).Some? && ParseI64(words[3]).value >= 0 then Some(ParseI64(words[3]).value) else None
  {
    hide ParseI64;
  }

  /** Names are read in any letter case, the inner product under either of its two. */
  lemma NamesSpelled(word: Bytes)
    ensures ParseMode(word) == if Spells(word, "SEARCH") then Some(Search) else if Spells(word, "VECTOR") then Some(Vector)
                               else if Spells(word, "HYBRID") then Some(Hybrid) else None
    ensures ParseMetric(word) == if Spells(word, "COSINE") then Some(Cosine) else if Spells(word, "L2") then Some(L2)
                                 else if Spells(word, "IP") || Spells(word, "INNERPRODUCT") then Some(InnerProduct) else None
  {
    SpelledUpper(word, "SEARCH");
    SpelledUpper(word, "VECTOR");
    SpelledUpper(word, "HYBRID");
    SpelledUpper(word, "COSINE");
    SpelledUpper(word, "L2");
    SpelledUpper(word, "IP");
    SpelledUpper(word, "INNERPRODUCT");
  }

  /** A loaded index numbers its records from 1 on. */
  lemma NumberedFromOne(reading: Reading, bytes: Bytes, pos: nat, count: nat)
    requires pos <= |bytes| && MemoryAt(reading, bytes, pos, count).Got?
    ensures MemoryAt(reading, bytes, pos, count).value.AsMemory? && MemoryAt(reading, bytes, pos, count).value.nextId >= 1
  {
    hide LineAt, RecordsAt, Words, ConfigFrom, ParseMode, ParseMetric, NatOr;
  }

  // ------------------------------------------------------------------
  // White space

  predicate Spaces(gap: Bytes) {
    forall b | b in gap :: 9 <= b <= 13 || b == 32
  }

  predicate Visible(word: Bytes) {
    word != [] && forall i | 0 <= i < |word| :: 33 <= word[i] <= 126
  }

  /** Words, each before a gap, the first after one. */
  predicate Parted(words: seq<Bytes>, gaps: seq<Bytes>) {
    && |gaps| == |words| + 1
    && (forall i | 0 <= i < |words| :: Visible(words[i]))
    && (forall i | 0 <= i < |gaps| :: Spaces(gaps[i]))
    && (forall i | 0 < i < |words| :: gaps[i] != [])
  }

  function Written(words: seq<Bytes>, gaps: seq<Bytes>): Bytes
    requires |gaps| == |words| + 1
  {
    gaps[0] + if words == [] then [] else words[0] + Written(words[1..], gaps[1..])
  }

  /** A line is read as its words, whatever white space parts them. */
  lemma {:induction false} WordsAnyhowParted(words: seq<Bytes>, gaps: seq<Bytes>)
    requires Parted(words, gaps)
    ensures Words(Written(words, gaps)) == words
    decreases |words|
  {
    hide Visible, Spaces;
    if words == [] {
      assert gaps[0] + [] == gaps[0];
      GapPassed(gaps[0], [], []);
    } else {
      var more := Written(words[1..], gaps[1..]);
      RestIsParted(words, gaps);
      WordsAnyhowParted(words[1..], gaps[1..]);
      GapPassed(gaps[0], words[0] + more, []);
      WordRead(words[0], more);
      if |words| == 1 {
        GapPassed(gaps[1], [], words[0]);
        assert more == gaps[1] + [];
        assert words == [words[0]];
      } else {
        var rest := words[1] + Written(words[2..], gaps[2..]);
        assert more == gaps[1] + rest by { assert words[1..][1..] == words[2..] && gaps[1..][1..] == gaps[2..]; }
        GapPassed(gaps[1], rest, words[0]);
        GapPassed(gaps[1], rest, []);
        assert Finished([]) + WordsFrom(rest, []) == WordsFrom(rest, []);
        assert words == [words[0]] + words[1..];
      }
    }
  }

  lemma RestIsParted(words: seq<Bytes>, gaps: seq<Bytes>)
    requires Parted(words, gaps) && words != []
    ensures Parted(words[1..], gaps[1..])
  {
    hide Visible, Spaces;
    assert forall i | 0 <= i < |words[1..]| :: words[1..][i] == words[i + 1];
    assert forall i | 0 <= i < |gaps[1..]| :: gaps[1..][i] == gaps[i + 1];
  }

  lemma WordRead(word: Bytes, more: Bytes)
    requires Visible(word)
    ensures WordsFrom(word + more, []) == WordsFrom(more, word) && Finished(word) == [word]
  {
    WordPassed(word, more, []);
    assert [] + word == word;
  }

  /** A gap ends the word before it. */
  lemma {:induction false} GapPassed(gap: Bytes, rest: Bytes, word: Bytes)
    requires Spaces(gap)
    ensures WordsFrom(gap + rest, word) == if gap == [] then WordsFrom(rest, word) else Finished(word) + WordsFrom(rest, [])
    decreases |gap|
  {
    if gap == [] {
      assert gap + rest == rest;
    } else {
      assert gap[0] in gap && forall b | b in gap[1..] :: b in gap;
      assert (gap + rest)[1..] == gap[1..] + rest;
      GapPassed(gap[1..], rest, []);
      assert [] + WordsFrom(rest, []) == WordsFrom(rest, []);
    }
  }

  /** White space around a length changes nothing. */
  lemma SpacesAroundIgnored(before: Bytes, digits: Bytes, after: Bytes)
    requires Spaces(before) && Visible(digits) && Spaces(after)
    ensures TrimEnd(TrimStart(before + digits + after)) == digits
  {
    FrontTrimmed(before, digits + after);
    assert before + digits + after == before + (digits + after);
    EndTrimmed(digits, after);
  }

  lemma {:induction false} FrontTrimmed(before: Bytes, text: Bytes)
    requires Spaces(before) && text != [] && 33 <= text[0] <= 126
    ensures TrimStart(before + text) == text
    decreases |before|
  {
    if before == [] {
      assert before + text == text;
    } else {
      assert before[0] in before && forall b | b in before[1..] :: b in before;
      assert (before + text)[1..] == before[1..] + text;
      FrontTrimmed(before[1..], text);
    }
  }

  lemma {:induction false} EndTrimmed(text: Bytes, after: Bytes)
    requires Visible(text) && Spaces(after)
    ensures TrimEnd(text + after) == text
    decreases |after|
  {
    if after == [] {
      assert text + after == text;
    } else {
      var n := |after| - 1;
      assert after[n] in after && forall b | b in after[..n] :: b in after;
      assert (text + after)[..|text + after| - 1] == text + after[..n];
      EndTrimmed(text, after[..n]);
    }
  }
}
