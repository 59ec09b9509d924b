/** Requests from the way they are written: a line is words set apart by blanks, each of pieces typed bare, in
    single quotes or in double quotes; an array is a count and bulk strings, each behind its length. */
module Typing {
  import opened ByteStrings
  import opened Requests

  /** A byte in double quotes: as it is, or after a backslash. */
  datatype Mark = Plain(b: Byte) | Escaped(b: Byte)

  datatype Piece = Bare(text: Bytes) | Single(text: Bytes) | Double(marks: seq<Mark>)

  /** What may be typed so: no blank, break or quote bare, and no quote or break inside its quotes. */
  predicate Typable(p: Piece) {
    match p
    case Bare(text) => text != [] && forall b | b in text :: b !in {9, 10, 12, 13, 32, 34, 39}
    case Single(text) => forall b | b in text :: b != 39 && b != 10
    case Double(marks) => forall m | m in marks :: m.b != 10 && (m.Plain? ==> m.b != 34 && m.b != 92)
  }

  function TypedMarks(marks: seq<Mark>): Bytes {
    if marks == [] then []
    else (if marks[0].Plain? then [marks[0].b] else [92, marks[0].b]) + TypedMarks(marks[1..])
  }

  function Typed(p: Piece): Bytes {
    match p
    case Bare(text) => text
    case Single(text) => [39] + text + [39]
    case Double(marks) => [34] + TypedMarks(marks) + [34]
  }

  /** After a backslash n, r and t are a line feed, a return and a tab; any other byte is itself. */
  function Meant(m: Mark): Byte {
    if m.Plain? then m.b else if m.b == 110 then 10 else if m.b == 114 then 13 else if m.b == 116 then 9 else m.b
  }

  function MeantMarks(marks: seq<Mark>): Bytes {
    if marks == [] then [] else [Meant(marks[0])] + MeantMarks(marks[1..])
  }

  function Text(p: Piece): Bytes {
    match p
    case Bare(text) => text
    case Single(text) => text
    case Double(marks) => MeantMarks(marks)
  }

  function TypedWord(word: seq<Piece>): Bytes {
    if word == [] then [] else Typed(word[0]) + TypedWord(word[1..])
  }

  function WordText(word: seq<Piece>): Bytes {
    if word == [] then [] else Text(word[0]) + WordText(word[1..])
  }

  predicate Blank(gap: Bytes) {
    forall b | b in gap :: b == 9 || b == 12 || b == 32
  }

  /** Words, each before a gap, the first after one. */
  predicate Line(words: seq<seq<Piece>>, gaps: seq<Bytes>) {
    && |gaps| == |words| + 1
    && (forall i | 0 <= i < |words| :: words[i] != [] && forall p | p in words[i] :: Typable(p))
    && (forall i | 0 <= i < |gaps| :: Blank(gaps[i]))
    && (forall i | 0 < i < |words| :: gaps[i] != [])
  }

  function TypedLine(words: seq<seq<Piece>>, gaps: seq<Bytes>): Bytes
    requires |gaps| == |words| + 1
  {
    gaps[0] + if words == [] then [] else TypedWord(words[0]) + TypedLine(words[1..], gaps[1..])
  }

  function WordTexts(words: seq<seq<Piece>>): seq<Bytes> {
    if words == [] then [] else [WordText(words[0])] + WordTexts(words[1..])
  }

  // ------------------------------------------------------------------
  // Reading it

  /** Reading `part` leads from one state to another, whatever follows. */
  predicate Leads(part: Bytes, from: Scan, to: Scan, rest: Bytes) {
    ScanLine(part + rest, from) == ScanLine(rest, to)
  }

  lemma Steps(part: Bytes, from: Scan, to: Scan, rest: Bytes)
    requires part != [] && ScanStep(part + rest, from) == (to, |part|)
    ensures Leads(part, from, to, rest)
  {
    hide ScanStep;
    assert (part + rest)[|part|..] == rest;
  }

  lemma Chains(first: Bytes, second: Bytes, from: Scan, through: Scan, to: Scan, rest: Bytes)
    requires Leads(first, from, through, second + rest) && Leads(second, through, to, rest)
    ensures Leads(first + second, from, to, rest)
  {
    hide ScanLine;
    assert first + second + rest == first + (second + rest);
  }

  lemma {:induction false} ReadsBare(text: Bytes, st: Scan, rest: Bytes)
    requires st.quote.None? && (text != [] || st.inToken) && forall b | b in text :: b !in {9, 10, 12, 13, 32, 34, 39}
    ensures Leads(text, st, st.(current := st.current + text, inToken := true), rest)
    decreases |text|
  {
    if text == [] {
      assert text + rest == rest && st.current + text == st.current;
    } else {
      var next := st.(current := st.current + [text[0]], inToken := true);
      var to := st.(current := st.current + text, inToken := true);
      assert text[0] in text && forall b | b in text[1..] :: b in text;
      Steps([text[0]], st, next, text[1..] + rest);
      ReadsBare(text[1..], next, rest);
      assert next.current + text[1..] == st.current + text && [text[0]] + text[1..] == text;
      hide Leads;
      Chains([text[0]], text[1..], st, next, to, rest);
    }
  }

  lemma {:induction false} ReadsQuoted(text: Bytes, st: Scan, rest: Bytes)
    requires st.quote == Some(39) && forall b | b in text :: b != 39 && b != 10
    ensures Leads(text, st, st.(current := st.current + text), rest)
    decreases |text|
  {
    if text == [] {
      assert text + rest == rest && st.current + text == st.current;
    } else {
      var next := st.(current := st.current + [text[0]]);
      assert text[0] in text && forall b | b in text[1..] :: b in text;
      Steps([text[0]], st, next, text[1..] + rest);
      ReadsQuoted(text[1..], next, rest);
      assert next.current + text[1..] == st.current + text && [text[0]] + text[1..] == text;
      hide Leads;
      Chains([text[0]], text[1..], st, next, st.(current := st.current + text), rest);
    }
  }

  lemma ReadsMark(m: Mark, st: Scan, rest: Bytes)
    requires st.quote == Some(34) && (m.Plain? ==> m.b != 34 && m.b != 92)
    ensures Leads(if m.Plain? then [m.b] else [92, m.b], st, st.(current := st.current + [Meant(m)]), rest)
  {
    Steps(if m.Plain? then [m.b] else [92, m.b], st, st.(current := st.current + [Meant(m)]), rest);
  }

  lemma {:induction false} ReadsMarks(marks: seq<Mark>, st: Scan, rest: Bytes)
    requires st.quote == Some(34) && forall m | m in marks :: m.b != 10 && (m.Plain? ==> m.b != 34 && m.b != 92)
    ensures Leads(TypedMarks(marks), st, st.(current := st.current + MeantMarks(marks)), rest)
    decreases |marks|
  {
    if marks == [] {
      assert TypedMarks(marks) + rest == rest && st.current + MeantMarks(marks) == st.current;
    } else {
      hide Leads, Meant;
      var m := marks[0];
      assert m in marks;
      var part, next := if m.Plain? then [m.b] else [92, m.b], st.(current := st.current + [Meant(m)]);
      var to := st.(current := st.current + MeantMarks(marks));
      ReadsMark(m, st, TypedMarks(marks[1..]) + rest);
      ReadsMarks(marks[1..], next, rest);
      MarksGoOn(marks, st.current);
      hide TypedMarks, MeantMarks;
      Chains(part, TypedMarks(marks[1..]), st, next, to, rest);
    }
  }

  lemma MarksGoOn(marks: seq<Mark>, current: Bytes)
    requires marks != []
    ensures TypedMarks(marks) == (if marks[0].Plain? then [marks[0].b] else [92, marks[0].b]) + TypedMarks(marks[1..])
    ensures current + [Meant(marks[0])] + MeantMarks(marks[1..]) == current + MeantMarks(marks)
  {
    hide Meant;
  }

  /** Quotes are opened, their inside is read, and they are closed. */
  lemma ReadsBetween(q: Byte, inside: Bytes, text: Bytes, st: Scan, rest: Bytes)
    requires st.quote.None? && (q == 34 || q == 39)
    requires Leads(inside, st.(quote := Some(q), inToken := true),
                   st.(quote := Some(q), inToken := true, current := st.current + text), [q] + rest)
    ensures Leads([q] + inside + [q], st, st.(inToken := true, current := st.current + text), rest)
  {
    var open, read := st.(quote := Some(q), inToken := true), st.(quote := Some(q), inToken := true, current := st.current + text);
    Steps([q], st, open, inside + ([q] + rest));
    Steps([q], read, st.(inToken := true, current := st.current + text), rest);
    hide Leads;
    Chains([q], inside, st, open, read, [q] + rest);
    Chains([q] + inside, [q], st, read, st.(inToken := true, current := st.current + text), rest);
  }

  lemma ReadsPiece(p: Piece, st: Scan, rest: Bytes)
    requires Typable(p) && st.quote.None?
    ensures Leads(Typed(p), st, st.(inToken := true, current := st.current + Text(p)), rest)
  {
    hide Leads;
    match p
    case Bare(text) => ReadsBare(text, st, rest);
    case Single(text) =>
      ReadsQuoted(text, st.(quote := Some(39), inToken := true), [39] + rest);
      ReadsBetween(39, text, text, st, rest);
    case Double(marks) =>
      ReadsMarks(marks, st.(quote := Some(34), inToken := true), [34] + rest);
      ReadsBetween(34, TypedMarks(marks), MeantMarks(marks), st, rest);
  }

  lemma {:induction false} ReadsWord(word: seq<Piece>, st: Scan, rest: Bytes)
    requires (forall p | p in word :: Typable(p)) && st.quote.None? && (word != [] || st.inToken)
    ensures Leads(TypedWord(word), st, st.(inToken := true, current := st.current + WordText(word)), rest)
    decreases |word|
  {
    hide Typable, Typed, Text;
    if word == [] {
      assert TypedWord(word) + rest == rest && st.current + WordText(word) == st.current;
    } else {
      hide Leads;
      assert word[0] in word;
      var next := st.(inToken := true, current := st.current + Text(word[0]));
      ReadsPiece(word[0], st, TypedWord(word[1..]) + rest);
      ReadsWord(word[1..], next, rest);
      assert next.current + WordText(word[1..]) == st.current + (Text(word[0]) + WordText(word[1..]));
      Chains(Typed(word[0]), TypedWord(word[1..]), st, next, st.(inToken := true, current := st.current + WordText(word)), rest);
    }
  }

  /** A gap ends a word if one is being read. */
  lemma {:induction false} ReadsGap(gap: Bytes, st: Scan, rest: Bytes)
    requires Blank(gap) && st.quote.None? && (st.inToken ==> gap != []) && (!st.inToken ==> st.current == [])
    ensures Leads(gap, st, if st.inToken then Scan(st.argv + [st.current], [], false, None) else st, rest)
    decreases |gap|
  {
    if gap == [] {
      assert gap + rest == rest;
    } else {
      var next := if st.inToken then Scan(st.argv + [st.current], [], false, None) else st;
      assert gap[0] in gap && forall b | b in gap[1..] :: b in gap;
      Steps([gap[0]], st, next, gap[1..] + rest);
      ReadsGap(gap[1..], next, rest);
      hide Leads;
      assert [gap[0]] + gap[1..] == gap;
      Chains([gap[0]], gap[1..], st, next, next, rest);
    }
  }

  /** The arguments a state stands for, the word being read included. */
  function Arguments(st: Scan): seq<Bytes> {
    if st.inToken then st.argv + [st.current] else st.argv
  }

  /** What a whole line comes to, after what was read before it. */
  lemma {:induction false} ReadsLine(words: seq<seq<Piece>>, gaps: seq<Bytes>, st: Scan, rest: Bytes) returns (end: Scan)
    requires Line(words, gaps) && st.quote.None? && (!st.inToken ==> st.current == [])
    requires words != [] && st.inToken ==> gaps[0] != []
    ensures Leads(TypedLine(words, gaps), st, end, rest)
    ensures end.quote.None? && Arguments(end) == Arguments(st) + WordTexts(words)
    decreases |words|
  {
    hide Typable, TypedWord, WordText, ScanStep, Blank, Leads;
    if words == [] {
      end := LastGap(gaps[0], st, rest);
      assert gaps[0] + [] == gaps[0];
    } else {
      var more := TypedLine(words[1..], gaps[1..]);
      var free := if st.inToken then Scan(st.argv + [st.current], [], false, None) else st;
      var read := free.(inToken := true, current := WordText(words[0]));
      ReadsGap(gaps[0], st, TypedWord(words[0]) + (more + rest));
      ReadsWord(words[0], free, more + rest);
      assert free.current + WordText(words[0]) == WordText(words[0]);
      RestIsLine(words, gaps);
      end := ReadsLine(words[1..], gaps[1..], read, rest);
      Chains(TypedWord(words[0]), more, free, read, end, rest);
      assert TypedWord(words[0]) + (more + rest) == TypedWord(words[0]) + more + rest;
      Chains(gaps[0], TypedWord(words[0]) + more, st, free, end, rest);
      ArgumentsAdd(st, read, words);
    }
  }

  lemma ArgumentsAdd(st: Scan, read: Scan, words: seq<seq<Piece>>)
    requires words != [] && read.inToken && read.argv == Arguments(st) && read.current == WordText(words[0])
    ensures Arguments(read) + WordTexts(words[1..]) == Arguments(st) + WordTexts(words)
  {
    hide WordText;
  }

  lemma LastGap(gap: Bytes, st: Scan, rest: Bytes) returns (end: Scan)
    requires Blank(gap) && st.quote.None? && (!st.inToken ==> st.current == [])
    ensures Leads(gap, st, end, rest) && end.quote.None? && Arguments(end) == Arguments(st) + []
  {
    end := st;
    if gap == [] {
      assert gap + rest == rest;
    } else {
      end := if st.inToken then Scan(st.argv + [st.current], [], false, None) else st;
      ReadsGap(gap, st, rest);
    }
  }

  lemma RestIsLine(words: seq<seq<Piece>>, gaps: seq<Bytes>)
    requires Line(words, gaps) && words != []
    ensures Line(words[1..], gaps[1..]) && (words[1..] != [] ==> gaps[1..][0] != [])
  {
    hide Typable, Blank;
    assert forall i | 0 <= i < |words[1..]| :: words[1..][i] == words[i + 1];
    assert forall i | 0 <= i < |gaps[1..]| :: gaps[1..][i] == gaps[i + 1];
  }

  // ------------------------------------------------------------------
  // Whole requests

  lemma {:induction false} NoBreaks(words: seq<seq<Piece>>, gaps: seq<Bytes>)
    requires Line(words, gaps)
    ensures LF !in TypedLine(words, gaps)
    decreases |words|
  {
    hide Typable, TypedWord;
    if words != [] {
      WordHasNoBreak(words[0]);
      RestIsLine(words, gaps);
      NoBreaks(words[1..], gaps[1..]);
    }
  }

  lemma {:induction false} WordHasNoBreak(word: seq<Piece>)
    requires forall p | p in word :: Typable(p)
    ensures LF !in TypedWord(word)
    decreases |word|
  {
    hide Typable, Typed;
    if word != [] {
      assert word[0] in word;
      PieceHasNoBreak(word[0]);
      WordHasNoBreak(word[1..]);
    }
  }

  lemma PieceHasNoBreak(p: Piece)
    requires Typable(p)
    ensures LF !in Typed(p)
  {
    if p.Double? { MarksHaveNoBreak(p.marks); }
  }

  lemma {:induction false} MarksHaveNoBreak(marks: seq<Mark>)
    requires forall m | m in marks :: m.b != 10
    ensures LF !in TypedMarks(marks)
    decreases |marks|
  {
    if marks != [] {
      assert marks[0] in marks;
      MarksHaveNoBreak(marks[1..]);
    }
  }

  lemma {:induction false} EndsWell(words: seq<seq<Piece>>, gaps: seq<Bytes>)
    requires Line(words, gaps)
    ensures var line := TypedLine(words, gaps); line != [] ==> line[|line| - 1] != 13
    decreases |words|
  {
    hide Typable, TypedWord;
    if words == [] {
      assert gaps[0] + [] == gaps[0];
      if gaps[0] != [] { assert gaps[0][|gaps[0]| - 1] in gaps[0]; }
    } else {
      var word, more := TypedWord(words[0]), TypedLine(words[1..], gaps[1..]);
      RestIsLine(words, gaps);
      EndsWell(words[1..], gaps[1..]);
      WordEndsWell(words[0]);
      if more != [] { assert TypedLine(words, gaps)[|TypedLine(words, gaps)| - 1] == more[|more| - 1]; }
    }
  }

  lemma {:induction false} WordEndsWell(word: seq<Piece>)
    requires word != [] && forall p | p in word :: Typable(p)
    ensures TypedWord(word) != [] && TypedWord(word)[|TypedWord(word)| - 1] != 13
    decreases |word|
  {
    hide Typable, Typed;
    assert word[0] in word;
    PieceEndsWell(word[0]);
    if |word| > 1 { WordEndsWell(word[1..]); }
  }

  lemma PieceEndsWell(p: Piece)
    requires Typable(p)
    ensures Typed(p) != [] && Typed(p)[|Typed(p)| - 1] != 13
  {
    if p.Bare? { assert p.text[|p.text| - 1] in p.text; }
  }

  lemma LineIsRead(line: Bytes, rest: Bytes)
    requires LF !in line && (line != [] ==> line[|line| - 1] != 13)
    ensures ReadLine(line + [10] + rest, 0) == Some((line, |line| + 1))
  {
    var buf := line + [10] + rest;
    forall i | 0 <= i < |line| ensures buf[i] != LF {
      assert buf[i] == line[i] && line[i] in line;
    }
    FindLFAt(buf, 0, |line|);
    assert buf[0..|line|] == line;
  }

  /** What a line comes to by the state that reading it ends in. */
  lemma LineComesTo(line: Bytes, end: Scan, rest: Bytes, maxBulk: nat)
    requires LF !in line && (line != [] ==> line[|line| - 1] != 13 && line[0] != 42) && Leads(line, SCAN_START, end, [])
    ensures Parse(line + [10] + rest, maxBulk)
            == if end.quote.Some? then Malformed(UnbalancedQuotes) else Parsed(Arguments(end), |line| + 1)
  {
    LineIsRead(line, rest);
    assert line + [] == line;
    assert ScanLine(line, SCAN_START) == end;
    hide ReadLine, ScanLine;
    assert (line + [10] + rest)[0] == if line == [] then 10 else line[0];
  }

  /** However its words are quoted and set apart, a line is read as the texts of its words, and takes exactly
      its bytes. */
  lemma InlineReadsAsTyped(words: seq<seq<Piece>>, gaps: seq<Bytes>, rest: Bytes, maxBulk: nat)
    requires Line(words, gaps) && (TypedLine(words, gaps) != [] ==> TypedLine(words, gaps)[0] != 42)
    ensures Parse(TypedLine(words, gaps) + [10] + rest, maxBulk) == Parsed(WordTexts(words), |TypedLine(words, gaps)| + 1)
  {
    assert |gaps| == |words| + 1;
    hide Line, TypedLine, Leads;
    NoBreaks(words, gaps);
    EndsWell(words, gaps);
    var end := ReadsFresh(words, gaps, []);
    LineComesTo(TypedLine(words, gaps), end, rest, maxBulk);
  }

  lemma ReadsFresh(words: seq<seq<Piece>>, gaps: seq<Bytes>, rest: Bytes) returns (end: Scan)
    requires Line(words, gaps)
    ensures Leads(TypedLine(words, gaps), SCAN_START, end, rest) && end.quote.None? && Arguments(end) == WordTexts(words)
  {
    hide Leads, TypedLine;
    end := ReadsLine(words, gaps, SCAN_START, rest);
    assert [] + WordTexts(words) == WordTexts(words);
  }

  lemma ReadsOpen(st: Scan, text: Bytes) returns (end: Scan)
    requires st.quote.None? && forall b | b in text :: b != 39 && b != 10
    ensures Leads([39] + text, st, end, []) && end.quote.Some?
  {
    var open := st.(quote := Some(39), inToken := true);
    end := open.(current := open.current + text);
    Steps([39], st, open, text + []);
    ReadsQuoted(text, open, []);
    hide Leads;
    Chains([39], text, st, open, end, []);
  }

  /** A quote left open refuses the line. */
  lemma OpenQuoteIsRefused(words: seq<seq<Piece>>, gaps: seq<Bytes>, text: Bytes, rest: Bytes, maxBulk: nat)
    requires Line(words, gaps) && (forall b | b in text :: b != 39 && b != 10 && b != 13)
    requires TypedLine(words, gaps) != [] ==> TypedLine(words, gaps)[0] != 42
    ensures Parse(TypedLine(words, gaps) + ([39] + text) + [10] + rest, maxBulk) == Malformed(UnbalancedQuotes)
  {
    assert |gaps| == |words| + 1;
    hide Line, TypedLine, Leads;
    var line, tail := TypedLine(words, gaps), [39] + text;
    NoBreaks(words, gaps);
    var end := ReadsFresh(words, gaps, tail + []);
    var open := ReadsOpen(end, text);
    Chains(line, tail, SCAN_START, end, open, []);
    if text != [] { assert (line + tail)[|line + tail| - 1] == text[|text| - 1] && text[|text| - 1] in text; }
    LineComesTo(line + tail, open, rest, maxBulk);
  }
  /** A line that has not ended yet is waited for up to 64 KiB, and refused beyond. */
  lemma UnendedLine(buf: Bytes, maxBulk: nat)
    requires buf != [] && buf[0] != 42 && 10 !in buf
    ensures Parse(buf, maxBulk) == if |buf| > 65_536 then Malformed(TooBigInline) else NeedMore
  {
  }

  // ------------------------------------------------------------------
  // Array requests

  predicate Visible(text: Bytes) {
    text != [] && forall i | 0 <= i < |text| :: 33 <= text[i] <= 126
  }

  /** A header is read as the number it says if it says one of 64 bits, and is unreadable otherwise. */
  lemma HeaderSays(text: Bytes)
    requires Visible(text)
    ensures ParseInteger(text)
            == if Number(text) && -0x8000_0000_0000_0000 <= Says(text) <= 0x7fff_ffff_ffff_ffff then Some(Says(text)) else None
  {
    hide ParseInteger, ParseI64, Visible, Number, Says;
    VisibleIsBare(text);
    IntegersRead(text);
  }

  lemma VisibleIsBare(text: Bytes)
    requires Visible(text)
    ensures ParseInteger(text) == ParseI64(text) && WhitePrefix(text) == 0 && WhiteSuffix(text) == 0
  {
    hide ParseI64, WhitePrefix;
    BareAt(text, 0);
    BareAt(text, |text| - 1);
    if |text| >= 2 { BareAt(text, |text| - 2); }
    if |text| >= 3 { BareAt(text, |text| - 3); }
    assert text[0..] == text;
  }

  lemma BareAt(text: Bytes, i: nat)
    requires i < |text| && 33 <= text[i] <= 126
    ensures WhitePrefix(text[i..]) == 0
  {
  }

  /** A header of visible bytes ended by `\r\n` is one line. */
  lemma HeaderIsRead(buf: Bytes, at: nat, text: Bytes)
    requires Visible(text) && Sits(buf, at, text + [13, 10])
    ensures ReadLine(buf, at) == Some((text, at + |text| + 2))
  {
    SitsSplit(buf, at, text, [13, 10]);
    forall i | at <= i < at + |text| + 1 ensures buf[i] != LF {
      if i < at + |text| { assert buf[i] == text[i - at]; }
    }
    var end := buf[at + |text|..at + |text| + 2];
    assert end == [13, 10] && end[0] == buf[at + |text|] && end[1] == buf[at + |text| + 1];
    FindLFAt(buf, at, at + |text| + 1);
  }

  /** A code point whose UTF-8 form has at most three bytes. */
  type Code = c: nat | c < 0x1_0000

  /** Those that count as white space. */
  predicate White(c: Code) {
    || 9 <= c <= 13 || c == 0x20 || c == 0x85 || c == 0xA0 || c == 0x1680 || 0x2000 <= c <= 0x200A
    || c == 0x2028 || c == 0x2029 || c == 0x202F || c == 0x205F || c == 0x3000
  }

  function Utf8(c: Code): (bytes: Bytes)
    ensures bytes != []
  {
    if c < 0x80 then [c as Byte]
    else if c < 0x800 then [(0xC0 + c / 64) as Byte, (0x80 + c % 64) as Byte]
    else [(0xE0 + c / 4096) as Byte, (0x80 + c / 64 % 64) as Byte, (0x80 + c % 64) as Byte]
  }

  function Spaces(cs: seq<Code>): Bytes
  {
    if cs == [] then [] else Utf8(cs[0]) + Spaces(cs[1..])
  }

  /** Exactly these count at the front of a text. */
  lemma WhiteAtFront(c: Code, rest: Bytes)
    ensures WhitePrefix(Utf8(c) + rest) == if White(c) then |Utf8(c)| else 0
  {
    var s := Utf8(c) + rest;
    if c < 0x80 {
    } else if c < 0x800 {
      assert s[0] as int == 0xC0 + c / 64 && s[1] as int == 0x80 + c % 64;
    } else {
      assert s[0] as int == 0xE0 + c / 4096 && s[1] as int == 0x80 + c / 64 % 64 && s[2] as int == 0x80 + c % 64;
    }
  }

  lemma WhiteAtEnd(c: Code, text: Bytes)
    requires White(c)
    ensures WhiteSuffix(text + Utf8(c)) == |Utf8(c)|
  {
    var s := text + Utf8(c);
    assert Utf8(c) + [] == Utf8(c);
    WhiteAtFront(c, []);
    assert s[|s| - |Utf8(c)|..] == Utf8(c);
    hide WhitePrefix;
    if |Utf8(c)| > 1 { NoneSooner(s, |s| - 1); }
    if |Utf8(c)| > 2 { NoneSooner(s, |s| - 2); }
  }

  /** No byte after the first of a form starts one of its own. */
  lemma NoneSooner(s: Bytes, i: nat)
    requires i < |s| && 0x80 <= s[i] < 0xC0
    ensures WhitePrefix(s[i..]) == 0
  {
  }

  lemma {:induction false} FrontTrimmed(cs: seq<Code>, text: Bytes)
    requires (forall c | c in cs :: White(c)) && WhitePrefix(text) == 0
    ensures TrimStart(Spaces(cs) + text) == text
  {
    hide WhitePrefix;
    if cs == [] {
      assert Spaces(cs) + text == text;
    } else {
      hide Utf8, White;
      assert cs[0] in cs && forall c | c in cs[1..] :: c in cs;
      var first, rest := Utf8(cs[0]), Spaces(cs[1..]) + text;
      WhiteAtFront(cs[0], rest);
      assert Spaces(cs) + text == first + rest && (first + rest)[|first|..] == rest;
      FrontTrimmed(cs[1..], text);
    }
  }

  lemma {:induction false} EndTrimmed(cs: seq<Code>, text: Bytes)
    requires (forall c | c in cs :: White(c)) && WhiteSuffix(text) == 0
    ensures TrimEnd(text + Spaces(cs)) == text
  {
    hide WhiteSuffix;
    if cs == [] {
      assert text + Spaces(cs) == text;
    } else {
      hide Utf8, White;
      var last, earlier := cs[|cs| - 1], cs[..|cs| - 1];
      assert last in cs && forall c | c in earlier :: c in cs;
      SpacesEnd(cs);
      WhiteAtEnd(last, text + Spaces(earlier));
      var all := text + Spaces(earlier) + Utf8(last);
      hide Spaces;
      assert all == text + Spaces(cs) && all[..|all| - |Utf8(last)|] == text + Spaces(earlier);
      EndTrimmed(earlier, text);
    }
  }

  lemma {:induction false} SpacesEnd(cs: seq<Code>)
    requires cs != []
    ensures Spaces(cs) == Spaces(cs[..|cs| - 1]) + Utf8(cs[|cs| - 1])
  {
    hide Utf8;
    if |cs| > 1 {
      SpacesEnd(cs[1..]);
      assert cs[1..][..|cs| - 2] == cs[..|cs| - 1][1..];
    }
  }

  /** White space around a number of a header changes nothing. */
  lemma SpacesAroundIgnored(before: seq<Code>, text: Bytes, after: seq<Code>)
    requires (forall c | c in before :: White(c)) && Visible(text) && (forall c | c in after :: White(c))
    ensures ParseInteger(Spaces(before) + text + Spaces(after)) == ParseInteger(text)
  {
    hide ParseI64, WhitePrefix, WhiteSuffix, White;
    VisibleIsBare(text);
    assert Spaces(before) + text + Spaces(after) == Spaces(before) + (text + Spaces(after));
    assert (text + Spaces(after))[0..] == text + Spaces(after) && (text + Spaces(after))[0] == text[0];
    BareAt(text + Spaces(after), 0);
    FrontTrimmed(before, text + Spaces(after));
    EndTrimmed(after, text);
  }

  /** The count of an array decides: none or fewer is an empty request, more than 1048576 or no number is refused. */
  lemma CountDecides(text: Bytes, rest: Bytes, maxBulk: nat)
    requires Visible(text)
    ensures var r := Parse([42] + text + [13, 10] + rest, maxBulk);
            && (!Number(text) || Says(text) > 1_048_576 || Says(text) < -0x8000_0000_0000_0000 ==> r == Malformed(InvalidMultibulkLength))
            && (Number(text) && -0x8000_0000_0000_0000 <= Says(text) <= 0 ==> r == Parsed([], |text| + 3))
  {
    hide ParseInteger, ReadLine, Visible, Number, Says;
    var buf := [42] + text + [13, 10] + rest;
    assert buf[1..1 + |text| + 2] == text + [13, 10];
    HeaderIsRead(buf, 1, text);
    HeaderSays(text);
  }

  /** An array of `count` has begun and its header is read. */
  lemma ArrayBegins(count: nat, rest: Bytes, maxBulk: nat)
    requires 1 <= count <= 1_048_576
    ensures var head := [42] + Decimal(count) + [13, 10];
            Parse(head + rest, maxBulk) == ParseArgs(head + rest, maxBulk, |head|, count, [])
  {
    hide ParseInteger, ReadLine, ParseArgs;
    var buf := [42] + Decimal(count) + [13, 10] + rest;
    assert buf[1..1 + |Decimal(count) + CRLF|] == Decimal(count) + CRLF;
    HeaderReads(buf, 1, count);
    ParseIntegerDecimal(count);
  }

  /** Every argument of an array is a bulk string: any other marker is refused by name. */
  lemma OnlyBulks(count: nat, marker: Byte, rest: Bytes, maxBulk: nat)
    requires 1 <= count <= 1_048_576 && marker != 36
    ensures Parse([42] + Decimal(count) + [13, 10] + ([marker] + rest), maxBulk) == Malformed(ExpectedDollar(marker))
  {
    ArrayBegins(count, [marker] + rest, maxBulk);
  }

  /** A length that is no number, negative or over the limit is refused. */
  lemma LengthDecides(count: nat, text: Bytes, rest: Bytes, maxBulk: nat)
    requires 1 <= count <= 1_048_576 && Visible(text) && maxBulk <= 0x7fff_ffff_ffff_ffff
    requires !Number(text) || Says(text) < 0 || Says(text) > maxBulk
    ensures Parse([42] + Decimal(count) + [13, 10] + ([36] + (text + [13, 10]) + rest), maxBulk) == Malformed(InvalidBulkLength)
  {
    hide NextBulk, Decimal, Visible, Number, Says;
    var head, more := [42] + Decimal(count) + [13, 10], [36] + (text + [13, 10]) + rest;
    ArrayBegins(count, more, maxBulk);
    assert (head + more)[|head|..] == more;
    LengthIsRead(head + more, |head|, text, rest, maxBulk);
  }

  lemma LengthIsRead(buf: Bytes, at: nat, text: Bytes, rest: Bytes, maxBulk: nat)
    requires Visible(text) && maxBulk <= 0x7fff_ffff_ffff_ffff
    requires !Number(text) || Says(text) < 0 || Says(text) > maxBulk
    requires at <= |buf| && buf[at..] == [36] + (text + [13, 10]) + rest
    ensures NextBulk(buf, maxBulk, at) == BadBulk(InvalidBulkLength)
  {
    hide ParseInteger, ReadLine, Visible, Number, Says;
    assert buf[at] == buf[at..][0];
    assert buf[at..][1..1 + |text + [13, 10]|] == text + [13, 10];
    SliceOf(buf, at, 1, 1 + |text + [13, 10]|);
    HeaderIsRead(buf, at + 1, text);
    HeaderSays(text);
  }

  lemma SliceOf(buf: Bytes, at: nat, i: nat, j: nat)
    requires i <= j && at + j <= |buf|
    ensures buf[at..][i..j] == buf[at + i..at + j]
  {
  }

  lemma PayloadIsTaken(buf: Bytes, at: nat, value: Bytes, after: Bytes, maxBulk: nat)
    requires |value| <= maxBulk <= 0x7fff_ffff_ffff_ffff && at <= |buf|
    requires buf[at..] == [36] + (Decimal(|value|) + CRLF) + value + after
    ensures var end := at + 1 + |Decimal(|value|) + CRLF| + |value|;
            NextBulk(buf, maxBulk, at)
            == if after == [] || after == [13] then MoreBulk
               else Bulk(value, end + if after[0] == 13 && after[1] == 10 then 2 else 1)
  {
    hide ParseInteger, ReadLine, Decimal;
    var header := Decimal(|value|) + CRLF;
    PartsOf(buf, at, header, value, after);
    HeaderReads(buf, at + 1, |value|);
    ParseIntegerDecimal(|value|);
  }

  lemma PartsOf(buf: Bytes, at: nat, header: Bytes, value: Bytes, after: Bytes)
    requires at <= |buf| && buf[at..] == [36] + header + value + after
    ensures var body := at + 1 + |header|; var end := body + |value|;
            && end + |after| == |buf|
            && buf[at] == 36 && Sits(buf, at + 1, header) && buf[body..end] == value
            && (forall i | 0 <= i < |after| :: buf[end + i] == after[i])
  {
    var rest, body := buf[at..], 1 + |header|;
    SliceOf(buf, at, 1, body);
    assert rest[1..body] == header;
    SliceOf(buf, at, body, body + |value|);
    assert rest[body..body + |value|] == value;
    forall i | 0 <= i < |after| ensures buf[at + body + |value| + i] == after[i] {
      assert rest[body + |value| + i] == after[i];
    }
  }

  /** What ends a payload: `\r\n`, or one byte of any other kind; a lone `\r` is waited on. */
  lemma PayloadEnds(value: Bytes, after: Bytes, maxBulk: nat)
    requires |value| <= maxBulk <= 0x7fff_ffff_ffff_ffff
    ensures var head, bulk := [42] + Decimal(1) + [13, 10], [36] + (Decimal(|value|) + [13, 10]) + value;
            Parse(head + (bulk + after), maxBulk)
            == if after == [] || after == [13] then NeedMore
               else Parsed([value], |head| + |bulk| + if after[0] == 13 && after[1] == 10 then 2 else 1)
  {
    hide NextBulk, Decimal;
    var head, rest := [42] + Decimal(1) + [13, 10], [36] + (Decimal(|value|) + CRLF) + value + after;
    assert (head + rest)[|head|..] == rest;
    ArrayBegins(1, rest, maxBulk);
    PayloadIsTaken(head + rest, |head|, value, after, maxBulk);
    assert [] + [value] == [value];
  }
}
