/** Replies and the two wire dialects they are written in. */
module Resp {
  import opened ByteStrings

  datatype Protocol = Resp2 | Resp3

  /** A float, named by the shortest text that reads back as it. */
  datatype Score = Score(text: Bytes)

  /** What a server answers, whichever protocol version will carry it. */
  datatype Reply =
    | Simple(text: Bytes)
    | Error(message: Bytes)
    | Integer(n: int)
    | Bulk(payload: Bytes)
    | Nil
    | NilArray
    | Array(items: seq<Reply>)
    | Map(pairs: seq<Pair>)
    | Set(items: seq<Reply>)
    | Push(items: seq<Reply>)
    | Double(score: Score)
    | ScoredMembers(members: seq<(Bytes, Score)>)

  /** A field and its value. */
  datatype Pair = Pair(key: Reply, value: Reply)

  const TILDE: Byte := 126
  const GREATER: Byte := 62
  const PERCENT: Byte := 37
  const COMMA: Byte := 44
  const UNDERSCORE: Byte := 95

  // ------------------------------------------------------------------
  // The wire form

  function FlattenBreaks(message: Bytes): (m: Bytes)
    ensures CR !in m && LF !in m
  {
    if message == [] then []
    else [if message[0] == CR || message[0] == LF then SPACE else message[0]] + FlattenBreaks(message[1..])
  }

  /** An error keeps its length and its bytes, a space standing for each break. */
  lemma {:induction false} BreaksBecomeSpaces(message: Bytes, i: nat)
    requires i < |message|
    ensures |FlattenBreaks(message)| == |message|
    ensures FlattenBreaks(message)[i] == if message[i] == 10 || message[i] == 13 then 32 else message[i]
  {
    if |message| > 1 { BreaksBecomeSpaces(message[1..], if i == 0 then 0 else i - 1); }
  }

  function Header(marker: Byte, n: nat): Bytes {
    [marker] + Decimal(n) + CRLF
  }

  function WireBulk(payload: Bytes): Bytes {
    Header(DOLLAR, |payload|) + payload + CRLF
  }

  function WireDouble(score: Score, p: Protocol): Bytes {
    if p == Resp3 then [COMMA] + score.text + CRLF else WireBulk(score.text)
  }

  function Wire(r: Reply, p: Protocol): Bytes
    decreases r, 1
  {
    match r
    case Simple(text) => [PLUS] + text + CRLF
    case Error(message) => [MINUS] + FlattenBreaks(message) + CRLF
    case Integer(n) => [COLON] + IntText(n) + CRLF
    case Bulk(payload) => WireBulk(payload)
    case Nil => if p == Resp3 then [UNDERSCORE] + CRLF else [DOLLAR, MINUS, ZERO + 1] + CRLF
    case NilArray => if p == Resp3 then [UNDERSCORE] + CRLF else [STAR, MINUS, ZERO + 1] + CRLF
    case Array(items) => Header(STAR, |items|) + WireAll(items, p)
    case Set(items) => Header(if p == Resp3 then TILDE else STAR, |items|) + WireAll(items, p)
    case Push(items) => Header(if p == Resp3 then GREATER else STAR, |items|) + WireAll(items, p)
    case Map(pairs) =>
      (if p == Resp3 then Header(PERCENT, |pairs|) else Header(STAR, |pairs| * 2)) + WirePairs(pairs, p)
    case Double(score) => WireDouble(score, p)
    case ScoredMembers(members) =>
      Header(STAR, if p == Resp3 then |members| else |members| * 2) + WireScored(members, p)
  }

  function WireAll(items: seq<Reply>, p: Protocol): Bytes
    decreases items, 0
  {
    if items == [] then [] else Wire(items[0], p) + WireAll(items[1..], p)
  }

  function WirePairs(pairs: seq<Pair>, p: Protocol): Bytes
    decreases pairs, 0
  {
    if pairs == [] then []
    else WirePair(pairs[0], p) + WirePairs(pairs[1..], p)
  }

  function WirePair(pair: Pair, p: Protocol): Bytes
    decreases pair, 0
  {
    Wire(pair.key, p) + Wire(pair.value, p)
  }

  function WireScored(members: seq<(Bytes, Score)>, p: Protocol): Bytes {
    if members == [] then []
    else
      WireMember(members[0].0, members[0].1, p) + WireScored(members[1..], p)
  }

  /** A member with its score: an array of its own in RESP3. */
  function WireMember(member: Bytes, score: Score, p: Protocol): Bytes {
    (if p == Resp3 then Header(STAR, 2) else []) + (WireBulk(member) + WireDouble(score, p))
  }

  // ------------------------------------------------------------------
  // Encoding, as the server does it: straight onto the output buffer

  class OutBuffer {
    var data: Bytes

    constructor ()
      ensures data == []
    {
      data := [];
    }

    method Append(bytes: Bytes)
      modifies this
      ensures data == old(data) + bytes
    {
      data := data + bytes;
    }
  }

  method Encode(reply: Reply, p: Protocol, out: OutBuffer)
    modifies out
    ensures out.data == old(out.data) + Wire(reply, p)
    decreases reply, 1
  {
    hide WireBulk, FlattenBreaks, WireScored, WireDouble, WirePairs, WireAll, Decimal, IntText;
    match reply
    case Simple(text) =>
      EncodeLine(PLUS, text, out);
    case Error(message) =>
      out.Append([MINUS]);
      EncodeError(message, out);
      out.Append(CRLF);
    case Integer(n) =>
      EncodeLine(COLON, IntText(n), out);
    case Bulk(payload) => EncodeBulk(payload, out);
    case Nil => out.Append(if p == Resp3 then [UNDERSCORE] + CRLF else [DOLLAR, MINUS, ZERO + 1] + CRLF);
    case NilArray => out.Append(if p == Resp3 then [UNDERSCORE] + CRLF else [STAR, MINUS, ZERO + 1] + CRLF);
    case Array(items) => EncodeAggregate(STAR, items, p, out);
    case Set(items) => EncodeAggregate(if p == Resp3 then TILDE else STAR, items, p, out);
    case Push(items) => EncodeAggregate(if p == Resp3 then GREATER else STAR, items, p, out);
    case Map(pairs) => EncodeMap(pairs, p, out);
    case Double(score) => EncodeDouble(score, p, out);
    case ScoredMembers(members) => EncodeScored(members, p, out);
  }

  method EncodeMap(pairs: seq<Pair>, p: Protocol, out: OutBuffer)
    modifies out
    ensures out.data == old(out.data)
            + ((if p == Resp3 then Header(PERCENT, |pairs|) else Header(STAR, |pairs| * 2)) + WirePairs(pairs, p))
    decreases pairs, 1
  {
    hide Header, WirePairs;
    if p == Resp3 {
      EncodeHeader(PERCENT, |pairs|, out);
    } else {
      EncodeHeader(STAR, |pairs| * 2, out);
    }
    EncodePairs(pairs, p, out);
  }

  method EncodeLine(marker: Byte, text: Bytes, out: OutBuffer)
    modifies out
    ensures out.data == old(out.data) + ([marker] + text + CRLF)
  {
    out.Append([marker]);
    out.Append(text);
    out.Append(CRLF);
  }

  method EncodeHeader(marker: Byte, n: nat, out: OutBuffer)
    modifies out
    ensures out.data == old(out.data) + Header(marker, n)
  {
    hide Decimal;
    EncodeLine(marker, Decimal(n), out);
  }

  method EncodePairs(pairs: seq<Pair>, p: Protocol, out: OutBuffer)
    modifies out
    ensures out.data == old(out.data) + WirePairs(pairs, p)
    decreases pairs, 0
  {
    hide WirePair;
    for i := 0 to |pairs|
      invariant out.data + WirePairs(pairs[i..], p) == old(out.data) + WirePairs(pairs, p)
    {
      EncodePair(pairs[i], p, out);
      assert pairs[i..][1..] == pairs[i + 1..];
    }
    assert pairs[|pairs|..] == [];
  }

  method EncodePair(pair: Pair, p: Protocol, out: OutBuffer)
    modifies out
    ensures out.data == old(out.data) + WirePair(pair, p)
    decreases pair, 0
  {
    hide Wire;
    Encode(pair.key, p, out);
    Encode(pair.value, p, out);
  }

  method EncodeScored(members: seq<(Bytes, Score)>, p: Protocol, out: OutBuffer)
    modifies out
    ensures out.data == old(out.data)
            + (Header(STAR, if p == Resp3 then |members| else |members| * 2) + WireScored(members, p))
  {
    hide WireMember, Header;
    EncodeHeader(STAR, if p == Resp3 then |members| else |members| * 2, out);
    ghost var base := out.data;
    for i := 0 to |members|
      invariant out.data + WireScored(members[i..], p) == base + WireScored(members, p)
    {
      EncodeMember(members[i].0, members[i].1, p, out);
      assert members[i..][1..] == members[i + 1..];
      assert members[i..][0] == members[i];
    }
    assert members[|members|..] == [];
    assert out.data == base + WireScored(members, p);
  }

  method EncodeError(message: Bytes, out: OutBuffer)
    modifies out
    ensures out.data == old(out.data) + FlattenBreaks(message)
  {
    for i := 0 to |message|
      invariant out.data + FlattenBreaks(message[i..]) == old(out.data) + FlattenBreaks(message)
    {
      out.Append([if message[i] == CR || message[i] == LF then SPACE else message[i]]);
      assert message[i..][1..] == message[i + 1..];
    }
  }

  method EncodeBulk(payload: Bytes, out: OutBuffer)
    modifies out
    ensures out.data == old(out.data) + WireBulk(payload)
  {
    EncodeHeader(DOLLAR, |payload|, out);
    out.Append(payload);
    out.Append(CRLF);
  }

  method EncodeDouble(score: Score, p: Protocol, out: OutBuffer)
    modifies out
    ensures out.data == old(out.data) + WireDouble(score, p)
  {
    if p == Resp3 {
      EncodeLine(COMMA, score.text, out);
    } else {
      EncodeBulk(score.text, out);
    }
  }

  method EncodeMember(member: Bytes, score: Score, p: Protocol, out: OutBuffer)
    modifies out
    ensures out.data == old(out.data) + WireMember(member, score, p)
  {
    if p == Resp3 { out.Append(Header(STAR, 2)); }
    EncodeBulk(member, out);
    EncodeDouble(score, p, out);
  }

  method EncodeAggregate(marker: Byte, items: seq<Reply>, p: Protocol, out: OutBuffer)
    modifies out
    ensures out.data == old(out.data) + (Header(marker, |items|) + WireAll(items, p))
    decreases items, 0
  {
    hide Wire, Header;
    EncodeHeader(marker, |items|, out);
    ghost var base := out.data;
    for i := 0 to |items|
      invariant out.data + WireAll(items[i..], p) == base + WireAll(items, p)
    {
      Encode(items[i], p, out);
      assert items[i..][1..] == items[i + 1..];
    }
    assert items[|items|..] == [];
    assert out.data == base + WireAll(items, p);
  }

  // ------------------------------------------------------------------
  // A reference decoder, written from the protocol description alone

  /** What a client reads off the wire. An aggregate keeps its marker; a map alternates keys and
      values. */
  datatype Value =
    | Status(text: Bytes)
    | Failure(text: Bytes)
    | Number(n: int)
    | Blob(bytes: Bytes)
    | NullBlob
    | NullArray
    | Null
    | Float(text: Bytes)
    | Aggregate(marker: Byte, items: seq<Value>)

  function FindCRLF(buf: Bytes): (r: Option<nat>)
    ensures r.Some? ==> r.value + 2 <= |buf|
  {
    if |buf| < 2 then None
    else if buf[0] == 13 && buf[1] == 10 then Some(0)
    else
      match FindCRLF(buf[1..])
      case None => None
      case Some(i) => Some(i + 1)
  }

  /** The text up to the first `\r\n`, and what follows it. */
  function TakeLine(buf: Bytes): (r: Option<(Bytes, Bytes)>)
    ensures r.Some? ==> |r.value.1| < |buf|
  {
    match FindCRLF(buf)
    case None => None
    case Some(i) => Some((buf[..i], buf[i + 2..]))
  }

  function Decode(buf: Bytes): (r: Option<(Value, Bytes)>)
    ensures r.Some? ==> |r.value.1| < |buf|
    decreases |buf|, 0
  {
    if buf == [] then None
    else
      match TakeLine(buf[1..])
      case None => None
      case Some((line, rest)) =>
        if buf[0] == 43 then Some((Status(line), rest))
        else if buf[0] == 45 then Some((Failure(line), rest))
        else if buf[0] == 44 then Some((Float(line), rest))
        else if buf[0] == 95 then Some((Null, rest))
        else
          match ParseI64(line)
          case None => None
          case Some(n) =>
            if buf[0] == 58 then Some((Number(n), rest))
            else if buf[0] == 36 then
              if n < 0 then Some((NullBlob, rest))
              else if n + 2 <= |rest| then Some((Blob(rest[..n]), rest[n + 2..]))
              else None
            else if buf[0] in [42, 126, 62, 37] then
              if n < 0 then Some((NullArray, rest))
              else
                match DecodeMany(rest, if buf[0] == 37 then n * 2 else n)
                case None => None
                case Some((items, after)) => Some((Aggregate(buf[0], items), after))
            else None
  }

  function DecodeMany(buf: Bytes, n: nat): (r: Option<(seq<Value>, Bytes)>)
    ensures r.Some? ==> |r.value.1| <= |buf|
    decreases |buf|, 1
  {
    if n == 0 then Some(([], buf))
    else
      match Decode(buf)
      case None => None
      case Some((first, rest)) =>
        match DecodeMany(rest, n - 1)
        case None => None
        case Some((others, after)) => Some(([first] + others, after))
  }

  // ------------------------------------------------------------------
  // What a reply means to a client of each dialect

  function NormalDouble(score: Score, p: Protocol): Value {
    if p == Resp3 then Float(score.text) else Blob(score.text)
  }

  function Normal(r: Reply, p: Protocol): Value
    decreases r, 1
  {
    match r
    case Simple(text) => Status(text)
    case Error(message) => Failure(FlattenBreaks(message))
    case Integer(n) => Number(n)
    case Bulk(payload) => Blob(payload)
    case Nil => if p == Resp3 then Null else NullBlob
    case NilArray => if p == Resp3 then Null else NullArray
    case Array(items) => Aggregate(42, NormalAll(items, p))
    case Set(items) => Aggregate(if p == Resp3 then 126 else 42, NormalAll(items, p))
    case Push(items) => Aggregate(if p == Resp3 then 62 else 42, NormalAll(items, p))
    case Map(pairs) => Aggregate(if p == Resp3 then 37 else 42, NormalPairs(pairs, p))
    case Double(score) => NormalDouble(score, p)
    case ScoredMembers(members) => Aggregate(42, NormalScored(members, p))
  }

  function NormalAll(items: seq<Reply>, p: Protocol): (v: seq<Value>)
    ensures |v| == |items|
    decreases items, 0
  {
    if items == [] then [] else [Normal(items[0], p)] + NormalAll(items[1..], p)
  }

  function NormalPairs(pairs: seq<Pair>, p: Protocol): (v: seq<Value>)
    ensures |v| == |pairs| * 2
    decreases pairs, 0
  {
    if pairs == [] then []
    else NormalPair(pairs[0], p) + NormalPairs(pairs[1..], p)
  }

  function NormalPair(pair: Pair, p: Protocol): (v: seq<Value>)
    ensures |v| == 2
    decreases pair, 0
  {
    [Normal(pair.key, p), Normal(pair.value, p)]
  }

  /** Nested in RESP3, flat in RESP2. */
  function NormalScored(members: seq<(Bytes, Score)>, p: Protocol): (v: seq<Value>)
    ensures |v| == if p == Resp3 then |members| else |members| * 2
  {
    if members == [] then []
    else
      var pair := [Blob(members[0].0), NormalDouble(members[0].1, p)];
      (if p == Resp3 then [Aggregate(42, pair)] else pair) + NormalScored(members[1..], p)
  }

  /** Text that fits on one line, as every status and every printed float does. */
  predicate OneLine(text: Bytes) {
    CR !in text && LF !in text
  }

  /** What the reply type promises: statuses and float texts hold no line break, integers and
      lengths fit 64 bits. */
  predicate Sound(r: Reply)
    decreases r, 1
  {
    match r
    case Simple(text) => OneLine(text)
    case Integer(n) => I64_MIN <= n <= I64_MAX
    case Bulk(payload) => |payload| <= I64_MAX
    case Array(items) => |items| <= I64_MAX && SoundAll(items)
    case Set(items) => |items| <= I64_MAX && SoundAll(items)
    case Push(items) => |items| <= I64_MAX && SoundAll(items)
    case Map(pairs) => |pairs| * 2 <= I64_MAX && SoundPairs(pairs)
    case Double(score) => SoundScore(score)
    case ScoredMembers(members) =>
      |members| * 2 <= I64_MAX &&
      forall i | 0 <= i < |members| :: |members[i].0| <= I64_MAX && SoundScore(members[i].1)
    case _ => true
  }

  predicate SoundScore(score: Score) {
    OneLine(score.text) && |score.text| <= I64_MAX
  }

  predicate SoundAll(items: seq<Reply>)
    decreases items, 0
  {
    items == [] || (Sound(items[0]) && SoundAll(items[1..]))
  }

  predicate SoundPairs(pairs: seq<Pair>)
    decreases pairs, 0
  {
    pairs == [] || (SoundPair(pairs[0]) && SoundPairs(pairs[1..]))
  }

  predicate SoundPair(pair: Pair)
    decreases pair, 0
  {
    Sound(pair.key) && Sound(pair.value)
  }

  // ------------------------------------------------------------------
  // Every reply stream is uniquely decodable

  lemma {:induction false} TakeLineReads(text: Bytes, rest: Bytes)
    requires OneLine(text)
    ensures TakeLine(text + CRLF + rest) == Some((text, rest))
    decreases |text|
  {
    var buf := text + CRLF + rest;
    if text == [] {
      assert buf[0] == CR && buf[1] == LF && buf[..0] == [] && buf[2..] == rest;
    } else {
      assert buf[0] == text[0] && text[0] in text;
      assert buf[1..] == text[1..] + CRLF + rest;
      assert forall b | b in text[1..] :: b in text;
      TakeLineReads(text[1..], rest);
      var i := FindCRLF(buf[1..]).value;
      assert buf[1..][..i] == text[1..] && buf[1..][i + 2..] == rest;
      assert FindCRLF(buf) == Some(i + 1);
      assert buf[..i + 1] == [text[0]] + text[1..] == text;
      assert buf[i + 3..] == rest;
    }
  }

  lemma DigitsOneLine(n: int)
    ensures OneLine(IntText(n))
  {
    var s := IntText(n);
    forall b | b in s ensures b != CR && b != LF {
      var i :| 0 <= i < |s| && s[i] == b;
      assert IsDigit(s[i]) || s[i] == MINUS;
    }
  }

  lemma HeaderReads(marker: Byte, n: nat, rest: Bytes)
    requires n <= I64_MAX
    ensures var buf := Header(marker, n) + rest;
            && buf != [] && buf[0] == marker
            && TakeLine(buf[1..]) == Some((Decimal(n), rest))
            && ParseI64(Decimal(n)) == Some(n)
  {
    hide TakeLine, OneLine, Decimal, ParseI64;
    var buf := Header(marker, n) + rest;
    assert Decimal(n) == IntText(n);
    DigitsOneLine(n);
    TakeLineReads(Decimal(n), rest);
    assert buf[1..] == Decimal(n) + CRLF + rest;
    ParseDecimal(n);
  }

  lemma LineReads(marker: Byte, text: Bytes, rest: Bytes)
    requires OneLine(text)
    ensures var buf := [marker] + text + CRLF + rest;
            && buf != [] && buf[0] == marker && TakeLine(buf[1..]) == Some((text, rest))
  {
    var buf := [marker] + text + CRLF + rest;
    TakeLineReads(text, rest);
    assert buf[1..] == text + CRLF + rest;
  }

  lemma DecodeBulk(payload: Bytes, rest: Bytes)
    requires |payload| <= I64_MAX
    ensures Decode(WireBulk(payload) + rest) == Some((Blob(payload), rest))
  {
    var body := payload + CRLF + rest;
    assert WireBulk(payload) + rest == Header(DOLLAR, |payload|) + body;
    HeaderReads(DOLLAR, |payload|, body);
    assert body[..|payload|] == payload && body[|payload| + 2..] == rest;
  }

  lemma DecodeDouble(score: Score, p: Protocol, rest: Bytes)
    requires SoundScore(score)
    ensures Decode(WireDouble(score, p) + rest) == Some((NormalDouble(score, p), rest))
  {
    if p == Resp3 {
      LineReads(COMMA, score.text, rest);
    } else {
      DecodeBulk(score.text, rest);
    }
  }

  lemma DecodeAggregate(marker: Byte, count: nat, body: Bytes, items: seq<Value>, rest: Bytes)
    requires marker in [STAR, TILDE, GREATER, PERCENT] && count <= I64_MAX
    requires DecodeMany(body + rest, if marker == PERCENT then count * 2 else count) == Some((items, rest))
    ensures Decode(Header(marker, count) + body + rest) == Some((Aggregate(marker, items), rest))
  {
    hide Header, DecodeMany;
    assert Header(marker, count) + body + rest == Header(marker, count) + (body + rest);
    HeaderReads(marker, count, body + rest);
  }

  lemma {:induction false} DecodeAll(items: seq<Reply>, p: Protocol, rest: Bytes)
    requires SoundAll(items)
    ensures DecodeMany(WireAll(items, p) + rest, |items|) == Some((NormalAll(items, p), rest))
    decreases items, 0
  {
    hide Wire, Decode, Normal;
    if items == [] {
      assert WireAll(items, p) + rest == rest;
    } else {
      var others := WireAll(items[1..], p) + rest;
      assert WireAll(items, p) + rest == Wire(items[0], p) + others;
      DecodeWire(items[0], p, others);
      DecodeAll(items[1..], p, rest);
    }
  }

  /** Two encodings in a row, then `n` more values. */
  lemma DecodeTwo(a: Bytes, b: Bytes, x: Value, y: Value, n: nat, others: seq<Value>, rest: Bytes, after: Bytes)
    requires Decode(a + (b + rest)) == Some((x, b + rest)) && Decode(b + rest) == Some((y, rest))
    requires DecodeMany(rest, n) == Some((others, after))
    ensures DecodeMany(a + b + rest, n + 2) == Some(([x, y] + others, after))
  {
    hide Decode;
    assert a + b + rest == a + (b + rest);
    assert DecodeMany(b + rest, n + 1) == Some(([y] + others, after));
    assert [x] + ([y] + others) == [x, y] + others;
  }

  lemma {:induction false} DecodePairs(pairs: seq<Pair>, p: Protocol, rest: Bytes)
    requires SoundPairs(pairs)
    ensures DecodeMany(WirePairs(pairs, p) + rest, |pairs| * 2) == Some((NormalPairs(pairs, p), rest))
    decreases pairs, 0
  {
    hide Wire, Decode, Normal, DecodeMany;
    if pairs == [] {
      assert WirePairs(pairs, p) + rest == rest;
      DecodeNone(rest);
    } else {
      var others := WirePairs(pairs[1..], p) + rest;
      DecodePairs(pairs[1..], p, rest);
      DecodePair(pairs[0], p, |pairs[1..]| * 2, NormalPairs(pairs[1..], p), others, rest);
      assert WirePairs(pairs, p) + rest == WirePair(pairs[0], p) + others;
    }
  }

  lemma DecodeNone(rest: Bytes)
    ensures DecodeMany(rest, 0) == Some(([], rest))
  {
  }

  lemma {:induction false} DecodePair(pair: Pair, p: Protocol, n: nat, others: seq<Value>, rest: Bytes, after: Bytes)
    requires SoundPair(pair) && DecodeMany(rest, n) == Some((others, after))
    ensures DecodeMany(WirePair(pair, p) + rest, n + 2) == Some((NormalPair(pair, p) + others, after))
    decreases pair, 0
  {
    hide Wire, Decode, Normal, DecodeMany;
    DecodeWire(pair.key, p, Wire(pair.value, p) + rest);
    DecodeWire(pair.value, p, rest);
    DecodeTwo(Wire(pair.key, p), Wire(pair.value, p), Normal(pair.key, p), Normal(pair.value, p),
              n, others, rest, after);
  }

  lemma {:induction false} DecodeScored(members: seq<(Bytes, Score)>, p: Protocol, rest: Bytes)
    requires forall i | 0 <= i < |members| :: |members[i].0| <= I64_MAX && SoundScore(members[i].1)
    ensures DecodeMany(WireScored(members, p) + rest, if p == Resp3 then |members| else |members| * 2)
            == Some((NormalScored(members, p), rest))
    decreases members
  {
    hide Decode, DecodeMany, WireBulk, WireDouble, NormalDouble, Header;
    if members == [] {
      assert WireScored(members, p) + rest == rest;
      DecodeNone(rest);
    } else {
      var others := WireScored(members[1..], p) + rest;
      var tail := NormalScored(members[1..], p);
      var m, s := WireBulk(members[0].0), WireDouble(members[0].1, p);
      var x, y := Blob(members[0].0), NormalDouble(members[0].1, p);
      DecodeBulk(members[0].0, s + others);
      DecodeDouble(members[0].1, p, others);
      DecodeScored(members[1..], p, rest);
      if p == Resp3 {
        DecodeNone(others);
        DecodeTwo(m, s, x, y, 0, [], others, others);
        assert [x, y] + [] == [x, y];
        DecodeAggregate(STAR, 2, m + s, [x, y], others);
        assert WireScored(members, p) + rest == Header(STAR, 2) + (m + s) + others;
        DecodeOneMore(Header(STAR, 2) + (m + s), Aggregate(STAR, [x, y]), |members| - 1, tail, others, rest);
      } else {
        DecodeTwo(m, s, x, y, (|members| - 1) * 2, tail, others, rest);
        assert WireScored(members, p) + rest == m + s + others;
      }
    }
  }

  lemma DecodeOneMore(a: Bytes, x: Value, n: nat, others: seq<Value>, rest: Bytes, after: Bytes)
    requires Decode(a + rest) == Some((x, rest)) && DecodeMany(rest, n) == Some((others, after))
    ensures DecodeMany(a + rest, n + 1) == Some(([x] + others, after))
  {
    hide Decode;
  }

  /** A reply on the wire, followed by anything, decodes to its normal form and leaves exactly what
      followed - nested to any depth, in both dialects. */
  lemma {:induction false} DecodeWire(r: Reply, p: Protocol, rest: Bytes)
    requires Sound(r)
    ensures Decode(Wire(r, p) + rest) == Some((Normal(r, p), rest))
    decreases r, 1
  {
    match r
    case Simple(text) => LineReads(PLUS, text, rest);
    case Error(message) => LineReads(MINUS, FlattenBreaks(message), rest);
    case Integer(n) =>
      DigitsOneLine(n);
      LineReads(COLON, IntText(n), rest);
      ParseIntText(n);
    case Bulk(payload) => DecodeBulk(payload, rest);
    case Nil => DecodeNil(r, p, rest);
    case NilArray => DecodeNil(r, p, rest);
    case Array(items) =>
      DecodeAll(items, p, rest);
      DecodeAggregate(STAR, |items|, WireAll(items, p), NormalAll(items, p), rest);
    case Set(items) =>
      DecodeAll(items, p, rest);
      DecodeAggregate(if p == Resp3 then TILDE else STAR, |items|, WireAll(items, p), NormalAll(items, p), rest);
    case Push(items) =>
      DecodeAll(items, p, rest);
      DecodeAggregate(if p == Resp3 then GREATER else STAR, |items|, WireAll(items, p), NormalAll(items, p), rest);
    case Map(pairs) =>
      DecodePairs(pairs, p, rest);
      if p == Resp3 {
        DecodeAggregate(PERCENT, |pairs|, WirePairs(pairs, p), NormalPairs(pairs, p), rest);
      } else {
        DecodeAggregate(STAR, |pairs| * 2, WirePairs(pairs, p), NormalPairs(pairs, p), rest);
      }
    case Double(score) => DecodeDouble(score, p, rest);
    case ScoredMembers(members) =>
      DecodeScored(members, p, rest);
      DecodeAggregate(STAR, if p == Resp3 then |members| else |members| * 2,
                      WireScored(members, p), NormalScored(members, p), rest);
  }

  lemma DecodeNil(r: Reply, p: Protocol, rest: Bytes)
    requires r.Nil? || r.NilArray?
    ensures Decode(Wire(r, p) + rest) == Some((Normal(r, p), rest))
  {
    if p == Resp3 {
      LineReads(UNDERSCORE, [], rest);
      assert [UNDERSCORE] + [] + CRLF + rest == Wire(r, p) + rest;
    } else {
      var marker := if r.Nil? then DOLLAR else STAR;
      assert Decimal(1) == [ZERO + 1];
      assert IntText(-1) == [MINUS, ZERO + 1];
      DigitsOneLine(-1);
      LineReads(marker, [MINUS, ZERO + 1], rest);
      assert [marker] + [MINUS, ZERO + 1] + CRLF + rest == Wire(r, p) + rest;
      ParseIntText(-1);
    }
  }

  /** A whole stream of replies decodes to their normal forms, in order, with nothing left. */
  lemma StreamDecodes(replies: seq<Reply>, p: Protocol)
    requires SoundAll(replies)
    ensures DecodeMany(WireAll(replies, p), |replies|) == Some((NormalAll(replies, p), []))
  {
    DecodeAll(replies, p, []);
    assert WireAll(replies, p) + [] == WireAll(replies, p);
  }

  /** So two replies share a wire form exactly when a client is meant to read them the same, and
      none is the beginning of another. */
  lemma WireInjective(a: Reply, b: Reply, p: Protocol, more: Bytes)
    requires Sound(a) && Sound(b) && Wire(a, p) + more == Wire(b, p)
    ensures Normal(a, p) == Normal(b, p) && more == []
  {
    DecodeWire(a, p, more);
    DecodeWire(b, p, []);
    assert Wire(b, p) + [] == Wire(b, p);
  }
}
