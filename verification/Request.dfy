/** The incremental request parser: array and inline commands pulled off a read buffer. */
module Requests {
  import opened ByteStrings

  const MAX_ARGS: nat := 1024 * 1024
  const MAX_INLINE: nat := 64 * 1024

  datatype ProtocolError =
    | InvalidMultibulkLength
    | ExpectedDollar(got: Byte)
    | InvalidBulkLength
    | TooBigInline
    | UnbalancedQuotes

  datatype ParseResult =
    | NeedMore
    | Parsed(argv: seq<Bytes>, consumed: nat)
    | Malformed(error: ProtocolError)

  // ------------------------------------------------------------------
  // Lines and integers

  function FindLF(buf: Bytes, from: nat): (r: Option<nat>)
    requires from <= |buf|
    ensures r.Some? ==> from <= r.value < |buf| && buf[r.value] == LF && LF !in buf[from..r.value]
    ensures r.None? ==> LF !in buf[from..]
    decreases |buf| - from
  {
    if from == |buf| then None
    else if buf[from] == LF then Some(from)
    else
      var r := FindLF(buf, from + 1);
      assert buf[from..] == [buf[from]] + buf[from + 1..];
      assert r.Some? ==> buf[from..r.value] == [buf[from]] + buf[from + 1..r.value];
      r
  }

  /** The line that starts at `from`, without its ending, and where the following one starts. A line ends
      with a line feed, perhaps preceded by a carriage return. */
  function ReadLine(buf: Bytes, from: nat): (r: Option<(Bytes, nat)>)
    requires from <= |buf|
    ensures r.Some? ==> from < r.value.1 <= |buf|
  {
    match FindLF(buf, from)
    case None => None
    case Some(newline) =>
      var end := if newline > from && buf[newline - 1] == CR then newline - 1 else newline;
      Some((buf[from..end], newline + 1))
  }

  /** How many bytes end the payload at `at`, or `None` while that cannot be told yet. */
  function TerminatorLen(buf: Bytes, at: nat): (r: Option<nat>)
    ensures r.Some? ==> at + r.value <= |buf|
  {
    if at >= |buf| then None
    else if buf[at] == CR then
      if at + 1 >= |buf| then None else Some(if buf[at + 1] == LF then 2 else 1)
    else Some(1)
  }

  /** The length of the white-space character at the front of UTF-8 text, 0 if there is none. */
  function WhitePrefix(s: Bytes): (n: nat)
    ensures n <= |s|
  {
    if |s| >= 1 && (9 <= s[0] <= 13 || s[0] == SPACE) then 1
    else if |s| >= 2 && s[0] == 0xC2 && (s[1] == 0x85 || s[1] == 0xA0) then 2
    else if |s| >= 3 && (
        || (s[0] == 0xE1 && s[1] == 0x9A && s[2] == 0x80)
        || (s[0] == 0xE2 && s[1] == 0x80 &&
            (0x80 <= s[2] <= 0x8A || s[2] == 0xA8 || s[2] == 0xA9 || s[2] == 0xAF))
        || (s[0] == 0xE2 && s[1] == 0x81 && s[2] == 0x9F)
        || (s[0] == 0xE3 && s[1] == 0x80 && s[2] == 0x80)) then 3
    else 0
  }

  function WhiteSuffix(s: Bytes): (n: nat)
    ensures n <= |s|
  {
    if |s| >= 1 && WhitePrefix(s[|s| - 1..]) == 1 then 1
    else if |s| >= 2 && WhitePrefix(s[|s| - 2..]) == 2 then 2
    else if |s| >= 3 && WhitePrefix(s[|s| - 3..]) == 3 then 3
    else 0
  }

  function TrimStart(s: Bytes): Bytes {
    if WhitePrefix(s) == 0 then s else TrimStart(s[WhitePrefix(s)..])
  }

  function TrimEnd(s: Bytes): Bytes {
    if WhiteSuffix(s) == 0 then s else TrimEnd(s[..|s| - WhiteSuffix(s)])
  }

  /** A header's integer: trimmed of Unicode white space, then a signed 64-bit decimal. */
  function ParseInteger(line: Bytes): Option<int> {
    ParseI64(TrimEnd(TrimStart(line)))
  }

  // ------------------------------------------------------------------
  // Array requests

  /** One bulk string of an array request. */
  datatype BulkResult =
    | MoreBulk
    | BadBulk(error: ProtocolError)
    | Bulk(value: Bytes, next: nat)

  function NextBulk(buf: Bytes, maxBulk: nat, at: nat): (r: BulkResult)
    requires at <= |buf|
    ensures r.Bulk? ==> at < r.next <= |buf|
    ensures r.BadBulk? ==> r.error != TooBigInline
  {
    if at >= |buf| then MoreBulk
    else if buf[at] != DOLLAR then BadBulk(ExpectedDollar(buf[at]))
    else
      match ReadLine(buf, at + 1)
      case None => MoreBulk
      case Some((header, body)) =>
        match ParseInteger(header)
        case None => BadBulk(InvalidBulkLength)
        case Some(len) =>
          if len < 0 || len > maxBulk then BadBulk(InvalidBulkLength)
          else if body + len >= |buf| then MoreBulk
          else
            match TerminatorLen(buf, body + len)
            case None => MoreBulk
            case Some(terminator) => Bulk(buf[body..body + len], body + len + terminator)
  }

  /** `count` bulk strings from `at`, after the ones already in `argv`. */
  function ParseArgs(buf: Bytes, maxBulk: nat, at: nat, count: nat, argv: seq<Bytes>): (r: ParseResult)
    requires at <= |buf|
    ensures r.Parsed? ==> at <= r.consumed <= |buf|
    ensures r != Malformed(TooBigInline)
    decreases count
  {
    if count == 0 then Parsed(argv, at)
    else
      match NextBulk(buf, maxBulk, at)
      case MoreBulk => NeedMore
      case BadBulk(error) => Malformed(error)
      case Bulk(value, next) => ParseArgs(buf, maxBulk, next, count - 1, argv + [value])
  }

  function ParseArray(buf: Bytes, maxBulk: nat): (r: ParseResult)
    requires buf != []
    ensures r.Parsed? ==> 0 < r.consumed <= |buf|
    ensures r != Malformed(TooBigInline)
  {
    match ReadLine(buf, 1)
    case None => NeedMore
    case Some((header, at)) =>
      match ParseInteger(header)
      case None => Malformed(InvalidMultibulkLength)
      case Some(count) =>
        if count <= 0 then Parsed([], at)
        else if count > MAX_ARGS then Malformed(InvalidMultibulkLength)
        else ParseArgs(buf, maxBulk, at, count, [])
  }

  // ------------------------------------------------------------------
  // Inline requests

  /** ASCII white space as Rust counts it: the vertical tab is not part of it. */
  predicate IsAsciiSpace(b: Byte) {
    b == TAB || b == LF || b == 12 || b == CR || b == SPACE
  }

  /** What `\x` stands for between double quotes. */
  function Unescape(b: Byte): Byte {
    if b == 110 then LF else if b == 114 then CR else if b == 116 then TAB else b
  }

  /** Where the inline splitter stands between two bytes of the line. */
  datatype Scan = Scan(argv: seq<Bytes>, current: Bytes, inToken: bool, quote: Option<Byte>)

  /** One move of the splitter over the rest of a line: the new state and how far it got. */
  function ScanStep(line: Bytes, st: Scan): (r: (Scan, nat))
    requires line != []
    ensures 0 < r.1 <= |line|
  {
    var byte := line[0];
    if st.quote.Some? then
      if byte == BACKSLASH && st.quote.value == QUOTE && 1 < |line| then
        (st.(current := st.current + [Unescape(line[1])]), 2)
      else if byte == st.quote.value then (st.(quote := None), 1)
      else (st.(current := st.current + [byte]), 1)
    else if byte == QUOTE || byte == APOSTROPHE then
      (st.(quote := Some(byte), inToken := true), 1)
    else if IsAsciiSpace(byte) then
      (if st.inToken then Scan(st.argv + [st.current], [], false, None) else st, 1)
    else (st.(current := st.current + [byte], inToken := true), 1)
  }

  function ScanLine(line: Bytes, st: Scan): Scan {
    if line == [] then st
    else
      var (next, used) := ScanStep(line, st);
      ScanLine(line[used..], next)
  }

  const SCAN_START: Scan := Scan([], [], false, None)

  function ParseInline(buf: Bytes): (r: ParseResult)
    ensures r.Parsed? ==> 0 < r.consumed <= |buf|
  {
    match ReadLine(buf, 0)
    case None => if |buf| > MAX_INLINE then Malformed(TooBigInline) else NeedMore
    case Some((line, consumed)) =>
      var end := ScanLine(line, SCAN_START);
      if end.quote.Some? then Malformed(UnbalancedQuotes)
      else Parsed(if end.inToken then end.argv + [end.current] else end.argv, consumed)
  }

  /** What the buffer starts with: a whole command, part of one, or something malformed. */
  function Parse(buf: Bytes, maxBulk: nat): (r: ParseResult)
    ensures r.Parsed? ==> 0 < r.consumed <= |buf|
  {
    if buf == [] then NeedMore
    else if buf[0] == STAR then ParseArray(buf, maxBulk)
    else ParseInline(buf)
  }

  // ------------------------------------------------------------------
  // The parser's loops, proved against the functions above

  method ParseArrayRequest(buf: Bytes, maxBulk: nat) returns (r: ParseResult)
    requires buf != []
    ensures r == ParseArray(buf, maxBulk)
  {
    hide ReadLine, ParseInteger, TerminatorLen;
    var line := ReadLine(buf, 1);
    if line.None? { return NeedMore; }
    var at := line.value.1;
    var parsed := ParseInteger(line.value.0);
    if parsed.None? { return Malformed(InvalidMultibulkLength); }
    var count := parsed.value;
    if count <= 0 { return Parsed([], at); }
    if count > MAX_ARGS { return Malformed(InvalidMultibulkLength); }

    var argv: seq<Bytes> := [];
    for done := 0 to count
      invariant 0 <= at <= |buf|
      invariant ParseArgs(buf, maxBulk, at, (count - done) as nat, argv) == ParseArray(buf, maxBulk)
    {
      if at >= |buf| { return NeedMore; }
      if buf[at] != DOLLAR { return Malformed(ExpectedDollar(buf[at])); }
      var header := ReadLine(buf, at + 1);
      if header.None? { return NeedMore; }
      var body := header.value.1;
      var len := ParseInteger(header.value.0);
      if len.None? { return Malformed(InvalidBulkLength); }
      if len.value < 0 || len.value > maxBulk { return Malformed(InvalidBulkLength); }
      if body + len.value >= |buf| { return NeedMore; }
      var terminator := TerminatorLen(buf, body + len.value);
      if terminator.None? { return NeedMore; }
      argv := argv + [buf[body..body + len.value]];
      at := body + len.value + terminator.value;
    }
    return Parsed(argv, at);
  }

  method ParseInlineRequest(buf: Bytes) returns (r: ParseResult)
    ensures r == ParseInline(buf)
  {
    var found := ReadLine(buf, 0);
    if found.None? {
      if |buf| > MAX_INLINE { return Malformed(TooBigInline); }
      return NeedMore;
    }
    var line := found.value.0;
    var argv: seq<Bytes> := [];
    var current: Bytes := [];
    var inToken := false;
    var quote: Option<Byte> := None;
    var i := 0;
    while i < |line|
      invariant 0 <= i <= |line|
      invariant ScanLine(line[i..], Scan(argv, current, inToken, quote)) == ScanLine(line, SCAN_START)
    {
      ghost var start := i;
      var byte := line[i];
      if quote.Some? {
        if byte == BACKSLASH && quote.value == QUOTE && i + 1 < |line| {
          i := i + 1;
          current := current + [Unescape(line[i])];
        } else if byte == quote.value {
          quote := None;
        } else {
          current := current + [byte];
        }
      } else if byte == QUOTE || byte == APOSTROPHE {
        quote := Some(byte);
        inToken := true;
      } else if IsAsciiSpace(byte) {
        if inToken {
          argv := argv + [current];
          current := [];
          inToken := false;
        }
      } else {
        current := current + [byte];
        inToken := true;
      }
      i := i + 1;
      assert line[start..][i - start..] == line[i..];
    }
    if quote.Some? { return Malformed(UnbalancedQuotes); }
    if inToken { argv := argv + [current]; }
    return Parsed(argv, found.value.1);
  }

  method ParseRequest(buf: Bytes, maxBulk: nat) returns (r: ParseResult)
    ensures r == Parse(buf, maxBulk)
  {
    hide ParseArray, ParseInline;
    if buf == [] { return NeedMore; }
    if buf[0] == STAR {
      r := ParseArrayRequest(buf, maxBulk);
    } else {
      r := ParseInlineRequest(buf);
    }
  }

  // ------------------------------------------------------------------
  // An answer, once given, does not change when more bytes arrive

  lemma {:induction false} FindLFStable(buf: Bytes, from: nat, more: Bytes)
    requires from <= |buf| && FindLF(buf, from).Some?
    ensures FindLF(buf + more, from) == FindLF(buf, from)
    decreases |buf| - from
  {
    if buf[from] != LF {
      FindLFStable(buf, from + 1, more);
    }
  }

  lemma ReadLineStable(buf: Bytes, from: nat, more: Bytes)
    requires from <= |buf| && ReadLine(buf, from).Some?
    ensures ReadLine(buf + more, from) == ReadLine(buf, from)
  {
    FindLFStable(buf, from, more);
    var newline := FindLF(buf, from).value;
    assert forall end | from <= end <= newline :: (buf + more)[from..end] == buf[from..end];
  }

  lemma NextBulkStable(buf: Bytes, maxBulk: nat, at: nat, more: Bytes)
    requires at <= |buf| && !NextBulk(buf, maxBulk, at).MoreBulk?
    ensures NextBulk(buf + more, maxBulk, at) == NextBulk(buf, maxBulk, at)
  {
    hide ParseInteger, ReadLine;
    if buf[at] == DOLLAR {
      ReadLineStable(buf, at + 1, more);
      var (header, body) := ReadLine(buf, at + 1).value;
      var len := ParseInteger(header);
      if len.Some? && 0 <= len.value <= maxBulk {
        assert (buf + more)[body..body + len.value] == buf[body..body + len.value];
      }
    }
  }

  lemma {:induction false} ParseArgsStable(buf: Bytes, maxBulk: nat, at: nat, count: nat, argv: seq<Bytes>, more: Bytes)
    requires at <= |buf| && !ParseArgs(buf, maxBulk, at, count, argv).NeedMore?
    ensures ParseArgs(buf + more, maxBulk, at, count, argv) == ParseArgs(buf, maxBulk, at, count, argv)
    decreases count
  {
    hide NextBulk;
    if count > 0 {
      NextBulkStable(buf, maxBulk, at, more);
      var bulk := NextBulk(buf, maxBulk, at);
      if bulk.Bulk? {
        ParseArgsStable(buf, maxBulk, bulk.next, count - 1, argv + [bulk.value], more);
      }
    }
  }

  /** Whatever the parser answers - a command or an error - it answers the same with more bytes
      behind it. The one exception is the guard against a line that never ends. */
  lemma ParseStable(buf: Bytes, maxBulk: nat, more: Bytes)
    requires Parse(buf, maxBulk) != NeedMore && Parse(buf, maxBulk) != Malformed(TooBigInline)
    ensures Parse(buf + more, maxBulk) == Parse(buf, maxBulk)
  {
    hide ParseInteger, ReadLine, ScanLine;
    if buf[0] == STAR {
      ReadLineStable(buf, 1, more);
      var (header, at) := ReadLine(buf, 1).value;
      var count := ParseInteger(header);
      if count.Some? && 0 < count.value <= MAX_ARGS {
        ParseArgsStable(buf, maxBulk, at, count.value, [], more);
      }
    } else {
      ReadLineStable(buf, 0, more);
    }
  }

  // ------------------------------------------------------------------
  // Encoded commands parse back

  function EncodeArgs(args: seq<Bytes>): Bytes {
    if args == [] then []
    else EncodeBulk(args[0]) + EncodeArgs(args[1..])
  }

  /** The array of bulk strings a client sends for a command. */
  function EncodeCommand(args: seq<Bytes>): (e: Bytes)
    ensures e != [] && e[0] == STAR
  {
    [STAR] + (Decimal(|args|) + CRLF) + EncodeArgs(args)
  }

  predicate WithinLimits(args: seq<Bytes>, maxBulk: nat) {
    |args| <= MAX_ARGS && maxBulk <= I64_MAX && forall i | 0 <= i < |args| :: |args[i]| <= maxBulk
  }

  lemma {:induction false} FindLFAt(buf: Bytes, from: nat, newline: nat)
    requires from <= newline < |buf| && buf[newline] == LF
    requires forall i | from <= i < newline :: buf[i] != LF
    ensures FindLF(buf, from) == Some(newline)
    decreases newline - from
  {
    if from < newline {
      FindLFAt(buf, from + 1, newline);
    }
  }

  lemma ParseIntegerDecimal(n: nat)
    requires n <= I64_MAX
    ensures ParseInteger(Decimal(n)) == Some(n)
  {
    var s := Decimal(n);
    assert IsDigit(s[0]) && IsDigit(s[|s| - 1]);
    assert WhitePrefix(s) == 0;
    assert forall k | 0 <= k < |s| :: IsDigit(s[k..][0]);
    assert WhiteSuffix(s) == 0;
    ParseDecimal(n);
  }

  /** A header of digits ended by `\r\n` reads as one line. */
  lemma HeaderReads(buf: Bytes, at: nat, n: nat)
    requires Sits(buf, at, Decimal(n) + CRLF)
    ensures ReadLine(buf, at) == Some((Decimal(n), at + |Decimal(n) + CRLF|))
  {
    var d := Decimal(n);
    SitsSplit(buf, at, d, CRLF);
    var newline := at + |d| + 1;
    assert buf[at + |d|..at + |d| + 2] == CRLF;
    assert buf[newline - 1] == CRLF[0] == CR && buf[newline] == CRLF[1] == LF by {
      assert buf[at + |d|..at + |d| + 2][0] == buf[newline - 1] && buf[at + |d|..at + |d| + 2][1] == buf[newline];
    }
    forall i | at <= i < newline ensures buf[i] != LF {
      if i < newline - 1 { assert buf[i] == d[i - at] && IsDigit(d[i - at]); }
    }
    FindLFAt(buf, at, newline);
  }

  function EncodeBulk(a: Bytes): Bytes {
    [DOLLAR] + (Decimal(|a|) + CRLF) + (a + CRLF)
  }

  lemma BulkRoundTrip(buf: Bytes, at: nat, a: Bytes, maxBulk: nat)
    requires |a| <= maxBulk <= I64_MAX && Sits(buf, at, EncodeBulk(a))
    ensures NextBulk(buf, maxBulk, at) == Bulk(a, at + |EncodeBulk(a)|)
  {
    hide ParseInteger, ReadLine;
    var header := Decimal(|a|) + CRLF;
    SitsSplit(buf, at, [DOLLAR] + header, a + CRLF);
    SitsSplit(buf, at, [DOLLAR], header);
    assert buf[at] == buf[at..at + 1][0];
    HeaderReads(buf, at + 1, |a|);
    ParseIntegerDecimal(|a|);
    var body := at + 1 + |header|;
    SitsSplit(buf, body, a, CRLF);
    var end := body + |a|;
    assert buf[end..end + 2] == CRLF;
    assert buf[end] == CR && buf[end + 1] == LF;
  }

  lemma {:induction false} ArgsRoundTrip(buf: Bytes, at: nat, args: seq<Bytes>, maxBulk: nat, argv: seq<Bytes>)
    requires WithinLimits(args, maxBulk) && Sits(buf, at, EncodeArgs(args))
    ensures ParseArgs(buf, maxBulk, at, |args|, argv) == Parsed(argv + args, at + |EncodeArgs(args)|)
    decreases |args|
  {
    hide NextBulk, EncodeBulk;
    if args == [] {
      assert argv + args == argv;
    } else {
      var first := EncodeBulk(args[0]);
      SitsSplit(buf, at, first, EncodeArgs(args[1..]));
      BulkRoundTrip(buf, at, args[0], maxBulk);
      ArgsRoundTrip(buf, at + |first|, args[1..], maxBulk, argv + [args[0]]);
      assert argv + [args[0]] + args[1..] == argv + args;
    }
  }

  /** An encoded command followed by anything at all parses to itself and takes exactly its own bytes. */
  lemma CommandRoundTrip(args: seq<Bytes>, rest: Bytes, maxBulk: nat)
    requires WithinLimits(args, maxBulk)
    ensures Parse(EncodeCommand(args) + rest, maxBulk) == Parsed(args, |EncodeCommand(args)|)
  {
    hide ParseInteger, ReadLine, ParseInline, EncodeArgs;
    var buf := EncodeCommand(args) + rest;
    var header := Decimal(|args|) + CRLF;
    SitsSplit(buf, 0, [STAR] + header, EncodeArgs(args));
    SitsSplit(buf, 0, [STAR], header);
    HeaderReads(buf, 1, |args|);
    ParseIntegerDecimal(|args|);
    ArgsRoundTrip(buf, 1 + |header|, args, maxBulk, []);
    assert [] + args == args;
    if args == [] {
      assert EncodeArgs(args) == [] by { NoArgs(); }
    }
  }

  lemma NoArgs()
    ensures EncodeArgs([]) == []
  {
  }

  lemma PrefixIsArray(args: seq<Bytes>, n: nat, maxBulk: nat)
    requires n < |EncodeCommand(args)|
    ensures Parse(EncodeCommand(args)[..n], maxBulk) != Malformed(TooBigInline)
  {
    hide ParseArray;
  }

  /** Until its last byte is there, an encoded command is not answered at all. */
  lemma PrefixNeedsMore(args: seq<Bytes>, n: nat, maxBulk: nat)
    requires WithinLimits(args, maxBulk) && n < |EncodeCommand(args)|
    ensures Parse(EncodeCommand(args)[..n], maxBulk) == NeedMore
  {
    hide Parse, EncodeCommand;
    var whole := EncodeCommand(args);
    var part := whole[..n];
    if Parse(part, maxBulk) != NeedMore {
      PrefixIsArray(args, n, maxBulk);
      assert part + whole[n..] == whole + [];
      ParseStable(part, maxBulk, whole[n..]);
      CommandRoundTrip(args, [], maxBulk);
      assert false;
    }
  }

  // ------------------------------------------------------------------
  // Draining a connection's buffer, and feeding it in pieces

  /** What is left of a buffer once every complete command has been taken from it. */
  datatype Drained = Drained(requests: seq<seq<Bytes>>, rest: Bytes, error: Option<ProtocolError>)

  function Before(requests: seq<seq<Bytes>>, d: Drained): Drained {
    d.(requests := requests + d.requests)
  }

  /** An error clears the buffer: nothing after it can be framed. */
  function Drain(buf: Bytes, maxBulk: nat): Drained
    decreases |buf|
  {
    match Parse(buf, maxBulk)
    case NeedMore => Drained([], buf, None)
    case Malformed(error) => Drained([], [], Some(error))
    case Parsed(argv, consumed) => Before([argv], Drain(buf[consumed..], maxBulk))
  }

  /** The same bytes arriving in reads: each read is appended to what was left and drained. A
      connection that reported an error reads no more. */
  function Feed(rest: Bytes, chunks: seq<Bytes>, maxBulk: nat): Drained
    decreases |chunks|
  {
    if chunks == [] then Drained([], rest, None)
    else
      var d := Drain(rest + chunks[0], maxBulk);
      if d.error.Some? then d else Before(d.requests, Feed(d.rest, chunks[1..], maxBulk))
  }

  /** Some read left more than `MAX_INLINE` bytes of a line whose end was still to come. */
  predicate Overlong(rest: Bytes, chunks: seq<Bytes>, maxBulk: nat)
    decreases |chunks|
  {
    chunks != [] &&
    var d := Drain(rest + chunks[0], maxBulk);
    if d.error == Some(TooBigInline) then LF in Concat(chunks[1..])
    else d.error.None? && Overlong(d.rest, chunks[1..], maxBulk)
  }

  lemma {:induction false} DrainAppend(buf: Bytes, more: Bytes, maxBulk: nat)
    requires Drain(buf, maxBulk).error != Some(TooBigInline)
    ensures var d := Drain(buf, maxBulk);
            Drain(buf + more, maxBulk)
            == if d.error.Some? then d else Before(d.requests, Drain(d.rest + more, maxBulk))
    decreases |buf|
  {
    hide Parse;
    var p := Parse(buf, maxBulk);
    if p != NeedMore {
      ParseStable(buf, maxBulk, more);
    }
    if p.Parsed? {
      DrainAppend(buf[p.consumed..], more, maxBulk);
      assert (buf + more)[p.consumed..] == buf[p.consumed..] + more;
    }
  }

  /** Where a drain stops, it stops for good: the rest on its own yields nothing. */
  lemma {:induction false} DrainStops(buf: Bytes, maxBulk: nat)
    requires Drain(buf, maxBulk).error.None?
    ensures Parse(Drain(buf, maxBulk).rest, maxBulk) == NeedMore
    decreases |buf|
  {
    hide Parse;
    var p := Parse(buf, maxBulk);
    if p.Parsed? {
      DrainStops(buf[p.consumed..], maxBulk);
    }
  }

  /** A drain that met the inline guard did so at an unterminated line; what the whole stream
      says there depends on whether its end ever arrives. */
  lemma {:induction false} DrainTooBig(buf: Bytes, more: Bytes, maxBulk: nat)
    requires Drain(buf, maxBulk).error == Some(TooBigInline)
    ensures Drain(buf + more, maxBulk) == Drain(buf, maxBulk) <==> LF !in more
    decreases |buf|
  {
    hide Parse;
    var p := Parse(buf, maxBulk);
    if p.Parsed? {
      ParseStable(buf, maxBulk, more);
      DrainTooBig(buf[p.consumed..], more, maxBulk);
      assert (buf + more)[p.consumed..] == buf[p.consumed..] + more;
      BeforeCancels([p.argv], Drain(buf[p.consumed..] + more, maxBulk), Drain(buf[p.consumed..], maxBulk));
    } else {
      TooBigUntilLF(buf, more, maxBulk);
    }
  }

  lemma TooBigUntilLF(buf: Bytes, more: Bytes, maxBulk: nat)
    requires Parse(buf, maxBulk) == Malformed(TooBigInline)
    ensures Parse(buf + more, maxBulk) == Malformed(TooBigInline) <==> LF !in more
  {
    hide ParseArray, ScanLine;
    var whole := buf + more;
    assert whole[0] == buf[0] && buf[0..] == buf && whole[0..] == whole;
    assert LF !in buf;
    assert LF in whole <==> LF in more;
  }

  /** Chunking independence, exactly: however a stream is cut into reads, the same requests, the
      same leftover and the same error come out as from the stream in one piece - unless a cut
      leaves an overlong inline line whose end is still to come, and then they differ. */
  lemma {:induction false} ChunkingIndependence(rest: Bytes, chunks: seq<Bytes>, maxBulk: nat)
    requires Parse(rest, maxBulk) == NeedMore
    ensures Feed(rest, chunks, maxBulk) == Drain(rest + Concat(chunks), maxBulk)
            <==> !Overlong(rest, chunks, maxBulk)
    decreases |chunks|
  {
    hide Parse;
    if chunks == [] {
      assert rest + Concat(chunks) == rest;
    } else {
      var first, others := rest + chunks[0], Concat(chunks[1..]);
      assert rest + Concat(chunks) == first + others;
      var d := Drain(first, maxBulk);
      if d.error == Some(TooBigInline) {
        DrainTooBig(first, others, maxBulk);
      } else {
        DrainAppend(first, others, maxBulk);
        if d.error.None? {
          DrainStops(first, maxBulk);
          ChunkingIndependence(d.rest, chunks[1..], maxBulk);
          BeforeCancels(d.requests, Feed(d.rest, chunks[1..], maxBulk), Drain(d.rest + others, maxBulk));
        }
      }
    }
  }

  lemma BeforeCancels(requests: seq<seq<Bytes>>, a: Drained, b: Drained)
    ensures Before(requests, a) == Before(requests, b) <==> a == b
  {
    var x, y := Before(requests, a).requests, Before(requests, b).requests;
    assert x[|requests|..] == a.requests && y[|requests|..] == b.requests;
  }

  /** One word longer than `MAX_INLINE`. */
  function LongWord(): (word: Bytes)
    ensures |word| == MAX_INLINE + 1 && forall b | b in word :: b == 97
  {
    seq(MAX_INLINE + 1, _ => 97)
  }

  predicate Letters(word: Bytes) {
    forall i | 0 <= i < |word| :: word[i] == 97
  }

  lemma {:induction false} ScanLetters(line: Bytes, st: Scan)
    requires st.quote.None? && Letters(line)
    ensures ScanLine(line, st) == if line == [] then st else st.(current := st.current + line, inToken := true)
    decreases |line|
  {
    if line != [] {
      assert ScanStep(line, st) == (st.(current := st.current + [97], inToken := true), 1);
      ScanLetters(line[1..], st.(current := st.current + [97], inToken := true));
      assert st.current + [97] + line[1..] == st.current + line;
    }
  }

  lemma ReadLetters(word: Bytes)
    requires word != [] && Letters(word)
    ensures ReadLine(word, 0) == None && ReadLine(word + [LF], 0) == Some((word, |word| + 1))
    ensures word[0] == 97 && (word + [LF])[0] == 97
  {
    hide FindLF, Letters;
    assert LF !in word && word[0] == 97 && word[|word| - 1] == 97 by { NoLF(word); }
    assert word[0..] == word && FindLF(word, 0) == None;
    var line := word + [LF];
    FindLFAt(line, 0, |word|);
    assert line[0] == word[0] && line[|word| - 1] == word[|word| - 1] && line[0..|word|] == word;
  }

  lemma NoLF(word: Bytes)
    requires word != [] && Letters(word)
    ensures LF !in word && word[0] == 97 && word[|word| - 1] == 97
  {
  }

  lemma LineOfLetters(word: Bytes, maxBulk: nat)
    requires word != [] && Letters(word)
    ensures Parse(word + [LF], maxBulk) == Parsed([word], |word| + 1)
    ensures |word| > MAX_INLINE ==> Parse(word, maxBulk) == Malformed(TooBigInline)
  {
    hide ScanLine, ReadLine, ParseArray;
    ReadLetters(word);
    ScanLetters(word, SCAN_START);
    hide Letters;
    assert [] + word == word && [] + [word] == [word];
  }

  lemma DrainLetters(word: Bytes, maxBulk: nat)
    requires word != [] && Letters(word)
    ensures Drain(word + [LF], maxBulk) == Drained([[word]], [], None)
    ensures |word| > MAX_INLINE ==> Drain(word, maxBulk) == Drained([], [], Some(TooBigInline))
  {
    hide Parse;
    LineOfLetters(word, maxBulk);
    assert (word + [LF])[|word| + 1..] == [];
    DrainNothing(maxBulk);
    assert [[word]] + [] == [[word]];
  }

  /** A stream that shows it: one long word, then its line feed. In one piece it is a command; cut before
      the line feed it is an error. */
  lemma CutLongLine(maxBulk: nat)
    ensures Overlong([], [LongWord(), [LF]], maxBulk)
    ensures Drain([] + Concat([LongWord(), [LF]]), maxBulk) == Drained([[LongWord()]], [], None)
    ensures Feed([], [LongWord(), [LF]], maxBulk) == Drained([], [], Some(TooBigInline))
  {
    hide LongWord, Drain;
    var word, chunks := LongWord(), [LongWord(), [LF]];
    assert forall i | 0 <= i < |word| :: word[i] in word;
    DrainLetters(word, maxBulk);
    assert chunks[1..] == [[LF]] && [[LF]][1..] == [] && [LF] + [] == [LF];
    assert Concat([[LF]]) == [LF];
    assert Concat(chunks) == word + [LF] && [] + (word + [LF]) == word + [LF] && [] + word == word;
  }

  function EncodeAll(commands: seq<seq<Bytes>>): Bytes {
    if commands == [] then [] else EncodeCommand(commands[0]) + EncodeAll(commands[1..])
  }

  lemma DrainNothing(maxBulk: nat)
    ensures Drain([], maxBulk) == Drained([], [], None)
  {
  }

  lemma {:induction false} DrainAll(commands: seq<seq<Bytes>>, maxBulk: nat)
    requires forall c | c in commands :: WithinLimits(c, maxBulk)
    ensures Drain(EncodeAll(commands), maxBulk) == Drained(commands, [], None)
    decreases |commands|
  {
    hide Parse, EncodeCommand;
    DrainNothing(maxBulk);
    if commands != [] {
      var e, others := EncodeCommand(commands[0]), EncodeAll(commands[1..]);
      CommandRoundTrip(commands[0], others, maxBulk);
      assert (e + others)[|e|..] == others;
      DrainAll(commands[1..], maxBulk);
    }
  }

  /** The buffer drains to the first `k` commands, and what is left begins the others. */
  predicate DrainsTo(commands: seq<seq<Bytes>>, buf: Bytes, more: Bytes, maxBulk: nat, k: nat) {
    && k <= |commands|
    && Drain(buf, maxBulk).requests == commands[..k]
    && Drain(buf, maxBulk).rest + more == EncodeAll(commands[k..])
    && Drain(buf, maxBulk).error.None?
  }

  lemma DrainsOne(command: seq<Bytes>, tail: Bytes, maxBulk: nat)
    requires WithinLimits(command, maxBulk)
    ensures Drain(EncodeCommand(command) + tail, maxBulk) == Before([command], Drain(tail, maxBulk))
  {
    hide Parse, EncodeCommand;
    var e := EncodeCommand(command);
    CommandRoundTrip(command, tail, maxBulk);
    assert (e + tail)[|e|..] == tail;
  }

  /** A buffer that begins a stream of encoded commands never meets the inline guard. */
  lemma {:induction false} PrefixDrains(commands: seq<seq<Bytes>>, buf: Bytes, more: Bytes, maxBulk: nat)
    requires forall c | c in commands :: WithinLimits(c, maxBulk)
    requires buf + more == EncodeAll(commands)
    ensures exists k: nat :: DrainsTo(commands, buf, more, maxBulk, k)
    decreases |commands|
  {
    hide Parse, EncodeCommand, DrainsTo, WithinLimits;
    if commands == [] {
      DrainsNone(commands, buf, more, maxBulk);
    } else {
      var e, others := EncodeCommand(commands[0]), EncodeAll(commands[1..]);
      if |buf| < |e| {
        assert buf == (buf + more)[..|buf|] == e[..|buf|];
        PrefixNeedsMore(commands[0], |buf|, maxBulk);
        DrainsNone(commands, buf, more, maxBulk);
      } else {
        assert e == (buf + more)[..|e|] == buf[..|e|];
        var tail := buf[|e|..];
        assert buf == e + tail;
        assert tail + more == (buf + more)[|e|..] == others;
        PrefixDrains(commands[1..], tail, more, maxBulk);
        var k: nat :| DrainsTo(commands[1..], tail, more, maxBulk, k);
        DrainsMore(commands, tail, more, maxBulk, k);
      }
    }
  }

  lemma DrainsNone(commands: seq<seq<Bytes>>, buf: Bytes, more: Bytes, maxBulk: nat)
    requires buf + more == EncodeAll(commands) && (commands == [] || Parse(buf, maxBulk) == NeedMore)
    ensures DrainsTo(commands, buf, more, maxBulk, 0)
  {
    hide Parse, EncodeCommand;
    DrainNothing(maxBulk);
    assert commands[0..] == commands && commands[..0] == [];
  }

  lemma DrainsMore(commands: seq<seq<Bytes>>, tail: Bytes, more: Bytes, maxBulk: nat, k: nat)
    requires commands != [] && WithinLimits(commands[0], maxBulk) && DrainsTo(commands[1..], tail, more, maxBulk, k)
    ensures DrainsTo(commands, EncodeCommand(commands[0]) + tail, more, maxBulk, k + 1)
  {
    hide Drain, EncodeCommand, WithinLimits, EncodeAll;
    DrainsOne(commands[0], tail, maxBulk);
    assert commands[1..][k..] == commands[k + 1..] && [commands[0]] + commands[1..][..k] == commands[..k + 1];
  }

  lemma {:induction false} CommandsNeverOverlong(commands: seq<seq<Bytes>>, rest: Bytes, chunks: seq<Bytes>, maxBulk: nat)
    requires forall c | c in commands :: WithinLimits(c, maxBulk)
    requires rest + Concat(chunks) == EncodeAll(commands)
    ensures !Overlong(rest, chunks, maxBulk)
    decreases |chunks|
  {
    if chunks != [] {
      var first, others := rest + chunks[0], Concat(chunks[1..]);
      assert first + others == rest + Concat(chunks);
      PrefixDrains(commands, first, others, maxBulk);
      var k: nat :| DrainsTo(commands, first, others, maxBulk, k);
      CommandsNeverOverlong(commands[k..], Drain(first, maxBulk).rest, chunks[1..], maxBulk);
    }
  }

  /** Whatever reads a pipeline of commands arrives in, exactly those commands come out, in order,
      with nothing left over. */
  lemma PipelineSurvivesAnySplit(commands: seq<seq<Bytes>>, chunks: seq<Bytes>, maxBulk: nat)
    requires forall c | c in commands :: WithinLimits(c, maxBulk)
    requires Concat(chunks) == EncodeAll(commands)
    ensures Feed([], chunks, maxBulk) == Drained(commands, [], None)
  {
    assert [] + Concat(chunks) == Concat(chunks);
    CommandsNeverOverlong(commands, [], chunks, maxBulk);
    ChunkingIndependence([], chunks, maxBulk);
    DrainAll(commands, maxBulk);
  }

  // ------------------------------------------------------------------
  // Quoting

  /** How a byte is typed between double quotes. */
  function EscapeByte(b: Byte): Bytes {
    if b == BACKSLASH || b == QUOTE then [BACKSLASH, b]
    else if b == LF then [BACKSLASH, 110]
    else if b == CR then [BACKSLASH, 114]
    else [b]
  }

  function Escape(s: Bytes): (e: Bytes)
    ensures LF !in e
  {
    if s == [] then [] else EscapeByte(s[0]) + Escape(s[1..])
  }

  function Quoted(args: seq<Bytes>): (e: Bytes)
    ensures LF !in e
    ensures e != [] ==> e[0] == QUOTE && e[|e| - 1] == SPACE
  {
    if args == [] then []
    else
      var others := Quoted(args[1..]);
      [QUOTE] + Escape(args[0]) + [QUOTE, SPACE] + others
  }

  lemma ScanEscapedByte(b: Byte, more: Bytes, st: Scan)
    requires st.quote == Some(QUOTE) && more != []
    ensures ScanStep(EscapeByte(b) + more, st) == (st.(current := st.current + [b]), |EscapeByte(b)|)
  {
  }

  lemma ScanByte(b: Byte, more: Bytes, st: Scan)
    requires st.quote == Some(QUOTE) && more != []
    ensures ScanLine(EscapeByte(b) + more, st) == ScanLine(more, st.(current := st.current + [b]))
  {
    hide EscapeByte, ScanStep;
    var line := EscapeByte(b) + more;
    ScanEscapedByte(b, more, st);
    assert line[|EscapeByte(b)|..] == more;
  }

  lemma Joined(a: Bytes, b: Bytes, c: Bytes)
    ensures a + b + c == a + (b + c)
  {
  }

  lemma EscapeFirst(s: Bytes, rest: Bytes)
    requires s != []
    ensures Escape(s) + rest == EscapeByte(s[0]) + (Escape(s[1..]) + rest)
  {
    hide EscapeByte;
    Joined(EscapeByte(s[0]), Escape(s[1..]), rest);
  }

  lemma {:induction false} ScanEscaped(s: Bytes, rest: Bytes, st: Scan)
    requires st.quote == Some(QUOTE) && rest != []
    ensures ScanLine(Escape(s) + rest, st) == ScanLine(rest, st.(current := st.current + s))
    decreases |s|
  {
    hide ScanLine, EscapeByte;
    if s == [] {
      assert Escape(s) + rest == rest;
      assert st.current + s == st.current;
    } else {
      hide Escape;
      EscapeFirst(s, rest);
      Joined(st.current, [s[0]], s[1..]);
      assert [s[0]] + s[1..] == s;
      ScanByte(s[0], Escape(s[1..]) + rest, st);
      ScanEscaped(s[1..], rest, st.(current := st.current + [s[0]]));
    }
  }

  /** One quoted word and its separator add exactly that word. */
  lemma ScanWord(a: Bytes, others: Bytes, argv: seq<Bytes>)
    ensures ScanLine([QUOTE] + Escape(a) + [QUOTE, SPACE] + others, Scan(argv, [], false, None))
            == ScanLine(others, Scan(argv + [a], [], false, None))
  {
    hide Escape;
    var line := [QUOTE] + Escape(a) + [QUOTE, SPACE] + others;
    var inside, after := Scan(argv, [], true, Some(QUOTE)), [QUOTE, SPACE] + others;
    assert line[1..] == Escape(a) + after;
    assert ScanLine(line, Scan(argv, [], false, None)) == ScanLine(Escape(a) + after, inside);
    ScanEscaped(a, after, inside);
    assert [] + a == a;
    assert after[1..] == [SPACE] + others;
    assert after[1..][1..] == others;
    var closed := Scan(argv, a, true, None);
    assert ScanLine(after, inside.(current := a)) == ScanLine(after[1..], closed);
    assert ScanStep(after[1..], closed) == (Scan(argv + [a], [], false, None), 1);
  }

  lemma {:induction false} ScanQuoted(args: seq<Bytes>, argv: seq<Bytes>)
    ensures ScanLine(Quoted(args), Scan(argv, [], false, None)) == Scan(argv + args, [], false, None)
    decreases |args|
  {
    hide ScanStep, Escape;
    if args == [] {
      assert argv + args == argv;
    } else {
      ScanWord(args[0], Quoted(args[1..]), argv);
      ScanQuoted(args[1..], argv + [args[0]]);
      assert argv + [args[0]] + args[1..] == argv + args;
    }
  }

  /** Any argument vector of any bytes, typed as one line of double-quoted words, parses back to
      itself and takes exactly that line. */
  lemma InlineUndoesQuoting(args: seq<Bytes>, rest: Bytes, maxBulk: nat)
    ensures Parse(Quoted(args) + [LF] + rest, maxBulk) == Parsed(args, |Quoted(args)| + 1)
  {
    var q := Quoted(args);
    var buf := q + [LF] + rest;
    forall i | 0 <= i < |q| ensures buf[i] != LF {
      assert buf[i] == q[i] && q[i] in q;
    }
    FindLFAt(buf, 0, |q|);
    assert buf[0..|q|] == q;
    ScanQuoted(args, []);
    assert [] + args == args;
  }
}
