/** The commands that create, move and consume list values, on a keyspace of plain values. */
module Commands {
  import opened ByteStrings
  import opened Resp

  /** What a key holds. Only lists are ever popped; the other kinds answer WRONGTYPE. */
  datatype Held =
    | StringValue(text: Bytes)
    | ListValue(items: seq<Bytes>)
    | ZsetValue(entries: seq<(Bytes, Score)>)

  type Db = map<Bytes, Held>

  datatype End = Left | Right

  datatype Checked<+T> = Pass(value: T) | Fail(reply: Reply)

  predicate IsList(db: Db, key: Bytes) {
    key in db && db[key].ListValue?
  }

  predicate IsZset(db: Db, key: Bytes) {
    key in db && db[key].ZsetValue?
  }

  /** `key` holds something that is not a list. */
  predicate WrongFor(db: Db, key: Bytes) {
    key in db && !db[key].ListValue?
  }

  /** Empty collections do not exist. */
  ghost predicate DbOk(db: Db) {
    forall k | IsList(db, k) :: db[k].items != []
  }

  // ------------------------------------------------------------------
  // Names and error texts

  datatype Name =
    | SET | DEL | LPUSH | RPUSH | LPUSHX | RPUSHX | LPOP | RPOP | RPOPLPUSH | LMOVE | LMPOP
    | BLPOP | BRPOP | BLMOVE | BRPOPLPUSH | BLMPOP | RENAME | RENAMENX | COPY | FLUSHALL
    | MULTI | EXEC | DISCARD | WATCH | UNWATCH | RESET | PING | QUIT | UNKNOWN

  predicate EqIgnoreCase(token: Bytes, word: string) {
    Upper(token) == Ascii(word)
  }

  /** The commands' words, shorter ones first and then in alphabetical order. */
  const WORDS: seq<(string, Name)> := [
    ("DEL", DEL), ("SET", SET), ("COPY", COPY), ("EXEC", EXEC), ("LPOP", LPOP), ("PING", PING),
    ("QUIT", QUIT), ("RPOP", RPOP), ("BLPOP", BLPOP), ("BRPOP", BRPOP), ("LMOVE", LMOVE), ("LMPOP", LMPOP),
    ("LPUSH", LPUSH), ("MULTI", MULTI), ("RESET", RESET), ("RPUSH", RPUSH), ("WATCH", WATCH),
    ("BLMOVE", BLMOVE), ("BLMPOP", BLMPOP), ("LPUSHX", LPUSHX), ("RENAME", RENAME), ("RPUSHX", RPUSHX),
    ("UNLINK", DEL), ("DISCARD", DISCARD), ("FLUSHDB", FLUSHALL), ("UNWATCH", UNWATCH),
    ("FLUSHALL", FLUSHALL), ("RENAMENX", RENAMENX), ("RPOPLPUSH", RPOPLPUSH), ("BRPOPLPUSH", BRPOPLPUSH)]

  function NameFrom(token: Bytes, i: nat): Name
    decreases |WORDS| - i
  {
    if i >= |WORDS| then UNKNOWN
    else if EqIgnoreCase(token, WORDS[i].0) then WORDS[i].1
    else NameFrom(token, i + 1)
  }

  function NameOf(token: Bytes): Name {
    NameFrom(token, 0)
  }

  datatype Trouble =
    | WrongType | WrongArity | SyntaxError | NotAnInteger | OutOfRange | NumkeysNotPositive
    | CountNotPositive | BadTimeout | NegativeTimeout | InfiniteTimeout | NoSuchKey | UnknownCommand
    | NestedMulti | ExecWithoutMulti | DiscardWithoutMulti | WatchInMulti | ExecAbort | OutOfMemory

  function Message(t: Trouble): Bytes {
    match t
    case WrongType => Ascii("WRONGTYPE Operation against a key holding the wrong kind of value")
    case WrongArity => Ascii("ERR wrong number of arguments")
    case SyntaxError => Ascii("ERR syntax error")
    case NotAnInteger => Ascii("ERR value is not an integer or out of range")
    case OutOfRange => Ascii("ERR value is out of range, must be positive")
    case NumkeysNotPositive => Ascii("ERR numkeys should be greater than 0")
    case CountNotPositive => Ascii("ERR count should be greater than 0")
    case BadTimeout => Ascii("ERR timeout is not a float or out of range")
    case NegativeTimeout => Ascii("ERR timeout is negative")
    case InfiniteTimeout => Ascii("ERR timeout is out of range")
    case NoSuchKey => Ascii("ERR no such key")
    case UnknownCommand => Ascii("ERR unknown command")
    case NestedMulti => Ascii("ERR MULTI calls can not be nested")
    case ExecWithoutMulti => Ascii("ERR EXEC without MULTI")
    case DiscardWithoutMulti => Ascii("ERR DISCARD without MULTI")
    case WatchInMulti => Ascii("ERR WATCH inside MULTI is not allowed")
    case ExecAbort => Ascii("EXECABORT Transaction discarded because of previous errors.")
    case OutOfMemory => Ascii("OOM command not allowed when used memory > 'maxmemory'.")
  }

  function Refused(t: Trouble): (r: Reply)
    ensures r.Error?
  {
    Error(Message(t))
  }

  function OkReply(): (r: Reply)
    ensures !r.Error?
  {
    Simple(Ascii("OK"))
  }

  // ------------------------------------------------------------------
  // Pops, pushes and moves

  function PopItem(items: seq<Bytes>, end: End): (Bytes, seq<Bytes>)
    requires items != []
  {
    if end == Left then (items[0], items[1..]) else (items[|items| - 1], items[..|items| - 1])
  }

  function PushItem(items: seq<Bytes>, end: End, value: Bytes): (r: seq<Bytes>)
    ensures |r| == |items| + 1
  {
    if end == Left then [value] + items else items + [value]
  }

  function PushItems(items: seq<Bytes>, end: End, values: seq<Bytes>): (r: seq<Bytes>)
    ensures |r| == |items| + |values|
    decreases |values|
  {
    if values == [] then items else PushItems(PushItem(items, end, values[0]), end, values[1..])
  }

  function DeleteIfEmpty(db: Db, key: Bytes): Db {
    if key in db && db[key].ListValue? && db[key].items == [] then db - {key} else db
  }

  function PopOne(db: Db, key: Bytes, end: End): Option<(Bytes, Db)> {
    if IsList(db, key) && db[key].items != [] then
      var (value, rest) := PopItem(db[key].items, end);
      Some((value, DeleteIfEmpty(db[key := ListValue(rest)], key)))
    else None
  }

  /** Up to `count` values off one end. */
  function PopMany(db: Db, key: Bytes, end: End, count: nat): (seq<Bytes>, Db)
    decreases count
  {
    if count == 0 then ([], db)
    else
      match PopOne(db, key, end)
      case None => ([], db)
      case Some((value, rest)) =>
        var (others, last) := PopMany(rest, key, end, count - 1);
        ([value] + others, last)
  }

  /** The push comes before the empty-cleanup, so a one-element list can be rotated onto itself. */
  function MoveOne(db: Db, source: Bytes, destination: Bytes, from: End, to: End): Option<(Bytes, Db)>
    requires !WrongFor(db, destination)
  {
    if IsList(db, source) && db[source].items != [] then
      var (value, rest) := PopItem(db[source].items, from);
      var taken := db[source := ListValue(rest)];
      var target := if destination in taken then taken[destination].items else [];
      var moved := taken[destination := ListValue(PushItem(target, to, value))];
      Some((value, DeleteIfEmpty(moved, source)))
    else None
  }

  function BulkAll(values: seq<Bytes>): (r: seq<Reply>)
    ensures |r| == |values|
    ensures forall i | 0 <= i < |r| :: r[i] == Bulk(values[i])
  {
    if values == [] then [] else [Bulk(values[0])] + BulkAll(values[1..])
  }

  type Found = Option<(Reply, Db)>

  /** BLPOP: the first key, in the order given, with anything in it. */
  function PopFirstList(db: Db, keys: seq<Bytes>, end: End): Checked<Found> {
    if keys == [] then Pass(None)
    else if WrongFor(db, keys[0]) then Fail(Refused(WrongType))
    else
      match PopOne(db, keys[0], end)
      case Some((value, rest)) => Pass(Some((Array([Bulk(keys[0]), Bulk(value)]), rest)))
      case None => PopFirstList(db, keys[1..], end)
  }

  function MpopLists(db: Db, keys: seq<Bytes>, end: End, count: nat): Checked<Found> {
    if keys == [] then Pass(None)
    else if WrongFor(db, keys[0]) then Fail(Refused(WrongType))
    else
      var (popped, rest) := PopMany(db, keys[0], end, count);
      if popped != [] then Pass(Some((Array([Bulk(keys[0]), Array(BulkAll(popped))]), rest)))
      else MpopLists(db, keys[1..], end, count)
  }

  // ------------------------------------------------------------------
  // Arguments

  function ParseEnd(token: Bytes): Option<End> {
    if EqIgnoreCase(token, "LEFT") then Some(Left)
    else if EqIgnoreCase(token, "RIGHT") then Some(Right)
    else None
  }

  /** What a timeout argument says, in seconds; reading the float itself is outside the model. */
  datatype Timeout = NotAFloat | Negative | NotFinite | Forever | After(millis: nat)

  function ParseTimeout(reading: Timeout, now: int): Checked<Option<int>> {
    match reading
    case NotAFloat => Fail(Refused(BadTimeout))
    case Negative => Fail(Refused(NegativeTimeout))
    case NotFinite => Fail(Refused(InfiniteTimeout))
    case Forever => Pass(None)
    case After(millis) => Pass(Some(now + millis))
  }

  datatype MultiKey = MultiKey(keys: seq<Bytes>, direction: Bytes, count: nat)

  /** The tail of a multi-key pop: at `at` how many keys there are, then the keys, a side, and perhaps
      a count. */
  function ParseMultiKey(argv: seq<Bytes>, at: nat): Checked<MultiKey>
    requires at < |argv|
  {
    match ParseI64(argv[at])
    case None => Fail(Refused(NotAnInteger))
    case Some(numkeys) =>
      if numkeys <= 0 then Fail(Refused(NumkeysNotPositive))
      else
        var directionAt := at + 1 + numkeys;
        if directionAt >= |argv| then Fail(Refused(WrongArity))
        else
          var request := MultiKey(argv[at + 1..directionAt], argv[directionAt], 1);
          var extra := |argv| - directionAt - 1;
          if extra == 0 then Pass(request)
          else if extra == 2 && EqIgnoreCase(argv[directionAt + 1], "COUNT") then
            match ParseI64(argv[directionAt + 2])
            case None => Fail(Refused(NotAnInteger))
            case Some(n) => if n > 0 then Pass(request.(count := n)) else Fail(Refused(CountNotPositive))
          else Fail(Refused(SyntaxError))
  }

  datatype SetOptions = SetOptions(onlyIfAbsent: bool, onlyIfPresent: bool, returnOld: bool)

  /** SET's options from argument `i` on. Deadlines are checked and otherwise ignored: a key may
      vanish at any time. */
  function ParseSet(argv: seq<Bytes>, i: nat, o: SetOptions): Checked<SetOptions>
    decreases |argv| - i
  {
    if i >= |argv| then
      if o.onlyIfAbsent && o.onlyIfPresent then Fail(Refused(SyntaxError)) else Pass(o)
    else if EqIgnoreCase(argv[i], "NX") then ParseSet(argv, i + 1, o.(onlyIfAbsent := true))
    else if EqIgnoreCase(argv[i], "XX") then ParseSet(argv, i + 1, o.(onlyIfPresent := true))
    else if EqIgnoreCase(argv[i], "GET") then ParseSet(argv, i + 1, o.(returnOld := true))
    else if EqIgnoreCase(argv[i], "KEEPTTL") then ParseSet(argv, i + 1, o)
    else
      var relative := EqIgnoreCase(argv[i], "EX") || EqIgnoreCase(argv[i], "PX");
      var absolute := EqIgnoreCase(argv[i], "EXAT") || EqIgnoreCase(argv[i], "PXAT");
      if !relative && !absolute then Fail(Refused(SyntaxError))
      else if i + 1 >= |argv| then Fail(Refused(SyntaxError))
      else
        match ParseI64(argv[i + 1])
        case None => Fail(Refused(NotAnInteger))
        case Some(amount) =>
          if relative && amount <= 0 then Fail(Refused(OutOfRange)) else ParseSet(argv, i + 2, o)
  }

  // ------------------------------------------------------------------
  // Running one command

  /** A command either answers, leaving a keyspace behind, or has to wait on some keys. */
  datatype Outcome =
    | Done(db: Db, reply: Reply)
    | Park(keys: seq<Bytes>, deadline: Option<int>, onTimeout: Reply)

  /** What a command sees besides its arguments: the clock, whether EXEC is running it, and how
      its timeout argument reads. */
  datatype Context = Context(now: int, inExec: bool, timeouts: Bytes -> Timeout)

  function Unchanged(db: Db, t: Trouble): Outcome {
    Done(db, Refused(t))
  }

  /** Inside EXEC nothing waits: the timeout reply is the answer. */
  function Answered(db: Db, c: Context, found: Checked<Found>, keys: seq<Bytes>, deadline: Option<int>, onTimeout: Reply): Outcome {
    match found
    case Fail(reply) => Done(db, reply)
    case Pass(Some((reply, after))) => Done(after, reply)
    case Pass(None) => if c.inExec then Done(db, onTimeout) else Park(keys, deadline, onTimeout)
  }

  function RunSet(argv: seq<Bytes>, db: Db): Outcome {
    if |argv| <= 2 then Unchanged(db, WrongArity)
    else
      match ParseSet(argv, 3, SetOptions(false, false, false))
      case Fail(reply) => Done(db, reply)
      case Pass(o) =>
        var key := argv[1];
        if o.returnOld && key in db && !db[key].StringValue? then Unchanged(db, WrongType)
        else
          var previous := if key in db && db[key].StringValue? then Bulk(db[key].text) else Nil;
          if (o.onlyIfAbsent && key in db) || (o.onlyIfPresent && key !in db) then
            Done(db, if o.returnOld then previous else Nil)
          else
            Done(db[key := StringValue(argv[2])], if o.returnOld then previous else OkReply())
  }

  function CountHeld(db: Db, keys: seq<Bytes>): nat {
    if keys == [] then 0
    else (if keys[0] in db then 1 else 0) + CountHeld(db - {keys[0]}, keys[1..])
  }

  function Keys(keys: seq<Bytes>): set<Bytes> {
    set k | k in keys
  }

  function RunDel(argv: seq<Bytes>, db: Db): Outcome {
    if |argv| <= 1 then Unchanged(db, WrongArity)
    else Done(db - Keys(argv[1..]), Integer(CountHeld(db, argv[1..])))
  }

  function RunPush(argv: seq<Bytes>, db: Db, end: End, onlyIfPresent: bool): Outcome {
    if |argv| <= 2 then Unchanged(db, WrongArity)
    else if WrongFor(db, argv[1]) then Unchanged(db, WrongType)
    else if onlyIfPresent && argv[1] !in db then Done(db, Integer(0))
    else
      var items := PushItems(if argv[1] in db then db[argv[1]].items else [], end, argv[2..]);
      Done(db[argv[1] := ListValue(items)], Integer(|items|))
  }

  function RunPop(argv: seq<Bytes>, db: Db, end: End): Outcome {
    if |argv| <= 1 then Unchanged(db, WrongArity)
    else if |argv| > 3 then Unchanged(db, WrongArity)
    else
      var count := if |argv| == 2 then Some(1) else ParseI64(argv[2]);
      if count.None? then Unchanged(db, NotAnInteger)
      else if count.value < 0 then Unchanged(db, OutOfRange)
      else if WrongFor(db, argv[1]) then Unchanged(db, WrongType)
      else
        var (popped, after) := PopMany(db, argv[1], end, count.value);
        Done(after, PopReply(popped, |argv| == 3))
  }

  /** A pop that named no count answers with a single value; one that did answers with an array. Either
      is null if nothing was popped. */
  function PopReply(popped: seq<Bytes>, counted: bool): (r: Reply)
    ensures !r.Error?
  {
    if !counted then (if popped == [] then Nil else Bulk(popped[0]))
    else if popped == [] then NilArray
    else Array(BulkAll(popped))
  }

  function FoundMove(moved: Option<(Bytes, Db)>): Checked<Found> {
    match moved
    case None => Pass(None)
    case Some((value, after)) => Pass(Some((Bulk(value), after)))
  }

  /** The two keys and two ends of a move, wherever its name puts them. */
  function MoveEnds(name: Name, argv: seq<Bytes>): Checked<(End, End)>
    requires name in {RPOPLPUSH, LMOVE, BLMOVE, BRPOPLPUSH}
  {
    if name == RPOPLPUSH || name == BRPOPLPUSH then
      if |argv| == (if name == RPOPLPUSH then 3 else 4) then Pass((Right, Left)) else Fail(Refused(WrongArity))
    else if |argv| != (if name == LMOVE then 5 else 6) then Fail(Refused(WrongArity))
    else
      match (ParseEnd(argv[3]), ParseEnd(argv[4]))
      case (Some(from), Some(to)) => Pass((from, to))
      case _ => Fail(Refused(SyntaxError))
  }

  function RunMove(name: Name, argv: seq<Bytes>, db: Db): Outcome
    requires name in {RPOPLPUSH, LMOVE}
  {
    match MoveEnds(name, argv)
    case Fail(reply) => Done(db, reply)
    case Pass((from, to)) =>
      if WrongFor(db, argv[1]) || WrongFor(db, argv[2]) then Unchanged(db, WrongType)
      else
        match MoveOne(db, argv[1], argv[2], from, to)
        case None => Done(db, Nil)
        case Some((value, after)) => Done(after, Bulk(value))
  }

  function RunBlockingMove(name: Name, argv: seq<Bytes>, db: Db, c: Context): Outcome
    requires name in {BLMOVE, BRPOPLPUSH}
  {
    match MoveEnds(name, argv)
    case Fail(reply) => Done(db, reply)
    case Pass((from, to)) =>
      match ParseTimeout(c.timeouts(argv[|argv| - 1]), c.now)
      case Fail(reply) => Done(db, reply)
      case Pass(deadline) =>
        if WrongFor(db, argv[1]) || WrongFor(db, argv[2]) then Unchanged(db, WrongType)
        else Answered(db, c, FoundMove(MoveOne(db, argv[1], argv[2], from, to)), [argv[1]], deadline, Nil)
  }

  function RunBlockingPop(argv: seq<Bytes>, db: Db, end: End, c: Context): Outcome {
    if |argv| <= 2 then Unchanged(db, WrongArity)
    else
      var keys := argv[1..|argv| - 1];
      match ParseTimeout(c.timeouts(argv[|argv| - 1]), c.now)
      case Fail(reply) => Done(db, reply)
      case Pass(deadline) => Answered(db, c, PopFirstList(db, keys, end), keys, deadline, NilArray)
  }

  function RunMpop(argv: seq<Bytes>, db: Db): Outcome {
    if |argv| <= 3 then Unchanged(db, WrongArity)
    else
      match ParseMultiKey(argv, 1)
      case Fail(reply) => Done(db, reply)
      case Pass(request) =>
        match ParseEnd(request.direction)
        case None => Unchanged(db, SyntaxError)
        case Some(end) =>
          match MpopLists(db, request.keys, end, request.count)
          case Fail(reply) => Done(db, reply)
          case Pass(None) => Done(db, NilArray)
          case Pass(Some((reply, after))) => Done(after, reply)
  }

  function RunBlockingMpop(argv: seq<Bytes>, db: Db, c: Context): Outcome {
    if |argv| <= 4 then Unchanged(db, WrongArity)
    else
      match ParseTimeout(c.timeouts(argv[1]), c.now)
      case Fail(reply) => Done(db, reply)
      case Pass(deadline) =>
        match ParseMultiKey(argv, 2)
        case Fail(reply) => Done(db, reply)
        case Pass(request) =>
          match ParseEnd(request.direction)
          case None => Unchanged(db, SyntaxError)
          case Some(end) =>
            Answered(db, c, MpopLists(db, request.keys, end, request.count), request.keys, deadline, NilArray)
  }

  function RenameKey(db: Db, key: Bytes, newKey: Bytes): Db
    requires key in db
  {
    if key == newKey then db else (db - {key})[newKey := db[key]]
  }

  function RunRename(argv: seq<Bytes>, db: Db, onlyIfAbsent: bool): Outcome {
    if |argv| != 3 then Unchanged(db, WrongArity)
    else if argv[1] !in db then Unchanged(db, NoSuchKey)
    else if onlyIfAbsent && argv[1] != argv[2] && argv[2] in db then Done(db, Integer(0))
    else Done(RenameKey(db, argv[1], argv[2]), if onlyIfAbsent then Integer(1) else OkReply())
  }

  function RunCopy(argv: seq<Bytes>, db: Db): Outcome {
    if |argv| <= 2 then Unchanged(db, WrongArity)
    else if |argv| != 3 && !(|argv| == 4 && EqIgnoreCase(argv[3], "REPLACE")) then Unchanged(db, SyntaxError)
    else if argv[1] !in db || (|argv| == 3 && argv[2] in db) then Done(db, Integer(0))
    else Done(db[argv[2] := db[argv[1]]], Integer(1))
  }

  /** Commands that never reach the keyspace are answered by the connection, not here. */
  function Run(name: Name, argv: seq<Bytes>, db: Db, c: Context): Outcome
    requires argv != []
  {
    match name
    case SET => RunSet(argv, db)
    case DEL => RunDel(argv, db)
    case LPUSH => RunPush(argv, db, Left, false)
    case RPUSH => RunPush(argv, db, Right, false)
    case LPUSHX => RunPush(argv, db, Left, true)
    case RPUSHX => RunPush(argv, db, Right, true)
    case LPOP => RunPop(argv, db, Left)
    case RPOP => RunPop(argv, db, Right)
    case RPOPLPUSH => RunMove(name, argv, db)
    case LMOVE => RunMove(name, argv, db)
    case LMPOP => RunMpop(argv, db)
    case BLPOP => RunBlockingPop(argv, db, Left, c)
    case BRPOP => RunBlockingPop(argv, db, Right, c)
    case BLMOVE => RunBlockingMove(name, argv, db, c)
    case BRPOPLPUSH => RunBlockingMove(name, argv, db, c)
    case BLMPOP => RunBlockingMpop(argv, db, c)
    case RENAME => RunRename(argv, db, false)
    case RENAMENX => RunRename(argv, db, true)
    case COPY => RunCopy(argv, db)
    case FLUSHALL => Done(map[], OkReply())
    case PING => Done(db, if |argv| == 1 then Simple(Ascii("PONG")) else if |argv| == 2 then Bulk(argv[1]) else Refused(WrongArity))
    case QUIT => Done(db, OkReply())
    case UNWATCH => if |argv| == 1 then Done(db, OkReply()) else Unchanged(db, WrongArity)
    case _ => Unchanged(db, UnknownCommand)
  }

  // ------------------------------------------------------------------
  // Which keys a command writes

  /** Which arguments of a command are keys. A negative `last` is measured backwards. */
  datatype Position =
    | Range(first: nat, last: int, step: nat)
    | Numkeys(at: nat)
    | Everything
    | Nothing

  function PositionOf(name: Name): Position {
    match name
    case DEL => Range(1, -1, 1)
    case RENAME => Range(1, 2, 1)
    case RENAMENX => Range(1, 2, 1)
    case COPY => Range(1, 2, 1)
    case FLUSHALL => Everything
    case SET => Range(1, 1, 1)
    case LPUSH => Range(1, 1, 1)
    case RPUSH => Range(1, 1, 1)
    case LPUSHX => Range(1, 1, 1)
    case RPUSHX => Range(1, 1, 1)
    case LPOP => Range(1, 1, 1)
    case RPOP => Range(1, 1, 1)
    case RPOPLPUSH => Range(1, 2, 1)
    case LMOVE => Range(1, 2, 1)
    case LMPOP => Numkeys(1)
    case BLPOP => Range(1, -2, 1)
    case BRPOP => Range(1, -2, 1)
    case BLMOVE => Range(1, 2, 1)
    case BRPOPLPUSH => Range(1, 2, 1)
    case BLMPOP => Numkeys(2)
    case _ => Nothing
  }

  datatype Written = WrittenNothing | WrittenKeys(keys: seq<Bytes>) | WrittenEverything

  function RangeKeys(argv: seq<Bytes>, at: nat, last: int, step: nat): seq<Bytes>
    requires step > 0
    decreases |argv| - at
  {
    if at <= last && at < |argv| then [argv[at]] + RangeKeys(argv, at + step, last, step) else []
  }

  function NumkeysKeys(argv: seq<Bytes>, at: nat): seq<Bytes> {
    var count := if at < |argv| then ParseI64(argv[at]) else None;
    if count.None? || count.value <= 0 || |argv| <= at + 1 then []
    else argv[at + 1..if at + 1 + count.value <= |argv| then at + 1 + count.value else |argv|]
  }

  function WrittenBy(name: Name, argv: seq<Bytes>): Written {
    match PositionOf(name)
    case Nothing => WrittenNothing
    case Everything => WrittenEverything
    case Numkeys(at) => WrittenKeys(NumkeysKeys(argv, at))
    case Range(first, last, step) =>
      if step == 0 then WrittenNothing
      else WrittenKeys(RangeKeys(argv, first, if last < 0 then |argv| + last else last, step))
  }

  /** The table lookup as the server runs it, collecting keys in a loop. */
  method WrittenKeysOf(name: Name, argv: seq<Bytes>) returns (w: Written)
    ensures w == WrittenBy(name, argv)
  {
    hide RangeKeys, NumkeysKeys;
    var position := PositionOf(name);
    match position
    case Nothing => return WrittenNothing;
    case Everything => return WrittenEverything;
    case Numkeys(at) => return WrittenKeys(NumkeysKeys(argv, at));
    case Range(first, last, step) =>
      var keys := CollectKeys(argv, first, if last < 0 then |argv| + last else last, step);
      return WrittenKeys(keys);
  }

  method CollectKeys(argv: seq<Bytes>, first: nat, end: int, step: nat) returns (keys: seq<Bytes>)
    requires step > 0
    ensures keys == RangeKeys(argv, first, end, step)
  {
    keys := [];
    var at := first;
    while at <= end && at < |argv|
      invariant keys + RangeKeys(argv, at, end, step) == RangeKeys(argv, first, end, step)
      decreases |argv| - at
    {
      KeysJoined(keys, argv[at], RangeKeys(argv, at + step, end, step));
      keys := keys + [argv[at]];
      at := at + step;
    }
  }

  lemma KeysJoined(keys: seq<Bytes>, key: Bytes, rest: seq<Bytes>)
    ensures keys + ([key] + rest) == (keys + [key]) + rest
  {
  }

  predicate DeniesOom(name: Name) {
    name in {RENAME, RENAMENX, COPY, SET, LPUSH, RPUSH, LPUSHX, RPUSHX, RPOPLPUSH, LMOVE, BLMOVE, BRPOPLPUSH}
  }
}
