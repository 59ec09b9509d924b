/** The event loop's bookkeeping, as plain values: connections, parked commands, ready keys, the
    answers sent and the history of what ran. */
module Serving {
  import opened ByteStrings
  import opened Resp
  import opened Commands
  import opened CommandLaws
  import M = Meanings

  /** A parked command: which keys should wake it, when to give up and what to say then; for the record,
      also when it parked. */
  datatype Waiter = Waiter(id: nat, keys: seq<Bytes>, deadline: Option<int>, argv: seq<Bytes>, onTimeout: Reply, since: int)

  datatype Transaction = Transaction(queued: seq<seq<Bytes>>, failed: bool)

  /** A connection. For the record, `heard` is every byte received from it and `accepted` lists every
      command taken from those. */
  datatype Conn = Conn(
    heard: Bytes, rbuf: Bytes, wantClose: bool, blocked: bool, inExec: bool,
    transaction: Option<Transaction>, accepted: seq<seq<Bytes>>)

  /** A command that ran to completion, with its reply. */
  datatype Ran = Ran(argv: seq<Bytes>, reply: Reply)

  /** One frame sent to a client: the command it answers (none for a framing error), the commands
      that ran to produce it (a whole queue for EXEC), and the reply. */
  datatype Answer = Answer(id: nat, argv: seq<Bytes>, ran: seq<Ran>, reply: Reply)

  /** What the outside world does before one command: the clock, the keys that expire, the keys that
      are evicted, and whether memory ran out for good. */
  datatype Gate = Gate(now: int, expired: set<Bytes>, evicted: set<Bytes>, outOfMemory: bool)

  /** The keys that go away before a command. */
  function Gone(gate: Gate): set<Bytes> {
    gate.expired + gate.evicted
  }

  /** One thing that happened: keys went away, some of them evicted; a command ran; a client began to
      watch keys, or stopped watching all it watched. */
  datatype Event =
    | Vanished(before: Db, gone: set<Bytes>, evicted: set<Bytes>)
    | Executed(name: Name, argv: seq<Bytes>, c: Context, before: Db, after: Db, reply: Reply)
    | BeganWatch(id: nat, keys: set<Bytes>)
    | EndedWatch(id: nat)

  // ------------------------------------------------------------------
  // History

  /** A command with the gate's verdict: refused for lack of memory, or run. */
  function Attempt(name: Name, argv: seq<Bytes>, db: Db, c: Context, outOfMemory: bool): Outcome
    requires argv != []
  {
    if outOfMemory && DeniesOom(name) then Unchanged(db, OutOfMemory) else Run(name, argv, db, c)
  }

  /** The log leads from one keyspace to the other, each step what the event says. */
  ghost predicate History(log: seq<Event>, start: Db, db: Db) {
    if log == [] then db == start
    else
      var e, earlier := log[|log| - 1], log[..|log| - 1];
      match e
      case Vanished(before, gone, evicted) => evicted <= gone <= before.Keys && db == before - gone && History(earlier, start, before)
      case Executed(name, argv, c, before, after, reply) =>
        && db == after
        && argv != []
        && (Done(after, reply) == Run(name, argv, before, c) || (DeniesOom(name) && after == before && reply == Refused(OutOfMemory)))
        && name == NameOf(argv[0])
        && History(earlier, start, before)
      case _ => History(earlier, start, db)
  }

  /** The events that concern watching. */
  function WatchLog(log: seq<Event>): seq<Event> {
    if log == [] then []
    else
      var e := log[|log| - 1];
      WatchLog(log[..|log| - 1]) + if e.BeganWatch? || e.EndedWatch? then [e] else []
  }

  function RanOf(log: seq<Event>): seq<Ran> {
    if log == [] then []
    else
      var e := log[|log| - 1];
      RanOf(log[..|log| - 1]) + if e.Executed? then [Ran(e.argv, e.reply)] else []
  }

  function RanIn(answers: seq<Answer>): seq<Ran> {
    if answers == [] then [] else RanIn(answers[..|answers| - 1]) + answers[|answers| - 1].ran
  }

  lemma AppendEvent(log: seq<Event>, e: Event)
    ensures RanOf(log + [e]) == RanOf(log) + if e.Executed? then [Ran(e.argv, e.reply)] else []
    ensures WatchLog(log + [e]) == WatchLog(log) + if e.BeganWatch? || e.EndedWatch? then [e] else []
    ensures forall start, db :: History(log + [e], start, db) ==
              match e
              case Vanished(before, gone, evicted) => evicted <= gone <= before.Keys && db == before - gone && History(log, start, before)
              case Executed(name, argv, c, before, after, reply) =>
                && db == after && argv != []
                && (Done(after, reply) == Run(name, argv, before, c) || (DeniesOom(name) && after == before && reply == Refused(OutOfMemory)))
                && name == NameOf(argv[0]) && History(log, start, before)
              case _ => History(log, start, db)
  {
    assert (log + [e])[..|log + [e]| - 1] == log;
  }

  lemma AppendAnswer(answers: seq<Answer>, a: Answer)
    ensures RanIn(answers + [a]) == RanIn(answers) + a.ran
    ensures forall id :: AnsweredTo(answers + [a], id)
                         == AnsweredTo(answers, id) + if a.id == id && a.argv != [] then [a.argv] else []
  {
    assert (answers + [a])[..|answers + [a]| - 1] == answers;
  }

  /** The commands of one client that were answered, in the order of the answers. */
  function AnsweredTo(answers: seq<Answer>, id: nat): seq<seq<Bytes>> {
    if answers == [] then []
    else
      var a := answers[|answers| - 1];
      AnsweredTo(answers[..|answers| - 1], id) + if a.id == id && a.argv != [] then [a.argv] else []
  }

  /** Copies of `v` handed to clients by these commands. */
  ghost function Handed(ran: seq<Ran>, v: Bytes): nat {
    if ran == [] then 0
    else
      var r := ran[|ran| - 1];
      Handed(ran[..|ran| - 1], v) + if r.argv == [] then 0 else HandedBy(NameOf(r.argv[0]), r.reply, v)
  }

  ghost function Added(log: seq<Event>, v: Bytes): nat {
    if log == [] then 0
    else
      var e := log[|log| - 1];
      Added(log[..|log| - 1], v) + if e.Executed? then AddedBy(e.name, e.argv, e.before, e.reply, v) else 0
  }

  /** Copies of `v` destroyed: by SET, DEL, RENAME, COPY and FLUSHALL, or because a key went away. */
  ghost function Lost(log: seq<Event>, v: Bytes): nat {
    if log == [] then 0
    else
      var e := log[|log| - 1];
      Lost(log[..|log| - 1], v) +
      match e
      case Vanished(before, gone, _) => Stock(Only(before, gone), v)
      case Executed(name, argv, _, before, after, reply) => LostBy(name, argv, before, after, reply, v)
      case _ => 0
  }

  lemma {:induction false} HistoryKeepsOk(log: seq<Event>, start: Db, db: Db)
    requires History(log, start, db) && DbOk(start)
    ensures DbOk(db)
    decreases |log|
  {
    hide Run, Message;
    if log != [] {
      var e, earlier := log[|log| - 1], log[..|log| - 1];
      HistoryKeepsOk(earlier, start, if e.Vanished? || e.Executed? then e.before else db);
      if e.Executed? && Done(e.after, e.reply) == Run(e.name, e.argv, e.before, e.c) {
        RunLawful(e.name, e.argv, e.before, e.c, []);
      }
    }
  }

  /** Conservation over whole runs: whatever ran, the copies of a value now in the lists, plus those
      handed to clients, plus those destroyed, are the copies there at the start plus those pushed. */
  lemma {:induction false} Conservation(log: seq<Event>, start: Db, db: Db, v: Bytes)
    requires History(log, start, db) && DbOk(start)
    ensures Stock(db, v) + Handed(RanOf(log), v) + Lost(log, v) == Stock(start, v) + Added(log, v)
    decreases |log|
  {
    hide Run, Message, Stock, HandedBy, LostBy, AddedBy, NameOf;
    if log != [] {
      var e, earlier := log[|log| - 1], log[..|log| - 1];
      var before := if e.Vanished? || e.Executed? then e.before else db;
      Conservation(earlier, start, before, v);
      HistoryKeepsOk(earlier, start, before);
      if e.BeganWatch? || e.EndedWatch? {
        assert RanOf(log) == RanOf(earlier);
      } else if e.Vanished? {
        StockSplit(e.before, e.gone, v);
        assert RanOf(log) == RanOf(earlier);
      } else {
        HandedAppend(RanOf(earlier), Ran(e.argv, e.reply), v);
        if Done(e.after, e.reply) == Run(e.name, e.argv, e.before, e.c) {
          RunLawful(e.name, e.argv, e.before, e.c, v);
        } else {
          RefusalMovesNothing(e.name, e.argv, e.before, v);
        }
      }
    }
  }

  lemma HandedAppend(ran: seq<Ran>, r: Ran, v: Bytes)
    requires r.argv != []
    ensures Handed(ran + [r], v) == Handed(ran, v) + HandedBy(NameOf(r.argv[0]), r.reply, v)
  {
    assert (ran + [r])[..|ran + [r]| - 1] == ran;
  }

  lemma RefusalMovesNothing(name: Name, argv: seq<Bytes>, db: Db, v: Bytes)
    requires DeniesOom(name)
    ensures var reply := Refused(OutOfMemory);
            && HandedBy(name, reply, v) == 0 && AddedBy(name, argv, db, reply, v) == 0
            && LostBy(name, argv, db, db, reply, v) == 0
  {
    hide Message;
  }

  // ------------------------------------------------------------------
  // The registry of parked commands

  predicate Waiting(ws: seq<Waiter>, id: nat) {
    exists i | 0 <= i < |ws| :: ws[i].id == id
  }

  predicate Distinct(ws: seq<Waiter>) {
    forall i, j | 0 <= i < j < |ws| :: ws[i].id != ws[j].id
  }

  /** A parked command belongs to an open, blocked connection and is the last one it accepted; it gives up
      when its own timeout argument says. */
  predicate Parked(w: Waiter, conns: map<nat, Conn>, timeouts: Bytes -> Timeout) {
    && w.argv != []
    && WouldWait(NameOf(w.argv[0]), w.argv, timeouts, w.keys, w.onTimeout)
    && M.WaitsUntil(w.argv, timeouts, w.since, w.deadline)
    && w.id in conns
    && conns[w.id].blocked
    && conns[w.id].accepted != []
    && conns[w.id].accepted[|conns[w.id].accepted| - 1] == w.argv
  }

  /** Every parked command is parked properly, no client is parked twice, and a blocked connection
      that has not hung up is parked. `others` are commands lifted out of the registry for now. */
  ghost predicate Registered(ws: seq<Waiter>, others: seq<Waiter>, conns: map<nat, Conn>, timeouts: Bytes -> Timeout) {
    && Distinct(ws + others)
    && (forall w | w in ws + others :: Parked(w, conns, timeouts))
    && (forall id | id in conns && conns[id].blocked && !conns[id].wantClose :: Waiting(ws + others, id))
  }

  /** Every key that a waiter waits on and that holds a list is among `keys`. */
  ghost predicate Awake(ws: seq<Waiter>, keys: seq<Bytes>, db: Db) {
    forall w, k | w in ws && k in w.keys && IsList(db, k) :: k in keys
  }

  /** A connection's commands have been answered in order, one answer each; a blocked one still owes
      the answer to its last. */
  predicate Settled(c: Conn, answered: seq<seq<Bytes>>) {
    if c.blocked then c.accepted != [] && answered == c.accepted[..|c.accepted| - 1]
    else answered == c.accepted
  }

  /** A queue never holds a command that MULTI runs at once, so replaying it runs no transaction. */
  predicate QueueOk(t: Option<Transaction>) {
    t.Some? ==> forall q | q in t.value.queued :: q != [] && !IsControl(NameOf(q[0])) && NameOf(q[0]) != UNKNOWN
  }

  /** The commands that an open transaction does not hold back. */
  predicate IsControl(name: Name) {
    name in {MULTI, EXEC, DISCARD, WATCH, RESET, QUIT}
  }

  /** An accepted MULTI. */
  predicate Opens(a: Answer) {
    a.argv != [] && Spells(a.argv[0], "MULTI") && !a.reply.Error?
  }

  /** What ends a transaction: an EXEC of the right form, an accepted DISCARD, a RESET. */
  predicate Closes(a: Answer) {
    && a.argv != []
    && (|| (Spells(a.argv[0], "EXEC") && |a.argv| == 1)
        || (Spells(a.argv[0], "DISCARD") && !a.reply.Error?)
        || Spells(a.argv[0], "RESET"))
  }

  predicate Unknown(argv: seq<Bytes>) {
    argv != [] && NameOf(argv[0]) == UNKNOWN
  }

  /** A command that an open transaction puts in its queue. */
  predicate Queues(argv: seq<Bytes>) {
    argv != [] && NameOf(argv[0]) != UNKNOWN && !IsControl(NameOf(argv[0]))
  }

  /** An open transaction after one more frame to its client. */
  function Gathered(t: Transaction, a: Answer): Transaction {
    if Unknown(a.argv) then t.(failed := true) else if Queues(a.argv) then t.(queued := t.queued + [a.argv]) else t
  }

  /** The transaction that the frames sent to a client tell of. */
  function TransactionOf(answers: seq<Answer>, id: nat): Option<Transaction> {
    if answers == [] then None
    else
      var t, a := TransactionOf(answers[..|answers| - 1], id), answers[|answers| - 1];
      if a.id != id then t
      else if Opens(a) then Some(Transaction([], false))
      else if t.None? || Closes(a) then None
      else Some(Gathered(t.value, a))
  }

  /** A client's transaction is what its frames tell of; a blocked client has none. */
  predicate Keeps(c: Conn, told: Option<Transaction>) {
    c.transaction == told && (c.blocked ==> told.None?)
  }

  ghost predicate ConnsOk(conns: map<nat, Conn>, answers: seq<Answer>, nextId: nat) {
    && (forall id | id in conns ::
          id <= nextId && !conns[id].inExec && QueueOk(conns[id].transaction)
          && Settled(conns[id], AnsweredTo(answers, id)) && Keeps(conns[id], TransactionOf(answers, id)))
    && (forall a | a in answers :: a.id <= nextId)
  }

  lemma {:induction false} NobodyAnswered(answers: seq<Answer>, id: nat)
    requires forall a | a in answers :: a.id != id
    ensures AnsweredTo(answers, id) == [] && TransactionOf(answers, id) == None
  {
    hide NameOf, Opens, Closes, Gathered;
    if answers != [] {
      var earlier := answers[..|answers| - 1];
      assert answers[|answers| - 1] in answers;
      assert forall a | a in earlier :: a in answers;
      NobodyAnswered(earlier, id);
    }
  }

  /** Changing a connection without answering it. */
  lemma ConnsPut(conns: map<nat, Conn>, answers: seq<Answer>, nextId: nat, id: nat, c: Conn)
    requires ConnsOk(conns, answers, nextId) && id in conns
    requires !c.inExec && QueueOk(c.transaction) && Settled(c, AnsweredTo(answers, id)) && Keeps(c, TransactionOf(answers, id))
    ensures ConnsOk(conns[id := c], answers, nextId)
  {
    hide QueueOk, Settled, AnsweredTo, Keeps, TransactionOf;
  }

  /** Changing a connection and answering it. */
  lemma ConnsAnswer(conns: map<nat, Conn>, answers: seq<Answer>, nextId: nat, c: Conn, a: Answer)
    requires ConnsOk(conns, answers, nextId) && a.id in conns
    requires !c.inExec && QueueOk(c.transaction)
    requires Settled(c, AnsweredTo(answers, a.id) + if a.argv != [] then [a.argv] else [])
    requires Keeps(c, TransactionOf(answers + [a], a.id))
    ensures ConnsOk(conns[a.id := c], answers + [a], nextId)
  {
    hide QueueOk, Keeps, TransactionOf;
    AppendAnswer(answers, a);
    forall id | id in conns && id != a.id
      ensures Settled(conns[id], AnsweredTo(answers + [a], id)) && TransactionOf(answers + [a], id) == TransactionOf(answers, id)
    {
      assert AnsweredTo(answers + [a], id) == AnsweredTo(answers, id) + [];
      TransactionNext(answers, a, id);
    }
  }

  lemma TransactionNext(answers: seq<Answer>, a: Answer, id: nat)
    ensures TransactionOf(answers + [a], id)
            == if a.id != id then TransactionOf(answers, id)
               else if Opens(a) then Some(Transaction([], false))
               else if TransactionOf(answers, id).None? || Closes(a) then None
               else Some(Gathered(TransactionOf(answers, id).value, a))
  {
    hide Opens, Closes, Gathered;
    assert (answers + [a])[..|answers|] == answers;
  }

  /** A frame for no command, or for one that opens nothing when nothing is open, leaves it so. */
  lemma TransactionLeft(answers: seq<Answer>, a: Answer)
    requires a.argv == [] || (TransactionOf(answers, a.id).None? && !Opens(a))
    ensures TransactionOf(answers + [a], a.id) == TransactionOf(answers, a.id)
  {
    TransactionNext(answers, a, a.id);
  }

  // ------------------------------------------------------------------
  // Signals

  function AllKeys(ws: seq<Waiter>): seq<Bytes> {
    if ws == [] then [] else ws[0].keys + AllKeys(ws[1..])
  }

  /** The keys, in order, that hold something a client can wait for. */
  function Rousing(keys: seq<Bytes>, db: Db): (r: seq<Bytes>)
    ensures forall k :: k in r <==> k in keys && (IsList(db, k) || IsZset(db, k))
  {
    if keys == [] then []
    else (if IsList(db, keys[0]) || IsZset(db, keys[0]) then [keys[0]] else []) + Rousing(keys[1..], db)
  }

  lemma NothingRouses(db: Db)
    ensures Rousing([], db) == []
  {
  }

  lemma {:induction false} RousingMore(keys: seq<Bytes>, key: Bytes, db: Db)
    ensures Rousing(keys + [key], db) == Rousing(keys, db) + if IsList(db, key) || IsZset(db, key) then [key] else []
    decreases |keys|
  {
    hide IsList, IsZset;
    if keys == [] {
      assert [] + [key] == [key] && [key][1..] == [];
    } else {
      assert (keys + [key])[0] == keys[0] && (keys + [key])[1..] == keys[1..] + [key];
      RousingMore(keys[1..], key, db);
      Joined(if IsList(db, keys[0]) || IsZset(db, keys[0]) then [keys[0]] else [], Rousing(keys[1..], db),
             if IsList(db, key) || IsZset(db, key) then [key] else []);
    }
  }

  lemma Joined(a: seq<Bytes>, b: seq<Bytes>, c: seq<Bytes>)
    ensures a + b + c == a + (b + c)
  {
  }

  function Signals(w: Written, db: Db, ws: seq<Waiter>): seq<Bytes> {
    match w
    case WrittenNothing => []
    case WrittenEverything => AllKeys(ws)
    case WrittenKeys(keys) => if ws == [] then [] else Rousing(keys, db)
  }

  /** A key that became a list is signalled, as long as anybody waits for anything. */
  lemma NewListsAreSignalled(name: Name, argv: seq<Bytes>, db: Db, c: Context, ws: seq<Waiter>, key: Bytes)
    requires DbOk(db) && argv != [] && ws != [] && Run(name, argv, db, c).Done?
    requires var r := Run(name, argv, db, c); IsList(r.db, key) && !IsList(db, key)
    ensures var r := Run(name, argv, db, c);
            !r.reply.Error? && key in Signals(WrittenBy(name, argv), r.db, ws)
  {
    hide Run, WrittenBy;
    var r := Run(name, argv, db, c);
    RunLawful(name, argv, db, c, []);
    assert !SameAt(db, r.db, key);
    assert Covered(WrittenBy(name, argv), key);
    if WrittenBy(name, argv).WrittenEverything? {
      OnlyFlushWritesEverything(name, argv, db, c);
    }
  }

  lemma OnlyFlushWritesEverything(name: Name, argv: seq<Bytes>, db: Db, c: Context)
    requires argv != [] && WrittenBy(name, argv).WrittenEverything?
    ensures Run(name, argv, db, c) == Done(map[], OkReply())
  {
    hide Ascii, RangeKeys, NumkeysKeys;
  }

  /** A command leaves every waiter awake, given the keys it signals; `ws` may leave out waiters
      lifted out of the registry. */
  lemma StaysAwake(name: Name, argv: seq<Bytes>, db: Db, c: Context, ws: seq<Waiter>, some: seq<Waiter>, keys: seq<Bytes>)
    requires DbOk(db) && argv != [] && Run(name, argv, db, c).Done?
    requires Awake(some, keys, db) && forall w | w in some :: w in ws
    ensures var r := Run(name, argv, db, c);
            Awake(some, keys + (if r.reply.Error? then [] else Signals(WrittenBy(name, argv), r.db, ws)), r.db)
  {
    hide Run, WrittenBy, Signals;
    var r := Run(name, argv, db, c);
    forall w, k | w in some && k in w.keys && IsList(r.db, k)
      ensures k in keys + (if r.reply.Error? then [] else Signals(WrittenBy(name, argv), r.db, ws))
    {
      if !IsList(db, k) {
        assert w in ws;
        NewListsAreSignalled(name, argv, db, c, ws, k);
      }
    }
  }

  // ------------------------------------------------------------------
  // Unread bytes

  ghost function Unread(conns: map<nat, Conn>): nat
    decreases |conns|
  {
    if conns == map[] then 0
    else
      var id :| id in conns;
      |conns[id].rbuf| + Unread(conns - {id})
  }

  lemma {:induction false} UnreadAt(conns: map<nat, Conn>, id: nat)
    requires id in conns
    ensures Unread(conns) == |conns[id].rbuf| + Unread(conns - {id})
    decreases |conns|
  {
    var k :| k in conns && Unread(conns) == |conns[k].rbuf| + Unread(conns - {k});
    if k != id {
      UnreadAt(conns - {k}, id);
      UnreadAt(conns - {id}, k);
      assert conns - {k} - {id} == conns - {id} - {k};
    }
  }

  lemma UnreadPut(conns: map<nat, Conn>, id: nat, c: Conn)
    requires id in conns
    ensures Unread(conns[id := c]) + |conns[id].rbuf| == Unread(conns) + |c.rbuf|
  {
    UnreadAt(conns, id);
    UnreadAt(conns[id := c], id);
    assert conns[id := c] - {id} == conns - {id};
  }

  // ------------------------------------------------------------------
  // Splitting the registry by deadline

  predicate Due(w: Waiter, now: int) {
    w.deadline.Some? && w.deadline.value <= now
  }

  function TimedOut(ws: seq<Waiter>, now: int): seq<Waiter> {
    if ws == [] then []
    else (if Due(ws[0], now) then [ws[0]] else []) + TimedOut(ws[1..], now)
  }

  function StillWaiting(ws: seq<Waiter>, now: int): seq<Waiter> {
    if ws == [] then []
    else (if Due(ws[0], now) then [] else [ws[0]]) + StillWaiting(ws[1..], now)
  }

  /** Part way through `all`: what was taken, what was kept, and what is still to look at. */
  ghost predicate Sifted(taken: seq<Waiter>, kept: seq<Waiter>, rest: seq<Waiter>, all: seq<Waiter>, now: int) {
    && taken + TimedOut(rest, now) == TimedOut(all, now)
    && kept + StillWaiting(rest, now) == StillWaiting(all, now)
  }

  lemma SiftStart(all: seq<Waiter>, now: int)
    ensures Sifted([], [], all, all, now)
  {
  }

  lemma Moved(before: seq<Waiter>, w: Waiter, after: seq<Waiter>)
    ensures before + ([w] + after) == before + [w] + after && [] + after == after
  {
  }

  lemma SiftOne(taken: seq<Waiter>, kept: seq<Waiter>, rest: seq<Waiter>, all: seq<Waiter>, now: int)
    requires Sifted(taken, kept, rest, all, now) && rest != []
    ensures Due(rest[0], now) ==> Sifted(taken + [rest[0]], kept, rest[1..], all, now)
    ensures !Due(rest[0], now) ==> Sifted(taken, kept + [rest[0]], rest[1..], all, now)
  {
    hide Due;
    var w, more := rest[0], rest[1..];
    Moved(taken, w, TimedOut(more, now));
    Moved(kept, w, StillWaiting(more, now));
    if Due(w, now) {
      assert TimedOut(rest, now) == [w] + TimedOut(more, now);
      assert StillWaiting(rest, now) == StillWaiting(more, now);
    } else {
      assert TimedOut(rest, now) == TimedOut(more, now);
      assert StillWaiting(rest, now) == [w] + StillWaiting(more, now);
    }
  }

  lemma SiftEnd(taken: seq<Waiter>, kept: seq<Waiter>, all: seq<Waiter>, now: int)
    requires Sifted(taken, kept, [], all, now)
    ensures taken == TimedOut(all, now) && kept == StillWaiting(all, now)
  {
    assert taken + [] == taken && kept + [] == kept;
  }

  function Without(ws: seq<Waiter>, id: nat): seq<Waiter> {
    if ws == [] then [] else (if ws[0].id == id then [] else [ws[0]]) + Without(ws[1..], id)
  }

  lemma {:induction false} SplitMembers(ws: seq<Waiter>, now: int)
    ensures forall w :: w in TimedOut(ws, now) <==> w in ws && Due(w, now)
    ensures forall w :: w in StillWaiting(ws, now) <==> w in ws && !Due(w, now)
    ensures |StillWaiting(ws, now)| + |TimedOut(ws, now)| == |ws|
  {
    hide Due;
    if ws != [] {
      SplitMembers(ws[1..], now);
      assert ws == [ws[0]] + ws[1..];
    }
  }

  lemma {:induction false} SplitDistinct(ws: seq<Waiter>, now: int)
    requires Distinct(ws)
    ensures Distinct(TimedOut(ws, now)) && Distinct(StillWaiting(ws, now))
  {
    hide Due;
    if ws != [] {
      DistinctTail(ws);
      SplitDistinct(ws[1..], now);
      SplitMembers(ws[1..], now);
      var due, rest := TimedOut(ws[1..], now), StillWaiting(ws[1..], now);
      PrependDistinct(due, ws[0]);
      PrependDistinct(rest, ws[0]);
    }
  }

  lemma DistinctTail(ws: seq<Waiter>)
    requires Distinct(ws) && ws != []
    ensures Distinct(ws[1..]) && forall w | w in ws[1..] :: w.id != ws[0].id
  {
    assert forall i | 0 <= i < |ws[1..]| :: ws[1..][i] == ws[i + 1];
  }

  lemma PrependDistinct(ws: seq<Waiter>, w: Waiter)
    requires Distinct(ws) && forall x | x in ws :: x.id != w.id
    ensures Distinct([w] + ws)
  {
    var s := [w] + ws;
    assert forall i | 0 < i < |s| :: s[i] == ws[i - 1];
  }

  lemma DisjointDistinct(a: seq<Waiter>, b: seq<Waiter>)
    requires Distinct(a) && Distinct(b) && forall x, y | x in a && y in b :: x.id != y.id
    ensures Distinct(a + b)
  {
    var s := a + b;
    assert forall i | 0 <= i < |s| :: if i < |a| then s[i] == a[i] && a[i] in a else s[i] == b[i - |a|] && b[i - |a|] in b;
  }

  lemma SplitByDeadline(ws: seq<Waiter>, now: int)
    requires Distinct(ws)
    ensures var due, rest := TimedOut(ws, now), StillWaiting(ws, now);
            && Distinct(rest + due)
            && (forall w :: w in ws <==> w in rest + due)
            && |rest| + |due| == |ws|
  {
    hide TimedOut, StillWaiting;
    SplitMembers(ws, now);
    SplitDistinct(ws, now);
    var due, rest := TimedOut(ws, now), StillWaiting(ws, now);
    forall x, y | x in rest && y in due ensures x.id != y.id {
      var i :| 0 <= i < |ws| && ws[i] == x;
      var j :| 0 <= j < |ws| && ws[j] == y;
      assert i < j || j < i;
    }
    DisjointDistinct(rest, due);
  }

  lemma {:induction false} WithoutLaw(ws: seq<Waiter>, id: nat)
    requires Distinct(ws)
    ensures var r := Without(ws, id);
            Distinct(r) && forall w :: w in r <==> w in ws && w.id != id
  {
    if ws != [] {
      DistinctTail(ws);
      WithoutLaw(ws[1..], id);
      assert ws == [ws[0]] + ws[1..];
      PrependDistinct(Without(ws[1..], id), ws[0]);
    }
  }

  // ------------------------------------------------------------------
  // Registry moves

  /** Lifting one command out of the registry, and putting it back. */
  lemma LiftOne(ws: seq<Waiter>, i: nat, conns: map<nat, Conn>, timeouts: Bytes -> Timeout)
    requires i < |ws|
    ensures Registered(ws[..i] + ws[i + 1..], [ws[i]], conns, timeouts) <==> Registered(ws, [], conns, timeouts)
  {
    hide Parked, Distinct, Waiting;
    var a, b := ws[..i] + ws[i + 1..] + [ws[i]], ws + [];
    assert b == ws;
    ToTheEnd(ws, i);
    assert (forall w | w in a :: Parked(w, conns, timeouts)) <==> forall w | w in b :: Parked(w, conns, timeouts);
  }

  /** Moving one waiter behind the others changes neither who waits nor whether each waits once. */
  lemma ToTheEnd(ws: seq<Waiter>, i: nat)
    requires i < |ws|
    ensures var a := ws[..i] + ws[i + 1..] + [ws[i]];
            && (forall w :: w in a <==> w in ws)
            && (forall id :: Waiting(a, id) <==> Waiting(ws, id))
            && (Distinct(a) <==> Distinct(ws))
  {
    hide Distinct, Waiting;
    var a := ws[..i] + ws[i + 1..] + [ws[i]];
    Reordered(ws, i, a);
    MembersWait(a, ws);
    MembersWait(ws, a);
    if Distinct(ws) { StaysDistinct(ws, a, i); }
    if Distinct(a) { WasDistinct(ws, a, i); }
  }

  lemma Reordered(ws: seq<Waiter>, i: nat, a: seq<Waiter>)
    requires i < |ws| && a == ws[..i] + ws[i + 1..] + [ws[i]]
    ensures |a| == |ws|
    ensures forall j | 0 <= j < |ws| :: ws[j] == a[AtEnd(|ws|, i, j)]
    ensures forall j | 0 <= j < |ws| :: a[j] == ws[FromEnd(|ws|, i, j)]
  {
    hide AtEnd, FromEnd;
    forall j | 0 <= j < |ws| ensures ws[j] == a[AtEnd(|ws|, i, j)] && a[j] == ws[FromEnd(|ws|, i, j)] {
      ReorderedAt(ws, i, j);
    }
  }

  lemma ReorderedAt(ws: seq<Waiter>, i: nat, j: nat)
    requires i < |ws| && j < |ws|
    ensures var a := ws[..i] + ws[i + 1..] + [ws[i]];
            |a| == |ws| && ws[j] == a[AtEnd(|ws|, i, j)] && a[j] == ws[FromEnd(|ws|, i, j)]
  {
    var left, right := ws[..i], ws[i + 1..];
    var rest := left + right;
    assert |left| == i && |right| == |ws| - 1 - i;
    var k := AtEnd(|ws|, i, j);
    if k < |rest| { assert rest[k] == if k < i then left[k] else right[k - i]; }
    if j < |rest| { assert rest[j] == if j < i then left[j] else right[j - i]; }
  }

  lemma StaysDistinct(ws: seq<Waiter>, a: seq<Waiter>, i: nat)
    requires i < |ws| == |a| && Distinct(ws) && forall j | 0 <= j < |ws| :: a[j] == ws[FromEnd(|ws|, i, j)]
    ensures Distinct(a)
  {
    forall j, k | 0 <= j < k < |a| ensures a[j].id != a[k].id {
      var x, y := FromEnd(|ws|, i, j), FromEnd(|ws|, i, k);
      assert x < y || y < x;
    }
  }

  lemma WasDistinct(ws: seq<Waiter>, a: seq<Waiter>, i: nat)
    requires i < |ws| == |a| && Distinct(a) && forall j | 0 <= j < |ws| :: ws[j] == a[AtEnd(|ws|, i, j)]
    ensures Distinct(ws)
  {
    forall j, k | 0 <= j < k < |ws| ensures ws[j].id != ws[k].id {
      var x, y := AtEnd(|ws|, i, j), AtEnd(|ws|, i, k);
      assert x < y || y < x;
    }
  }

  /** Where the waiter at `j` stands once the one at `i` has gone to the end, and where it came from. */
  function AtEnd(n: nat, i: nat, j: nat): (k: nat)
    requires i < n && j < n
    ensures k < n
  {
    if j < i then j else if j == i then n - 1 else j - 1
  }

  function FromEnd(n: nat, i: nat, j: nat): (k: nat)
    requires i < n && j < n
    ensures k < n
  {
    if j < i then j else if j == n - 1 then i else j + 1
  }

  lemma MembersWait(a: seq<Waiter>, b: seq<Waiter>)
    requires forall j | 0 <= j < |a| :: a[j] in b
    ensures (forall w | w in a :: w in b) && forall id | Waiting(a, id) :: Waiting(b, id)
  {
    forall id | Waiting(a, id) ensures Waiting(b, id) {
      var j :| 0 <= j < |a| && a[j].id == id;
      assert a[j] in b;
    }
  }

  /** Releasing a lifted command: its connection is no longer blocked, or has hung up. */
  lemma Release(ws: seq<Waiter>, w: Waiter, others: seq<Waiter>, conns: map<nat, Conn>, after: map<nat, Conn>, timeouts: Bytes -> Timeout)
    requires Registered(ws, [w] + others, conns, timeouts)
    requires w.id in conns && after.Keys == conns.Keys
    requires forall id | id in conns && id != w.id :: after[id] == conns[id]
    requires !after[w.id].blocked || after[w.id].wantClose
    ensures Registered(ws, others, after, timeouts)
  {
    hide WouldWait, NameOf;
    var a, b := ws + ([w] + others), ws + others;
    assert forall j | 0 <= j < |b| :: b[j] == a[if j < |ws| then j else j + 1];
    assert a[|ws|] == w;
    forall x | x in b ensures Parked(x, after, timeouts) {
      var j :| 0 <= j < |b| && b[j] == x;
      assert a[if j < |ws| then j else j + 1] == x;
      assert x in a && x.id != w.id;
    }
    forall id | id in after && after[id].blocked && !after[id].wantClose ensures Waiting(b, id) {
      assert id != w.id && Waiting(a, id);
      var j :| 0 <= j < |a| && a[j].id == id;
      assert b[if j < |ws| then j else j - 1] == a[j];
    }
  }

  /** Changing a connection in ways the registry does not look at. */
  lemma Untouched(ws: seq<Waiter>, others: seq<Waiter>, conns: map<nat, Conn>, id: nat, c: Conn, timeouts: Bytes -> Timeout)
    requires Registered(ws, others, conns, timeouts) && id in conns
    requires c.blocked == conns[id].blocked && (conns[id].wantClose ==> c.wantClose)
    requires c.blocked ==> c.accepted == conns[id].accepted
    ensures Registered(ws, others, conns[id := c], timeouts)
  {
    hide WouldWait, NameOf;
  }

  /** Parking a connection that was not parked. */
  lemma ParkOne(ws: seq<Waiter>, w: Waiter, conns: map<nat, Conn>, c: Conn, timeouts: Bytes -> Timeout)
    requires Registered(ws, [], conns, timeouts) && w.id in conns && !conns[w.id].blocked && c.blocked
    requires Parked(w, conns[w.id := c], timeouts)
    ensures Registered(ws + [w], [], conns[w.id := c], timeouts)
  {
    hide WouldWait, NameOf;
    assert ws + [] == ws && ws + [w] + [] == ws + [w];
    forall x | x in ws ensures x.id != w.id && Parked(x, conns[w.id := c], timeouts) {
      assert x in ws + [];
      assert Parked(x, conns, timeouts);
    }
    forall id | id in conns && id != w.id && conns[id].blocked && !conns[id].wantClose ensures Waiting(ws + [w], id) {
      assert Waiting(ws, id);
      var j :| 0 <= j < |ws| && ws[j].id == id;
      assert (ws + [w])[j].id == id;
    }
    assert (ws + [w])[|ws|].id == w.id;
  }

  /** `part` is what is left of `whole` after taking some elements out. */
  predicate Thinned(part: seq<Waiter>, whole: seq<Waiter>)
    decreases |whole|
  {
    if whole == [] then part == []
    else
      var last, earlier := whole[|whole| - 1], whole[..|whole| - 1];
      || (part != [] && part[|part| - 1] == last && Thinned(part[..|part| - 1], earlier))
      || Thinned(part, earlier)
  }

  lemma ThinnedStep(part: seq<Waiter>, whole: seq<Waiter>, w: Waiter)
    requires Thinned(part, whole)
    ensures Thinned(part + [w], whole + [w]) && Thinned(part, whole + [w])
  {
    assert (whole + [w])[..|whole|] == whole && (part + [w])[..|part|] == part;
  }

  // ------------------------------------------------------------------
  // Oldest first

  /** A blocking pop that waits on `q` alone. */
  predicate PopsOnly(w: Waiter, q: Bytes) {
    w.argv != [] && NameOf(w.argv[0]) in {BLPOP, BRPOP} && w.keys == [q]
  }

  /** No parked move would push onto `q`. */
  predicate NoMoveInto(ws: seq<Waiter>, q: Bytes) {
    forall w | w in ws && w.argv != [] && IsMove(NameOf(w.argv[0])) && |w.argv| > 2 :: w.argv[2] != q
  }

  predicate Open(w: Waiter, conns: map<nat, Conn>) {
    w.id in conns && !conns[w.id].wantClose
  }

  /** A client waiting on `q` alone is owed `q`'s next value before any later one. */
  ghost predicate Contends(all: seq<Waiter>, i: nat, conns: map<nat, Conn>, q: Bytes)
    requires i < |all|
  {
    PopsOnly(all[i], q) && NoMoveInto(all, q) && Open(all[i], conns)
  }

  /** What a pass has established once it has visited `v` waiters: nobody visited was passed over for
      a key that still holds a list, and nobody was served ahead of an earlier contender. */
  ghost predicate ServedInOrder(all: seq<Waiter>, v: nat, conns: map<nat, Conn>, taken: seq<Bytes>, given: set<nat>, db: Db)
    requires v <= |all|
  {
    && (forall i, q | 0 <= i < v && Contends(all, i, conns, q) && q in taken && IsList(db, q) :: all[i].id in given)
    && (forall i, j, q | 0 <= i < j < v && Contends(all, i, conns, q) && PopsOnly(all[j], q) && all[j].id in given ::
          all[i].id in given)
    && (forall j | v <= j < |all| :: all[j].id !in given)
  }

  lemma OrderStep(all: seq<Waiter>, v: nat, conns: map<nat, Conn>, taken: seq<Bytes>, given: set<nat>,
                  db: Db, after: Db, added: bool)
    requires v < |all| && Distinct(all) && ServedInOrder(all, v, conns, taken, given, db)
    requires forall q | IsList(after, q) && NoMoveInto(all, q) :: IsList(db, q)
    requires forall q | Contends(all, v, conns, q) && q in taken && IsList(after, q) :: added
    requires forall q | added && PopsOnly(all[v], q) :: q in taken && IsList(db, q)
    ensures ServedInOrder(all, v + 1, conns, taken, given + (if added then {all[v].id} else {}), after)
  {
    hide PopsOnly, NoMoveInto, Open;
  }

  /** What a retry does to the order, whichever way it ends. */
  lemma RetryOrder(all: seq<Waiter>, w: Waiter, timeouts: Bytes -> Timeout, db: Db, gone: set<Bytes>, c: Context, outOfMemory: bool)
    requires w in all && DbOk(db) && w.argv != [] && !c.inExec && c.timeouts == timeouts
    requires WouldWait(NameOf(w.argv[0]), w.argv, timeouts, w.keys, w.onTimeout)
    ensures match Attempt(NameOf(w.argv[0]), w.argv, db - gone, c, outOfMemory)
            case Done(after, reply) =>
              && (forall q | IsList(after, q) && NoMoveInto(all, q) :: IsList(db, q))
              && (forall q | PopsOnly(w, q) && NoMoveInto(all, q) && IsList(after, q) :: !reply.Error?)
              && (forall q | !reply.Error? && PopsOnly(w, q) :: IsList(db, q))
            case Park(keys, _, _) => keys == w.keys
  {
    hide Run, Message, NameOf;
    var name, base := NameOf(w.argv[0]), db - gone;
    assert forall k | IsList(base, k) :: IsList(db, k) && base[k] == db[k];
    var o := Attempt(name, w.argv, base, c, outOfMemory);
    if o.Park? {
      WaitsAlike(name, w.argv, base, c);
    } else if Run(name, w.argv, base, c).Done? {
      WaitersOnlyShrink(name, w.argv, base, c);
      forall q | PopsOnly(w, q) && NoMoveInto(all, q) && IsList(o.db, q) ensures !o.reply.Error? {
        PopIsServed(name, w.argv, q, w.onTimeout, base, c);
      }
      forall q | !o.reply.Error? && PopsOnly(w, q) ensures IsList(db, q) {
        PopGivenMeansList(name, w.argv, q, w.onTimeout, base, c);
      }
    }
  }

  lemma AwakeSub(ws: seq<Waiter>, part: seq<Waiter>, keys: seq<Bytes>, more: seq<Bytes>, db: Db)
    requires Awake(ws, keys, db) && (forall w | w in part :: w in ws) && (forall k | k in keys :: k in more)
    ensures Awake(part, more, db)
  {
  }

  /** A waiter none of whose keys was taken needs no waking by the taken keys. */
  lemma AwakeSkip(ws: seq<Waiter>, w: Waiter, taken: seq<Bytes>, ready: seq<Bytes>, db: Db)
    requires Awake(ws, ready, db) && Awake([w], taken + ready, db) && forall k | k in w.keys :: k !in taken
    ensures Awake(ws + [w], ready, db)
  {
    assert w in [w];
  }

  /** Waiters parked on nothing that exists are awake whatever is ready. */
  lemma AwakeNone(ws: seq<Waiter>, w: Waiter, ready: seq<Bytes>, db: Db)
    requires Awake(ws, ready, db) && forall k | k in w.keys :: k !in db
    ensures Awake(ws + [w], ready, db)
  {
  }

  lemma ParkedFacts(w: Waiter, conns: map<nat, Conn>, timeouts: Bytes -> Timeout)
    requires Parked(w, conns, timeouts)
    ensures w.argv != [] && w.id in conns && conns[w.id].blocked
    ensures WouldWait(NameOf(w.argv[0]), w.argv, timeouts, w.keys, w.onTimeout)
    ensures conns[w.id].accepted != [] && conns[w.id].accepted[|conns[w.id].accepted| - 1] == w.argv
  {
  }

  lemma RegisteredFacts(ws: seq<Waiter>, others: seq<Waiter>, conns: map<nat, Conn>, timeouts: Bytes -> Timeout)
    requires Registered(ws, others, conns, timeouts)
    ensures Distinct(ws + others) && forall w | w in ws + others :: Parked(w, conns, timeouts)
  {
  }

  /** No client is parked twice; a parked one is blocked; a blocked one that has not hung up is parked
      for the last command it sent. */
  lemma WaitingFacts(ws: seq<Waiter>, conns: map<nat, Conn>, timeouts: Bytes -> Timeout, id: nat)
    requires Registered(ws, [], conns, timeouts) && id in conns
    ensures Distinct(ws) && (Waiting(ws, id) ==> conns[id].blocked)
    ensures conns[id].blocked && !conns[id].wantClose ==>
              conns[id].accepted != [] && exists w | w in ws :: w.id == id && w.argv == conns[id].accepted[|conns[id].accepted| - 1]
  {
    hide WouldWait, NameOf;
    assert ws + [] == ws;
    if Waiting(ws, id) {
      var i :| 0 <= i < |ws| && ws[i].id == id;
      assert ws[i] in ws;
      assert Parked(ws[i], conns, timeouts);
    }
  }

  // ------------------------------------------------------------------
  // Several passes

  lemma {:induction false} UnreadSame(a: map<nat, Conn>, b: map<nat, Conn>)
    requires a.Keys == b.Keys && forall id | id in a :: a[id].rbuf == b[id].rbuf
    ensures Unread(a) == Unread(b)
    decreases |a|
  {
    if a == map[] {
      assert b == map[];
    } else {
      var id :| id in a && Unread(a) == |a[id].rbuf| + Unread(a - {id});
      UnreadSame(a - {id}, b - {id});
      UnreadAt(b, id);
    }
  }

  lemma {:induction false} ThinnedLength(part: seq<Waiter>, whole: seq<Waiter>)
    requires Thinned(part, whole)
    ensures |part| <= |whole|
    decreases |whole|
  {
    if whole != [] {
      var earlier := whole[..|whole| - 1];
      if Thinned(part, earlier) { ThinnedLength(part, earlier); } else { ThinnedLength(part[..|part| - 1], earlier); }
    }
  }

  lemma {:induction false} ThinnedTransitive(a: seq<Waiter>, b: seq<Waiter>, c: seq<Waiter>)
    requires Thinned(a, b) && Thinned(b, c)
    ensures Thinned(a, c)
    decreases |c|
  {
    if c != [] {
      var earlier := c[..|c| - 1];
      if Thinned(b, earlier) {
        ThinnedTransitive(a, b, earlier);
      } else {
        var b' := b[..|b| - 1];
        if Thinned(a, b') {
          ThinnedTransitive(a, b', earlier);
        } else {
          ThinnedTransitive(a[..|a| - 1], b', earlier);
        }
      }
    }
  }

  /** Thinning a list thins every beginning of it. */
  lemma {:induction false} ThinnedBeginning(part: seq<Waiter>, whole: seq<Waiter>, n: nat) returns (k: nat)
    requires Thinned(part, whole) && n <= |whole|
    ensures k <= |part| && Thinned(part[..k], whole[..n])
    decreases |whole|
  {
    if n == |whole| {
      assert part[..|part|] == part && whole[..n] == whole;
      k := |part|;
    } else {
      var earlier := whole[..|whole| - 1];
      assert earlier[..n] == whole[..n];
      if Thinned(part, earlier) {
        k := ThinnedBeginning(part, earlier, n);
      } else {
        k := ThinnedBeginning(part[..|part| - 1], earlier, n);
        assert part[..|part| - 1][..k] == part[..k];
      }
    }
  }

  lemma {:induction false} ThinnedSelf(ws: seq<Waiter>)
    ensures Thinned(ws, ws)
    decreases |ws|
  {
    if ws != [] {
      ThinnedSelf(ws[..|ws| - 1]);
    }
  }

  /** The timeout replies owed to the due waiters whose clients are still there. */
  function TimeoutAnswers(due: seq<Waiter>, conns: map<nat, Conn>): seq<Answer> {
    if due == [] then []
    else
      (if Open(due[0], conns) then [Answer(due[0].id, due[0].argv, [], due[0].onTimeout)] else [])
      + TimeoutAnswers(due[1..], conns)
  }

  /** Splitting off the due waiters leaves everybody registered. */
  lemma SplitRegistered(ws: seq<Waiter>, now: int, conns: map<nat, Conn>, timeouts: Bytes -> Timeout)
    requires Registered(ws, [], conns, timeouts)
    ensures Registered(StillWaiting(ws, now), TimedOut(ws, now), conns, timeouts)
  {
    hide Parked;
    assert ws + [] == ws;
    SplitByDeadline(ws, now);
    var all := StillWaiting(ws, now) + TimedOut(ws, now);
    forall id | id in conns && conns[id].blocked && !conns[id].wantClose ensures Waiting(all, id) {
      var i :| 0 <= i < |ws| && ws[i].id == id;
      assert ws[i] in all;
    }
  }

  lemma AwakeSplit(ws: seq<Waiter>, now: int, ready: seq<Bytes>, db: Db)
    requires Awake(ws, ready, db)
    ensures Awake(StillWaiting(ws, now), ready, db)
  {
    SplitMembers(ws, now);
  }

  /** A connection that goes away takes its registrations with it. */
  lemma ForgetOne(ws: seq<Waiter>, id: nat, conns: map<nat, Conn>, timeouts: Bytes -> Timeout)
    requires Registered(ws, [], conns, timeouts)
    ensures Registered(Without(ws, id), [], conns - {id}, timeouts)
  {
    hide WouldWait, NameOf;
    assert ws + [] == ws && Without(ws, id) + [] == Without(ws, id);
    WithoutLaw(ws, id);
    forall w | w in Without(ws, id) ensures Parked(w, conns - {id}, timeouts) {
      assert Parked(w, conns, timeouts);
    }
    forall k | k in conns - {id} && conns[k].blocked && !conns[k].wantClose ensures Waiting(Without(ws, id), k) {
      var i :| 0 <= i < |ws| && ws[i].id == k;
      assert ws[i] in Without(ws, id);
    }
  }

  lemma AwakeForget(ws: seq<Waiter>, id: nat, ready: seq<Bytes>, db: Db)
    requires Distinct(ws) && Awake(ws, ready, db)
    ensures Awake(Without(ws, id), ready, db)
  {
    WithoutLaw(ws, id);
  }

  /** A connection that has just been accepted. */
  function FreshConn(): Conn {
    Conn([], [], false, false, false, None, [])
  }

  lemma ConnectOne(ws: seq<Waiter>, id: nat, c: Conn, conns: map<nat, Conn>, timeouts: Bytes -> Timeout)
    requires Registered(ws, [], conns, timeouts) && id !in conns && !c.blocked
    ensures Registered(ws, [], conns[id := c], timeouts)
  {
    hide WouldWait, NameOf;
  }
}
