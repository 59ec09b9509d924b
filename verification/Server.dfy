/** The server: commands dispatched from connection buffers, blocking commands parked and woken. */
module Servers {
  import opened ByteStrings
  import opened Resp
  import opened Commands
  import opened CommandLaws
  import opened Keyspaces
  import opened Serving
  import opened Frames
  import opened Framing
  import opened Marks
  import opened Transactions
  import M = Meanings
  import Requests
  import W = Watches

  lemma ParkedShape(id: nat, argv: seq<Bytes>, t: Option<Transaction>, dirty: bool, o: Outcome, now: int,
                    t': Option<Transaction>, r: Response)
    requires argv != [] && Dispatched(id, NameOf(argv[0]), argv, t, dirty, o, now, t', r) && r.ToPark?
    ensures r.waiter.id == id && r.waiter.argv == argv && r.waiter.since == now
  {
    hide NameOf, Message, Ascii;
  }

  lemma NoUnwatches(id: nat)
    ensures Unwatches(id, []) == []
  {
  }

  lemma OneUnwatch(id: nat, one: Ran)
    requires one.argv != []
    ensures Unwatches(id, [one]) == if NameOf(one.argv[0]) == UNWATCH && !one.reply.Error? then [EndedWatch(id)] else []
  {
    hide NameOf;
    assert [one][..0] == [];
  }

  lemma OneMoreRan(id: nat, ran: seq<Ran>, one: Ran)
    requires one.argv != []
    ensures Unwatches(id, ran + [one]) == Unwatches(id, ran) + Unwatches(id, [one])
  {
    hide NameOf;
    assert (ran + [one])[..|ran|] == ran && [one][..0] == [];
  }

  lemma RefusalsDiffer()
    ensures Refused(ExecAbort) != Refused(ExecWithoutMulti)
  {
    var abort, without := "EXECABORT Transaction discarded because of previous errors.", "ERR EXEC without MULTI";
    assert |abort| == 59 && |without| == 22;
    assert |Message(ExecAbort)| == |Ascii(abort)| && |Message(ExecWithoutMulti)| == |Ascii(without)|;
  }

  lemma EmptyQueueOk()
    ensures QueueOk(Some(Transaction([], false)))
  {
  }

  /** What such a command does to the queue, and what its answer tells of watches. */
  lemma ControlledWatches(id: nat, name: Name, argv: seq<Bytes>, t: Option<Transaction>)
    requires argv != [] && name == NameOf(argv[0]) && name in {MULTI, DISCARD, WATCH, RESET} && QueueOk(t)
    ensures var (after, reply) := Controlled(name, argv, t);
            && QueueOk(after)
            && WatchesOf(Answer(id, argv, [], reply))
               == if name == WATCH && !reply.Error? then [BeganWatch(id, Keys(argv[1..]))]
                  else if name == RESET || (name == DISCARD && !reply.Error?) then [EndedWatch(id)]
                  else []
  {
    hide NameOf, Message, Ascii, Unwatches, QueueOk;
    NoQueue();
    EmptyQueueOk();
    NoUnwatches(id);
  }

  lemma AppendWatch(log: seq<Event>, e: Event, start: Db, db: Db)
    requires History(log, start, db) && (e.BeganWatch? || e.EndedWatch?)
    ensures History(log + [e], start, db) && RanOf(log + [e]) == RanOf(log) && WatchLog(log + [e]) == WatchLog(log) + [e]
  {
    hide History, RanOf, WatchLog;
    AppendEvent(log, e);
    assert RanOf(log) + [] == RanOf(log);
  }

  lemma QueueGrows(t: Transaction, argv: seq<Bytes>)
    requires QueueOk(Some(t)) && argv != [] && !IsControl(NameOf(argv[0]))
    ensures QueueOk(Some(t.(failed := true)))
    ensures NameOf(argv[0]) != UNKNOWN ==> QueueOk(Some(t.(queued := t.queued + [argv])))
  {
    hide NameOf;
  }

  /** The keys that go away before a command, then the command itself: everything stays in order and
      every waiter stays awake, given the keys it signals. */
  lemma AttemptKeeps(name: Name, argv: seq<Bytes>, db: Db, gone: set<Bytes>, c: Context, outOfMemory: bool,
                     ws: seq<Waiter>, some: seq<Waiter>, keys: seq<Bytes>)
    requires argv != [] && DbOk(db) && Awake(some, keys, db) && forall w | w in some :: w in ws
    ensures DbOk(db - gone) && Awake(some, keys, db - gone)
    ensures match Attempt(name, argv, db - gone, c, outOfMemory)
            case Done(after, reply) =>
              && DbOk(after)
              && Awake(some, keys + (if reply.Error? then [] else Signals(WrittenBy(name, argv), after, ws)), after)
            case Park(waitKeys, deadline, onTimeout) =>
              && !c.inExec && WouldWait(name, argv, c.timeouts, waitKeys, onTimeout)
              && (forall k | k in waitKeys :: k !in db - gone)
  {
    hide Run, Message, WrittenBy, Signals, WouldWait;
    var base := db - gone;
    assert forall k | IsList(base, k) :: IsList(db, k) && base[k] == db[k];
    RunLawful(name, argv, base, c, []);
    if outOfMemory && DeniesOom(name) {
      assert keys + [] == keys;
    } else if Run(name, argv, base, c).Done? {
      StaysAwake(name, argv, base, c, ws, some, keys);
    } else {
      WaitsAlike(name, argv, base, c);
    }
  }

  lemma ControlLands(name: Name, t: Option<Transaction>, o: Outcome, r: Response, db: Db, base: Db, after: Db)
    requires name in {MULTI, EXEC, DISCARD, WATCH, RESET} && r.Frame? && (r.ran == [] ==> after == base)
    ensures Lands(name, t, o, r, db, base, after)
  {
  }

  lemma AttemptWaits(name: Name, argv: seq<Bytes>, db: Db, c: Context, outOfMemory: bool)
    requires argv != [] && name == NameOf(argv[0])
    ensures var o := Attempt(name, argv, db, c, outOfMemory); o.Park? ==> M.WaitsUntil(argv, c.timeouts, c.now, o.deadline)
  {
    hide Run, NameOf, M.WaitsUntil, Message;
    if Run(name, argv, db, c).Park? { M.ParksAsAsked(argv, db, c); }
  }

  lemma PlainDispatched(id: nat, name: Name, argv: seq<Bytes>, t: Option<Transaction>, dirty: bool, o: Outcome, now: int, r: Response,
                        db: Db, base: Db, after: Db)
    requires name !in {MULTI, EXEC, DISCARD, WATCH, RESET} && (t.None? || IsControl(name))
    requires match o
             case Done(db', reply) => r == Frame(reply, [Ran(argv, reply)], name == QUIT) && after == db'
             case Park(keys, deadline, onTimeout) => r == ToPark(Waiter(id, keys, deadline, argv, onTimeout, now)) && after == base
    ensures Dispatched(id, name, argv, t, dirty, o, now, t, r) && Lands(name, t, o, r, db, base, after)
  {
  }

  /** What the sockets report in one turn of the loop: somebody connects, over the ceiling or not; a
      connection is reported to have hung up, or to have bytes to read, none if the peer closed. */
  datatype Input =
    | Arrival(rejected: bool)
    | Polled(id: nat, hungUp: bool, read: Option<Bytes>)

  datatype Round = Round(inputs: seq<Input>, now: int, closing: seq<nat>)

  function BroughtBy(input: Input, id: nat): Bytes {
    if input.Polled? && input.id == id && input.read.Some? then input.read.value else []
  }

  /** The bytes these inputs bring from one connection. */
  function Delivered(inputs: seq<Input>, id: nat): Bytes {
    if inputs == [] then [] else Delivered(inputs[..|inputs| - 1], id) + BroughtBy(inputs[|inputs| - 1], id)
  }

  function DeliveredIn(rounds: seq<Round>, id: nat): Bytes {
    if rounds == [] then []
    else DeliveredIn(rounds[..|rounds| - 1], id) + Delivered(rounds[|rounds| - 1].inputs, id)
  }

  lemma DeliveredNext(inputs: seq<Input>, i: nat)
    requires i < |inputs|
    ensures forall id :: Delivered(inputs[..i + 1], id) == Delivered(inputs[..i], id) + BroughtBy(inputs[i], id)
  {
    assert inputs[..i + 1][..i] == inputs[..i];
  }

  lemma DeliveredNothing()
    ensures forall id :: Delivered([], id) == []
  {
  }

  lemma DeliveredNever()
    ensures forall id :: DeliveredIn([], id) == []
  {
  }

  lemma DeliveredOnce(round: Round)
    ensures forall id :: DeliveredIn([round], id) == Delivered(round.inputs, id)
  {
    hide Delivered;
    assert [round][..0] == [];
    DeliveredNever();
  }

  lemma DeliveredThen(rounds: seq<Round>, i: nat, id: nat)
    requires i < |rounds|
    ensures DeliveredIn(rounds[..i + 1], id) == DeliveredIn(rounds[..i], id) + DeliveredIn([rounds[i]], id)
  {
    hide Delivered;
    assert rounds[..i + 1][..i] == rounds[..i];
    DeliveredOnce(rounds[i]);
  }

  predicate HeardSince(before: map<nat, Conn>, conns: map<nat, Conn>, rounds: seq<Round>) {
    forall id | id in before && id in conns && !conns[id].wantClose :: conns[id].heard == before[id].heard + DeliveredIn(rounds, id)
  }

  predicate LaterThan(before: map<nat, Conn>, id0: nat, conns: map<nat, Conn>, nextId: nat) {
    id0 <= nextId && forall id | id in conns && id <= id0 :: id in before && (before[id].wantClose ==> conns[id].wantClose)
  }

  lemma HeardNever(conns: map<nat, Conn>, nextId: nat)
    ensures LaterThan(conns, nextId, conns, nextId) && HeardSince(conns, conns, [])
  {
  }

  /** What was heard over some rounds, and then over one more, was heard over all of them. */
  lemma HeardOneMore(before: map<nat, Conn>, id0: nat, conns0: map<nat, Conn>, nextId0: nat, conns: map<nat, Conn>, nextId: nat,
                     rounds: seq<Round>, i: nat)
    requires i < |rounds| && forall id | id in before :: id <= id0
    requires LaterThan(before, id0, conns0, nextId0) && HeardSince(before, conns0, rounds[..i])
    requires LaterThan(conns0, nextId0, conns, nextId) && HeardSince(conns0, conns, [rounds[i]])
    ensures LaterThan(before, id0, conns, nextId) && HeardSince(before, conns, rounds[..i + 1])
  {
    hide DeliveredIn;
    forall id | id in before && id in conns && !conns[id].wantClose
      ensures conns[id].heard == before[id].heard + DeliveredIn(rounds[..i + 1], id)
    {
      DeliveredThen(rounds, i, id);
      assert id in conns0 && !conns0[id].wantClose;
    }
  }

  /** The same connections, having heard the same, and no wish to close taken back. */
  predicate Listened(before: map<nat, Conn>, after: map<nat, Conn>) {
    && after.Keys == before.Keys
    && forall id | id in after :: after[id].heard == before[id].heard && (before[id].wantClose ==> after[id].wantClose)
  }

  /** These connections aside, nothing about any changed. */
  predicate SameBut(before: map<nat, Conn>, after: map<nat, Conn>, ids: seq<nat>) {
    forall id | id in after && id !in ids :: id in before && after[id] == before[id]
  }

  lemma SameButNone(conns: map<nat, Conn>)
    ensures SameBut(conns, conns, [])
  {
  }

  lemma SameButMore(first: map<nat, Conn>, second: map<nat, Conn>, third: map<nat, Conn>, ids: seq<nat>, more: seq<nat>)
    requires SameBut(first, second, ids) && SameBut(second, third, more)
    ensures SameBut(first, third, ids + more)
  {
  }

  lemma {:induction false} GivenUpOn(due: seq<Waiter>, conns: map<nat, Conn>, w: Waiter)
    requires w in due && Open(w, conns)
    ensures Answer(w.id, w.argv, [], w.onTimeout) in TimeoutAnswers(due, conns)
    decreases |due|
  {
    if w != due[0] {
      GivenUpOn(due[1..], conns, w);
    }
  }

  lemma Behind(first: seq<Answer>, second: seq<Answer>, more: seq<Answer>, all: seq<Answer>)
    requires first <= second && second + more <= all
    ensures forall a | a in more :: a in all[|first|..]
  {
    forall a | a in more ensures a in all[|first|..] {
      var i :| 0 <= i < |more| && more[i] == a;
      assert all[|second| + i] == (second + more)[|second| + i] == a;
      assert all[|first|..][|second| + i - |first|] == a;
    }
  }

  lemma {:induction false} DueAreTimedOut(ws: seq<Waiter>, now: int)
    ensures forall w :: (w in TimedOut(ws, now) <==> w in ws && Due(w, now)) && (w in StillWaiting(ws, now) <==> w in ws && !Due(w, now))
    ensures (forall w | w in ws :: !Due(w, now)) ==> TimedOut(ws, now) == []
  {
    hide Due;
    if ws != [] {
      assert ws == [ws[0]] + ws[1..];
      DueAreTimedOut(ws[1..], now);
    }
  }

  lemma DueAnswered(due: seq<Waiter>, conns: map<nat, Conn>, first: seq<Answer>, second: seq<Answer>, all: seq<Answer>)
    requires first <= second && second + TimeoutAnswers(due, conns) <= all
    ensures forall w | w in due && Open(w, conns) :: Answer(w.id, w.argv, [], w.onTimeout) in all[|first|..]
  {
    hide Open, TimeoutAnswers;
    forall w | w in due && Open(w, conns) ensures Answer(w.id, w.argv, [], w.onTimeout) in all[|first|..] {
      GivenUpOn(due, conns, w);
      Behind(first, second, TimeoutAnswers(due, conns), all);
    }
  }

  lemma LiftSlices(ws: seq<Waiter>, index: nat)
    requires index < |ws|
    ensures var left := ws[..index] + ws[index + 1..];
            left[..index] == ws[..index] && left[index..] == ws[index + 1..] && left[..index] + [ws[index]] + left[index..] == ws
  {
  }

  lemma NoTimeouts(conns: map<nat, Conn>)
    ensures TimeoutAnswers([], conns) == []
  {
  }

  lemma NobodyDue(ws: seq<Waiter>, now: int)
    requires TimedOut(ws, now) == []
    ensures StillWaiting(ws, now) == ws
    decreases |ws|
  {
    if ws != [] { NobodyDue(ws[1..], now); }
  }

  class Server {
    const ks: Keyspace
    const registry: W.Registry
    const start: Db
    const oracle: nat -> Gate
    const timeouts: Bytes -> Timeout
    const maxBulk: nat

    /** How many commands have been executed: where the oracle is read. */
    var tick: nat
    /** Parked commands, oldest first. */
    var blocked: seq<Waiter>
    /** Keys that may wake somebody, in the order they were signalled. */
    var ready: seq<Bytes>
    var conns: map<nat, Conn>
    var nextId: nat
    /** Every frame sent, in order. */
    var answers: seq<Answer>
    ghost var log: seq<Event>

    /** The keyspace is what the history says, and so are the frames sent. */
    ghost predicate Recorded()
      reads this, ks
    {
      && DbOk(start) && DbOk(ks.db)
      && History(log, start, ks.db)
      && Told(log, answers, timeouts)
    }

    /** The watch registry knows the connections and no others, and for each of them its list and its
        marks are what the history says. */
    ghost predicate Watching()
      reads this`conns, this`log, registry, registry.watch
    {
      && registry.Valid() && registry.clients.Keys == conns.Keys
      && MarksFit(registry.dirty, registry.clients, log)
    }

    /** Every connection's bytes are framed into the commands taken from it. */
    ghost predicate Hearing()
      reads this`conns
    {
      forall id | id in conns ::
        Framed(conns[id].heard, conns[id].rbuf, conns[id].accepted, conns[id].wantClose, maxBulk)
    }

    /** What is kept beside the connections agrees with them. */
    ghost predicate Attached()
      reads this`conns, this`log, registry, registry.watch
    {
      Watching() && Hearing()
    }

    /** Nothing can be done for this connection: its bytes hold no whole request, or it is parked or wants
        to close. */
    ghost predicate Still(c: Conn) {
      c.blocked || c.wantClose || Requests.Parse(c.rbuf, maxBulk) == Requests.NeedMore
    }

    ghost predicate Quiet()
      reads this`conns
    {
      forall id | id in conns :: Still(conns[id])
    }

    ghost predicate Valid()
      reads this, ks, registry, registry.watch
    {
      && Recorded()
      && Attached()
      && ConnsOk(conns, answers, nextId)
      && Registered(blocked, [], conns, timeouts)
      && Awake(blocked, ready, ks.db)
    }

    constructor (db: Db, oracle: nat -> Gate, timeouts: Bytes -> Timeout, maxBulk: nat)
      requires DbOk(db)
      ensures Valid() && ks.db == db && start == db && fresh(ks) && fresh(registry) && fresh(registry.watch)
      ensures blocked == [] && ready == [] && conns == map[] && answers == [] && log == []
    {
      ks := new Keyspace(db);
      registry := new W.Registry();
      start, this.oracle, this.timeouts, this.maxBulk := db, oracle, timeouts, maxBulk;
      tick, blocked, ready, conns, nextId, answers, log := 0, [], [], map[], 0, [], [];
    }

    // ----------------------------------------------------------------
    // Signals

    /** One key was written: those who watch it are marked, and if anybody is parked and the key holds
        something to pop, it becomes ready. */
    method SignalModified(key: Bytes)
      requires registry.Valid()
      modifies this`ready, registry, registry.watch
      ensures ready == old(ready) + if blocked != [] && (IsList(ks.db, key) || IsZset(ks.db, key)) then [key] else []
      ensures Touched(old(registry.dirty), old(registry.clients), {key})
    {
      hide W.Consistent, W.Marked;
      registry.SameKeys();
      registry.Touch(key);
      if blocked == [] { return; }
      if IsList(ks.db, key) || IsZset(ks.db, key) {
        ready := ready + [key];
      }
    }

    /** The registry is as before but for the marks these keys make. */
    ghost predicate Touched(dirty: map<nat, set<Bytes>>, clients: map<nat, seq<W.Tracked>>, keys: set<Bytes>)
      reads registry, registry.watch
    {
      && registry.Valid() && registry.clients == clients && dirty.Keys == clients.Keys
      && registry.dirty == W.Marked(dirty, clients, keys)
    }

    lemma TouchedFacts(dirty: map<nat, set<Bytes>>, clients: map<nat, seq<W.Tracked>>, keys: set<Bytes>)
      requires Touched(dirty, clients, keys)
      ensures registry.Valid() && registry.clients == clients && dirty.Keys == clients.Keys
      ensures registry.dirty == W.Marked(dirty, clients, keys)
    {
    }

    lemma NothingTouched()
      requires registry.Valid()
      ensures Touched(registry.dirty, registry.clients, {})
    {
      registry.SameKeys();
      W.MarkedTwice(registry.dirty, registry.clients, {}, {});
    }

    method SignalFlushed()
      requires registry.Valid()
      modifies this`ready, registry, registry.watch
      ensures ready == old(ready) + AllKeys(blocked)
      ensures Touched(old(registry.dirty), old(registry.clients), old(registry.watch.keys).Keys)
    {
      hide W.Consistent, W.Marked;
      registry.SameKeys();
      registry.TouchAll();
      for i := 0 to |blocked|
        invariant ready + AllKeys(blocked[i..]) == old(ready) + AllKeys(blocked)
        invariant Touched(old(registry.dirty), old(registry.clients), old(registry.watch.keys).Keys)
      {
        assert blocked[i..][0] == blocked[i] && blocked[i..][1..] == blocked[i + 1..];
        ready := ready + blocked[i].keys;
      }
      assert blocked[|blocked|..] == [];
    }

    method SignalWrites(name: Name, argv: seq<Bytes>, reply: Reply)
      requires registry.Valid()
      modifies this`ready, registry, registry.watch
      ensures ready == old(ready) + if reply.Error? then [] else Signals(WrittenBy(name, argv), ks.db, blocked)
      ensures Touched(old(registry.dirty), old(registry.clients), Struck(name, argv, reply, old(registry.watch.keys).Keys))
    {
      hide WrittenBy, Rousing, AllKeys, W.Consistent, W.Marked;
      NothingTouched();
      if reply.Error? { return; }
      var written := WrittenKeysOf(name, argv);
      match written {
        case WrittenNothing =>
        case WrittenEverything => SignalFlushed();
        case WrittenKeys(keys) => SignalKeys(keys);
      }
    }

    method SignalKeys(keys: seq<Bytes>)
      requires registry.Valid()
      modifies this`ready, registry, registry.watch
      ensures ready == old(ready) + if blocked == [] then [] else Rousing(keys, ks.db)
      ensures Touched(old(registry.dirty), old(registry.clients), Keys(keys))
    {
      hide Rousing, IsList, IsZset, W.Consistent, W.Marked;
      assert Rousing([], ks.db) == [] && keys[..0] == [] && Keys([]) == {} by { NothingRouses(ks.db); }
      NothingTouched();
      for i := 0 to |keys|
        invariant ready == old(ready) + if blocked == [] then [] else Rousing(keys[..i], ks.db)
        invariant Touched(old(registry.dirty), old(registry.clients), Keys(keys[..i]))
      {
        RousingMore(keys[..i], keys[i], ks.db);
        assert keys[..i + 1] == keys[..i] + [keys[i]];
        assert Keys(keys[..i + 1]) == Keys(keys[..i]) + {keys[i]};
        W.MarkedTwice(old(registry.dirty), old(registry.clients), Keys(keys[..i]), {keys[i]});
        SignalModified(keys[i]);
      }
      assert keys[..|keys|] == keys;
    }

    /** Evicting a key touches it. */
    method TouchEvicted(keys: set<Bytes>)
      requires registry.Valid()
      modifies registry, registry.watch
      ensures Touched(old(registry.dirty), old(registry.clients), keys)
      ensures registry.watch.keys.Keys == old(registry.watch.keys).Keys
    {
      hide W.Consistent, W.Marked;
      NothingTouched();
      var left := keys;
      assert keys - left == {};
      while left != {}
        invariant left <= keys && Touched(old(registry.dirty), old(registry.clients), keys - left)
        invariant registry.watch.keys.Keys == old(registry.watch.keys).Keys
        decreases left
      {
        var key :| key in left;
        W.MarkedTwice(old(registry.dirty), old(registry.clients), keys - left, {key});
        assert keys - left + {key} == keys - (left - {key});
        registry.Touch(key);
        left := left - {key};
      }
      assert keys - left == keys;
    }

    // ----------------------------------------------------------------
    // Executing one command

    /** What the next command would come to, run plainly. */
    ghost function NextOutcome(name: Name, argv: seq<Bytes>): Outcome
      requires argv != []
      reads this, ks
    {
      var gate := oracle(tick);
      Attempt(name, argv, ks.db - Gone(gate), Context(gate.now, false, timeouts), gate.outOfMemory)
    }

    /** Whether the history, with what goes away before the next command, has some key touched since
        this client began to watch it. */
    ghost predicate NextDirty(id: nat)
      reads this, ks
    {
      DirtyIn(log + [NextVanished()], id) != {}
    }

    ghost function NextVanished(): Event
      reads this, ks
    {
      Vanished(ks.db, Gone(oracle(tick)) * ks.db.Keys, oracle(tick).evicted * ks.db.Keys)
    }

    /** Keys go away, the evicted ones touched. */
    method Vanish()
      requires Attached()
      modifies this`tick, this`log, ks, registry, registry.watch
      ensures Attached() && registry.clients == old(registry.clients)
      ensures tick == old(tick) + 1 && ks.db == old(ks.db) - Gone(oracle(old(tick)))
      ensures log == old(log) + [old(NextVanished())]
    {
      hide MarksFit, Touched, W.Consistent, Gone;
      var gate := oracle(tick);
      ghost var vanished := NextVanished();
      FitVanished(registry.dirty, registry.clients, log, vanished);
      tick := tick + 1;
      TouchEvicted(gate.evicted * ks.db.Keys);
      TouchedFacts(old(registry.dirty), old(registry.clients), vanished.evicted);
      log := log + [vanished];
      ks.db := ks.db - Gone(gate);
    }

    /** A command wrote: its keys are touched and made ready. */
    method Wrote(name: Name, argv: seq<Bytes>, reply: Reply, ghost e: Event)
      requires Attached() && e.Executed? && e.name == name && e.argv == argv && e.reply == reply
      modifies this`ready, this`log, registry, registry.watch
      ensures Attached() && registry.clients == old(registry.clients)
      ensures ready == old(ready) + if reply.Error? then [] else Signals(WrittenBy(name, argv), ks.db, blocked)
      ensures log == old(log) + [e]
    {
      hide MarksFit, Touched, W.Consistent, Struck, WrittenBy, Signals;
      registry.ListedAreTracked();
      ghost var struck := Struck(name, argv, reply, registry.watch.keys.Keys);
      FitExecuted(registry.dirty, registry.clients, log, e, registry.watch.keys.Keys);
      SignalWrites(name, argv, reply);
      TouchedFacts(old(registry.dirty), old(registry.clients), struck);
      log := log + [e];
    }

    /** Frees memory, refuses or runs a keyspace command, and signals what it wrote. */
    method ExecutePlain(id: nat, name: Name, argv: seq<Bytes>) returns (r: Report)
      requires argv != [] && name == NameOf(argv[0]) && id in conns && DbOk(ks.db) && Attached()
      modifies this`tick, this`ready, this`log, ks, registry, registry.watch
      ensures Attached() && registry.clients == old(registry.clients)
      ensures var gate := oracle(old(tick));
              var base := old(ks.db) - Gone(gate);
              var c := Context(gate.now, conns[id].inExec, timeouts);
              && tick == old(tick) + 1
              && match Attempt(name, argv, base, c, gate.outOfMemory)
                 case Done(after, reply) =>
                   && r == Replied(reply) && ks.db == after
                   && ready == old(ready) + (if reply.Error? then [] else Signals(WrittenBy(name, argv), after, blocked))
                   && log == old(log) + [old(NextVanished())] + [Executed(name, argv, c, base, after, reply)]
                 case Park(keys, deadline, onTimeout) =>
                   && r == Waits(keys, deadline, onTimeout) && ks.db == base
                   && ready == old(ready)
                   && log == old(log) + [old(NextVanished())]
    {
      hide Run, Message, WrittenBy, Signals, Struck, MarksFit, W.Consistent, Attached;
      var gate := oracle(tick);
      Vanish();
      var c := Context(gate.now, conns[id].inExec, timeouts);
      ghost var base := ks.db;
      assert DbOk(base);
      if gate.outOfMemory && DeniesOom(name) {
        Wrote(name, argv, Refused(OutOfMemory), Executed(name, argv, c, base, base, Refused(OutOfMemory)));
        return Replied(Refused(OutOfMemory));
      }
      r := ks.Execute(name, argv, c);
      if r.Replied? {
        Wrote(name, argv, r.reply, Executed(name, argv, c, base, ks.db, r.reply));
      }
    }

    /** The same, with what it keeps: the waiters in `a` stay awake by the ready keys alone, those in
        `b` by the ready keys and the ones in `taken`. */
    method ExecuteKeeping(id: nat, name: Name, argv: seq<Bytes>, ghost a: seq<Waiter>, ghost b: seq<Waiter>, ghost taken: seq<Bytes>)
      returns (r: Report)
      requires argv != [] && name == NameOf(argv[0]) && id in conns
      requires DbOk(ks.db) && History(log, start, ks.db) && Attached()
      requires Awake(a, ready, ks.db) && Awake(b, taken + ready, ks.db)
      requires (forall w | w in a :: w in blocked) && (forall w | w in b :: w in blocked)
      modifies this`tick, this`ready, this`log, ks, registry, registry.watch
      ensures Attached() && registry.clients == old(registry.clients)
      ensures DbOk(ks.db) && History(log, start, ks.db)
      ensures Awake(a, ready, ks.db) && Awake(b, taken + ready, ks.db)
      ensures old(log) <= log && RanOf(log) == RanOf(old(log)) + if r.Replied? then [Ran(argv, r.reply)] else []
      ensures WatchLog(log) == WatchLog(old(log))
      ensures r.Waits? ==>
                && !conns[id].inExec && WouldWait(name, argv, timeouts, r.keys, r.onTimeout)
                && (forall k | k in r.keys :: k !in ks.db) && ready == old(ready)
      ensures var gate := oracle(old(tick));
              var o := Attempt(name, argv, old(ks.db) - Gone(gate), Context(gate.now, conns[id].inExec, timeouts), gate.outOfMemory);
              match o
              case Done(after, reply) => r == Replied(reply) && ks.db == after
              case Park(keys, deadline, onTimeout) => r == Waits(keys, deadline, onTimeout) && ks.db == old(ks.db) - Gone(gate)
    {
      hide Attempt, Run, Message, WrittenBy, Signals, WouldWait, Awake, DbOk, NameOf, Attached, RanOf, WatchLog, History;
      ghost var gate, c := oracle(tick), Context(oracle(tick).now, conns[id].inExec, timeouts);
      ghost var vanished := NextVanished();
      AttemptKeeps(name, argv, ks.db, Gone(gate), c, gate.outOfMemory, blocked, a, ready);
      AttemptKeeps(name, argv, ks.db, Gone(gate), c, gate.outOfMemory, blocked, b, taken + ready);
      AppendEvent(log, vanished);
      ghost var log', ready' := log + [vanished], ready;
      r := ExecutePlain(id, name, argv);
      if r.Replied? {
        ghost var base := old(ks.db) - Gone(gate);
        AppendEvent(log', Executed(name, argv, c, base, ks.db, r.reply));
        ghost var signalled := if r.reply.Error? then [] else Signals(WrittenBy(name, argv), ks.db, blocked);
        assert taken + ready' + signalled == taken + (ready' + signalled);
        AttemptIsStep(name, argv, base, c, gate.outOfMemory);
      }
    }

    /** Drops everything a client watches. */
    method EndWatch(id: nat)
      requires Attached() && id in conns
      modifies this`log, registry, registry.watch
      ensures Attached() && registry.clients == old(registry.clients)[id := []]
      ensures log == old(log) + [EndedWatch(id)]
    {
      hide MarksFit, W.Consistent;
      FitEnded(registry.dirty, registry.clients, log, id);
      registry.UnwatchAll(id);
      log := log + [EndedWatch(id)];
    }

    /** Begins to watch keys, in order. */
    method BeginWatch(id: nat, keys: seq<Bytes>)
      requires Attached() && id in conns
      modifies this`log, registry, registry.watch
      ensures Attached() && log == old(log) + [BeganWatch(id, Keys(keys))]
    {
      hide MarksFit, W.Consistent, W.Listed;
      WatchKeys(id, keys);
      FitBegan(old(registry.dirty), old(registry.clients), log, id, Keys(keys), registry.clients[id]);
      log := log + [BeganWatch(id, Keys(keys))];
    }

    method WatchKeys(id: nat, keys: seq<Bytes>)
      requires registry.Valid() && id in registry.clients
      modifies registry, registry.watch
      ensures registry.Valid() && registry.dirty == old(registry.dirty)
      ensures id in registry.clients && registry.clients == old(registry.clients)[id := registry.clients[id]]
      ensures W.Listed(registry.clients[id]) == W.Listed(old(registry.clients)[id]) + Keys(keys)
    {
      hide W.Consistent, W.Listed;
      assert registry.clients == registry.clients[id := registry.clients[id]];
      assert Keys([]) == {} && keys[..0] == [];
      for i := 0 to |keys|
        invariant registry.Valid() && id in registry.clients && registry.dirty == old(registry.dirty)
        invariant registry.clients == old(registry.clients)[id := registry.clients[id]]
        invariant W.Listed(registry.clients[id]) == W.Listed(old(registry.clients)[id]) + Keys(keys[..i])
      {
        assert keys[..i + 1] == keys[..i] + [keys[i]];
        assert Keys(keys[..i + 1]) == Keys(keys[..i]) + {keys[i]};
        registry.WatchOne(id, keys[i]);
      }
      assert keys[..|keys|] == keys;
    }

    /** Runs an open transaction's queue, or says why it will not. */
    method Exec(id: nat) returns (r: Response)
      requires id in conns && !conns[id].inExec && QueueOk(conns[id].transaction)
      requires DbOk(ks.db) && History(log, start, ks.db) && Awake(blocked, ready, ks.db) && Attached()
      modifies this`tick, this`ready, this`log, this`conns, ks, registry, registry.watch
      ensures DbOk(ks.db) && History(log, start, ks.db) && Awake(blocked, ready, ks.db) && Attached()
      ensures old(log) <= log && r.Frame? && RanOf(log) == RanOf(old(log)) + r.ran
      ensures WatchLog(log) == WatchLog(old(log)) + if old(conns)[id].transaction.None? then [] else [EndedWatch(id)] + Unwatches(id, r.ran)
      ensures conns == old(conns)[id := old(conns)[id].(transaction := None)]
      ensures ExecAnswers(old(conns)[id].transaction, DirtyIn(old(log), id) != {}, r)
      ensures r.ran == [] ==> ks.db == old(ks.db)
    {
      hide WouldWait, Awake, DbOk, NameOf, Message, Attempt, WrittenBy, RanOf, WatchLog, History, Attached, Unwatches, DirtyIn, WatchedIn;
      ghost var conn0 := conns[id];
      assert RanOf(log) + [] == RanOf(log) && WatchLog(log) + [] == WatchLog(log);
      if conns[id].transaction.None? {
        assert conn0.(transaction := None) == conn0;
        return Frame(Refused(ExecWithoutMulti), [], false);
      }
      var transaction := conns[id].transaction.value;
      PutConn(id, conns[id].(transaction := None));
      var broken := BreakOff(id);
      assert Unwatches(id, []) == [] by { NoUnwatches(id); }
      if transaction.failed { return Frame(Refused(ExecAbort), [], false); }
      if broken { return Frame(NilArray, [], false); }

      var ran := RunInside(id, transaction.queued);
      assert WatchLog(old(log)) + [EndedWatch(id)] + Unwatches(id, ran) == WatchLog(old(log)) + ([EndedWatch(id)] + Unwatches(id, ran));
      return Frame(Array(RepliesOf(ran)), ran, false);
    }

    /** Replaces a connection, its bytes and its wish to close untouched. */
    method PutConn(id: nat, c: Conn)
      requires Attached() && id in conns
      requires c.heard == conns[id].heard && c.rbuf == conns[id].rbuf && c.accepted == conns[id].accepted && c.wantClose == conns[id].wantClose
      modifies this`conns
      ensures Attached() && conns == old(conns)[id := c]
    {
      hide MarksFit, W.Consistent, Framed;
      conns := conns[id := c];
    }

    /** Replays a queue as EXEC's own client. */
    method RunInside(id: nat, queued: seq<seq<Bytes>>) returns (ran: seq<Ran>)
      requires id in conns && !conns[id].inExec && forall q | q in queued :: q != []
      requires DbOk(ks.db) && History(log, start, ks.db) && Awake(blocked, ready, ks.db) && Attached()
      modifies this`tick, this`ready, this`log, this`conns, ks, registry, registry.watch
      ensures DbOk(ks.db) && History(log, start, ks.db) && Awake(blocked, ready, ks.db) && Attached()
      ensures old(log) <= log && RanOf(log) == RanOf(old(log)) + ran && WatchLog(log) == WatchLog(old(log)) + Unwatches(id, ran)
      ensures |ran| == |queued| && forall i | 0 <= i < |ran| :: ran[i].argv == queued[i]
      ensures ran == [] ==> ks.db == old(ks.db)
      ensures conns == old(conns)
    {
      hide Awake, DbOk, RanOf, WatchLog, History, Attached, Unwatches;
      ghost var conn0 := conns[id];
      PutConn(id, conns[id].(inExec := true));
      ran := RunQueue(id, queued);
      PutConn(id, conns[id].(inExec := false));
      assert conns[id] == conn0;
    }

    /** Whether some key this client watches was touched since it began to; it watches nothing after. */
    method BreakOff(id: nat) returns (broken: bool)
      requires id in conns && Attached()
      requires DbOk(ks.db) && History(log, start, ks.db)
      modifies this`log, registry, registry.watch
      ensures Attached() && registry.clients == old(registry.clients)[id := []]
      ensures log == old(log) + [EndedWatch(id)] && History(log, start, ks.db)
      ensures RanOf(log) == RanOf(old(log)) && WatchLog(log) == WatchLog(old(log)) + [EndedWatch(id)]
      ensures broken <==> DirtyIn(old(log), id) != {}
    {
      hide DbOk, History, RanOf, WatchLog, W.Consistent, W.Listed, DirtyIn, WatchedIn;
      AppendWatch(log, EndedWatch(id), start, ks.db);
      FitEnded(registry.dirty, registry.clients, log, id);
      broken := registry.ExecCheck(id);
      log := log + [EndedWatch(id)];
    }

    /** Replays a queue, in order, collecting one reply a command: nothing parks here. */
    method RunQueue(id: nat, queued: seq<seq<Bytes>>) returns (ran: seq<Ran>)
      requires id in conns && conns[id].inExec && forall q | q in queued :: q != []
      requires DbOk(ks.db) && History(log, start, ks.db) && Awake(blocked, ready, ks.db) && Attached()
      modifies this`tick, this`ready, this`log, ks, registry, registry.watch
      ensures DbOk(ks.db) && History(log, start, ks.db) && Awake(blocked, ready, ks.db) && Attached()
      ensures old(log) <= log && RanOf(log) == RanOf(old(log)) + ran && WatchLog(log) == WatchLog(old(log)) + Unwatches(id, ran)
      ensures |ran| == |queued| && forall i | 0 <= i < |ran| :: ran[i].argv == queued[i]
      ensures ran == [] ==> ks.db == old(ks.db)
    {
      hide WouldWait, Awake, DbOk, NameOf, Message, Attempt, WrittenBy, RanOf, WatchLog, History, Attached, Unwatches;
      ran := [];
      NoUnwatches(id);
      assert WatchLog(log) + [] == WatchLog(log);
      for i := 0 to |queued|
        invariant DbOk(ks.db) && History(log, start, ks.db) && Awake(blocked, ready, ks.db) && Attached()
        invariant old(log) <= log && RanOf(log) == RanOf(old(log)) + ran && WatchLog(log) == WatchLog(old(log)) + Unwatches(id, ran)
        invariant |ran| == i && forall j | 0 <= j < i :: ran[j].argv == queued[j]
        invariant ran == [] ==> ks.db == old(ks.db)
      {
        assert queued[i] in queued;
        ghost var before := ran;
        var one := RunQueued(id, queued[i]);
        OneMoreRan(id, before, one);
        ran := ran + [one];
        assert RanOf(old(log)) + before + [one] == RanOf(old(log)) + ran;
        assert WatchLog(old(log)) + Unwatches(id, before) + Unwatches(id, [one]) == WatchLog(old(log)) + Unwatches(id, ran);
      }
    }

    /** One queued command: it answers, whatever it is. */
    method RunQueued(id: nat, argv: seq<Bytes>) returns (one: Ran)
      requires argv != [] && id in conns && conns[id].inExec
      requires DbOk(ks.db) && History(log, start, ks.db) && Awake(blocked, ready, ks.db) && Attached()
      modifies this`tick, this`ready, this`log, ks, registry, registry.watch
      ensures DbOk(ks.db) && History(log, start, ks.db) && Awake(blocked, ready, ks.db) && Attached()
      ensures old(log) <= log && one.argv == argv && RanOf(log) == RanOf(old(log)) + [one]
      ensures WatchLog(log) == WatchLog(old(log)) + Unwatches(id, [one])
    {
      hide WouldWait, Awake, DbOk, NameOf, Message, Attempt, WrittenBy, RanOf, WatchLog, History, Attached, Unwatches;
      AwakeNobody([] + ready, ks.db);
      var report := ExecuteKeeping(id, NameOf(argv[0]), argv, blocked, [], []);
      assert report.Replied?;
      one := Ran(argv, report.reply);
      OneUnwatch(id, one);
      if NameOf(argv[0]) == UNWATCH && !report.reply.Error? {
        AppendWatch(log, EndedWatch(id), start, ks.db);
        EndWatch(id);
      }
      assert WatchLog(old(log)) + [] == WatchLog(old(log)) && RanOf(old(log)) + [one] + [] == RanOf(old(log)) + [one];
    }

    /** What precedes every command: expired and evicted keys go. */
    method PassGate()
      requires DbOk(ks.db) && History(log, start, ks.db) && Awake(blocked, ready, ks.db) && Attached()
      modifies this`tick, this`log, ks, registry, registry.watch
      ensures tick == old(tick) + 1 && ks.db == old(ks.db) - Gone(oracle(old(tick)))
      ensures log == old(log) + [old(NextVanished())]
      ensures DbOk(ks.db) && History(log, start, ks.db) && Awake(blocked, ready, ks.db) && Attached()
      ensures RanOf(log) == RanOf(old(log)) && WatchLog(log) == WatchLog(old(log))
    {
      GoneKeepsAwake(blocked, ready, ks.db, Gone(oracle(tick)));
      hide Awake, DbOk, History, RanOf, WatchLog, Gone, Attached;
      AppendEvent(log, NextVanished());
      Vanish();
    }

    /** The commands that open, run, drop or guard a transaction. A well-formed EXEC answers the null
        array exactly when the history has some key touched since this client began to watch it. */
    method Control(id: nat, name: Name, argv: seq<Bytes>) returns (r: Response)
      requires argv != [] && name == NameOf(argv[0]) && name in {MULTI, EXEC, DISCARD, WATCH, RESET}
      requires id in conns && !conns[id].inExec && QueueOk(conns[id].transaction)
      requires DbOk(ks.db) && History(log, start, ks.db) && Awake(blocked, ready, ks.db) && Attached()
      modifies this`tick, this`ready, this`log, this`conns, ks, registry, registry.watch
      ensures DbOk(ks.db) && History(log, start, ks.db) && Awake(blocked, ready, ks.db) && Attached()
      ensures id in conns && conns == old(conns)[id := old(conns)[id].(transaction := conns[id].transaction)]
      ensures QueueOk(conns[id].transaction)
      ensures Dispatched(id, name, argv, old(conns)[id].transaction, old(NextDirty(id)), old(NextOutcome(name, argv)),
                         oracle(old(tick)).now, conns[id].transaction, r)
      ensures old(log) <= log && r.Frame? && RanOf(log) == RanOf(old(log)) + r.ran
      ensures WatchLog(log) == WatchLog(old(log)) + WatchesOf(Answer(id, argv, r.ran, r.reply))
      ensures r.ran == [] ==> ks.db == old(ks.db) - Gone(oracle(old(tick)))
    {
      hide WouldWait, Awake, DbOk, NameOf, Message, Attempt, WrittenBy, Ascii, RanOf, WatchLog, History, Gone, Attached, DirtyIn, Unwatches, QueueOk, Controlled;
      NoQueue();
      PassGate();
      assert RanOf(log) + [] == RanOf(log) && WatchLog(log) + [] == WatchLog(log);
      if name == EXEC {
        assert old(conns)[id].(transaction := old(conns)[id].transaction) == old(conns)[id];
        if |argv| != 1 { return Frame(Refused(WrongArity), [], false); }
        r := Exec(id);
        RefusalsDiffer();
        return;
      }
      r := Obey(id, name, argv);
    }

    /** MULTI, DISCARD, WATCH and RESET, once what precedes a command is over. */
    method Obey(id: nat, name: Name, argv: seq<Bytes>) returns (r: Response)
      requires argv != [] && name == NameOf(argv[0]) && name in {MULTI, DISCARD, WATCH, RESET}
      requires id in conns && QueueOk(conns[id].transaction)
      requires DbOk(ks.db) && History(log, start, ks.db) && Attached()
      modifies this`log, this`conns, registry, registry.watch
      ensures DbOk(ks.db) && History(log, start, ks.db) && Attached()
      ensures id in conns && conns == old(conns)[id := old(conns)[id].(transaction := conns[id].transaction)]
      ensures QueueOk(conns[id].transaction)
      ensures conns[id].transaction == Controlled(name, argv, old(conns)[id].transaction).0
      ensures r == Frame(Controlled(name, argv, old(conns)[id].transaction).1, [], false)
      ensures old(log) <= log && RanOf(log) == RanOf(old(log))
      ensures WatchLog(log) == WatchLog(old(log)) + WatchesOf(Answer(id, argv, [], r.reply))
    {
      hide DbOk, NameOf, RanOf, WatchLog, History, Attached, Controlled, WatchesOf, QueueOk;
      ControlledWatches(id, name, argv, conns[id].transaction);
      assert WatchLog(log) + [] == WatchLog(log);
      var (t, reply) := Controlled(name, argv, conns[id].transaction);
      if name == WATCH && !reply.Error? {
        AppendWatch(log, BeganWatch(id, Keys(argv[1..])), start, ks.db);
        BeginWatch(id, argv[1..]);
      } else if name == RESET || (name == DISCARD && !reply.Error?) {
        AppendWatch(log, EndedWatch(id), start, ks.db);
        EndWatch(id);
      }
      PutConn(id, conns[id].(transaction := t));
      return Frame(reply, [], false);
    }

    /** A command that is not one of those: run, refused for lack of memory, or parked, and the frame
        carries just what it replied. */
    method RunPlain(id: nat, name: Name, argv: seq<Bytes>) returns (r: Response)
      requires argv != [] && name == NameOf(argv[0]) && name !in {MULTI, EXEC, DISCARD, WATCH, RESET}
      requires id in conns && !conns[id].inExec
      requires DbOk(ks.db) && History(log, start, ks.db) && Awake(blocked, ready, ks.db) && Attached()
      modifies this`tick, this`ready, this`log, ks, registry, registry.watch
      ensures DbOk(ks.db) && History(log, start, ks.db) && Awake(blocked, ready, ks.db) && Attached()
      ensures match old(NextOutcome(name, argv))
              case Done(after, reply) => r == Frame(reply, [Ran(argv, reply)], name == QUIT) && ks.db == after
              case Park(keys, deadline, onTimeout) =>
                && r == ToPark(Waiter(id, keys, deadline, argv, onTimeout, oracle(old(tick)).now))
                && ks.db == old(ks.db) - Gone(oracle(old(tick)))
      ensures old(log) <= log && RanOf(log) == RanOf(old(log)) + if r.Frame? then r.ran else []
      ensures WatchLog(log) == WatchLog(old(log)) + if r.Frame? then WatchesOf(Answer(id, argv, r.ran, r.reply)) else []
      ensures r.ToPark? ==>
                && CanWait(name) && WouldWait(name, argv, timeouts, r.waiter.keys, r.waiter.onTimeout)
                && M.WaitsUntil(argv, timeouts, r.waiter.since, r.waiter.deadline)
                && forall k | k in r.waiter.keys :: k !in ks.db
    {
      hide WouldWait, Awake, DbOk, NameOf, Message, WrittenBy, Ascii, RanOf, WatchLog, History, Gone, Attached, Attempt, Unwatches,
        M.WaitsUntil, WatchesOf;
      AwakeNobody([] + ready, ks.db);
      var now := oracle(tick).now;
      AttemptWaits(name, argv, ks.db - Gone(oracle(tick)), Context(now, false, timeouts), oracle(tick).outOfMemory);
      assert RanOf(log) + [] == RanOf(log) && WatchLog(log) + [] == WatchLog(log);
      var report := ExecuteKeeping(id, name, argv, blocked, [], []);
      match report
      case Replied(reply) =>
        OneUnwatch(id, Ran(argv, reply));
        PlainWatches(Answer(id, argv, [Ran(argv, reply)], reply));
        if name == UNWATCH && !reply.Error? {
          AppendWatch(log, EndedWatch(id), start, ks.db);
          EndWatch(id);
        }
        return Frame(reply, [Ran(argv, reply)], name == QUIT);
      case Waits(keys, deadline, onTimeout) =>
        OnlySomeWait(name, argv, timeouts, keys, onTimeout);
        return ToPark(Waiter(id, keys, deadline, argv, onTimeout, now));
    }

    /** Runs one command for real. */
    method Execute(id: nat, name: Name, argv: seq<Bytes>) returns (r: Response)
      requires argv != [] && name == NameOf(argv[0])
      requires id in conns && !conns[id].inExec && QueueOk(conns[id].transaction)
      requires conns[id].transaction.None? || IsControl(name)
      requires DbOk(ks.db) && History(log, start, ks.db) && Awake(blocked, ready, ks.db) && Attached()
      modifies this`tick, this`ready, this`log, this`conns, ks, registry, registry.watch
      ensures DbOk(ks.db) && History(log, start, ks.db) && Awake(blocked, ready, ks.db) && Attached()
      ensures id in conns && conns == old(conns)[id := old(conns)[id].(transaction := conns[id].transaction)]
      ensures QueueOk(conns[id].transaction)
      ensures Dispatched(id, name, argv, old(conns)[id].transaction, old(NextDirty(id)), old(NextOutcome(name, argv)),
                         oracle(old(tick)).now, conns[id].transaction, r)
      ensures Lands(name, old(conns)[id].transaction, old(NextOutcome(name, argv)), r,
                    old(ks.db), old(ks.db) - Gone(oracle(old(tick))), ks.db)
      ensures old(log) <= log && RanOf(log) == RanOf(old(log)) + if r.Frame? then r.ran else []
      ensures WatchLog(log) == WatchLog(old(log)) + if r.Frame? then WatchesOf(Answer(id, argv, r.ran, r.reply)) else []
      ensures r.ToPark? ==>
                && CanWait(name) && WouldWait(name, argv, timeouts, r.waiter.keys, r.waiter.onTimeout)
                && M.WaitsUntil(argv, timeouts, r.waiter.since, r.waiter.deadline)
                && forall k | k in r.waiter.keys :: k !in ks.db
    {
      hide WouldWait, Awake, DbOk, Attempt, RanOf, WatchLog, History, Gone, Attached, QueueOk, WatchesOf, DirtyIn, Dispatched, Lands;
      ghost var t, dirty, o, base := conns[id].transaction, NextDirty(id), NextOutcome(name, argv), ks.db - Gone(oracle(tick));
      ghost var now := oracle(tick).now;
      if name in {MULTI, EXEC, DISCARD, WATCH, RESET} {
        r := Control(id, name, argv);
        ControlLands(name, t, o, r, old(ks.db), base, ks.db);
        return;
      }
      assert conns[id].(transaction := t) == conns[id];
      r := RunPlain(id, name, argv);
      PlainDispatched(id, name, argv, t, dirty, o, now, r, old(ks.db), base, ks.db);
    }

    /** Queues a command if a transaction is open and the command is not for controlling it; else runs it. */
    method Dispatch(id: nat, argv: seq<Bytes>) returns (r: Response)
      requires argv != []
      requires id in conns && !conns[id].inExec && QueueOk(conns[id].transaction)
      requires DbOk(ks.db) && History(log, start, ks.db) && Awake(blocked, ready, ks.db) && Attached()
      modifies this`tick, this`ready, this`log, this`conns, ks, registry, registry.watch
      ensures DbOk(ks.db) && History(log, start, ks.db) && Awake(blocked, ready, ks.db) && Attached()
      ensures id in conns && conns == old(conns)[id := old(conns)[id].(transaction := conns[id].transaction)]
      ensures QueueOk(conns[id].transaction)
      ensures Dispatched(id, NameOf(argv[0]), argv, old(conns)[id].transaction, old(NextDirty(id)), old(NextOutcome(NameOf(argv[0]), argv)),
                         oracle(old(tick)).now, conns[id].transaction, r)
      ensures Lands(NameOf(argv[0]), old(conns)[id].transaction, old(NextOutcome(NameOf(argv[0]), argv)), r,
                    old(ks.db), old(ks.db) - Gone(oracle(old(tick))), ks.db)
      ensures old(log) <= log && RanOf(log) == RanOf(old(log)) + if r.Frame? then r.ran else []
      ensures WatchLog(log) == WatchLog(old(log)) + if r.Frame? then WatchesOf(Answer(id, argv, r.ran, r.reply)) else []
      ensures r.ToPark? ==>
                && CanWait(NameOf(argv[0])) && WouldWait(NameOf(argv[0]), argv, timeouts, r.waiter.keys, r.waiter.onTimeout)
                && M.WaitsUntil(argv, timeouts, r.waiter.since, r.waiter.deadline)
                && forall k | k in r.waiter.keys :: k !in ks.db
    {
      hide WouldWait, Awake, DbOk, NameOf, Message, Attempt, WrittenBy, Ascii, RanOf, WatchLog, History, QueueOk, Attached, Controlled,
        ExecAnswers, DirtyIn, Gone, Unwatches;
      var name := NameOf(argv[0]);
      var t := conns[id].transaction;
      if t.Some? && !IsControl(name) {
        r := Queue(id, name, argv);
        NoUnwatches(id);
        assert RanOf(log) + [] == RanOf(log) && WatchLog(log) + [] == WatchLog(log);
        return;
      }
      r := Execute(id, name, argv);
    }

    /** Puts a command last in the queue. One that does not exist spoils the transaction instead. */
    method Queue(id: nat, name: Name, argv: seq<Bytes>) returns (r: Response)
      requires argv != [] && name == NameOf(argv[0]) && !IsControl(name)
      requires id in conns && conns[id].transaction.Some? && QueueOk(conns[id].transaction)
      requires DbOk(ks.db) && History(log, start, ks.db) && Awake(blocked, ready, ks.db) && Attached()
      modifies this`conns
      ensures DbOk(ks.db) && History(log, start, ks.db) && Awake(blocked, ready, ks.db) && Attached()
      ensures id in conns && conns == old(conns)[id := old(conns)[id].(transaction := conns[id].transaction)]
      ensures QueueOk(conns[id].transaction)
      ensures var t := old(conns)[id].transaction.value;
              if name == UNKNOWN
              then r == Frame(Refused(UnknownCommand), [], false) && conns[id].transaction == Some(t.(failed := true))
              else r == Frame(QueuedReply(), [], false) && conns[id].transaction == Some(t.(queued := t.queued + [argv]))
    {
      hide Awake, DbOk, NameOf, Message, Ascii, History, QueueOk, MarksFit, W.Consistent;
      var t := conns[id].transaction.value;
      QueueGrows(t, argv);
      if name == UNKNOWN {
        conns := conns[id := conns[id].(transaction := Some(t.(failed := true)))];
        return Frame(Refused(UnknownCommand), [], false);
      }
      conns := conns[id := conns[id].(transaction := Some(t.(queued := t.queued + [argv])))];
      return Frame(QueuedReply(), [], false);
    }

    // ----------------------------------------------------------------
    // Draining a connection

    /** Moves a request from a connection's bytes to the record of its commands. */
    method TakeBytes(id: nat, argv: seq<Bytes>, consumed: nat)
      requires Attached() && id in conns && Requests.Parse(conns[id].rbuf, maxBulk) == Requests.Parsed(argv, consumed)
      modifies this`conns
      ensures Attached() && consumed <= |old(conns)[id].rbuf|
      ensures conns == old(conns)[id := old(conns)[id].(
                rbuf := old(conns)[id].rbuf[consumed..],
                accepted := old(conns)[id].accepted + if argv != [] then [argv] else [])]
    {
      hide MarksFit, W.Consistent, Framed, Requests.Parse;
      TakesOne(conns[id].heard, conns[id].rbuf, conns[id].accepted, conns[id].wantClose, argv, consumed, maxBulk);
      conns := conns[id := conns[id].(
        rbuf := conns[id].rbuf[consumed..], accepted := conns[id].accepted + if argv != [] then [argv] else [])];
    }

    method AskToClose(id: nat)
      requires Attached() && id in conns
      modifies this`conns
      ensures Attached() && conns == old(conns)[id := old(conns)[id].(wantClose := true)]
    {
      hide MarksFit, W.Consistent, Framed;
      FramedCloses(conns[id].heard, conns[id].rbuf, conns[id].accepted, conns[id].wantClose, maxBulk);
      conns := conns[id := conns[id].(wantClose := true)];
    }

    /** Sends one frame to a client. */
    method Push(id: nat, argv: seq<Bytes>, ran: seq<Ran>, reply: Reply)
      modifies this`answers
      ensures answers == old(answers) + [Answer(id, argv, ran, reply)]
    {
      answers := answers + [Answer(id, argv, ran, reply)];
    }

    /** Takes one command off an unblocked connection's bytes. `response` is what dispatching it comes
        to; it is sent as one frame, or parked at the end of the registry. */
    method TakeCommand(id: nat, argv: seq<Bytes>, consumed: nat) returns (ghost response: Response)
      requires Valid() && id in conns && !conns[id].blocked && argv != []
      requires Requests.Parse(conns[id].rbuf, maxBulk) == Requests.Parsed(argv, consumed)
      modifies this`tick, this`ready, this`log, this`conns, this`answers, this`blocked, ks, registry, registry.watch
      ensures Valid()
      ensures id in conns && conns == old(conns)[id := conns[id]]
      ensures conns[id].rbuf == old(conns)[id].rbuf[consumed..] && conns[id].heard == old(conns)[id].heard
      ensures conns[id].accepted == old(conns)[id].accepted + [argv]
      ensures old(conns)[id].wantClose ==> conns[id].wantClose
      ensures old(log) <= log
      ensures Dispatched(id, NameOf(argv[0]), argv, old(conns)[id].transaction, old(NextDirty(id)), old(NextOutcome(NameOf(argv[0]), argv)),
                         oracle(old(tick)).now, conns[id].transaction, response)
      ensures Lands(NameOf(argv[0]), old(conns)[id].transaction, old(NextOutcome(NameOf(argv[0]), argv)), response,
                    old(ks.db), old(ks.db) - Gone(oracle(old(tick))), ks.db)
      // EXEC, by what came since MULTI and what was touched since WATCH
      ensures ExecFollows(old(answers), id, argv, old(NextDirty(id)), response)
      ensures match response
              case Frame(reply, ran, close) =>
                && blocked == old(blocked) && answers == old(answers) + [Answer(id, argv, ran, reply)]
                && !conns[id].blocked && conns[id].wantClose == (old(conns)[id].wantClose || close)
              case ToPark(waiter) =>
                && blocked == old(blocked) + [waiter] && answers == old(answers)
                && conns[id].blocked && conns[id].wantClose == old(conns)[id].wantClose
    {
      hide WouldWait, Awake, DbOk, NameOf, Message, Attempt, WrittenBy, Ascii, RanOf, WatchLog, History, RanIn, WatchesOf, Told,
        ConnsOk, Registered, QueueOk, Settled, AnsweredTo, Attached, DirtyIn, Dispatched, Gone, Fits, Requests.Parse, TransactionOf,
        ExecFollows, Lands;
      assert ConnsOk(conns, answers, nextId);
      ConnFacts(conns, answers, nextId, id);
      ghost var conns0, conn0, now := conns, conns[id], oracle(tick).now;
      TakeBytes(id, argv, consumed);
      var result := Dispatch(id, argv);
      response := result;
      ExecsFollow(old(answers), id, argv, old(NextDirty(id)), old(NextOutcome(NameOf(argv[0]), argv)), now, conns[id].transaction, response);
      ghost var c := conns[id];
      match result {
        case Frame(reply, ran, close) =>
          if close { AskToClose(id); }
          c := conns[id];
          Push(id, argv, ran, reply);
          ghost var a := Answer(id, argv, ran, reply);
          DispatchedFits(id, argv, conn0.transaction, old(NextDirty(id)), old(NextOutcome(NameOf(argv[0]), argv)), now, c.transaction, response, timeouts);
          DispatchFollows(old(answers), id, argv, conn0.transaction, old(NextDirty(id)), old(NextOutcome(NameOf(argv[0]), argv)), now,
                          c.transaction, response);
          ToldMore(old(log), old(answers), timeouts, log, a);
          assert Settled(c, AnsweredTo(old(answers), id) + [argv]) by { SettledNext(conn0, c, AnsweredTo(old(answers), id), argv); }
          ConnsAnswer(conns0, old(answers), nextId, c, a);
          Untouched(blocked, [], conns0, id, c, timeouts);
          assert conns == conns0[id := c];
        case ToPark(waiter) =>
          PutConn(id, conns[id].(blocked := true));
          c := conns[id];
          blocked := blocked + [waiter];
          assert RanOf(old(log)) + [] == RanOf(old(log)) && WatchLog(old(log)) + [] == WatchLog(old(log));
          ToldStill(old(log), answers, timeouts, log);
          ParkedShape(id, argv, conn0.transaction, old(NextDirty(id)), old(NextOutcome(NameOf(argv[0]), argv)), now, c.transaction, response);
          ParkedOutside(id, argv, conn0.transaction, old(NextDirty(id)), old(NextOutcome(NameOf(argv[0]), argv)), now, c.transaction, response);
          assert Settled(c, AnsweredTo(old(answers), id)) by { SettledNext(conn0, c, AnsweredTo(old(answers), id), argv); }
          ConnsPut(conns0, old(answers), nextId, id, c);
          assert conns == conns0[id := c];
          ParkOne(old(blocked), waiter, conns0, c, timeouts);
          AwakeParked(old(blocked), waiter, ready, ks.db);
      }
    }

    /** Takes requests off a connection's bytes while they are complete, up to one that parks the client
        or closes it. `taken` names them. */
    method ProcessRequests(id: nat) returns (ghost taken: seq<seq<Bytes>>)
      requires Valid() && id in conns
      modifies this`tick, this`ready, this`log, this`conns, this`answers, this`blocked, ks, registry, registry.watch
      ensures Valid()
      ensures id in conns && conns == old(conns)[id := conns[id]]
      ensures (old(conns)[id].wantClose ==> conns[id].wantClose) && conns[id].heard == old(conns)[id].heard
      ensures conns[id].accepted == old(conns)[id].accepted + NonEmpty(taken)
      ensures Requests.Drain(old(conns)[id].rbuf, maxBulk) == Requests.Before(taken, Requests.Drain(conns[id].rbuf, maxBulk))
              || (conns[id].rbuf == [] && conns[id].wantClose
                  && Requests.Drain(old(conns)[id].rbuf, maxBulk).requests == taken
                  && Requests.Drain(old(conns)[id].rbuf, maxBulk).error.Some?)
      ensures old(blocked) <= blocked && old(answers) <= answers
      ensures 2 * |conns[id].rbuf| + |blocked| <= 2 * |old(conns)[id].rbuf| + |old(blocked)|
      ensures old(conns)[id].blocked ==>
                && conns == old(conns) && blocked == old(blocked) && ready == old(ready)
                && ks.db == old(ks.db) && answers == old(answers) && taken == []
      ensures Still(conns[id])
    {
      hide Valid, Requests.Parse, Requests.Drain, Requests.Before;
      taken := [];
      ghost var rbuf0 := conns[id].rbuf;
      DrainStarts(rbuf0, maxBulk);
      assert conns == conns[id := conns[id]];
      while !conns[id].blocked
        invariant Valid()
        invariant id in conns && conns == old(conns)[id := conns[id]]
        invariant (old(conns)[id].wantClose ==> conns[id].wantClose) && conns[id].heard == old(conns)[id].heard
        invariant conns[id].accepted == old(conns)[id].accepted + NonEmpty(taken)
        invariant Requests.Drain(rbuf0, maxBulk) == Requests.Before(taken, Requests.Drain(conns[id].rbuf, maxBulk))
        invariant old(blocked) <= blocked && old(answers) <= answers
        invariant 2 * |conns[id].rbuf| + |blocked| <= 2 * |old(conns)[id].rbuf| + |old(blocked)|
        invariant old(conns)[id].blocked ==>
                    && conns == old(conns) && blocked == old(blocked) && ready == old(ready)
                    && ks.db == old(ks.db) && answers == old(answers) && taken == []
        decreases |conns[id].rbuf|
      {
        var parsed := Requests.ParseRequest(conns[id].rbuf, maxBulk);
        match parsed {
          case NeedMore => break;
          case Malformed(error) =>
            DrainFails(rbuf0, taken, conns[id].rbuf, error, maxBulk);
            FailConnection(id, error);
            break;
          case Parsed(argv, consumed) =>
            DrainOne(rbuf0, taken, conns[id].rbuf, argv, consumed, maxBulk);
            TakeRequest(id, argv, consumed);
            NonEmptyAppend(taken, argv);
            taken := taken + [argv];
        }
        if conns[id].wantClose { break; }
      }
    }

    /** One request off the buffer: an empty one is skipped, any other is a command. */
    method TakeRequest(id: nat, argv: seq<Bytes>, consumed: nat)
      requires Valid() && id in conns && !conns[id].blocked
      requires Requests.Parse(conns[id].rbuf, maxBulk) == Requests.Parsed(argv, consumed)
      modifies this`tick, this`ready, this`log, this`conns, this`answers, this`blocked, ks, registry, registry.watch
      ensures Valid()
      ensures id in conns && conns == old(conns)[id := conns[id]]
      ensures consumed <= |old(conns)[id].rbuf| && conns[id].rbuf == old(conns)[id].rbuf[consumed..]
      ensures (old(conns)[id].wantClose ==> conns[id].wantClose) && conns[id].heard == old(conns)[id].heard
      ensures conns[id].accepted == old(conns)[id].accepted + if argv != [] then [argv] else []
      ensures old(blocked) <= blocked && old(answers) <= answers && |blocked| <= |old(blocked)| + 1
    {
      hide Valid, Dispatched, Lands, Requests.Parse;
      if argv == [] {
        SkipRequest(id, consumed);
      } else {
        ghost var response := TakeCommand(id, argv, consumed);
      }
    }

    /** A framing error: say so, drop the buffer and close. */
    method FailConnection(id: nat, error: Requests.ProtocolError)
      requires Valid() && id in conns && !conns[id].blocked && Requests.Parse(conns[id].rbuf, maxBulk) == Requests.Malformed(error)
      modifies this`conns, this`answers
      ensures Valid()
      ensures conns == old(conns)[id := old(conns)[id].(rbuf := [], wantClose := true)]
      ensures old(answers) <= answers && |answers| == |old(answers)| + 1
      ensures answers[|old(answers)|].reply.Error? && answers[|old(answers)|].argv == []
    {
      hide WouldWait, Awake, DbOk, Told, History, ConnsOk, Registered, QueueOk, Settled, AnsweredTo, MarksFit, W.Consistent, ErrorText,
        Framed, Requests.Parse;
      assert ConnsOk(conns, answers, nextId);
      ConnFacts(conns, answers, nextId, id);
      ghost var conns0 := conns;
      var reply := Error(ErrorText(error));
      ghost var a, c := Answer(id, [], [], reply), conns[id].(rbuf := [], wantClose := true);
      Push(id, [], [], reply);
      BreaksOff(conns[id].heard, conns[id].rbuf, conns[id].accepted, conns[id].wantClose, maxBulk);
      conns := conns[id := conns[id].(rbuf := [], wantClose := true)];
      ToldError(log, old(answers), timeouts, id, reply);
      assert AnsweredTo(old(answers), id) + [] == AnsweredTo(old(answers), id);
      assert Settled(c, AnsweredTo(old(answers), id)) by { SettledSame(conns0[id], c, AnsweredTo(old(answers), id)); }
      ConnsAnswer(conns0, old(answers), nextId, c, a);
      Untouched(blocked, [], conns0, id, c, timeouts);
    }

    /** An empty request consumes its bytes and nothing else. */
    method SkipRequest(id: nat, consumed: nat)
      requires Valid() && id in conns && !conns[id].blocked && Requests.Parse(conns[id].rbuf, maxBulk) == Requests.Parsed([], consumed)
      modifies this`conns
      ensures Valid() && consumed <= |old(conns)[id].rbuf|
      ensures conns == old(conns)[id := old(conns)[id].(rbuf := old(conns)[id].rbuf[consumed..])]
    {
      hide Awake, DbOk, History, Told, Attached, ConnsOk, Registered, Requests.Parse;
      ghost var conns0 := conns;
      TakeBytes(id, [], consumed);
      assert conns0[id].accepted + [] == conns0[id].accepted;
      BytesOnly(conns0, id, conns[id]);
    }

    /** Takes in bytes, or a wish to close. */
    method HearBytes(id: nat, chunk: Bytes, close: bool)
      requires Valid() && id in conns && !conns[id].wantClose
      modifies this`conns
      ensures Valid()
      ensures conns == old(conns)[id := old(conns)[id].(
                heard := old(conns)[id].heard + chunk, rbuf := old(conns)[id].rbuf + chunk, wantClose := close)]
    {
      hide Awake, DbOk, History, Told, ConnsOk, Registered, MarksFit, W.Consistent, Framed;
      ghost var conns0 := conns;
      HearsMore(conns[id].heard, conns[id].rbuf, conns[id].accepted, chunk, close, maxBulk);
      conns := conns[id := conns[id].(heard := conns[id].heard + chunk, rbuf := conns[id].rbuf + chunk, wantClose := close)];
      BytesOnly(conns0, id, conns[id]);
    }

    /** A change to a connection's bytes or its wish to close is no concern of answers or waiters. */
    lemma BytesOnly(conns0: map<nat, Conn>, id: nat, c: Conn)
      requires ConnsOk(conns0, answers, nextId) && Registered(blocked, [], conns0, timeouts) && id in conns0
      requires c.accepted == conns0[id].accepted && c.blocked == conns0[id].blocked && c.inExec == conns0[id].inExec
      requires c.transaction == conns0[id].transaction && (conns0[id].wantClose ==> c.wantClose)
      ensures ConnsOk(conns0[id := c], answers, nextId) && Registered(blocked, [], conns0[id := c], timeouts)
    {
      hide WouldWait, ConnsOk, Registered, QueueOk, Settled, AnsweredTo;
      ConnFacts(conns0, answers, nextId, id);
      SettledSame(conns0[id], c, AnsweredTo(answers, id));
      ConnsPut(conns0, answers, nextId, id, c);
      Untouched(blocked, [], conns0, id, c, timeouts);
    }

    // ----------------------------------------------------------------
    // Waking parked commands

    /** Releases a waiter, already out of the registry, with its reply. */
    method Unpark(waiter: Waiter, ghost others: seq<Waiter>, ran: seq<Ran>, reply: Reply)
      requires DbOk(start) && DbOk(ks.db) && History(log, start, ks.db) && Attached()
      requires Told(log, answers + [Answer(waiter.id, waiter.argv, ran, reply)], timeouts)
      requires ConnsOk(conns, answers, nextId) && Registered(blocked, [waiter] + others, conns, timeouts)
      modifies this`conns, this`answers
      ensures Recorded() && Attached() && ConnsOk(conns, answers, nextId) && Registered(blocked, others, conns, timeouts)
      ensures waiter.id in old(conns) && old(conns)[waiter.id].blocked
      ensures conns == old(conns)[waiter.id := old(conns)[waiter.id].(blocked := false)]
      ensures answers == old(answers) + [Answer(waiter.id, waiter.argv, ran, reply)]
    {
      hide WouldWait, DbOk, Told, History, ConnsOk, Registered, QueueOk, Settled, AnsweredTo, NameOf, Parked, Attached;
      RegisteredFacts(blocked, [waiter] + others, conns, timeouts);
      assert waiter in blocked + ([waiter] + others);
      ParkedFacts(waiter, conns, timeouts);
      ghost var id, conns0 := waiter.id, conns;
      ConnFacts(conns, answers, nextId, id);
      PutConn(waiter.id, conns[waiter.id].(blocked := false));
      ghost var a, c := Answer(id, waiter.argv, ran, reply), conns[id];
      Push(waiter.id, waiter.argv, ran, reply);
      assert Settled(c, AnsweredTo(old(answers), id) + [waiter.argv]) by {
        SettledReleased(conns0[id], c, AnsweredTo(old(answers), id));
      }
      OnlySomeWait(NameOf(waiter.argv[0]), waiter.argv, timeouts, waiter.keys, waiter.onTimeout);
      WaitersOpenNothing(a);
      TransactionLeft(old(answers), a);
      ConnsAnswer(conns0, old(answers), nextId, c, a);
      Release(blocked, waiter, others, conns0, conns, timeouts);
    }

    /** Runs a waiter's command once more, the waiter itself being out of the registry. `None`: it has to
        wait on. */
    method Retry(waiter: Waiter, index: nat, ghost taken: seq<Bytes>) returns (reply: Option<Reply>)
      requires Recorded() && Attached() && ConnsOk(conns, answers, nextId) && Registered(blocked, [waiter], conns, timeouts)
      requires waiter.argv != [] && waiter.id in conns && index <= |blocked|
      requires WouldWait(NameOf(waiter.argv[0]), waiter.argv, timeouts, waiter.keys, waiter.onTimeout)
      requires Awake(blocked[..index], ready, ks.db) && Awake(blocked[index..], taken + ready, ks.db)
      modifies this`tick, this`ready, this`log, this`conns, this`answers, ks, registry, registry.watch
      ensures Recorded() && Attached() && ConnsOk(conns, answers, nextId)
      ensures Awake(blocked[..index], ready, ks.db) && Awake(blocked[index..], taken + ready, ks.db)
      ensures reply.Some? ==>
                && Registered(blocked, [], conns, timeouts)
                && conns == old(conns)[waiter.id := old(conns)[waiter.id].(blocked := false)]
                && answers == old(answers) + [Answer(waiter.id, waiter.argv, [Ran(waiter.argv, reply.value)], reply.value)]
      ensures reply.None? ==>
                && conns == old(conns) && answers == old(answers) && ready == old(ready)
                && (forall k | k in waiter.keys :: k !in ks.db)
      ensures var gate := oracle(old(tick));
              var o := Attempt(NameOf(waiter.argv[0]), waiter.argv, old(ks.db) - Gone(gate),
                               Context(gate.now, false, timeouts), gate.outOfMemory);
              match o
              case Done(after, answer) => reply == Some(answer) && ks.db == after
              case Park(_, _, _) => reply == None && ks.db == old(ks.db) - Gone(gate)
    {
      hide WouldWait, Awake, DbOk, RanOf, WatchLog, History, Told, ConnsOk, Registered, Attempt, NameOf, Gone, Attached;
      assert !conns[waiter.id].inExec by { ConnFacts(conns, answers, nextId, waiter.id); }
      ghost var gate := oracle(tick);
      RetryOrder([waiter], waiter, timeouts, ks.db, Gone(gate), Context(gate.now, false, timeouts), gate.outOfMemory);
      var report := ExecuteKeeping(waiter.id, NameOf(waiter.argv[0]), waiter.argv, blocked[..index], blocked[index..], taken);
      match report
      case Replied(answer) =>
        assert [waiter] + [] == [waiter];
        OnlySomeWait(NameOf(waiter.argv[0]), waiter.argv, timeouts, waiter.keys, waiter.onTimeout);
        ToldRetry(old(log), answers, timeouts, log, waiter, answer);
        Unpark(waiter, [], [Ran(waiter.argv, answer)], answer);
        return Some(answer);
      case Waits(keys, deadline, onTimeout) =>
        SameWait(NameOf(waiter.argv[0]), waiter.argv, timeouts, waiter.keys, keys, waiter.onTimeout, onTimeout);
        assert RanOf(old(log)) + [] == RanOf(old(log));
        ToldStill(old(log), answers, timeouts, log);
        return None;
    }

    /** What a pass over `all` keeps: `visited` of them have been looked at, the first `index` of the
        registry are the ones that stay, the rest are still to come. */
    ghost predicate Passing(all: seq<Waiter>, visited: nat, index: nat, taken: seq<Bytes>, conns0: map<nat, Conn>, from: nat)
      reads this, ks, registry, registry.watch
    {
      && Attached()
      && index <= |blocked| && index <= visited <= |all| && Distinct(all)
      && blocked[index..] == all[visited..]
      && Thinned(blocked[..index], all[..visited])
      && Recorded() && ConnsOk(conns, answers, nextId) && Registered(blocked, [], conns, timeouts)
      && Awake(blocked[..index], ready, ks.db) && Awake(blocked[index..], taken + ready, ks.db)
      && conns.Keys == conns0.Keys
      && (forall id | id in conns :: conns[id] == conns0[id].(blocked := conns[id].blocked))
      && from <= |answers| && AnswersInTurn(answers[from..], all[..visited])
      && ServedInOrder(all, visited, conns0, taken, GivenSince(answers, from), ks.db)
    }

    /** A waiter none of whose keys was taken is left alone. */
    lemma PassOver(all: seq<Waiter>, visited: nat, index: nat, taken: seq<Bytes>, conns0: map<nat, Conn>, from: nat)
      requires Passing(all, visited, index, taken, conns0, from) && index < |blocked|
      requires forall k | k in blocked[index].keys :: k !in taken
      ensures Passing(all, visited + 1, index + 1, taken, conns0, from)
    {
      hide WouldWait, Awake, Recorded, Attached, ConnsOk, Registered, Thinned, ServedInOrder, Distinct, GivenSince, AnswersInTurn;
      var w := blocked[index];
      PassSlices(all, visited, index);
      ThinnedStep(blocked[..index], all[..visited], w);
      AwakeSub(blocked[index..], blocked[index + 1..], taken + ready, taken + ready, ks.db);
      AwakeSub(blocked[index..], [w], taken + ready, taken + ready, ks.db);
      AwakeSkip(blocked[..index], w, taken, ready, ks.db);
      InTurnStays(answers[from..], all[..visited], w);
      OrderUnconcerned(all, visited, conns0, taken, GivenSince(answers, from), ks.db);
    }

    lemma PassSlices(all: seq<Waiter>, visited: nat, index: nat)
      requires index < |blocked| && visited <= |all| && blocked[index..] == all[visited..]
      ensures visited < |all| && blocked[index] == all[visited]
      ensures all[..visited + 1] == all[..visited] + [all[visited]]
      ensures blocked[..index + 1] == blocked[..index] + [blocked[index]]
      ensures blocked[index + 1..] == all[visited + 1..]
      ensures forall w | w in blocked[index + 1..] :: w in blocked[index..]
      ensures blocked[index] in blocked[index..]
    {
      assert blocked[index] == blocked[index..][0] == all[visited..][0] == all[visited];
      assert blocked[index + 1..] == blocked[index..][1..] == all[visited..][1..] == all[visited + 1..];
    }

    /** The same while the next of `all` is out of the registry, being dealt with. */
    ghost predicate Lifted(all: seq<Waiter>, visited: nat, index: nat, waiter: Waiter, taken: seq<Bytes>, conns0: map<nat, Conn>, from: nat)
      reads this, ks, registry, registry.watch
    {
      && Attached()
      && index <= |blocked| && index <= visited < |all| && Distinct(all) && waiter == all[visited]
      && blocked[index..] == all[visited + 1..]
      && Thinned(blocked[..index], all[..visited + 1]) && Thinned(blocked[..index] + [waiter], all[..visited + 1])
      && Recorded() && ConnsOk(conns, answers, nextId) && Registered(blocked, [waiter], conns, timeouts)
      && Registered(blocked[..index] + [waiter] + blocked[index..], [], conns, timeouts)
      && waiter.argv != [] && waiter.id in conns
      && WouldWait(NameOf(waiter.argv[0]), waiter.argv, timeouts, waiter.keys, waiter.onTimeout)
      && Awake(blocked[..index], ready, ks.db) && Awake(blocked[index..], taken + ready, ks.db)
      && conns.Keys == conns0.Keys
      && (forall id | id in conns :: conns[id] == conns0[id].(blocked := conns[id].blocked))
      && from <= |answers| && AnswersInTurn(answers[from..], all[..visited])
      && ServedInOrder(all, visited, conns0, taken, GivenSince(answers, from), ks.db)
    }

    /** Takes the waiter at `index` out of the registry to deal with it. */
    method LiftOut(ghost all: seq<Waiter>, ghost visited: nat, index: nat, ghost taken: seq<Bytes>, ghost conns0: map<nat, Conn>, ghost from: nat)
      returns (waiter: Waiter)
      requires Passing(all, visited, index, taken, conns0, from) && index < |blocked|
      modifies this`blocked
      ensures Lifted(all, visited, index, waiter, taken, conns0, from)
      ensures index <= |blocked| && waiter == old(blocked)[index] && blocked[..index] + [waiter] + blocked[index..] == old(blocked)
      ensures waiter.id in conns && conns[waiter.id].blocked
    {
      hide WouldWait, Awake, ConnsOk, Registered, Parked, Thinned, ServedInOrder, Distinct, NameOf, DbOk, History,
        Told, MarksFit, W.Consistent, GivenSince, AnswersInTurn, Framed;
      waiter := blocked[index];
      PassSlices(all, visited, index);
      ThinnedStep(blocked[..index], all[..visited], waiter);
      AwakeSub(blocked[index..], blocked[index + 1..], taken + ready, taken + ready, ks.db);
      LiftOne(blocked, index, conns, timeouts);
      LiftSlices(blocked, index);
      blocked := blocked[..index] + blocked[index + 1..];
      RegisteredFacts(blocked, [waiter], conns, timeouts);
      assert waiter in blocked + [waiter];
      ParkedFacts(waiter, conns, timeouts);
    }

    /** Puts a waiter that still cannot be answered back where it was. */
    method Reinsert(index: nat, waiter: Waiter)
      requires Recorded() && index <= |blocked|
      modifies this`blocked
      ensures Recorded() && blocked == old(blocked)[..index] + [waiter] + old(blocked)[index..]
    {
      hide DbOk, History, Told;
      blocked := blocked[..index] + [waiter] + blocked[index..];
    }

    /** A waiter whose client hung up is not put back. */
    lemma DropClosed(all: seq<Waiter>, visited: nat, index: nat, waiter: Waiter, taken: seq<Bytes>, conns0: map<nat, Conn>, from: nat)
      requires Lifted(all, visited, index, waiter, taken, conns0, from) && waiter.id in conns && conns[waiter.id].wantClose
      ensures Passing(all, visited + 1, index, taken, conns0, from)
    {
      hide WouldWait, Awake, Recorded, ConnsOk, Registered, Thinned, ServedInOrder, Distinct, NameOf, Attached, GivenSince, AnswersInTurn;
      assert all[..visited + 1] == all[..visited] + [waiter];
      assert [waiter] + [] == [waiter];
      InTurnStays(answers[from..], all[..visited], waiter);
      Release(blocked, waiter, [], conns, conns, timeouts);
      OrderClosed(all, visited, conns0, taken, GivenSince(answers, from), ks.db);
    }

    /** Retries a waiter that is out of the registry, and either releases it or puts it back. */
    method Revisit(ghost all: seq<Waiter>, ghost visited: nat, index: nat, waiter: Waiter, ghost taken: seq<Bytes>,
                   ghost conns0: map<nat, Conn>, ghost from: nat) returns (kept: bool)
      requires Lifted(all, visited, index, waiter, taken, conns0, from)
      requires exists k | k in waiter.keys :: k in taken
      modifies this`tick, this`ready, this`log, this`conns, this`answers, this`blocked, ks, registry, registry.watch
      ensures Passing(all, visited + 1, if kept then index + 1 else index, taken, conns0, from)
      ensures old(answers) <= answers && waiter.id in old(conns)
      ensures kept ==> ready == old(ready) && conns == old(conns) && blocked == old(blocked)[..index] + [waiter] + old(blocked)[index..]
      ensures !kept ==> conns == old(conns)[waiter.id := old(conns)[waiter.id].(blocked := false)]
    {
      hide WouldWait, Awake, Recorded, ConnsOk, Registered, Thinned, ServedInOrder, Distinct, NameOf, DbOk,
        Attempt, Attached, Gone, GivenSince, AnswersInTurn;
      assert all[..visited + 1] == all[..visited] + [waiter];
      ghost var gate, before := oracle(tick), answers;
      RecordedFacts();
      RetriedInOrder(all, visited, conns0, taken, GivenSince(answers, from), timeouts,
                     ks.db, Gone(gate), Context(gate.now, false, timeouts), gate.outOfMemory);
      var reply := Retry(waiter, index, taken);
      kept := reply.None?;
      if kept {
        InTurnStays(answers[from..], all[..visited], waiter);
        AwakeNone(blocked[..index], waiter, ready, ks.db);
        ghost var kept', rest := blocked[..index] + [waiter], blocked[index..];
        Reinsert(index, waiter);
        assert blocked[..index + 1] == kept' && blocked[index + 1..] == rest;
      } else {
        ghost var a := Answer(waiter.id, waiter.argv, [Ran(waiter.argv, reply.value)], reply.value);
        GivenMore(before, from, a);
        InTurnMore(before[from..], all[..visited], waiter, reply.value);
        assert answers[from..] == before[from..] + [a];
        assert GivenSince(before, from) + {} == GivenSince(before, from);
      }
    }

    /** Deals with the waiter at `index`, one of whose keys was taken: drops it if its client hung up,
        else retries it, and either releases it or puts it back. */
    method Visit(ghost all: seq<Waiter>, ghost visited: nat, index: nat, ghost taken: seq<Bytes>, ghost conns0: map<nat, Conn>, ghost from: nat)
      returns (kept: bool, woke: Option<nat>)
      requires Passing(all, visited, index, taken, conns0, from) && index < |blocked|
      requires exists k | k in blocked[index].keys :: k in taken
      modifies this`tick, this`ready, this`log, this`conns, this`answers, this`blocked, ks, registry, registry.watch
      ensures Passing(all, visited + 1, if kept then index + 1 else index, taken, conns0, from)
      ensures old(answers) <= answers
      ensures kept ==> woke == None && ready == old(ready) && conns == old(conns) && blocked == old(blocked)
      ensures forall id | id in old(conns) && !old(conns)[id].blocked :: id in conns && !conns[id].blocked
      ensures woke.Some? ==> woke.value in conns && !conns[woke.value].blocked
      ensures SameBut(old(conns), conns, if woke.Some? then [woke.value] else [])
    {
      hide Passing, Lifted;
      kept, woke := false, None;
      var waiter := LiftOut(all, visited, index, taken, conns0, from);
      if conns[waiter.id].wantClose {
        DropClosed(all, visited, index, waiter, taken, conns0, from);
        return;
      }
      kept := Revisit(all, visited, index, waiter, taken, conns0, from);
      if !kept { woke := Some(waiter.id); }
    }

    /** One pass over the registry, oldest first, retrying each waiter that one of the `taken` keys
        concerns. `woken` lists the released clients. */
    method ServePass(taken: seq<Bytes>) returns (woken: seq<nat>)
      requires Recorded() && Attached() && ConnsOk(conns, answers, nextId) && Registered(blocked, [], conns, timeouts)
      requires ready == [] && Awake(blocked, taken, ks.db)
      modifies this`tick, this`ready, this`log, this`conns, this`answers, this`blocked, ks, registry, registry.watch
      ensures Valid()
      // Who is released, and who stays, in what order
      ensures Thinned(blocked, old(blocked)) && |blocked| <= |old(blocked)|
      ensures forall id | id in woken :: id in conns && !conns[id].blocked
      ensures SameBut(old(conns), conns, woken)
      ensures |blocked| == |old(blocked)| ==> woken == [] && ready == []
      // Connections keep everything but the flag
      ensures conns.Keys == old(conns).Keys
      ensures forall id | id in conns :: conns[id] == old(conns)[id].(blocked := conns[id].blocked)
      // The frames sent are retries' replies, in the waiters' order
      ensures old(answers) <= answers && AnswersInTurn(answers[|old(answers)|..], old(blocked))
      // Oldest first: none of them gives anything to a pop while an earlier one on the same key gets nothing
      ensures forall i, j, q | 0 <= i < j < |old(blocked)|
                 && Contends(old(blocked), i, old(conns), q) && PopsOnly(old(blocked)[j], q)
                 && old(blocked)[j].id in GivenSince(answers, |old(answers)|) ::
                 old(blocked)[i].id in GivenSince(answers, |old(answers)|)
    {
      hide WouldWait, Awake, Recorded, Attached, ConnsOk, Registered, Thinned, ServedInOrder, Distinct, NameOf, PopsOnly, Contends,
        GivenSince, AnswersInTurn, SameBut;
      ghost var all, visited: nat := blocked, 0;
      woken := [];
      ghost var from := |answers|;
      SameButNone(conns);
      var index := 0;
      PassStarts(all, conns, taken, ready, ks.db, answers);
      assert blocked[..0] == [] && all[..0] == [] && blocked[0..] == blocked;
      RegisteredFacts(blocked, [], conns, timeouts);
      assert blocked + [] == blocked;
      while index < |blocked|
        invariant 0 <= index <= |blocked|
        invariant Passing(all, visited, index, taken, old(conns), from)
        invariant old(answers) <= answers
        invariant forall id | id in woken :: id in conns && !conns[id].blocked
        invariant SameBut(old(conns), conns, woken)
        invariant index == visited ==> woken == [] && ready == []
        decreases |all| - visited
      {
        PassSlices(all, visited, index);
        if exists k | k in blocked[index].keys :: k in taken {
          ghost var conns1 := conns;
          var kept, woke := Visit(all, visited, index, taken, old(conns), from);
          SameButMore(old(conns), conns1, conns, woken, if woke.Some? then [woke.value] else []);
          woken := woken + if woke.Some? then [woke.value] else [];
          if kept { index := index + 1; }
        } else {
          PassOver(all, visited, index, taken, old(conns), from);
          index := index + 1;
        }
        visited := visited + 1;
      }
      assert blocked[..index] == blocked && all[..visited] == all;
      OrderKept(all, old(conns), taken, GivenSince(answers, from), ks.db);
    }

    lemma RecordedFacts()
      requires Recorded()
      ensures DbOk(ks.db)
    {
    }

    /** Lets each woken client go on with whatever it pipelined behind its blocking command. */
    method Resume(woken: seq<nat>)
      requires Valid() && forall id | id in woken :: id in conns
      modifies this`tick, this`ready, this`log, this`conns, this`answers, this`blocked, ks, registry, registry.watch
      ensures Valid() && conns.Keys == old(conns).Keys && old(blocked) <= blocked
      ensures 2 * Unread(conns) + |blocked| <= 2 * Unread(old(conns)) + |old(blocked)|
      ensures woken == [] ==>
                ready == old(ready) && answers == old(answers) && blocked == old(blocked) && conns == old(conns) && ks.db == old(ks.db)
      ensures old(answers) <= answers && Listened(old(conns), conns)
      ensures forall id | id in conns :: if id in woken then Still(conns[id]) else conns[id] == old(conns)[id]
    {
      hide Valid, Requests.Drain, Unread, Still;
      for i := 0 to |woken|
        invariant Valid() && conns.Keys == old(conns).Keys && old(blocked) <= blocked
        invariant 2 * Unread(conns) + |blocked| <= 2 * Unread(old(conns)) + |old(blocked)|
        invariant woken == [] ==>
                    ready == old(ready) && answers == old(answers) && blocked == old(blocked) && conns == old(conns) && ks.db == old(ks.db)
        invariant old(answers) <= answers && Listened(old(conns), conns)
        invariant forall id | id in conns :: if id in woken[..i] then Still(conns[id]) else conns[id] == old(conns)[id]
      {
        ghost var id, conns0 := woken[i], conns;
        ghost var taken := ProcessRequests(woken[i]);
        UnreadPut(conns0, id, conns[id]);
        assert woken[..i + 1] == woken[..i] + [id];
      }
      assert woken[..|woken|] == woken;
    }

    /** Passes over the registry while there are ready keys. It ends: each pass that releases or drops
        a waiter lowers twice the unread bytes plus the parked commands, since a released client must read
        a command to park again; a pass that does neither wrote nothing. */
    method ServeReadyKeys()
      requires Valid()
      modifies this`tick, this`ready, this`log, this`conns, this`answers, this`blocked, ks, registry, registry.watch
      ensures Valid() && conns.Keys == old(conns).Keys
      ensures ready == []
      // No lost wake-up: nobody is left waiting on a key that holds a list
      ensures forall w, k | w in blocked && k in w.keys :: !IsList(ks.db, k)
      // Those who waited before and still wait stand in the same order, ahead of newcomers
      ensures exists n: nat | n <= |blocked| :: Thinned(blocked[..n], old(blocked))
      // Whoever was released has had its bytes dealt with
      ensures old(Quiet()) ==> Quiet()
      ensures old(answers) <= answers && Listened(old(conns), conns)
    {
      hide Valid, Recorded, Attached, ConnsOk, Registered, Awake, Unread, Thinned, Contends, Still, AnswersInTurn, GivenSince, PopsOnly;
      ghost var n: nat := |blocked|;
      ThinnedSelf(blocked);
      assert blocked[..n] == blocked;
      while ready != []
        invariant Valid() && conns.Keys == old(conns).Keys
        invariant n <= |blocked| && Thinned(blocked[..n], old(blocked))
        invariant old(Quiet()) ==> Quiet()
        invariant old(answers) <= answers && Listened(old(conns), conns)
        decreases 2 * Unread(conns) + |blocked|, |ready|
      {
        ghost var before, conns0 := blocked, conns;
        var taken := TakeReady();
        var woken := ServePass(taken);
        UnreadSame(conns0, conns);
        ghost var k := ThinnedBeginning(blocked, before, n);
        ThinnedTransitive(blocked[..k], before[..n], old(blocked));
        ghost var passed := blocked;
        Resume(woken);
        assert blocked[..k] == passed[..k];
        n := k;
      }
      NobodyStarvesNow();
    }

    lemma NobodyStarvesNow()
      requires Valid() && ready == []
      ensures forall w, k | w in blocked && k in w.keys :: !IsList(ks.db, k)
    {
      hide Recorded, Attached, ConnsOk, Registered, Awake;
      NobodyStarves(blocked, ks.db);
    }

    method TakeReady() returns (taken: seq<Bytes>)
      requires Valid()
      modifies this`ready
      ensures taken == old(ready) && ready == []
      ensures Recorded() && Attached() && ConnsOk(conns, answers, nextId) && Registered(blocked, [], conns, timeouts)
      ensures Awake(blocked, taken, ks.db)
    {
      hide DbOk, History, Told, ConnsOk, Registered, Awake, MarksFit, W.Consistent;
      taken := ready;
      ready := [];
    }

    /** Takes the due waiters out of the registry, in order. */
    method TakeTimedOut(now: int) returns (expired: seq<Waiter>)
      requires Recorded()
      modifies this`blocked
      ensures Recorded()
      ensures expired == TimedOut(old(blocked), now) && blocked == StillWaiting(old(blocked), now)
    {
      hide DbOk, History, Told, Due, Sifted;
      expired := [];
      var index := 0;
      SiftStart(blocked, now);
      assert blocked[0..] == blocked && blocked[..0] == [];
      while index < |blocked|
        invariant 0 <= index <= |blocked| && Recorded()
        invariant Sifted(expired, blocked[..index], blocked[index..], old(blocked), now)
        decreases |blocked| - index
      {
        ghost var was := blocked;
        SiftOne(expired, blocked[..index], blocked[index..], old(blocked), now);
        assert was[index..][1..] == was[index + 1..];
        if Due(blocked[index], now) {
          expired := expired + [blocked[index]];
          blocked := blocked[..index] + blocked[index + 1..];
          assert blocked[index..] == was[index + 1..] && blocked[..index] == was[..index];
        } else {
          index := index + 1;
          assert blocked[..index] == was[..index - 1] + [was[index - 1]];
        }
      }
      assert blocked[index..] == [] && blocked[..index] == blocked;
      SiftEnd(expired, blocked, old(blocked), now);
    }

    /** Gives up on one due waiter, unless its client hung up. */
    method TimeOut(waiter: Waiter, ghost others: seq<Waiter>) returns (woke: bool)
      requires Recorded() && Attached() && ConnsOk(conns, answers, nextId)
      requires Registered(blocked, [waiter] + others, conns, timeouts)
      modifies this`conns, this`answers
      ensures Attached() && Recorded() && ConnsOk(conns, answers, nextId) && Registered(blocked, others, conns, timeouts)
      ensures waiter.id in conns && woke == Open(waiter, old(conns))
      ensures conns == if woke then old(conns)[waiter.id := old(conns)[waiter.id].(blocked := false)] else old(conns)
      ensures answers == old(answers) + if woke then [Answer(waiter.id, waiter.argv, [], waiter.onTimeout)] else []
    {
      hide WouldWait, DbOk, Told, History, ConnsOk, Registered, NameOf, Parked, Attached;
      RegisteredFacts(blocked, [waiter] + others, conns, timeouts);
      assert waiter in blocked + ([waiter] + others);
      ParkedFacts(waiter, conns, timeouts);
      if conns[waiter.id].wantClose {
        Release(blocked, waiter, others, conns, conns, timeouts);
        return false;
      }
      ToldTimeout(log, answers, timeouts, waiter);
      Unpark(waiter, others, [], waiter.onTimeout);
      return true;
    }

    /** Gives up on these waiters, who are out of the registry: each whose client has not hung up gets the
        reply it was parked with for that. */
    method GiveUp(due: seq<Waiter>) returns (woken: seq<nat>)
      requires Recorded() && Attached() && ConnsOk(conns, answers, nextId) && Registered(blocked, due, conns, timeouts)
      modifies this`conns, this`answers
      ensures Recorded() && Attached() && ConnsOk(conns, answers, nextId) && Registered(blocked, [], conns, timeouts)
      ensures answers == old(answers) + TimeoutAnswers(due, old(conns))
      ensures conns.Keys == old(conns).Keys && forall id | id in woken :: id in conns
      ensures forall id | id in conns :: conns[id] == old(conns)[id].(blocked := conns[id].blocked)
      ensures forall id | id in conns && id !in woken :: conns[id] == old(conns)[id]
      ensures due == [] ==> woken == [] && conns == old(conns)
    {
      hide Recorded, Attached, ConnsOk, Registered;
      woken := [];
      assert due[0..] == due;
      for i := 0 to |due|
        invariant Recorded() && Attached() && ConnsOk(conns, answers, nextId) && Registered(blocked, due[i..], conns, timeouts)
        invariant answers + TimeoutAnswers(due[i..], old(conns)) == old(answers) + TimeoutAnswers(due, old(conns))
        invariant conns.Keys == old(conns).Keys && forall id | id in woken :: id in conns
        invariant forall id | id in conns :: conns[id] == old(conns)[id].(blocked := conns[id].blocked)
        invariant forall id | id in conns && id !in woken :: conns[id] == old(conns)[id]
        invariant due == [] ==> woken == [] && conns == old(conns)
      {
        assert due[i..] == [due[i]] + due[i + 1..];
        assert due[i..][0] == due[i] && due[i..][1..] == due[i + 1..];
        var woke := TimeOut(due[i], due[i + 1..]);
        if woke { woken := woken + [due[i].id]; }
      }
      assert due[|due|..] == [];
    }

    /** Gives up on every due waiter. */
    method ServeTimeouts(now: int)
      requires Valid()
      modifies this`tick, this`ready, this`log, this`conns, this`answers, this`blocked, ks, registry, registry.watch
      ensures Valid() && conns.Keys == old(conns).Keys
      ensures old(answers) + TimeoutAnswers(TimedOut(old(blocked), now), old(conns)) <= answers
      ensures StillWaiting(old(blocked), now) <= blocked
      ensures TimedOut(old(blocked), now) == [] ==>
                && blocked == old(blocked) && answers == old(answers) && conns == old(conns)
                && ready == old(ready) && ks.db == old(ks.db)
      // Whoever was given up on has had its bytes dealt with
      ensures old(Quiet()) ==> Quiet()
      ensures Listened(old(conns), conns)
    {
      hide Awake, Recorded, Attached, ConnsOk, Registered, Unread, TimedOut, StillWaiting, Still, TimeoutAnswers;
      SplitRegistered(blocked, now, conns, timeouts);
      AwakeSplit(blocked, now, ready, ks.db);
      var due := TakeTimedOut(now);
      var woken := GiveUp(due);
      if due == [] { NobodyDue(old(blocked), now); }
      Resume(woken);
      NoTimeouts(old(conns));
    }

    // ----------------------------------------------------------------
    // The poll loop

    method Connect(rejected: bool)
      requires Valid()
      modifies this`conns, this`nextId, this`answers, registry
      ensures Valid() && nextId == old(nextId) + 1
      ensures conns.Keys == old(conns).Keys + {nextId} && conns[nextId] == FreshConn().(wantClose := rejected)
      ensures forall id | id in old(conns) :: conns[id] == old(conns)[id]
      ensures Still(conns[nextId]) && old(answers) <= answers
    {
      hide Valid, Requests.Parse;
      KnownIds();
      Welcome();
      NothingToParse(maxBulk);
      if rejected { Turn(nextId); }
    }

    /** A new connection that has sent nothing yet. */
    method Welcome()
      requires Valid()
      modifies this`conns, this`nextId, registry
      ensures Valid() && nextId == old(nextId) + 1 && conns == old(conns)[nextId := FreshConn()]
    {
      hide WouldWait, Awake, DbOk, Told, History, ConnsOk, Registered, NameOf, WatchesIn, MarksFit, W.Consistent, WatchLog, Framed;
      ConnsNew(conns, answers, nextId);
      nextId := nextId + 1;
      NobodyWatches(answers, nextId);
      ToldFacts(log, answers, timeouts);
      FitNew(registry.dirty, registry.clients, log, nextId);
      ConnectOne(blocked, nextId, FreshConn(), conns, timeouts);
      NothingHeard(false, maxBulk);
      conns := conns[nextId := FreshConn()];
      registry.Connect(nextId);
    }

    /** Sends a connection too many away with an error. */
    method Turn(id: nat)
      requires Valid() && id in conns && !conns[id].blocked
      modifies this`conns, this`answers
      ensures Valid() && conns == old(conns)[id := old(conns)[id].(wantClose := true)] && old(answers) <= answers
    {
      hide WouldWait, Awake, DbOk, Told, History, ConnsOk, Registered, QueueOk, Settled, AnsweredTo, Attached, Ascii;
      assert ConnsOk(conns, answers, nextId);
      ConnFacts(conns, answers, nextId, id);
      ghost var conns0 := conns;
      var reply := Error(Ascii("ERR max number of clients reached"));
      ghost var a, c := Answer(id, [], [], reply), conns[id].(wantClose := true);
      Push(id, [], [], reply);
      AskToClose(id);
      ToldError(log, old(answers), timeouts, id, reply);
      assert AnsweredTo(old(answers), id) + [] == AnsweredTo(old(answers), id);
      assert Settled(c, AnsweredTo(old(answers), id)) by { SettledSame(conns0[id], c, AnsweredTo(old(answers), id)); }
      ConnsAnswer(conns0, old(answers), nextId, c, a);
      Untouched(blocked, [], conns0, id, c, timeouts);
    }

    /** Deals with a connection that the poll reported: notes a hang-up, takes in what one read brought,
        and takes the requests from it that it can. Of a parked client only the bytes grow. */
    method Receive(id: nat, hungUp: bool, read: Option<Bytes>)
      requires Valid() && id in conns && !conns[id].wantClose
      modifies this`tick, this`ready, this`log, this`conns, this`answers, this`blocked, ks, registry, registry.watch
      ensures Valid() && conns.Keys == old(conns).Keys && old(blocked) <= blocked && old(answers) <= answers
      ensures conns[id].heard == old(conns)[id].heard + if read.Some? then read.value else []
      ensures hungUp || read == Some([]) ==> conns[id].wantClose
      ensures old(Still(conns[id])) || (read.Some? && read.value != []) ==> Still(conns[id])
      ensures old(conns)[id].blocked ==>
                && conns[id].rbuf == old(conns)[id].rbuf + (if read.Some? then read.value else [])
                && conns[id].accepted == old(conns)[id].accepted
                && blocked == old(blocked) && answers == old(answers) && ks.db == old(ks.db)
      ensures forall other | other in conns && other != id :: conns[other] == old(conns)[other]
    {
      hide Valid, Requests.Parse, Requests.Drain;
      var chunk := if read.Some? then read.value else [];
      HearBytes(id, chunk, hungUp || read == Some([]));
      assert chunk == [] ==> old(conns)[id].rbuf + chunk == old(conns)[id].rbuf;
      if chunk != [] { ghost var taken := ProcessRequests(id); }
    }

    /** Removes a connection, its waiter and its watches. */
    method Close(id: nat)
      requires Valid() && id in conns
      modifies this`conns, this`blocked, registry, registry.watch
      ensures Valid() && conns == old(conns) - {id} && blocked == Without(old(blocked), id)
    {
      hide WouldWait, Awake, DbOk, Told, History, Registered, AnsweredTo, QueueOk, Settled, Without, MarksFit, W.Consistent, Framed;
      RegisteredFacts(blocked, [], conns, timeouts);
      assert blocked + [] == blocked;
      ForgetOne(blocked, id, conns, timeouts);
      AwakeForget(blocked, id, ready, ks.db);
      FitGone(registry.dirty, registry.clients, log, id);
      conns := conns - {id};
      blocked := Without(blocked, id);
      registry.Forget(id);
    }

    /** Connections still open have had every byte heard that these rounds delivered. */
    ghost predicate HeardAll(before: map<nat, Conn>, rounds: seq<Round>)
      reads this`conns
    {
      HeardSince(before, conns, rounds)
    }

    /** Time has passed since: new connections have new numbers, and no wish to close is taken back. */
    ghost predicate Onward(before: map<nat, Conn>, id0: nat)
      reads this`conns, this`nextId
    {
      LaterThan(before, id0, conns, nextId)
    }

    /** New connections, reads and hang-ups. A connection that wants to close is not polled any more. */
    method TakeInputs(inputs: seq<Input>)
      requires Valid()
      modifies this`tick, this`ready, this`log, this`conns, this`answers, this`blocked, this`nextId, ks, registry, registry.watch
      ensures Valid() && old(answers) <= answers && old(conns).Keys <= conns.Keys && Onward(old(conns), old(nextId))
      ensures old(Quiet()) ==> Quiet()
      ensures forall id | id in old(conns) && !conns[id].wantClose :: conns[id].heard == old(conns)[id].heard + Delivered(inputs, id)
    {
      hide Valid, Quiet, Delivered;
      KnownIds();
      DeliveredNothing();
      assert inputs[..0] == [];
      for i := 0 to |inputs|
        invariant Valid() && old(answers) <= answers && old(conns).Keys <= conns.Keys && Onward(old(conns), old(nextId))
        invariant old(Quiet()) ==> Quiet()
        invariant forall id | id in old(conns) && !conns[id].wantClose :: conns[id].heard == old(conns)[id].heard + Delivered(inputs[..i], id)
      {
        DeliveredNext(inputs, i);
        TakeInput(inputs[i]);
      }
      assert inputs[..|inputs|] == inputs;
    }

    method TakeInput(input: Input)
      requires Valid()
      modifies this`tick, this`ready, this`log, this`conns, this`answers, this`blocked, this`nextId, ks, registry, registry.watch
      ensures Valid() && old(answers) <= answers && old(conns).Keys <= conns.Keys && Onward(old(conns), old(nextId))
      ensures old(Quiet()) ==> Quiet()
      ensures forall id | id in old(conns) && !conns[id].wantClose :: conns[id].heard == old(conns)[id].heard + BroughtBy(input, id)
    {
      hide Valid, Still;
      KnownIds();
      match input {
        case Arrival(rejected) => Connect(rejected);
        case Polled(id, hungUp, read) =>
          if id in conns && !conns[id].wantClose { Receive(id, hungUp, read); }
      }
    }

    lemma KnownIds()
      requires Valid()
      ensures forall id | id in conns :: id <= nextId
    {
    }

    /** Closes the connections that may go now and want to. */
    method CloseSome(closing: seq<nat>)
      requires Valid()
      modifies this`conns, this`blocked, registry, registry.watch
      ensures Valid() && conns.Keys <= old(conns).Keys && (forall id | id in conns :: conns[id] == old(conns)[id])
      ensures forall w :: w in blocked <==> w in old(blocked) && w.id in conns
      ensures forall id | id in old(conns) :: id in conns <==> !(id in closing && old(conns)[id].wantClose)
    {
      hide Recorded, Attached, ConnsOk, Registered, Awake;
      WaitersOpen();
      for i := 0 to |closing|
        invariant Valid() && conns.Keys <= old(conns).Keys && (forall id | id in conns :: conns[id] == old(conns)[id])
        invariant forall w :: w in blocked <==> w in old(blocked) && w.id in conns
        invariant forall id | id in old(conns) :: id in conns <==> !(id in closing[..i] && old(conns)[id].wantClose)
      {
        var id := closing[i];
        assert closing[..i + 1] == closing[..i] + [id];
        if id in conns && conns[id].wantClose {
          DistinctWaiters();
          WithoutLaw(blocked, id);
          Close(id);
        }
      }
      assert closing[..|closing|] == closing;
    }

    lemma WaitersOpen()
      requires Valid()
      ensures forall w | w in blocked :: w.id in conns
    {
      hide WouldWait, NameOf;
      assert blocked + [] == blocked;
      forall w | w in blocked ensures w.id in conns {
        assert Parked(w, conns, timeouts);
      }
    }

    lemma DistinctWaiters()
      requires Valid()
      ensures Distinct(blocked)
    {
      assert blocked + [] == blocked;
    }

    /** By its timeout argument, and the clock when it parked, this waiter has waited long enough. */
    ghost predicate Overdue(w: Waiter, now: int) {
      |w.argv| > 1 && timeouts(M.TimeoutOf(w.argv)).After? && w.since + timeouts(M.TimeoutOf(w.argv)).millis <= now
    }

    lemma DueByArgument(now: int)
      requires Valid()
      ensures forall w | w in blocked :: (w in TimedOut(blocked, now) <==> Overdue(w, now)) && (w in StillWaiting(blocked, now) <==> !Overdue(w, now))
      ensures (forall w | w in blocked :: !Overdue(w, now)) ==> TimedOut(blocked, now) == []
    {
      hide WouldWait, NameOf, M.TimeoutOf;
      assert blocked + [] == blocked;
      forall w | w in blocked ensures Due(w, now) <==> Overdue(w, now) {
        assert Parked(w, conns, timeouts);
      }
      hide Valid, Due, Overdue;
      DueAreTimedOut(blocked, now);
    }

    /** One turn of the loop: new connections, reads and hang-ups, then woken waiters, then timeouts,
        then the connections that asked to close. `served` is the registry once no key was ready. */
    method PollOnce(round: Round) returns (ghost served: seq<Waiter>)
      requires Valid()
      modifies this`tick, this`ready, this`log, this`conns, this`answers, this`blocked, this`nextId, ks, registry, registry.watch
      ensures Valid() && old(answers) <= answers && Onward(old(conns), old(nextId))
      // Every byte from a connection still open was heard, and every whole request in it taken
      ensures HeardAll(old(conns), [round]) && (old(Quiet()) ==> Quiet())
      // With nobody overdue, nobody is left waiting on a key that holds a list
      ensures (forall w | w in served :: !Overdue(w, round.now)) ==>
                ready == [] && forall w, k | w in blocked && k in w.keys :: !IsList(ks.db, k)
      // Whoever has, by its own timeout argument, waited long enough and is still open was given up on;
      // the others who are still open wait on
      ensures forall w | w in served && Overdue(w, round.now) && Open(w, conns) ::
                Answer(w.id, w.argv, [], w.onTimeout) in answers[|old(answers)|..]
      ensures forall w | w in served && !Overdue(w, round.now) && w.id in conns :: w in blocked
      // Of those that may go all who want to have gone, and nobody else has
      ensures forall id | id in round.closing && id in conns :: !conns[id].wantClose
      ensures forall id | id in old(conns) && id !in conns :: id in round.closing
    {
      hide Valid, Still, TimedOut, StillWaiting, TimeoutAnswers, Delivered, DeliveredIn, Overdue;
      TakeInputs(round.inputs);
      ghost var answers0 := answers;
      ServeReadyKeys();
      served := blocked;
      DueByArgument(round.now);
      ghost var conns1, answers1 := conns, answers;
      ServeTimeouts(round.now);
      DueAnswered(TimedOut(served, round.now), conns1, old(answers), answers1, answers);
      CloseSome(round.closing);
      DeliveredOnce(round);
    }

    /** Any number of turns keeps everything `Valid` says; and between turns, if the first began so, no
        connection has bytes that could be dealt with. */
    method RunLoop(rounds: seq<Round>)
      requires Valid()
      modifies this`tick, this`ready, this`log, this`conns, this`answers, this`blocked, this`nextId, ks, registry, registry.watch
      ensures Valid() && (old(Quiet()) ==> Quiet())
      ensures HeardAll(old(conns), rounds)
    {
      hide Valid, Quiet, Overdue, Open, HeardSince, LaterThan;
      KnownIds();
      HeardNever(conns, nextId);
      for i := 0 to |rounds|
        invariant Valid() && (old(Quiet()) ==> Quiet())
        invariant Onward(old(conns), old(nextId)) && HeardAll(old(conns), rounds[..i])
      {
        ghost var conns0, nextId0 := conns, nextId;
        ghost var served := PollOnce(rounds[i]);
        HeardOneMore(old(conns), old(nextId), conns0, nextId0, conns, nextId, rounds, i);
      }
      assert rounds[..|rounds|] == rounds;
    }

    // ----------------------------------------------------------------
    // What every reachable state satisfies

    /** No value is lost or delivered twice, over any run: the copies of `v` now in the lists, plus those
        the frames handed to clients, plus those destroyed, are the copies there at the start plus those
        pushed. */
    lemma BooksBalance(v: Bytes)
      requires Valid()
      ensures Stock(ks.db, v) + FramesHand(answers, v) + Lost(log, v) == Stock(start, v) + Added(log, v)
    {
      hide Attached, ConnsOk, Registered, Awake, DbOk, History, AllFit, RanOf, RanIn, Stock, Lost, Added, Handed;
      Conservation(log, start, ks.db, v);
      FramesHandWhatRan(answers, timeouts, v);
    }

    /** Every command a client sent has been answered once, in order - except that a blocked client
        still awaits the answer to its last, and then, unless it hung up, that very command is parked.
        Each answer is what `Fits` allows, and what ran is what the answers say ran. */
    lemma OneReplyEach(id: nat)
      requires Valid() && id in conns
      ensures AnsweredTo(answers, id) + (if conns[id].blocked then [conns[id].accepted[|conns[id].accepted| - 1]] else [])
              == conns[id].accepted
      ensures (forall a | a in answers :: Fits(a, timeouts)) && RanIn(answers) == RanOf(log)
      ensures Waiting(blocked, id) ==> conns[id].blocked
      ensures conns[id].blocked && !conns[id].wantClose ==>
                exists w | w in blocked :: w.id == id && w.argv == conns[id].accepted[|conns[id].accepted| - 1]
      ensures forall i, j | 0 <= i < j < |blocked| :: blocked[i].id != blocked[j].id
    {
      hide Attached, Awake, WouldWait, NameOf, ConnsOk, Registered, AnsweredTo, Fits, RanOf, RanIn, History, DbOk;
      ConnFacts(conns, answers, nextId, id);
      WaitingFacts(blocked, conns, timeouts, id);
    }

    /** However its bytes arrived, draining all that a connection sent at once yields the commands accepted
        from it and then what its buffer still drains to; or, where framing broke off, the commands accepted
        and an error. */
    lemma BytesBecameCommands(id: nat)
      requires Valid() && id in conns
      ensures var all, left := Requests.Drain(conns[id].heard, maxBulk), Requests.Drain(conns[id].rbuf, maxBulk);
              || (NonEmpty(all.requests) == conns[id].accepted + NonEmpty(left.requests) && all.rest == left.rest && all.error == left.error)
              || (conns[id].wantClose && conns[id].rbuf == [] && NonEmpty(all.requests) == conns[id].accepted && all.error.Some?)
    {
      hide Recorded, Watching, ConnsOk, Registered, Awake, Framed, Requests.Drain;
      FramedDrains(conns[id].heard, conns[id].rbuf, conns[id].accepted, conns[id].wantClose, maxBulk);
    }

    /** Of a client that sent the beginning of a pipeline of encoded commands, the commands accepted are the
        first of these; if it sent all of it they are all of these, unless it is parked or hung up. */
    lemma PipelineAccepted(id: nat, commands: seq<seq<Bytes>>, more: Bytes)
      requires Valid() && id in conns && conns[id].heard + more == Requests.EncodeAll(commands)
      requires forall c | c in commands :: c != [] && Requests.WithinLimits(c, maxBulk)
      ensures conns[id].accepted <= commands
      ensures more == [] && Still(conns[id]) && !conns[id].blocked && !conns[id].wantClose ==> conns[id].accepted == commands
    {
      hide Recorded, Watching, ConnsOk, Registered, Awake, Framed, Requests.EncodeAll, Requests.WithinLimits, Requests.Parse;
      var c := conns[id];
      FramedPipeline(c.heard, c.rbuf, c.accepted, c.wantClose, maxBulk, commands, more);
      if more == [] && Requests.Parse(c.rbuf, maxBulk) == Requests.NeedMore {
        assert c.heard + more == c.heard;
        FramedWhole(c.heard, c.rbuf, c.accepted, c.wantClose, maxBulk, commands);
      }
    }

    /** A client's transaction is open exactly if an accepted MULTI opened it and it has not been sent the end
        of one since; it is spoilt exactly if an unknown command came since, and its queue is the others. */
    lemma TransactionsOverTheRun(id: nat)
      requires Valid() && id in conns
      ensures var t := conns[id].transaction;
              && (t.Some? <==> exists i: nat :: OpenSince(answers, id, i))
              && forall i: nat | OpenSince(answers, id, i) :: t.Some? && Follows(t.value, answers, id, i)
    {
      hide Attached, Awake, WouldWait, NameOf, ConnsOk, Registered, AnsweredTo, Fits, RanOf, RanIn, History, DbOk, OpenSince, Follows,
        TransactionOf;
      ConnFacts(conns, answers, nextId, id);
      FramesTell(answers, id);
    }

    /** What the registry holds against a client: the keys some event of the run touched since the client
        began to watch them, and the watches begun and ended are those its answers tell of. */
    lemma MarksOverTheRun(id: nat, key: Bytes)
      requires Valid() && id in conns
      ensures id in registry.dirty && (key in registry.dirty[id] <==> TouchedSince(log, id, key))
      ensures WatchLog(log) == WatchesIn(answers)
    {
      hide Awake, ConnsOk, Registered, History, DbOk, AllFit, WatchLog, WatchesIn, WatchedIn, DirtyIn, TouchedSince, IsWatched, W.Consistent, W.Listed;
      DirtyMeansTouchedSince(log, id, key);
    }
  }

  lemma OnlySomeWait(name: Name, argv: seq<Bytes>, timeouts: Bytes -> Timeout, keys: seq<Bytes>, onTimeout: Reply)
    requires WouldWait(name, argv, timeouts, keys, onTimeout)
    ensures CanWait(name)
  {
  }

  lemma GoneKeepsAwake(ws: seq<Waiter>, keys: seq<Bytes>, db: Db, gone: set<Bytes>)
    requires DbOk(db) && Awake(ws, keys, db)
    ensures DbOk(db - gone) && Awake(ws, keys, db - gone)
  {
    assert forall k | IsList(db - gone, k) :: IsList(db, k) && (db - gone)[k] == db[k];
  }

  lemma AttemptIsStep(name: Name, argv: seq<Bytes>, db: Db, c: Context, outOfMemory: bool)
    requires argv != []
    ensures match Attempt(name, argv, db, c, outOfMemory)
            case Done(after, reply) =>
              Done(after, reply) == Run(name, argv, db, c)
              || (DeniesOom(name) && after == db && reply == Refused(OutOfMemory))
            case Park(_, _, _) => true
  {
    hide Run, Message;
  }

  function ErrorText(e: Requests.ProtocolError): Bytes {
    match e
    case InvalidMultibulkLength => Ascii("ERR Protocol error: invalid multibulk length")
    case ExpectedDollar(got) => Ascii("ERR Protocol error: expected '$', got '") + [got] + Ascii("'")
    case InvalidBulkLength => Ascii("ERR Protocol error: invalid bulk length")
    case TooBigInline => Ascii("ERR Protocol error: too big inline request")
    case UnbalancedQuotes => Ascii("ERR Protocol error: unbalanced quotes in request")
  }

  lemma ConnFacts(conns: map<nat, Conn>, answers: seq<Answer>, nextId: nat, id: nat)
    requires ConnsOk(conns, answers, nextId) && id in conns
    ensures !conns[id].inExec && QueueOk(conns[id].transaction) && Settled(conns[id], AnsweredTo(answers, id))
    ensures Keeps(conns[id], TransactionOf(answers, id))
  {
  }

  lemma ConnsNew(conns: map<nat, Conn>, answers: seq<Answer>, nextId: nat)
    requires ConnsOk(conns, answers, nextId)
    ensures nextId + 1 !in conns && ConnsOk(conns[nextId + 1 := FreshConn()], answers, nextId + 1)
    ensures forall a | a in answers :: a.id != nextId + 1
  {
    hide AnsweredTo, QueueOk;
    NobodyAnswered(answers, nextId + 1);
    NoQueue();
  }

  lemma SettledNext(before: Conn, after: Conn, answered: seq<seq<Bytes>>, argv: seq<Bytes>)
    requires Settled(before, answered) && !before.blocked && after.accepted == before.accepted + [argv]
    ensures Settled(after, if after.blocked then answered else answered + [argv])
  {
  }

  lemma SettledSame(before: Conn, after: Conn, answered: seq<seq<Bytes>>)
    requires Settled(before, answered) && before.blocked == after.blocked && after.accepted == before.accepted
    ensures Settled(after, answered)
  {
  }

  lemma AwakeParked(ws: seq<Waiter>, w: Waiter, keys: seq<Bytes>, db: Db)
    requires Awake(ws, keys, db) && forall k | k in w.keys :: k !in db
    ensures Awake(ws + [w], keys, db)
  {
  }

  lemma DrainStarts(whole: Bytes, maxBulk: nat)
    ensures Requests.Drain(whole, maxBulk) == Requests.Before([], Requests.Drain(whole, maxBulk))
  {
    hide Requests.Drain;
    var d := Requests.Drain(whole, maxBulk);
    assert [] + d.requests == d.requests;
  }

  lemma DrainFails(whole: Bytes, taken: seq<seq<Bytes>>, buf: Bytes, error: Requests.ProtocolError, maxBulk: nat)
    requires Requests.Parse(buf, maxBulk) == Requests.Malformed(error)
    requires Requests.Drain(whole, maxBulk) == Requests.Before(taken, Requests.Drain(buf, maxBulk))
    ensures Requests.Drain(whole, maxBulk).requests == taken && Requests.Drain(whole, maxBulk).error.Some?
  {
    hide Requests.Parse;
    assert taken + [] == taken;
  }

  lemma DrainOne(whole: Bytes, taken: seq<seq<Bytes>>, buf: Bytes, argv: seq<Bytes>, consumed: nat, maxBulk: nat)
    requires Requests.Parse(buf, maxBulk) == Requests.Parsed(argv, consumed)
    requires Requests.Drain(whole, maxBulk) == Requests.Before(taken, Requests.Drain(buf, maxBulk))
    ensures Requests.Drain(whole, maxBulk) == Requests.Before(taken + [argv], Requests.Drain(buf[consumed..], maxBulk))
  {
    hide Requests.Parse;
    var d := Requests.Drain(buf[consumed..], maxBulk);
    assert taken + ([argv] + d.requests) == taken + [argv] + d.requests;
  }

  lemma ToldFacts(log: seq<Event>, answers: seq<Answer>, timeouts: Bytes -> Timeout)
    requires Told(log, answers, timeouts)
    ensures WatchLog(log) == WatchesIn(answers)
  {
  }

  lemma AwakeNobody(keys: seq<Bytes>, db: Db)
    ensures Awake([], keys, db)
  {
  }

  lemma SameWait(name: Name, argv: seq<Bytes>, timeouts: Bytes -> Timeout, a: seq<Bytes>, b: seq<Bytes>, x: Reply, y: Reply)
    requires WouldWait(name, argv, timeouts, a, x) && WouldWait(name, argv, timeouts, b, y)
    ensures a == b && x == y
  {
    hide Run;
  }

  lemma PassStarts(all: seq<Waiter>, conns: map<nat, Conn>, taken: seq<Bytes>, ready: seq<Bytes>, db: Db, answers: seq<Answer>)
    requires Awake(all, taken, db) && ready == []
    ensures Thinned([], []) && Awake([], ready, db) && Awake(all, taken + ready, db)
    ensures GivenSince(answers, |answers|) == {} && ServedInOrder(all, 0, conns, taken, {}, db)
    ensures answers[|answers|..] == [] && AnswersInTurn([], [])
  {
  }

  lemma OrderUnconcerned(all: seq<Waiter>, v: nat, conns: map<nat, Conn>, taken: seq<Bytes>, given: set<nat>, db: Db)
    requires v < |all| && Distinct(all) && ServedInOrder(all, v, conns, taken, given, db)
    requires forall k | k in all[v].keys :: k !in taken
    ensures ServedInOrder(all, v + 1, conns, taken, given, db)
  {
    hide ServedInOrder, NameOf, IsList;
    OrderStep(all, v, conns, taken, given, db, db, false);
    assert given + {} == given;
  }

  lemma OrderClosed(all: seq<Waiter>, v: nat, conns: map<nat, Conn>, taken: seq<Bytes>, given: set<nat>, db: Db)
    requires v < |all| && Distinct(all) && ServedInOrder(all, v, conns, taken, given, db)
    requires !Open(all[v], conns)
    ensures ServedInOrder(all, v + 1, conns, taken, given, db)
  {
    hide ServedInOrder, NameOf, IsList;
    OrderStep(all, v, conns, taken, given, db, db, false);
    assert given + {} == given;
  }

  lemma OrderWaits(all: seq<Waiter>, v: nat, conns: map<nat, Conn>, taken: seq<Bytes>, given: set<nat>, db: Db, after: Db)
    requires v < |all| && Distinct(all) && ServedInOrder(all, v, conns, taken, given, db)
    requires (forall k | k in all[v].keys :: k !in after) && (forall k | IsList(after, k) :: IsList(db, k))
    ensures ServedInOrder(all, v + 1, conns, taken, given, after)
  {
    hide ServedInOrder, NameOf;
    OrderStep(all, v, conns, taken, given, db, after, false);
    assert given + {} == given;
  }

  lemma OrderRetried(all: seq<Waiter>, v: nat, conns: map<nat, Conn>, taken: seq<Bytes>, given: set<nat>, db: Db, after: Db, reply: Reply)
    requires v < |all| && Distinct(all) && ServedInOrder(all, v, conns, taken, given, db)
    requires exists k | k in all[v].keys :: k in taken
    requires forall q | IsList(after, q) && NoMoveInto(all, q) :: IsList(db, q)
    requires forall q | PopsOnly(all[v], q) && NoMoveInto(all, q) && IsList(after, q) :: !reply.Error?
    requires forall q | !reply.Error? && PopsOnly(all[v], q) :: IsList(db, q)
    ensures ServedInOrder(all, v + 1, conns, taken, if reply.Error? then given else given + {all[v].id}, after)
  {
    hide ServedInOrder, NameOf, IsList;
    OrderStep(all, v, conns, taken, given, db, after, !reply.Error?);
    assert given + {} == given;
  }

  /** A retry, whatever comes of it, keeps the order of service. */
  lemma RetriedInOrder(all: seq<Waiter>, v: nat, conns: map<nat, Conn>, taken: seq<Bytes>, given: set<nat>, timeouts: Bytes -> Timeout,
                       db: Db, gone: set<Bytes>, c: Context, outOfMemory: bool)
    requires v < |all| && Distinct(all) && ServedInOrder(all, v, conns, taken, given, db)
    requires DbOk(db) && all[v].argv != [] && !c.inExec && c.timeouts == timeouts
    requires WouldWait(NameOf(all[v].argv[0]), all[v].argv, timeouts, all[v].keys, all[v].onTimeout)
    requires exists k | k in all[v].keys :: k in taken
    ensures match Attempt(NameOf(all[v].argv[0]), all[v].argv, db - gone, c, outOfMemory)
            case Done(after, reply) =>
              ServedInOrder(all, v + 1, conns, taken, if reply.Error? then given else given + {all[v].id}, after)
            case Park(_, _, _) =>
              (forall k | k in all[v].keys :: k !in db - gone) ==> ServedInOrder(all, v + 1, conns, taken, given, db - gone)
  {
    hide WouldWait, Attempt, ServedInOrder, Distinct, NameOf, PopsOnly, NoMoveInto, DbOk;
    var w := all[v];
    RetryOrder(all, w, timeouts, db, gone, c, outOfMemory);
    match Attempt(NameOf(w.argv[0]), w.argv, db - gone, c, outOfMemory)
    case Done(after, reply) => OrderRetried(all, v, conns, taken, given, db, after, reply);
    case Park(_, _, _) =>
      if forall k | k in w.keys :: k !in db - gone { OrderWaits(all, v, conns, taken, given, db, db - gone); }
  }

  lemma OrderKept(all: seq<Waiter>, conns: map<nat, Conn>, taken: seq<Bytes>, given: set<nat>, db: Db)
    requires ServedInOrder(all, |all|, conns, taken, given, db)
    ensures forall i, j, q | 0 <= i < j < |all| && Contends(all, i, conns, q) && PopsOnly(all[j], q) && all[j].id in given ::
              all[i].id in given
  {
  }

  lemma SettledReleased(before: Conn, after: Conn, answered: seq<seq<Bytes>>)
    requires Settled(before, answered) && before.blocked && after == before.(blocked := false)
    ensures Settled(after, answered + [before.accepted[|before.accepted| - 1]])
  {
  }

  lemma NobodyStarves(ws: seq<Waiter>, db: Db)
    requires Awake(ws, [], db)
    ensures forall w, k | w in ws && k in w.keys :: !IsList(db, k)
  {
  }

  lemma NoQueue()
    ensures QueueOk(None)
  {
  }
}
