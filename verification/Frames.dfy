/** What each frame says: how a reply relates to the command it answers and to what ran for it. */
module Frames {
  import opened ByteStrings
  import opened Resp
  import opened Commands
  import opened CommandLaws
  import opened Serving

  /** What dispatch produced: a frame to send, or a command to park. */
  datatype Response =
    | Frame(reply: Reply, ran: seq<Ran>, close: bool)
    | ToPark(waiter: Waiter)

  /** What MULTI, DISCARD, WATCH and RESET do to a connection's transaction, and what they answer. */
  function Controlled(name: Name, argv: seq<Bytes>, t: Option<Transaction>): (Option<Transaction>, Reply)
    requires name in {MULTI, DISCARD, WATCH, RESET}
  {
    match name
    case MULTI =>
      if |argv| != 1 then (t, Refused(WrongArity))
      else if t.Some? then (t, Refused(NestedMulti))
      else (Some(Transaction([], false)), OkReply())
    case DISCARD =>
      if |argv| != 1 then (t, Refused(WrongArity))
      else if t.None? then (t, Refused(DiscardWithoutMulti))
      else (None, OkReply())
    case WATCH =>
      if |argv| <= 1 then (t, Refused(WrongArity))
      else if t.Some? then (t, Refused(WatchInMulti))
      else (t, OkReply())
    case RESET => (None, Simple(Ascii("RESET")))
  }

  function QueuedReply(): Reply {
    Simple(Ascii("QUEUED"))
  }

  /** Replies of commands that ran, in order. */
  function RepliesOf(ran: seq<Ran>): (r: seq<Reply>)
    ensures |r| == |ran| && forall i | 0 <= i < |ran| :: r[i] == ran[i].reply
  {
    seq(|ran|, i requires 0 <= i < |ran| => ran[i].reply)
  }

  // ------------------------------------------------------------------
  // Every frame fits its command

  /** What a data command is told when nothing ran for it: that it was queued or could not be, or what
      a blocking command says when it gives up. */
  ghost predicate Unrun(name: Name, argv: seq<Bytes>, reply: Reply, timeouts: Bytes -> Timeout) {
    || reply == QueuedReply()
    || reply == Refused(UnknownCommand)
    || exists keys :: WouldWait(name, argv, timeouts, keys, reply)
  }

  /** A frame for no command is a framing error. EXEC's is the array of the replies of the queue that ran
      for it, in order, or nothing ran and it refuses or aborts. A control command's is what `Controlled`
      says. Any other is the reply of the one command that ran for it, or nothing ran. */
  ghost predicate Fits(a: Answer, timeouts: Bytes -> Timeout) {
    if a.argv == [] then a.ran == [] && a.reply.Error?
    else
      var name := NameOf(a.argv[0]);
      if name == EXEC then
        || a.reply == Array(RepliesOf(a.ran))
        || (a.ran == [] && a.reply in [Refused(WrongArity), Refused(ExecWithoutMulti), Refused(ExecAbort), NilArray])
      else if name in {MULTI, DISCARD, WATCH, RESET} then
        a.ran == [] && exists t :: a.reply == Controlled(name, a.argv, t).1
      else
        a.ran == [Ran(a.argv, a.reply)] || (a.ran == [] && Unrun(name, a.argv, a.reply, timeouts))
  }

  ghost predicate AllFit(answers: seq<Answer>, timeouts: Bytes -> Timeout) {
    forall a | a in answers :: Fits(a, timeouts)
  }

  lemma AppendFit(answers: seq<Answer>, a: Answer, timeouts: Bytes -> Timeout)
    requires AllFit(answers, timeouts) && Fits(a, timeouts)
    ensures AllFit(answers + [a], timeouts)
  {
    hide Fits;
  }

  // ------------------------------------------------------------------
  // What the frames hand out

  /** Copies of `v` handed out by these replies to these commands. */
  ghost function RepliesHand(argvs: seq<seq<Bytes>>, replies: seq<Reply>, v: Bytes): nat {
    if argvs == [] || replies == [] then 0
    else
      (if argvs[0] == [] then 0 else HandedBy(NameOf(argvs[0][0]), replies[0], v))
      + RepliesHand(argvs[1..], replies[1..], v)
  }

  function ArgvsOf(ran: seq<Ran>): (r: seq<seq<Bytes>>)
    ensures |r| == |ran|
  {
    seq(|ran|, i requires 0 <= i < |ran| => ran[i].argv)
  }

  /** Copies of `v` the client of a frame is handed by its reply: as EXEC's, by each reply in the array
      for the command it answers; as any other's, by the reply itself. */
  ghost function FrameHands(a: Answer, v: Bytes): nat {
    if a.argv == [] then 0
    else if NameOf(a.argv[0]) == EXEC then
      if a.reply.Array? then RepliesHand(ArgvsOf(a.ran), a.reply.items, v) else 0
    else HandedBy(NameOf(a.argv[0]), a.reply, v)
  }

  ghost function FramesHand(answers: seq<Answer>, v: Bytes): nat {
    if answers == [] then 0 else FramesHand(answers[..|answers| - 1], v) + FrameHands(answers[|answers| - 1], v)
  }

  lemma {:induction false} HandedConcat(a: seq<Ran>, b: seq<Ran>, v: Bytes)
    ensures Handed(a + b, v) == Handed(a, v) + Handed(b, v)
    decreases |b|
  {
    hide HandedBy, NameOf;
    if b == [] {
      assert a + b == a;
    } else {
      var rest := b[..|b| - 1];
      assert (a + b)[..|a + b| - 1] == a + rest;
      HandedConcat(a, rest, v);
    }
  }

  lemma {:induction false} QueueHands(ran: seq<Ran>, v: Bytes)
    ensures RepliesHand(ArgvsOf(ran), RepliesOf(ran), v) == Handed(ran, v)
    decreases |ran|
  {
    hide HandedBy, NameOf;
    if ran != [] {
      var first, rest := ran[0], ran[1..];
      assert ArgvsOf(ran)[1..] == ArgvsOf(rest) && RepliesOf(ran)[1..] == RepliesOf(rest);
      QueueHands(rest, v);
      assert ran == [first] + rest && [first][..0] == [];
      HandedConcat([first], rest, v);
    }
  }

  lemma UnrunHandsNothing(name: Name, argv: seq<Bytes>, reply: Reply, timeouts: Bytes -> Timeout, v: Bytes)
    requires Unrun(name, argv, reply, timeouts)
    ensures HandedBy(name, reply, v) == 0
  {
    hide Message, Ascii, NameOf;
    if keys :| WouldWait(name, argv, timeouts, keys, reply) {
      GivingUpIsNil(name, argv, timeouts, keys, reply);
    }
  }

  lemma GivingUpIsNil(name: Name, argv: seq<Bytes>, timeouts: Bytes -> Timeout, keys: seq<Bytes>, reply: Reply)
    requires WouldWait(name, argv, timeouts, keys, reply)
    ensures reply == Nil || reply == NilArray
  {
    hide Message, PopFirstList, MpopLists, MoveOne, ParseMultiKey, ParseEnd, MoveEnds, ParseTimeout;
  }

  /** A frame hands out exactly what the commands that ran for it handed out. */
  lemma FrameHandsWhatRan(a: Answer, timeouts: Bytes -> Timeout, v: Bytes)
    requires Fits(a, timeouts)
    ensures FrameHands(a, v) == Handed(a.ran, v)
  {
    hide NameOf, Unrun, RepliesHand, Message, Ascii;
    if a.argv != [] {
      var name := NameOf(a.argv[0]);
      if name == EXEC && a.reply == Array(RepliesOf(a.ran)) {
        QueueHands(a.ran, v);
      } else if a.ran == [Ran(a.argv, a.reply)] {
        assert a.ran[..0] == [];
      } else if name !in {MULTI, EXEC, DISCARD, WATCH, RESET} {
        UnrunHandsNothing(name, a.argv, a.reply, timeouts, v);
      }
    }
  }

  lemma {:induction false} FramesHandWhatRan(answers: seq<Answer>, timeouts: Bytes -> Timeout, v: Bytes)
    requires AllFit(answers, timeouts)
    ensures FramesHand(answers, v) == Handed(RanIn(answers), v)
    decreases |answers|
  {
    hide Fits, FrameHands;
    if answers != [] {
      var last, earlier := answers[|answers| - 1], answers[..|answers| - 1];
      assert last in answers && forall a | a in earlier :: a in answers;
      FramesHandWhatRan(earlier, timeouts, v);
      FrameHandsWhatRan(last, timeouts, v);
      HandedConcat(RanIn(earlier), last.ran, v);
    }
  }

  // ------------------------------------------------------------------
  // What the frames say of watching

  /** The UNWATCHes among what ran. */
  function Unwatches(id: nat, ran: seq<Ran>): seq<Event> {
    if ran == [] then []
    else
      var r := ran[|ran| - 1];
      Unwatches(id, ran[..|ran| - 1])
      + if r.argv != [] && NameOf(r.argv[0]) == UNWATCH && !r.reply.Error? then [EndedWatch(id)] else []
  }

  /** What a frame tells: an accepted WATCH began to watch its keys; an accepted DISCARD or UNWATCH, a
      RESET, and an EXEC that found a transaction ended the watch. */
  function WatchesOf(a: Answer): seq<Event> {
    if a.argv == [] then []
    else
      match NameOf(a.argv[0])
      case WATCH => if a.reply.Error? then [] else [BeganWatch(a.id, Keys(a.argv[1..]))]
      case DISCARD => if a.reply.Error? then [] else [EndedWatch(a.id)]
      case RESET => [EndedWatch(a.id)]
      case EXEC =>
        if |a.argv| != 1 || a.reply == Refused(ExecWithoutMulti) then []
        else [EndedWatch(a.id)] + Unwatches(a.id, a.ran)
      case _ => Unwatches(a.id, a.ran)
  }

  lemma PlainWatches(a: Answer)
    requires a.argv != [] && NameOf(a.argv[0]) !in {WATCH, DISCARD, RESET, EXEC}
    ensures WatchesOf(a) == Unwatches(a.id, a.ran)
  {
    hide NameOf, Unwatches;
  }

  function WatchesIn(answers: seq<Answer>): seq<Event> {
    if answers == [] then [] else WatchesIn(answers[..|answers| - 1]) + WatchesOf(answers[|answers| - 1])
  }

  lemma AppendWatches(answers: seq<Answer>, a: Answer)
    ensures WatchesIn(answers + [a]) == WatchesIn(answers) + WatchesOf(a)
  {
    assert (answers + [a])[..|answers|] == answers;
  }

  lemma {:induction false} UnwatchesOwn(id: nat, ran: seq<Ran>)
    ensures forall e | e in Unwatches(id, ran) :: e == EndedWatch(id)
    decreases |ran|
  {
    hide NameOf;
    if ran != [] { UnwatchesOwn(id, ran[..|ran| - 1]); }
  }

  /** A client that was never answered is in none of it. */
  lemma {:induction false} NobodyWatches(answers: seq<Answer>, id: nat)
    requires forall a | a in answers :: a.id != id
    ensures forall e | e in WatchesIn(answers) && e.BeganWatch? :: e.id != id
    decreases |answers|
  {
    hide NameOf;
    if answers != [] {
      var last, earlier := answers[|answers| - 1], answers[..|answers| - 1];
      assert last in answers && forall a | a in earlier :: a in answers;
      NobodyWatches(earlier, id);
      UnwatchesOwn(last.id, last.ran);
    }
  }

  /** The log and the frames tell the same story: the same commands ran, in the same order, with the
      same replies; the same watches began and ended; and every frame fits its command. */
  ghost predicate Told(log: seq<Event>, answers: seq<Answer>, timeouts: Bytes -> Timeout) {
    RanOf(log) == RanIn(answers) && WatchLog(log) == WatchesIn(answers) && AllFit(answers, timeouts)
  }

  lemma ToldMore(log: seq<Event>, answers: seq<Answer>, timeouts: Bytes -> Timeout, more: seq<Event>, a: Answer)
    requires Told(log, answers, timeouts) && Fits(a, timeouts)
    requires RanOf(more) == RanOf(log) + a.ran && WatchLog(more) == WatchLog(log) + WatchesOf(a)
    ensures Told(more, answers + [a], timeouts)
  {
    hide Fits, WatchesOf, RanOf, WatchLog;
    AppendAnswer(answers, a);
    AppendWatches(answers, a);
    AppendFit(answers, a, timeouts);
  }

  lemma ToldStill(log: seq<Event>, answers: seq<Answer>, timeouts: Bytes -> Timeout, more: seq<Event>)
    requires Told(log, answers, timeouts) && RanOf(more) == RanOf(log) && WatchLog(more) == WatchLog(log)
    ensures Told(more, answers, timeouts)
  {
  }

  /** A frame for no command, saying an error, adds nothing to the story. */
  lemma ToldError(log: seq<Event>, answers: seq<Answer>, timeouts: Bytes -> Timeout, id: nat, reply: Reply)
    requires Told(log, answers, timeouts) && reply.Error?
    ensures Told(log, answers + [Answer(id, [], [], reply)], timeouts)
  {
    hide RanOf, WatchLog;
    assert RanOf(log) + [] == RanOf(log) && WatchLog(log) + [] == WatchLog(log);
    ToldMore(log, answers, timeouts, log, Answer(id, [], [], reply));
  }

  /** A waiter's command, run again with this reply. */
  lemma ToldRetry(log: seq<Event>, answers: seq<Answer>, timeouts: Bytes -> Timeout, more: seq<Event>, w: Waiter, reply: Reply)
    requires Told(log, answers, timeouts) && w.argv != [] && CanWait(NameOf(w.argv[0]))
    requires RanOf(more) == RanOf(log) + [Ran(w.argv, reply)] && WatchLog(more) == WatchLog(log)
    ensures Told(more, answers + [Answer(w.id, w.argv, [Ran(w.argv, reply)], reply)], timeouts)
  {
    hide RanOf, WatchLog, NameOf;
    var a := Answer(w.id, w.argv, [Ran(w.argv, reply)], reply);
    assert a.ran[..0] == [];
    assert Unwatches(w.id, []) == [];
    assert Unwatches(w.id, a.ran) == Unwatches(w.id, a.ran[..0]) + [];
    assert WatchesOf(a) == [] && WatchLog(log) + [] == WatchLog(log);
    ToldMore(log, answers, timeouts, more, a);
  }

  /** A waiter that gives up says its timeout reply. */
  lemma ToldTimeout(log: seq<Event>, answers: seq<Answer>, timeouts: Bytes -> Timeout, w: Waiter)
    requires Told(log, answers, timeouts) && w.argv != []
    requires WouldWait(NameOf(w.argv[0]), w.argv, timeouts, w.keys, w.onTimeout)
    ensures Told(log, answers + [Answer(w.id, w.argv, [], w.onTimeout)], timeouts)
  {
    hide RanOf, WatchLog, NameOf, Run;
    var a := Answer(w.id, w.argv, [], w.onTimeout);
    assert RanOf(log) + [] == RanOf(log) && WatchLog(log) + [] == WatchLog(log);
    ToldMore(log, answers, timeouts, log, a);
  }

  // ------------------------------------------------------------------
  // Oldest first

  /** The clients that frames from number `from` on gave something: whose reply was not an error. */
  function GivenSince(answers: seq<Answer>, from: nat): set<nat> {
    set n | from <= n < |answers| && !answers[n].reply.Error? :: answers[n].id
  }

  lemma GivenMore(answers: seq<Answer>, from: nat, a: Answer)
    requires from <= |answers|
    ensures GivenSince(answers + [a], from) == GivenSince(answers, from) + if a.reply.Error? then {} else {a.id}
  {
    var more := answers + [a];
    forall id | id in GivenSince(answers, from) ensures id in GivenSince(more, from) {
      var n :| from <= n < |answers| && !answers[n].reply.Error? && answers[n].id == id;
      assert more[n] == answers[n];
    }
    forall id | id in GivenSince(more, from) ensures id in GivenSince(answers, from) || (id == a.id && !a.reply.Error?) {
      var n :| from <= n < |more| && !more[n].reply.Error? && more[n].id == id;
      if n < |answers| { assert answers[n] == more[n]; }
    }
    if !a.reply.Error? { assert more[|answers|] == a; }
  }

  /** These frames answer some of these waiters, each with what its command, run again, replied, and in
      the waiters' order. */
  predicate AnswersInTurn(frames: seq<Answer>, ws: seq<Waiter>)
    decreases |ws|
  {
    if ws == [] then frames == []
    else
      var w, earlier := ws[|ws| - 1], ws[..|ws| - 1];
      || AnswersInTurn(frames, earlier)
      || (frames != [] && AnswersInTurn(frames[..|frames| - 1], earlier)
          && frames[|frames| - 1] == Answer(w.id, w.argv, [Ran(w.argv, frames[|frames| - 1].reply)], frames[|frames| - 1].reply))
  }

  lemma InTurnStays(frames: seq<Answer>, ws: seq<Waiter>, w: Waiter)
    requires AnswersInTurn(frames, ws)
    ensures AnswersInTurn(frames, ws + [w])
  {
    assert (ws + [w])[..|ws|] == ws;
  }

  lemma InTurnMore(frames: seq<Answer>, ws: seq<Waiter>, w: Waiter, reply: Reply)
    requires AnswersInTurn(frames, ws)
    ensures AnswersInTurn(frames + [Answer(w.id, w.argv, [Ran(w.argv, reply)], reply)], ws + [w])
  {
    assert (ws + [w])[..|ws|] == ws;
    assert (frames + [Answer(w.id, w.argv, [Ran(w.argv, reply)], reply)])[..|frames|] == frames;
  }

  // ------------------------------------------------------------------
  // What dispatching a command comes to

  /** EXEC refuses, aborts, or answers each queued command in order. */
  predicate ExecAnswers(t: Option<Transaction>, dirty: bool, r: Response) {
    if t.None? then r == Frame(Refused(ExecWithoutMulti), [], false)
    else if t.value.failed then r == Frame(Refused(ExecAbort), [], false)
    else if dirty then r == Frame(NilArray, [], false)
    else
      && r.Frame? && !r.close
      && |r.ran| == |t.value.queued| && (forall i | 0 <= i < |r.ran| :: r.ran[i].argv == t.value.queued[i])
      && r.reply == Array(RepliesOf(r.ran))
  }

  /** The response to a command of client `id` whose transaction goes from `t` to `t'`: queued,
      obeyed as a control command, or run at `now` with outcome `o`; `dirty` says whether a key the client
      watches was touched. */
  predicate Dispatched(id: nat, name: Name, argv: seq<Bytes>, t: Option<Transaction>, dirty: bool, o: Outcome,
                       now: int, t': Option<Transaction>, r: Response)
  {
    if t.Some? && !IsControl(name) then
      if name == UNKNOWN then r == Frame(Refused(UnknownCommand), [], false) && t' == Some(t.value.(failed := true))
      else r == Frame(QueuedReply(), [], false) && t' == Some(t.value.(queued := t.value.queued + [argv]))
    else if name == EXEC then
      if |argv| != 1 then r == Frame(Refused(WrongArity), [], false) && t' == t
      else ExecAnswers(t, dirty, r) && t' == None
    else if name in {MULTI, DISCARD, WATCH, RESET} then
      r == Frame(Controlled(name, argv, t).1, [], false) && t' == Controlled(name, argv, t).0
    else
      && t' == t
      && match o
         case Done(_, reply) => r == Frame(reply, [Ran(argv, reply)], name == QUIT)
         case Park(keys, deadline, onTimeout) => r == ToPark(Waiter(id, keys, deadline, argv, onTimeout, now))
  }

  /** Where that command leaves the keyspace `db`, which is `base` once the keys that go away before a
      command are gone. (What EXEC's queue does to it is for the history to say.) */
  predicate Lands(name: Name, t: Option<Transaction>, o: Outcome, r: Response, db: Db, base: Db, after: Db) {
    if t.Some? && !IsControl(name) then after == db
    else if name in {MULTI, EXEC, DISCARD, WATCH, RESET} then r.Frame? && (r.ran == [] ==> after == base)
    else after == if o.Done? then o.db else base
  }

  lemma DispatchedFits(id: nat, argv: seq<Bytes>, t: Option<Transaction>, dirty: bool, o: Outcome, now: int, t': Option<Transaction>, r: Response, timeouts: Bytes -> Timeout)
    requires argv != [] && Dispatched(id, NameOf(argv[0]), argv, t, dirty, o, now, t', r) && r.Frame?
    ensures Fits(Answer(id, argv, r.ran, r.reply), timeouts)
  {
    hide NameOf, Message, Ascii, WouldWait;
    assert RepliesOf([]) == [];
    if NameOf(argv[0]) in {MULTI, DISCARD, WATCH, RESET} && !(t.Some? && !IsControl(NameOf(argv[0]))) {
      assert r.reply == Controlled(NameOf(argv[0]), argv, t).1;
    }
  }
}
