/** Transactions, told by the frames a client was sent. */
module Transactions {
  import opened ByteStrings
  import opened Resp
  import opened Commands
  import opened CommandLaws
  import opened Serving
  import opened Frames
  import M = Meanings

  // ------------------------------------------------------------------
  // Each command's response follows the frames

  /** What a control command leaves of a transaction, and whether it was accepted: MULTI opens an empty
      and unspoilt one unless one is open, DISCARD drops the open one, RESET any, WATCH leaves it. */
  lemma ControlSays(argv: seq<Bytes>, t: Option<Transaction>)
    requires argv != [] && NameOf(argv[0]) in {MULTI, DISCARD, WATCH, RESET}
    ensures var (after, reply) := Controlled(NameOf(argv[0]), argv, t);
            && (Spells(argv[0], "MULTI") ==>
                  if |argv| == 1 && t.None? then after == Some(Transaction([], false)) && reply == Simple(Ascii("OK"))
                  else after == t && reply.Error?)
            && (Spells(argv[0], "DISCARD") ==>
                  if |argv| == 1 && t.Some? then after == None && reply == Simple(Ascii("OK")) else after == t && reply.Error?)
            && (Spells(argv[0], "WATCH") ==>
                  after == t && if |argv| > 1 && t.None? then reply == Simple(Ascii("OK")) else reply.Error?)
            && (Spells(argv[0], "RESET") ==> after == None && reply == Simple(Ascii("RESET")))
  {
    M.ControlWords(argv[0]);
    hide NameOf, Spells, Message;
  }

  /** The transaction after a response is what the frames tell of once that response is among them. */
  lemma DispatchFollows(answers: seq<Answer>, id: nat, argv: seq<Bytes>, t: Option<Transaction>, dirty: bool, o: Outcome, now: int,
                        t': Option<Transaction>, r: Response)
    requires argv != [] && Dispatched(id, NameOf(argv[0]), argv, t, dirty, o, now, t', r) && r.Frame?
    requires t == TransactionOf(answers, id)
    ensures t' == TransactionOf(answers + [Answer(id, argv, r.ran, r.reply)], id)
  {
    hide NameOf, Spells, Message, Ascii, TransactionOf, Controlled, ExecAnswers;
    TransactionNext(answers, Answer(id, argv, r.ran, r.reply), id);
    M.ControlWords(argv[0]);
    if NameOf(argv[0]) in {MULTI, DISCARD, WATCH, RESET} { ControlSays(argv, t); }
  }

  /** What a client is told: an open transaction takes a known command with `+QUEUED` and answers an unknown one with an
      error, running neither; and only QUIT, once run, ends the connection. */
  lemma DispatchSays(id: nat, argv: seq<Bytes>, t: Option<Transaction>, dirty: bool, o: Outcome, now: int,
                     t': Option<Transaction>, r: Response)
    requires argv != [] && Dispatched(id, NameOf(argv[0]), argv, t, dirty, o, now, t', r)
    ensures t.Some? && Queues(argv) ==> r == Frame(Simple(Ascii("QUEUED")), [], false)
    ensures t.Some? && Unknown(argv) ==> r.Frame? && r.reply.Error? && r.ran == [] && !r.close
    ensures r.Frame? && r.close <==> Spells(argv[0], "QUIT") && o.Done?
  {
    M.ControlWords(argv[0]);
    hide NameOf, Spells, Message, Ascii, Controlled;
  }

  /** Only a client without an open transaction is parked. */
  lemma ParkedOutside(id: nat, argv: seq<Bytes>, t: Option<Transaction>, dirty: bool, o: Outcome, now: int,
                      t': Option<Transaction>, r: Response)
    requires argv != [] && Dispatched(id, NameOf(argv[0]), argv, t, dirty, o, now, t', r) && r.ToPark? && CanWait(NameOf(argv[0]))
    ensures t == None && t' == None
  {
    hide NameOf, Controlled, ExecAnswers;
  }

  /** A command that can wait opens nothing. */
  lemma WaitersOpenNothing(a: Answer)
    requires a.argv != [] && CanWait(NameOf(a.argv[0]))
    ensures !Opens(a)
  {
    M.ControlWords(a.argv[0]);
    hide NameOf, Spells;
  }

  // ------------------------------------------------------------------
  // What the frames tell of a transaction

  /** Frame `i` opened a transaction of this client, and none of its frames has since ended it. */
  predicate OpenSince(answers: seq<Answer>, id: nat, i: nat) {
    && i < |answers| && answers[i].id == id && Opens(answers[i])
    && forall j | i < j < |answers| && answers[j].id == id :: !Opens(answers[j]) && !Closes(answers[j])
  }

  /** The commands since that its queue takes, in order. */
  function QueuedIn(answers: seq<Answer>, id: nat): seq<seq<Bytes>> {
    if answers == [] then []
    else
      var a := answers[|answers| - 1];
      QueuedIn(answers[..|answers| - 1], id) + if a.id == id && Queues(a.argv) then [a.argv] else []
  }

  /** What the frames after frame `i` made of the transaction it opened: spoilt exactly if an unknown command
      came, its queue the others. */
  ghost predicate Follows(t: Transaction, answers: seq<Answer>, id: nat, i: nat)
    requires i < |answers|
  {
    && (t.failed <==> exists j | i < j < |answers| :: answers[j].id == id && Unknown(answers[j].argv))
    && t.queued == QueuedIn(answers[i + 1..], id)
  }

  /** A transaction is open exactly if an accepted MULTI opened it and nothing ended it since. */
  lemma {:induction false} FramesTell(answers: seq<Answer>, id: nat)
    ensures TransactionOf(answers, id).Some? <==> exists i: nat :: OpenSince(answers, id, i)
    ensures forall i: nat | OpenSince(answers, id, i) ::
              TransactionOf(answers, id).Some? && Follows(TransactionOf(answers, id).value, answers, id, i)
    decreases |answers|
  {
    hide Opens, Closes, Follows, Gathered;
    if answers != [] {
      var n := |answers| - 1;
      FramesTell(answers[..n], id);
      forall i: nat ensures OpenSince(answers, id, i) <==> OpenNow(answers, id, i) { SinceNext(answers, id, i); }
      hide OpenSince;
      if TransactionOf(answers, id).Some? {
        if answers[n].id == id && Opens(answers[n]) {
          assert OpenNow(answers, id, n);
        } else {
          var i: nat :| OpenSince(answers[..n], id, i);
          SinceInside(answers[..n], id, i);
          assert OpenNow(answers, id, i);
        }
      }
      forall i: nat | OpenSince(answers, id, i)
        ensures TransactionOf(answers, id).Some? && Follows(TransactionOf(answers, id).value, answers, id, i)
      {
        if i == n {
          JustOpened(answers, id);
        } else {
          SinceInside(answers[..n], id, i);
          FollowsOn(TransactionOf(answers[..n], id).value, answers, id, i);
        }
      }
    }
  }

  lemma SinceInside(answers: seq<Answer>, id: nat, i: nat)
    requires OpenSince(answers, id, i)
    ensures i < |answers|
  {
  }

  /** The same, told from what was so before the last frame. */
  predicate OpenNow(answers: seq<Answer>, id: nat, i: nat)
    requires answers != []
  {
    var n := |answers| - 1;
    if i == n then answers[n].id == id && Opens(answers[n])
    else OpenSince(answers[..n], id, i) && (answers[n].id == id ==> !Opens(answers[n]) && !Closes(answers[n]))
  }

  lemma JustOpened(answers: seq<Answer>, id: nat)
    requires answers != []
    ensures Follows(Transaction([], false), answers, id, |answers| - 1)
  {
    assert answers[|answers|..] == [];
  }

  lemma FollowsOn(t: Transaction, answers: seq<Answer>, id: nat, i: nat)
    requires i + 1 < |answers| && Follows(t, answers[..|answers| - 1], id, i)
    ensures var a := answers[|answers| - 1]; Follows(if a.id == id then Gathered(t, a) else t, answers, id, i)
  {
    hide NameOf;
    var n := |answers| - 1;
    QueuedNext(answers, id, i);
    hide QueuedIn;
    assert forall j | 0 <= j < n :: answers[..n][j] == answers[j];
    if answers[n].id == id && Unknown(answers[n].argv) { assert i < n < |answers|; }
  }

  lemma SinceNext(answers: seq<Answer>, id: nat, i: nat)
    requires answers != []
    ensures OpenSince(answers, id, i) <==> OpenNow(answers, id, i)
  {
    hide Opens, Closes;
    var n := |answers| - 1;
    assert forall j | 0 <= j < n :: answers[..n][j] == answers[j];
  }

  lemma QueuedNext(answers: seq<Answer>, id: nat, i: nat)
    requires i + 1 < |answers|
    ensures var n := |answers| - 1;
            QueuedIn(answers[i + 1..], id)
            == QueuedIn(answers[..n][i + 1..], id) + if answers[n].id == id && Queues(answers[n].argv) then [answers[n].argv] else []
  {
    hide Queues;
    var n := |answers| - 1;
    assert answers[i + 1..][..|answers[i + 1..]| - 1] == answers[..n][i + 1..];
  }

  /** One reply for each command queued, in order, each what that command came to. */
  predicate AnswersAll(r: Response, queued: seq<seq<Bytes>>) {
    && r.Frame? && |r.ran| == |queued| && (forall k | 0 <= k < |queued| :: r.ran[k].argv == queued[k])
    && r.reply.Array? && |r.reply.items| == |queued|
    && forall k | 0 <= k < |queued| :: r.reply.items[k] == r.ran[k].reply
  }

  /** A well-formed EXEC, by the frames since MULTI: refused if an unknown command came, aborted if a
      watched key was touched, and otherwise every command its queue took is answered. */
  lemma ExecAnswersTheQueue(answers: seq<Answer>, id: nat, i: nat, argv: seq<Bytes>, dirty: bool, o: Outcome, now: int,
                            t': Option<Transaction>, r: Response)
    requires |argv| == 1 && Spells(argv[0], "EXEC") && OpenSince(answers, id, i)
    requires Dispatched(id, NameOf(argv[0]), argv, TransactionOf(answers, id), dirty, o, now, t', r)
    ensures i < |answers| && t' == None
    ensures if exists j | i < j < |answers| :: answers[j].id == id && Unknown(answers[j].argv) then
              r == Frame(Error(Ascii("EXECABORT Transaction discarded because of previous errors.")), [], false)
            else if dirty then r == Frame(NilArray, [], false)
            else AnswersAll(r, QueuedIn(answers[i + 1..], id))
  {
    M.ControlWords(argv[0]);
    FramesTell(answers, id);
    SinceInside(answers, id, i);
    ExecIs(id, argv, TransactionOf(answers, id), dirty, o, now, t', r);
    hide NameOf, Spells, Opens, Closes, Unknown, TransactionOf, QueuedIn, OpenSince, Dispatched, ExecAnswers, AnswersAll, Ascii;
  }

  lemma ExecIs(id: nat, argv: seq<Bytes>, t: Option<Transaction>, dirty: bool, o: Outcome, now: int, t': Option<Transaction>, r: Response)
    requires |argv| == 1 && NameOf(argv[0]) == EXEC && Dispatched(id, EXEC, argv, t, dirty, o, now, t', r)
    ensures t' == None
    ensures t.Some? ==>
              if t.value.failed then r == Frame(Error(Ascii("EXECABORT Transaction discarded because of previous errors.")), [], false)
              else if dirty then r == Frame(NilArray, [], false)
              else AnswersAll(r, t.value.queued)
  {
    hide NameOf, Ascii;
  }

  /** What that says of any command, whenever the transaction was opened. */
  ghost predicate ExecFollows(answers: seq<Answer>, id: nat, argv: seq<Bytes>, dirty: bool, r: Response) {
    argv != [] && Spells(argv[0], "EXEC") && |argv| == 1 ==>
      forall i: nat | OpenSince(answers, id, i) ::
        if exists j | i < j < |answers| :: answers[j].id == id && Unknown(answers[j].argv) then
          r == Frame(Error(Ascii("EXECABORT Transaction discarded because of previous errors.")), [], false)
        else if dirty then r == Frame(NilArray, [], false)
        else AnswersAll(r, QueuedIn(answers[i + 1..], id))
  }

  lemma ExecsFollow(answers: seq<Answer>, id: nat, argv: seq<Bytes>, dirty: bool, o: Outcome, now: int, t': Option<Transaction>, r: Response)
    requires argv != [] && Dispatched(id, NameOf(argv[0]), argv, TransactionOf(answers, id), dirty, o, now, t', r)
    ensures ExecFollows(answers, id, argv, dirty, r)
  {
    hide NameOf, Spells, OpenSince, Unknown, TransactionOf, QueuedIn, Dispatched, AnswersAll, Ascii;
    if Spells(argv[0], "EXEC") && |argv| == 1 {
      forall i: nat | OpenSince(answers, id, i)
        ensures i < |answers|
        ensures if exists j | i < j < |answers| :: answers[j].id == id && Unknown(answers[j].argv) then
                  r == Frame(Error(Ascii("EXECABORT Transaction discarded because of previous errors.")), [], false)
                else if dirty then r == Frame(NilArray, [], false)
                else AnswersAll(r, QueuedIn(answers[i + 1..], id))
      {
        ExecAnswersTheQueue(answers, id, i, argv, dirty, o, now, t', r);
      }
    }
  }
}
