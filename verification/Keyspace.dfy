/** The handlers as the server runs them: in place, on one mutable keyspace. */
module Keyspaces {
  import opened ByteStrings
  import opened Resp
  import opened Commands

  /** What a handler reports; the keyspace it leaves behind is the object's own. */
  datatype Report =
    | Replied(reply: Reply)
    | Waits(keys: seq<Bytes>, deadline: Option<int>, onTimeout: Reply)

  /** A report and a keyspace together say what `Run` says. */
  ghost predicate Reports(o: Outcome, before: Db, after: Db, r: Report) {
    match o
    case Done(db, reply) => after == db && r == Replied(reply)
    case Park(keys, deadline, onTimeout) => after == before && r == Waits(keys, deadline, onTimeout)
  }

  /** `count` pops off a list held in hand. */
  function PopItems(items: seq<Bytes>, end: End, count: nat): (seq<Bytes>, seq<Bytes>)
    decreases count
  {
    if count == 0 || items == [] then ([], items)
    else
      var (value, rest) := PopItem(items, end);
      var (others, last) := PopItems(rest, end, count - 1);
      ([value] + others, last)
  }

  /** Popping a list in hand and cleaning up once is popping the key that many times. */
  lemma {:induction false} PopItemsIsPopMany(db: Db, key: Bytes, end: End, count: nat)
    requires IsList(db, key) && db[key].items != []
    ensures var (popped, rest) := PopItems(db[key].items, end, count);
            PopMany(db, key, end, count) == (popped, DeleteIfEmpty(db[key := ListValue(rest)], key))
    decreases count
  {
    if count == 0 {
      assert db[key := db[key]] == db;
    } else {
      var (value, rest) := PopItem(db[key].items, end);
      var put := db[key := ListValue(rest)];
      if rest == [] {
        assert PopItems(rest, end, count - 1) == ([], rest);
        assert PopMany(put - {key}, key, end, count - 1) == ([], put - {key});
      } else {
        PopItemsIsPopMany(put, key, end, count - 1);
        var last := PopItems(rest, end, count - 1).1;
        assert put[key := ListValue(last)] == db[key := ListValue(last)];
      }
    }
  }

  /** What was popped so far, in front of what further pops give. */
  function Ahead<T>(popped: seq<Bytes>, further: (seq<Bytes>, T)): (seq<Bytes>, T) {
    (popped + further.0, further.1)
  }

  lemma NothingAhead<T>(further: (seq<Bytes>, T))
    ensures Ahead([], further) == further
  {
    assert [] + further.0 == further.0;
  }

  lemma AheadOfNothing<T>(popped: seq<Bytes>, last: T)
    ensures Ahead(popped, ([], last)) == (popped, last)
  {
    assert popped + [] == popped;
  }

  lemma AheadMore<T>(popped: seq<Bytes>, value: Bytes, further: (seq<Bytes>, T))
    ensures Ahead(popped, ([value] + further.0, further.1)) == Ahead(popped + [value], further)
  {
    assert popped + ([value] + further.0) == popped + [value] + further.0;
  }

  class Keyspace {
    var db: Db

    constructor (db: Db)
      ensures this.db == db
    {
      this.db := db;
    }

    /** Drops `key` if its collection was emptied. */
    method CleanUp(key: Bytes)
      modifies this
      ensures db == DeleteIfEmpty(old(db), key)
    {
      if key in db && db[key].ListValue? && db[key].items == [] {
        db := db - {key};
      }
    }

    method PopFrom(key: Bytes, end: End) returns (value: Option<Bytes>)
      modifies this
      ensures match PopOne(old(db), key, end)
              case None => value == None && db == old(db)
              case Some((v, after)) => value == Some(v) && db == after
    {
      if key !in db || !db[key].ListValue? || db[key].items == [] { return None; }
      var (v, rest) := PopItem(db[key].items, end);
      db := db[key := ListValue(rest)];
      CleanUp(key);
      return Some(v);
    }

    method Move(source: Bytes, destination: Bytes, from: End, to: End) returns (value: Option<Bytes>)
      requires !WrongFor(db, destination)
      modifies this
      ensures match MoveOne(old(db), source, destination, from, to)
              case None => value == None && db == old(db)
              case Some((v, after)) => value == Some(v) && db == after
    {
      if source !in db || !db[source].ListValue? || db[source].items == [] { return None; }
      var (v, rest) := PopItem(db[source].items, from);
      db := db[source := ListValue(rest)];
      var target := if destination in db then db[destination].items else [];
      db := db[destination := ListValue(PushItem(target, to, v))];
      CleanUp(source);
      return Some(v);
    }

    method PopFirst(keys: seq<Bytes>, end: End) returns (r: Checked<Option<Reply>>)
      modifies this
      ensures match PopFirstList(old(db), keys, end)
              case Fail(reply) => r == Fail(reply) && db == old(db)
              case Pass(None) => r == Pass(None) && db == old(db)
              case Pass(Some((reply, after))) => r == Pass(Some(reply)) && db == after
    {
      hide PopOne, Message;
      for i := 0 to |keys|
        invariant db == old(db)
        invariant PopFirstList(db, keys[i..], end) == PopFirstList(old(db), keys, end)
      {
        assert keys[i..][0] == keys[i] && keys[i..][1..] == keys[i + 1..];
        if WrongFor(db, keys[i]) { return Fail(Refused(WrongType)); }
        var value := PopFrom(keys[i], end);
        if value.Some? {
          return Pass(Some(Array([Bulk(keys[i]), Bulk(value.value)])));
        }
      }
      assert keys[|keys|..] == [];
      return Pass(None);
    }

    method Mpop(keys: seq<Bytes>, end: End, count: nat) returns (r: Checked<Option<Reply>>)
      modifies this
      ensures match MpopLists(old(db), keys, end, count)
              case Fail(reply) => r == Fail(reply) && db == old(db)
              case Pass(None) => r == Pass(None) && db == old(db)
              case Pass(Some((reply, after))) => r == Pass(Some(reply)) && db == after
    {
      hide PopOne, Message, BulkAll;
      for i := 0 to |keys|
        invariant db == old(db)
        invariant MpopLists(db, keys[i..], end, count) == MpopLists(old(db), keys, end, count)
      {
        assert keys[i..][0] == keys[i] && keys[i..][1..] == keys[i + 1..];
        if WrongFor(db, keys[i]) { return Fail(Refused(WrongType)); }
        var popped := PopUpTo(keys[i], end, count);
        if popped != [] {
          return Pass(Some(Array([Bulk(keys[i]), Array(BulkAll(popped))])));
        }
      }
      assert keys[|keys|..] == [];
      return Pass(None);
    }

    method PopUpTo(key: Bytes, end: End, count: nat) returns (popped: seq<Bytes>)
      modifies this
      ensures (popped, db) == PopMany(old(db), key, end, count)
      ensures popped == [] ==> db == old(db)
    {
      hide PopOne, Ahead;
      popped := [];
      NothingAhead(PopMany(db, key, end, count));
      while |popped| < count
        invariant |popped| <= count
        invariant popped == [] ==> db == old(db)
        invariant PopMany(old(db), key, end, count) == Ahead(popped, PopMany(db, key, end, count - |popped|))
        decreases count - |popped|
      {
        var value := PopFrom(key, end);
        if value.None? {
          AheadOfNothing(popped, db);
          return;
        }
        AheadMore(popped, value.value, PopMany(db, key, end, count - |popped| - 1));
        popped := popped + [value.value];
      }
      AheadOfNothing(popped, db);
    }

    method Push(argv: seq<Bytes>, end: End, onlyIfPresent: bool) returns (r: Reply)
      modifies this
      ensures Reports(RunPush(argv, old(db), end, onlyIfPresent), old(db), db, Replied(r))
    {
      hide Message;
      if |argv| <= 2 { return Refused(WrongArity); }
      var key := argv[1];
      if WrongFor(db, key) { return Refused(WrongType); }
      if onlyIfPresent && key !in db { return Integer(0); }
      var items := if key in db then db[key].items else [];
      ghost var start := items;
      for i := 2 to |argv|
        invariant PushItems(items, end, argv[i..]) == PushItems(start, end, argv[2..])
      {
        assert argv[i..][0] == argv[i] && argv[i..][1..] == argv[i + 1..];
        items := PushItem(items, end, argv[i]);
      }
      assert argv[|argv|..] == [];
      db := db[key := ListValue(items)];
      return Integer(|items|);
    }

    method Pop(argv: seq<Bytes>, end: End) returns (r: Reply)
      requires DbOk(db)
      modifies this
      ensures Reports(RunPop(argv, old(db), end), old(db), db, Replied(r))
    {
      hide Message, ParseI64, PopReply, DbOk;
      if |argv| <= 1 || |argv| > 3 { return Refused(WrongArity); }
      var count := 1;
      if |argv| == 3 {
        var parsed := ParseI64(argv[2]);
        if parsed.None? { return Refused(NotAnInteger); }
        if parsed.value < 0 { return Refused(OutOfRange); }
        count := parsed.value;
      }
      var key := argv[1];
      if WrongFor(db, key) { return Refused(WrongType); }
      var popped := PopInHand(key, end, count);
      return PopReply(popped, |argv| == 3);
    }

    method PopInHand(key: Bytes, end: End, count: nat) returns (popped: seq<Bytes>)
      requires DbOk(db)
      modifies this
      ensures (popped, db) == PopMany(old(db), key, end, count)
    {
      popped := [];
      if IsList(db, key) {
        var items := db[key].items;
        ghost var start := items;
        PopItemsIsPopMany(db, key, end, count);
        hide DbOk;
        var left := count;
        NothingAhead(PopItems(items, end, count));
        hide Ahead;
        while left > 0 && items != []
          invariant 0 <= left && db == old(db)
          invariant PopItems(start, end, count) == Ahead(popped, PopItems(items, end, left))
        {
          var (value, rest) := PopItem(items, end);
          AheadMore(popped, value, PopItems(rest, end, left - 1));
          popped, items, left := popped + [value], rest, left - 1;
        }
        AheadOfNothing(popped, items);
        db := db[key := ListValue(items)];
      }
      CleanUp(key);
    }

    method Del(argv: seq<Bytes>) returns (r: Reply)
      modifies this
      ensures Reports(RunDel(argv, old(db)), old(db), db, Replied(r))
    {
      hide Message;
      if |argv| <= 1 { return Refused(WrongArity); }
      var deleted: nat := 0;
      for i := 1 to |argv|
        invariant db == old(db) - Keys(argv[1..i])
        invariant deleted + CountHeld(db, argv[i..]) == CountHeld(old(db), argv[1..])
      {
        assert argv[i..][0] == argv[i] && argv[i..][1..] == argv[i + 1..];
        assert Keys(argv[1..i + 1]) == Keys(argv[1..i]) + {argv[i]} by {
          assert argv[1..i + 1] == argv[1..i] + [argv[i]];
        }
        if argv[i] in db { deleted := deleted + 1; }
        db := db - {argv[i]};
      }
      assert argv[|argv|..] == [] && argv[1..|argv|] == argv[1..];
      return Integer(deleted);
    }

    method MoveNow(name: Name, argv: seq<Bytes>) returns (r: Reply)
      requires name in {RPOPLPUSH, LMOVE}
      modifies this
      ensures Reports(RunMove(name, argv, old(db)), old(db), db, Replied(r))
    {
      hide Message, MoveOne, ParseEnd;
      var ends := MoveEnds(name, argv);
      if ends.Fail? { return ends.reply; }
      if WrongFor(db, argv[1]) || WrongFor(db, argv[2]) { return Refused(WrongType); }
      var value := Move(argv[1], argv[2], ends.value.0, ends.value.1);
      return if value.None? then Nil else Bulk(value.value);
    }

    method MoveOrWait(name: Name, argv: seq<Bytes>, c: Context) returns (r: Report)
      requires name in {BLMOVE, BRPOPLPUSH}
      modifies this
      ensures Reports(RunBlockingMove(name, argv, old(db), c), old(db), db, r)
    {
      hide Message, MoveOne, ParseEnd;
      var ends := MoveEnds(name, argv);
      if ends.Fail? { return Replied(ends.reply); }
      var deadline := ParseTimeout(c.timeouts(argv[|argv| - 1]), c.now);
      if deadline.Fail? { return Replied(deadline.reply); }
      if WrongFor(db, argv[1]) || WrongFor(db, argv[2]) { return Replied(Refused(WrongType)); }
      var value := Move(argv[1], argv[2], ends.value.0, ends.value.1);
      if value.Some? { return Replied(Bulk(value.value)); }
      r := Answer(c, None, [argv[1]], deadline.value, Nil);
    }

    /** Reports what was found, or how to wait. */
    method Answer(c: Context, found: Option<Reply>, keys: seq<Bytes>, deadline: Option<int>, onTimeout: Reply)
      returns (r: Report)
      ensures r == match found
                   case Some(reply) => Replied(reply)
                   case None => if c.inExec then Replied(onTimeout) else Waits(keys, deadline, onTimeout)
    {
      match found
      case Some(reply) => return Replied(reply);
      case None =>
        if c.inExec { return Replied(onTimeout); }
        return Waits(keys, deadline, onTimeout);
    }

    method PopOrWait(argv: seq<Bytes>, end: End, c: Context) returns (r: Report)
      modifies this
      ensures Reports(RunBlockingPop(argv, old(db), end, c), old(db), db, r)
    {
      hide Message, PopFirstList;
      if |argv| <= 2 { return Replied(Refused(WrongArity)); }
      var keys := argv[1..|argv| - 1];
      var deadline := ParseTimeout(c.timeouts(argv[|argv| - 1]), c.now);
      if deadline.Fail? { return Replied(deadline.reply); }
      var found := PopFirst(keys, end);
      if found.Fail? { return Replied(found.reply); }
      r := Answer(c, found.value, keys, deadline.value, NilArray);
    }

    method MpopNow(argv: seq<Bytes>) returns (r: Reply)
      modifies this
      ensures Reports(RunMpop(argv, old(db)), old(db), db, Replied(r))
    {
      hide Message, MpopLists, ParseMultiKey, ParseEnd;
      if |argv| <= 3 { return Refused(WrongArity); }
      var request := ParseMultiKey(argv, 1);
      if request.Fail? { return request.reply; }
      var end := ParseEnd(request.value.direction);
      if end.None? { return Refused(SyntaxError); }
      var found := Mpop(request.value.keys, end.value, request.value.count);
      if found.Fail? { return found.reply; }
      return if found.value.None? then NilArray else found.value.value;
    }

    method MpopOrWait(argv: seq<Bytes>, c: Context) returns (r: Report)
      modifies this
      ensures Reports(RunBlockingMpop(argv, old(db), c), old(db), db, r)
    {
      hide Message, MpopLists, ParseMultiKey, ParseEnd;
      if |argv| <= 4 { return Replied(Refused(WrongArity)); }
      var deadline := ParseTimeout(c.timeouts(argv[1]), c.now);
      if deadline.Fail? { return Replied(deadline.reply); }
      var request := ParseMultiKey(argv, 2);
      if request.Fail? { return Replied(request.reply); }
      var end := ParseEnd(request.value.direction);
      if end.None? { return Replied(Refused(SyntaxError)); }
      var found := Mpop(request.value.keys, end.value, request.value.count);
      if found.Fail? { return Replied(found.reply); }
      r := Answer(c, found.value, request.value.keys, deadline.value, NilArray);
    }

    /** Routes one command to its handler. */
    method Execute(name: Name, argv: seq<Bytes>, c: Context) returns (r: Report)
      requires argv != [] && DbOk(db)
      modifies this
      ensures Reports(Run(name, argv, old(db), c), old(db), db, r)
    {
      hide Message, Ascii, RunSet, RunDel, RunPush, RunPop, RunMove, RunMpop, RunBlockingPop,
        RunBlockingMove, RunBlockingMpop, RunRename, RunCopy;
      var reply: Reply;
      match name {
      case DEL => reply := Del(argv);
      case LPUSH => reply := Push(argv, Left, false);
      case RPUSH => reply := Push(argv, Right, false);
      case LPUSHX => reply := Push(argv, Left, true);
      case RPUSHX => reply := Push(argv, Right, true);
      case LPOP => reply := Pop(argv, Left);
      case RPOP => reply := Pop(argv, Right);
      case RPOPLPUSH => reply := MoveNow(name, argv);
      case LMOVE => reply := MoveNow(name, argv);
      case LMPOP => reply := MpopNow(argv);
      case BLPOP => r := PopOrWait(argv, Left, c); return;
      case BRPOP => r := PopOrWait(argv, Right, c); return;
      case BLMOVE => r := MoveOrWait(name, argv, c); return;
      case BRPOPLPUSH => r := MoveOrWait(name, argv, c); return;
      case BLMPOP => r := MpopOrWait(argv, c); return;
      case SET => reply := Set(argv);
      case RENAME => reply := Rename(argv, false);
      case RENAMENX => reply := Rename(argv, true);
      case COPY => reply := Copy(argv);
      case FLUSHALL =>
        db := map[];
        reply := OkReply();
      case _ => reply := Run(name, argv, db, c).reply;
      }
      return Replied(reply);
    }

    method Set(argv: seq<Bytes>) returns (r: Reply)
      modifies this
      ensures Reports(RunSet(argv, old(db)), old(db), db, Replied(r))
    {
      hide Message, Ascii, ParseSet;
      if |argv| <= 2 { return Refused(WrongArity); }
      var options := ParseSet(argv, 3, SetOptions(false, false, false));
      if options.Fail? { return options.reply; }
      var (o, key) := (options.value, argv[1]);
      if o.returnOld && key in db && !db[key].StringValue? { return Refused(WrongType); }
      var previous := if key in db && db[key].StringValue? then Bulk(db[key].text) else Nil;
      if (o.onlyIfAbsent && key in db) || (o.onlyIfPresent && key !in db) {
        return if o.returnOld then previous else Nil;
      }
      db := db[key := StringValue(argv[2])];
      return if o.returnOld then previous else OkReply();
    }

    method Rename(argv: seq<Bytes>, onlyIfAbsent: bool) returns (r: Reply)
      modifies this
      ensures Reports(RunRename(argv, old(db), onlyIfAbsent), old(db), db, Replied(r))
    {
      hide Message, Ascii;
      if |argv| != 3 { return Refused(WrongArity); }
      var (key, newKey) := (argv[1], argv[2]);
      if key !in db { return Refused(NoSuchKey); }
      if onlyIfAbsent && key != newKey && newKey in db { return Integer(0); }
      if key != newKey {
        var held := db[key];
        db := db - {key};
        db := db[newKey := held];
      }
      return if onlyIfAbsent then Integer(1) else OkReply();
    }

    method Copy(argv: seq<Bytes>) returns (r: Reply)
      modifies this
      ensures Reports(RunCopy(argv, old(db)), old(db), db, Replied(r))
    {
      hide Message, EqIgnoreCase;
      if |argv| <= 2 { return Refused(WrongArity); }
      if |argv| != 3 && !(|argv| == 4 && EqIgnoreCase(argv[3], "REPLACE")) { return Refused(SyntaxError); }
      if argv[1] !in db || (|argv| == 3 && argv[2] in db) { return Integer(0); }
      db := db[argv[2] := db[argv[1]]];
      return Integer(1);
    }
  }
}
