/** What every command keeps: the keys it changes are the keys it is listed as writing, and list
    values are neither lost nor made up. */
module CommandLaws {
  import opened ByteStrings
  import opened Resp
  import opened Commands

  // ------------------------------------------------------------------
  // Every value in every list

  /** How many copies of `v` a key's value holds. */
  ghost function Copies(h: Held, v: Bytes): nat {
    if h.ListValue? then multiset(h.items)[v] else 0
  }
  ghost function At(db: Db, key: Bytes, v: Bytes): nat {
    if key in db then Copies(db[key], v) else 0
  }
  /** How many copies of `v` all the lists hold together. */
  ghost function Stock(db: Db, v: Bytes): nat
    decreases |db|
  {
    if db == map[] then 0
    else
      var k :| k in db;
      Copies(db[k], v) + Stock(db - {k}, v)
  }

  lemma {:induction false} StockAt(db: Db, key: Bytes, v: Bytes)
    ensures Stock(db, v) == At(db, key, v) + Stock(db - {key}, v)
    decreases |db|
  {
    hide Copies;
    if key !in db {
      assert db - {key} == db;
    } else {
      var k :| k in db && Stock(db, v) == Copies(db[k], v) + Stock(db - {k}, v);
      if k != key {
        StockAt(db - {k}, key, v);
        StockAt(db - {key}, k, v);
        assert db - {k} - {key} == db - {key} - {k};
      }
    }
  }

  lemma StockPut(db: Db, key: Bytes, h: Held, v: Bytes)
    ensures Stock(db[key := h], v) + At(db, key, v) == Stock(db, v) + Copies(h, v)
  {
    hide Copies;
    StockAt(db, key, v);
    StockAt(db[key := h], key, v);
    assert db[key := h] - {key} == db - {key};
  }

  function Only(db: Db, keys: set<Bytes>): Db {
    map k | k in db && k in keys :: db[k]
  }

  lemma {:induction false} StockSplit(db: Db, keys: set<Bytes>, v: Bytes)
    ensures Stock(db, v) == Stock(db - keys, v) + Stock(Only(db, keys), v)
    decreases |db|
  {
    hide Copies, Stock;
    if db == map[] {
      assert db - keys == map[] && Only(db, keys) == map[];
      StockNone(v);
    } else {
      var k :| k in db;
      var smaller := db - {k};
      StockAt(db, k, v);
      StockSplit(smaller, keys, v);
      if k in keys {
        StockAt(Only(db, keys), k, v);
        assert Only(db, keys) - {k} == Only(smaller, keys);
        assert smaller - keys == db - keys;
      } else {
        StockAt(db - keys, k, v);
        assert db - keys - {k} == smaller - keys;
        assert Only(smaller, keys) == Only(db, keys);
      }
    }
  }

  lemma StockNone(v: Bytes)
    ensures Stock(map[], v) == 0
  {
  }

  // ------------------------------------------------------------------
  // The accounts a command is held to

  ghost function BulksOf(items: seq<Reply>, v: Bytes): nat {
    if items == [] then 0 else (if items[0] == Bulk(v) then 1 else 0) + BulksOf(items[1..], v)
  }

  /** How many copies of `v` a reply hands to the client for good. A move hands out nothing: the
      value it reports is still in a list. */
  ghost function HandedBy(name: Name, reply: Reply, v: Bytes): nat {
    if name in {LPOP, RPOP} then
      if reply == Bulk(v) then 1 else if reply.Array? then BulksOf(reply.items, v) else 0
    else if name in {BLPOP, BRPOP} then
      if reply.Array? && |reply.items| == 2 && reply.items[1] == Bulk(v) then 1 else 0
    else if name in {LMPOP, BLMPOP} then
      if reply.Array? && |reply.items| == 2 && reply.items[1].Array? then BulksOf(reply.items[1].items, v) else 0
    else 0
  }

  /** How many copies of `v` a command that answered `reply` put into lists. */
  ghost function AddedBy(name: Name, argv: seq<Bytes>, db: Db, reply: Reply, v: Bytes): nat {
    if name in {LPUSH, RPUSH, LPUSHX, RPUSHX} then
      if |argv| > 2 && reply.Integer? && reply.n > 0 then multiset(argv[2..])[v] else 0
    else if name == COPY && |argv| > 2 && reply == Integer(1) then At(db, argv[1], v)
    else 0
  }

  /** How many it destroyed: overwritten, deleted or flushed. */
  ghost function LostBy(name: Name, argv: seq<Bytes>, db: Db, after: Db, reply: Reply, v: Bytes): nat {
    match name
    case SET =>
      if |argv| > 2 && argv[1] in after && after[argv[1]].StringValue? then At(db, argv[1], v) else 0
    case DEL => if |argv| > 1 then Stock(Only(db, Keys(argv[1..])), v) else 0
    case RENAME => if |argv| == 3 && !reply.Error? && argv[1] != argv[2] then At(db, argv[2], v) else 0
    case COPY => if |argv| > 2 && reply == Integer(1) then At(db, argv[2], v) else 0
    case FLUSHALL => Stock(db, v)
    case _ => 0
  }

  ghost predicate SameAt(a: Db, b: Db, key: Bytes) {
    (key in a <==> key in b) && (key in a ==> a[key] == b[key])
  }

  predicate Covered(w: Written, key: Bytes) {
    match w
    case WrittenNothing => false
    case WrittenEverything => true
    case WrittenKeys(keys) => key in keys
  }

  /** No key becomes a list. */
  ghost predicate OnlyShrinks(db: Db, after: Db) {
    forall k | IsList(after, k) :: IsList(db, k)
  }

  ghost predicate ChangesOnly(db: Db, after: Db, keys: seq<Bytes>) {
    forall k | k !in keys :: SameAt(db, after, k)
  }

  /** A command that answered left no empty collection, changed nothing if it failed, and changed
      only keys it is listed as writing. */
  ghost predicate Lawful(name: Name, argv: seq<Bytes>, db: Db, after: Db, reply: Reply) {
    && DbOk(after)
    && (reply.Error? ==> after == db)
    && (forall k | !SameAt(db, after, k) :: Covered(WrittenBy(name, argv), k))
  }

  /** The books balance for `v`. */
  ghost predicate Balanced(name: Name, argv: seq<Bytes>, db: Db, after: Db, reply: Reply, v: Bytes) {
    Stock(after, v) + HandedBy(name, reply, v) + LostBy(name, argv, db, after, reply, v)
    == Stock(db, v) + AddedBy(name, argv, db, reply, v)
  }

  // ------------------------------------------------------------------
  // Pops and moves

  function Copy(value: Bytes, v: Bytes): nat {
    if value == v then 1 else 0
  }

  lemma PopItemCopies(items: seq<Bytes>, end: End, v: Bytes)
    requires items != []
    ensures var (value, rest) := PopItem(items, end);
            multiset(items)[v] == multiset(rest)[v] + Copy(value, v)
  {
    if end == Left {
      assert items == [items[0]] + items[1..];
    } else {
      assert items == items[..|items| - 1] + [items[|items| - 1]];
    }
  }

  lemma {:induction false} PushItemsCopies(items: seq<Bytes>, end: End, values: seq<Bytes>, v: Bytes)
    ensures multiset(PushItems(items, end, values))[v] == multiset(items)[v] + multiset(values)[v]
    decreases |values|
  {
    if values != [] {
      assert values == [values[0]] + values[1..];
      PushItemsCopies(PushItem(items, end, values[0]), end, values[1..], v);
    }
  }

  lemma PopOneLaw(db: Db, key: Bytes, end: End, v: Bytes)
    requires DbOk(db)
    ensures PopOne(db, key, end).None? <==> !IsList(db, key)
    ensures PopOne(db, key, end).Some? ==>
              var (value, after) := PopOne(db, key, end).value;
              && DbOk(after) && ChangesOnly(db, after, [key]) && OnlyShrinks(db, after)
              && Stock(db, v) == Stock(after, v) + Copy(value, v)
  {
    hide Stock;
    if IsList(db, key) {
      var (value, rest) := PopItem(db[key].items, end);
      var put := db[key := ListValue(rest)];
      PopItemCopies(db[key].items, end, v);
      StockPut(db, key, ListValue(rest), v);
      StockAt(put, key, v);
      assert forall k | k !in [key] :: k != key;
    }
  }

  lemma NoStep(db: Db, keys: seq<Bytes>)
    ensures ChangesOnly(db, db, keys) && OnlyShrinks(db, db)
  {
  }

  lemma TwoSteps(db: Db, middle: Db, after: Db, keys: seq<Bytes>)
    requires ChangesOnly(db, middle, keys) && ChangesOnly(middle, after, keys)
    requires OnlyShrinks(db, middle) && OnlyShrinks(middle, after)
    ensures ChangesOnly(db, after, keys) && OnlyShrinks(db, after)
  {
  }

  lemma CountOneMore(value: Bytes, others: seq<Bytes>, v: Bytes)
    ensures multiset([value] + others)[v] == Copy(value, v) + multiset(others)[v]
  {
  }

  lemma {:induction false} PopManyLaw(db: Db, key: Bytes, end: End, count: nat, v: Bytes)
    requires DbOk(db)
    ensures var (popped, after) := PopMany(db, key, end, count);
            && DbOk(after) && ChangesOnly(db, after, [key]) && OnlyShrinks(db, after)
            && Stock(db, v) == Stock(after, v) + multiset(popped)[v]
            && |popped| <= count
            && (popped == [] ==> after == db)
            && (count > 0 && IsList(db, key) ==> popped != [])
    decreases count
  {
    hide PopOne, Stock, DbOk, ChangesOnly, OnlyShrinks, IsList;
    NoStep(db, [key]);
    if count > 0 {
      PopOneLaw(db, key, end, v);
      if PopOne(db, key, end).Some? {
        var (value, rest) := PopOne(db, key, end).value;
        PopManyLaw(rest, key, end, count - 1, v);
        var (others, after) := PopMany(rest, key, end, count - 1);
        TwoSteps(db, rest, after, [key]);
        CountOneMore(value, others, v);
      }
    }
  }

  lemma {:induction false} BulkPayloads(values: seq<Bytes>, v: Bytes)
    ensures BulksOf(BulkAll(values), v) == multiset(values)[v]
  {
    if values != [] {
      BulkPayloads(values[1..], v);
      assert BulkAll(values)[1..] == BulkAll(values[1..]);
      CountFirst(values, v);
    }
  }

  lemma CountFirst(values: seq<Bytes>, v: Bytes)
    requires values != []
    ensures multiset(values)[v] == (if values[0] == v then 1 else 0) + multiset(values[1..])[v]
  {
    assert values == [values[0]] + values[1..];
  }

  /** Pushing before cleaning up is what makes a rotation of a one-element list safe. */
  lemma MoveOneStock(db: Db, source: Bytes, destination: Bytes, from: End, to: End, v: Bytes)
    requires DbOk(db) && !WrongFor(db, destination) && IsList(db, source)
    ensures Stock(MoveOne(db, source, destination, from, to).value.1, v) == Stock(db, v)
  {
    hide Stock, DbOk;
    assert db[source].items != [] by { NotEmpty(db, source); }
    var (value, rest) := PopItem(db[source].items, from);
    var taken := db[source := ListValue(rest)];
    var target := if destination in taken then taken[destination].items else [];
    var held := ListValue(PushItem(target, to, value));
    var moved := taken[destination := held];
    PopItemCopies(db[source].items, from, v);
    PushItemsCopies(target, to, [value], v);
    assert PushItems(target, to, [value]) == PushItem(target, to, value);
    StockPut(db, source, ListValue(rest), v);
    StockPut(taken, destination, held, v);
    StockAt(moved, source, v);
    assert At(taken, destination, v) == multiset(target)[v];
  }

  lemma NotEmpty(db: Db, key: Bytes)
    requires DbOk(db) && IsList(db, key)
    ensures db[key].items != []
  {
  }

  lemma MoveOneLaw(db: Db, source: Bytes, destination: Bytes, from: End, to: End)
    requires DbOk(db) && !WrongFor(db, destination)
    ensures MoveOne(db, source, destination, from, to).None? <==> !IsList(db, source)
    ensures MoveOne(db, source, destination, from, to).Some? ==>
              var after := MoveOne(db, source, destination, from, to).value.1;
              && DbOk(after) && ChangesOnly(db, after, [source, destination])
              && (forall k | k != destination && IsList(after, k) :: IsList(db, k))
              && IsList(after, destination)
  {
    if IsList(db, source) {
      assert forall k | k !in [source, destination] :: k != source && k != destination;
    }
  }

  lemma {:induction false} PopFirstLaw(db: Db, keys: seq<Bytes>, end: End, v: Bytes)
    requires DbOk(db)
    ensures var r := PopFirstList(db, keys, end);
            && (r.Pass? && r.value.Some? ==>
                  var (reply, after) := r.value.value;
                  && DbOk(after) && ChangesOnly(db, after, keys) && OnlyShrinks(db, after)
                  && reply.Array? && |reply.items| == 2 && reply.items[1].Bulk?
                  && Stock(db, v) == Stock(after, v) + if reply.items[1] == Bulk(v) then 1 else 0)
            && (r.Fail? ==> r.reply.Error?)
            && (r.Pass? && r.value.None? ==> forall k | k in keys :: k !in db)
    decreases |keys|
  {
    hide PopOne, Message, Stock, DbOk;
    if keys != [] {
      PopOneLaw(db, keys[0], end, v);
      if PopOne(db, keys[0], end).Some? && !WrongFor(db, keys[0]) {
        assert forall k | k !in keys :: k !in [keys[0]];
      } else {
        PopFirstLaw(db, keys[1..], end, v);
        assert forall k | k !in keys :: k !in keys[1..];
      }
    }
  }

  lemma {:induction false} MpopLaw(db: Db, keys: seq<Bytes>, end: End, count: nat, v: Bytes)
    requires DbOk(db) && count > 0
    ensures var r := MpopLists(db, keys, end, count);
            && (r.Pass? && r.value.Some? ==>
                  var (reply, after) := r.value.value;
                  && DbOk(after) && ChangesOnly(db, after, keys) && OnlyShrinks(db, after)
                  && reply.Array? && |reply.items| == 2 && reply.items[1].Array?
                  && Stock(db, v) == Stock(after, v) + BulksOf(reply.items[1].items, v))
            && (r.Fail? ==> r.reply.Error?)
            && (r.Pass? && r.value.None? ==> forall k | k in keys :: k !in db)
    decreases |keys|
  {
    hide PopMany, BulkAll, Message, Stock, DbOk;
    if keys != [] {
      PopManyLaw(db, keys[0], end, count, v);
      var (popped, after) := PopMany(db, keys[0], end, count);
      if popped != [] {
        BulkPayloads(popped, v);
        assert forall k | k !in keys :: k !in [keys[0]];
      } else if !WrongFor(db, keys[0]) {
        MpopLaw(db, keys[1..], end, count, v);
        assert forall k | k !in keys :: k !in keys[1..];
      }
    }
  }

  // ------------------------------------------------------------------
  // The table of written keys

  lemma {:induction false} RangeIsSlice(argv: seq<Bytes>, at: nat, last: int)
    requires at <= |argv| && last < |argv|
    ensures RangeKeys(argv, at, last, 1) == if at <= last then argv[at..last + 1] else []
    decreases |argv| - at
  {
    if at <= last {
      RangeIsSlice(argv, at + 1, last);
      assert argv[at..last + 1] == [argv[at]] + argv[at + 1..last + 1];
    }
  }

  /** The keys a parsed LMPOP or BLMPOP pops from are the ones the table reads. */
  lemma NumkeysAgree(argv: seq<Bytes>, at: nat)
    requires at < |argv| && ParseMultiKey(argv, at).Pass?
    ensures NumkeysKeys(argv, at) == ParseMultiKey(argv, at).value.keys
    ensures ParseMultiKey(argv, at).value.count > 0
  {
  }

  /** Which arguments each shape of the table names. */
  lemma WritesFirst(name: Name, argv: seq<Bytes>)
    requires PositionOf(name) == Range(1, 1, 1) && |argv| > 1
    ensures WrittenBy(name, argv) == WrittenKeys([argv[1]])
  {
    RangeIsSlice(argv, 1, 1);
  }

  lemma WritesTwo(name: Name, argv: seq<Bytes>)
    requires PositionOf(name) == Range(1, 2, 1) && |argv| > 2
    ensures WrittenBy(name, argv) == WrittenKeys([argv[1], argv[2]])
  {
    RangeIsSlice(argv, 1, 2);
    assert argv[1..3] == [argv[1], argv[2]];
  }

  lemma WritesAll(argv: seq<Bytes>)
    requires |argv| > 1
    ensures WrittenBy(DEL, argv) == WrittenKeys(argv[1..])
  {
    RangeIsSlice(argv, 1, |argv| - 1);
    assert argv[1..|argv|] == argv[1..];
  }

  lemma WritesAllButLast(name: Name, argv: seq<Bytes>)
    requires name in {BLPOP, BRPOP} && |argv| > 2
    ensures WrittenBy(name, argv) == WrittenKeys(argv[1..|argv| - 1])
  {
    RangeIsSlice(argv, 1, |argv| - 2);
  }

  // ------------------------------------------------------------------
  // One law per handler

  ghost predicate Kept(name: Name, argv: seq<Bytes>, db: Db, r: Outcome, v: Bytes) {
    r.Done? && Lawful(name, argv, db, r.db, r.reply) && Balanced(name, argv, db, r.db, r.reply, v)
  }

  lemma SetLawful(argv: seq<Bytes>, db: Db, v: Bytes)
    requires DbOk(db) && argv != []
    ensures var r := RunSet(argv, db); Kept(SET, argv, db, r, v)
  {
    hide Stock, WrittenBy, ParseSet, Message, Ascii;
    ParseSetFails(argv, 3, SetOptions(false, false, false));
    if |argv| > 2 {
      WritesFirst(SET, argv);
      StockPut(db, argv[1], StringValue(argv[2]), v);
    }
  }

  lemma {:induction false} ParseSetFails(argv: seq<Bytes>, i: nat, o: SetOptions)
    ensures ParseSet(argv, i, o).Fail? ==> ParseSet(argv, i, o).reply.Error?
    decreases |argv| - i
  {
    hide EqIgnoreCase, ParseI64, Message;
    if i < |argv| {
      forall n: nat, p: SetOptions | i < n <= i + 2
        ensures ParseSet(argv, n, p).Fail? ==> ParseSet(argv, n, p).reply.Error?
      {
        if n <= |argv| { ParseSetFails(argv, n, p); }
      }
    }
  }

  lemma DelLawful(argv: seq<Bytes>, db: Db, v: Bytes)
    requires DbOk(db) && argv != []
    ensures var r := RunDel(argv, db); Kept(DEL, argv, db, r, v)
  {
    hide Stock, WrittenBy, Message;
    if |argv| > 1 {
      WritesAll(argv);
      StockSplit(db, Keys(argv[1..]), v);
    }
  }

  lemma PushLawful(name: Name, argv: seq<Bytes>, db: Db, end: End, onlyIfPresent: bool, v: Bytes)
    requires DbOk(db) && argv != [] && name in {LPUSH, RPUSH, LPUSHX, RPUSHX}
    ensures var r := RunPush(argv, db, end, onlyIfPresent); Kept(name, argv, db, r, v)
  {
    hide Stock, WrittenBy, Message, PushItems, Lawful, Balanced;
    var r := RunPush(argv, db, end, onlyIfPresent);
    if |argv| <= 2 || WrongFor(db, argv[1]) || (onlyIfPresent && argv[1] !in db) {
      PushDoesNothing(name, argv, db, r.reply, v);
    } else {
      var before := if argv[1] in db then db[argv[1]].items else [];
      PushItemsCopies(before, end, argv[2..], v);
      PushedLaw(name, argv, db, PushItems(before, end, argv[2..]), v);
    }
  }

  lemma PushDoesNothing(name: Name, argv: seq<Bytes>, db: Db, reply: Reply, v: Bytes)
    requires DbOk(db) && name in {LPUSH, RPUSH, LPUSHX, RPUSHX} && (reply.Error? || reply == Integer(0))
    ensures Lawful(name, argv, db, db, reply) && Balanced(name, argv, db, db, reply, v)
  {
    hide Stock, WrittenBy, DbOk;
  }

  lemma PushedLaw(name: Name, argv: seq<Bytes>, db: Db, items: seq<Bytes>, v: Bytes)
    requires DbOk(db) && name in {LPUSH, RPUSH, LPUSHX, RPUSHX} && |argv| > 2 && !WrongFor(db, argv[1])
    requires var before := if argv[1] in db then db[argv[1]].items else [];
             |items| == |before| + |argv| - 2
             && multiset(items)[v] == multiset(before)[v] + multiset(argv[2..])[v]
    ensures var after := db[argv[1] := ListValue(items)];
            Lawful(name, argv, db, after, Integer(|items|)) && Balanced(name, argv, db, after, Integer(|items|), v)
  {
    hide Stock, WrittenBy;
    WritesFirst(name, argv);
    StockPut(db, argv[1], ListValue(items), v);
  }

  lemma PopReplyHands(name: Name, popped: seq<Bytes>, counted: bool, v: Bytes)
    requires name in {LPOP, RPOP} && (counted || |popped| <= 1)
    ensures HandedBy(name, PopReply(popped, counted), v) == multiset(popped)[v]
  {
    BulkPayloads(popped, v);
    if |popped| == 1 { assert popped == [popped[0]]; }
  }

  lemma PopLawful(name: Name, argv: seq<Bytes>, db: Db, end: End, v: Bytes)
    requires DbOk(db) && argv != [] && name in {LPOP, RPOP}
    ensures var r := RunPop(argv, db, end); Kept(name, argv, db, r, v)
  {
    hide Stock, WrittenBy, Message, PopMany, PopReply, ParseI64, HandedBy, DbOk;
    var r := RunPop(argv, db, end);
    if r.reply.Error? {
      assert HandedBy(name, r.reply, v) == 0 by { ErrorHandsNothing(name, r.reply, v); }
    } else {
      var count := if |argv| == 2 then 1 else ParseI64(argv[2]).value;
      PopManyLaw(db, argv[1], end, count, v);
      PopReplyHands(name, PopMany(db, argv[1], end, count).0, |argv| == 3, v);
      WritesFirst(name, argv);
    }
  }

  lemma ErrorHandsNothing(name: Name, reply: Reply, v: Bytes)
    requires reply.Error?
    ensures HandedBy(name, reply, v) == 0
  {
  }

  lemma MoveLawful(name: Name, argv: seq<Bytes>, db: Db, c: Context, v: Bytes)
    requires DbOk(db) && argv != [] && name in {RPOPLPUSH, LMOVE, BLMOVE, BRPOPLPUSH}
    ensures var r := Run(name, argv, db, c);
            && (r.Done? ==> Kept(name, argv, db, r, v))
            && (r.Park? ==> |argv| > 2 && r.keys == [argv[1]] && argv[1] !in db && !c.inExec)
  {
    hide Message, MoveOne, ParseEnd, Kept;
    var r := Run(name, argv, db, c);
    if r.Done? && (r.reply.Error? || r.reply == Nil) && r.db == db { IdleKept(name, argv, db, r.reply, v); }
    if MoveEnds(name, argv).Pass? {
      var (from, to) := MoveEnds(name, argv).value;
      if !WrongFor(db, argv[1]) && !WrongFor(db, argv[2]) {
        MoveOneLaw(db, argv[1], argv[2], from, to);
        if IsList(db, argv[1]) { MoveKept(name, argv, db, from, to, v); }
      }
    }
  }

  /** Answering an error or nil without a change keeps everything. */
  lemma IdleKept(name: Name, argv: seq<Bytes>, db: Db, reply: Reply, v: Bytes)
    requires DbOk(db) && name in {RPOPLPUSH, LMOVE, BLMOVE, BRPOPLPUSH, LMPOP, BLMPOP, BLPOP, BRPOP}
    requires reply.Error? || reply == Nil || reply == NilArray
    ensures Kept(name, argv, db, Done(db, reply), v)
  {
    hide WrittenBy, Stock, DbOk;
  }

  lemma MoveKept(name: Name, argv: seq<Bytes>, db: Db, from: End, to: End, v: Bytes)
    requires DbOk(db) && name in {RPOPLPUSH, LMOVE, BLMOVE, BRPOPLPUSH} && |argv| > 2
    requires IsList(db, argv[1]) && !WrongFor(db, argv[2])
    ensures var moved := MoveOne(db, argv[1], argv[2], from, to);
            moved.Some? && Kept(name, argv, db, Done(moved.value.1, Bulk(moved.value.0)), v)
  {
    hide MoveOne, WrittenBy, Stock, DbOk;
    MoveOneLaw(db, argv[1], argv[2], from, to);
    MoveOneStock(db, argv[1], argv[2], from, to, v);
    WritesTwo(name, argv);
  }

  lemma BlockingPopLawful(name: Name, argv: seq<Bytes>, db: Db, c: Context, v: Bytes)
    requires DbOk(db) && argv != [] && name in {BLPOP, BRPOP}
    ensures var r := Run(name, argv, db, c);
            && (r.Done? ==> Kept(name, argv, db, r, v))
            && (r.Park? ==> |argv| > 2 && r.keys == argv[1..|argv| - 1] && !c.inExec
                            && forall k | k in r.keys :: k !in db)
  {
    hide Stock, WrittenBy, Message, PopFirstList, DbOk;
    if |argv| > 2 {
      var keys := argv[1..|argv| - 1];
      PopFirstLaw(db, keys, if name == BLPOP then Left else Right, v);
      WritesAllButLast(name, argv);
    }
  }

  lemma MpopLawful(name: Name, argv: seq<Bytes>, db: Db, c: Context, v: Bytes)
    requires DbOk(db) && argv != [] && name in {LMPOP, BLMPOP}
    ensures var r := Run(name, argv, db, c);
            && (r.Done? ==> Kept(name, argv, db, r, v))
            && (r.Park? ==> name == BLMPOP && |argv| > 4 && ParseMultiKey(argv, 2).Pass? && !c.inExec
                            && r.keys == ParseMultiKey(argv, 2).value.keys
                            && forall k | k in r.keys :: k !in db)
  {
    hide Message, MpopLists, ParseEnd, ParseMultiKey, Kept;
    var r := Run(name, argv, db, c);
    if r.Done? && (r.reply.Error? || r.reply == NilArray) && r.db == db { IdleKept(name, argv, db, r.reply, v); }
    var at := if name == LMPOP then 1 else 2;
    if at < |argv| {
      ParseMultiKeyFails(argv, at);
      var request := ParseMultiKey(argv, at);
      if request.Pass? {
        CountPositive(argv, at);
        var end := ParseEnd(request.value.direction);
        if end.Some? {
          MpopLaw(db, request.value.keys, end.value, request.value.count, v);
          var found := MpopLists(db, request.value.keys, end.value, request.value.count);
          if found.Pass? && found.value.Some? { MpopKept(name, argv, db, at, end.value, v); }
        }
      }
    }
  }

  lemma CountPositive(argv: seq<Bytes>, at: nat)
    requires at < |argv| && ParseMultiKey(argv, at).Pass?
    ensures ParseMultiKey(argv, at).value.count > 0
  {
    hide ParseEnd;
  }

  lemma MpopKept(name: Name, argv: seq<Bytes>, db: Db, at: nat, end: End, v: Bytes)
    requires DbOk(db) && name in {LMPOP, BLMPOP} && at == (if name == LMPOP then 1 else 2)
    requires at < |argv| && ParseMultiKey(argv, at).Pass?
    requires ParseMultiKey(argv, at).value.count > 0
    requires var request := ParseMultiKey(argv, at).value;
             var found := MpopLists(db, request.keys, end, request.count);
             found.Pass? && found.value.Some?
    ensures var request := ParseMultiKey(argv, at).value;
            var found := MpopLists(db, request.keys, end, request.count).value.value;
            Kept(name, argv, db, Done(found.1, found.0), v)
  {
    hide Stock, WrittenBy, Message, MpopLists, ParseMultiKey, DbOk;
    var request := ParseMultiKey(argv, at).value;
    WritesNumkeys(name, argv, at);
    MpopLaw(db, request.keys, end, request.count, v);
  }

  lemma WritesNumkeys(name: Name, argv: seq<Bytes>, at: nat)
    requires name in {LMPOP, BLMPOP} && PositionOf(name) == Numkeys(at)
    requires at < |argv| && ParseMultiKey(argv, at).Pass?
    ensures WrittenBy(name, argv) == WrittenKeys(ParseMultiKey(argv, at).value.keys)
    ensures ParseMultiKey(argv, at).value.count > 0
  {
    hide ParseMultiKey, NumkeysKeys;
    NumkeysAgree(argv, at);
  }

  lemma ParseMultiKeyFails(argv: seq<Bytes>, at: nat)
    requires at < |argv|
    ensures ParseMultiKey(argv, at).Fail? ==> ParseMultiKey(argv, at).reply.Error?
  {
    hide Stock, WrittenBy, Message, ParseI64, EqIgnoreCase;
  }

  lemma RenameLawful(name: Name, argv: seq<Bytes>, db: Db, v: Bytes)
    requires DbOk(db) && argv != [] && name in {RENAME, RENAMENX}
    ensures var r := RunRename(argv, db, name == RENAMENX); Kept(name, argv, db, r, v)
  {
    hide Stock, WrittenBy, Message, Ascii;
    if |argv| == 3 && argv[1] in db {
      WritesTwo(name, argv);
      if argv[1] != argv[2] {
        StockAt(db, argv[1], v);
        StockPut(db - {argv[1]}, argv[2], db[argv[1]], v);
      }
    }
  }

  lemma CopyLawful(argv: seq<Bytes>, db: Db, v: Bytes)
    requires DbOk(db) && argv != []
    ensures var r := RunCopy(argv, db); Kept(COPY, argv, db, r, v)
  {
    hide Stock, WrittenBy, Message, EqIgnoreCase;
    if |argv| > 2 && argv[1] in db {
      WritesTwo(COPY, argv);
      StockPut(db, argv[2], db[argv[1]], v);
    }
  }

  lemma FlushLawful(argv: seq<Bytes>, db: Db, v: Bytes)
    ensures Kept(FLUSHALL, argv, db, Done(map[], OkReply()), v)
  {
    hide Ascii, Stock;
    StockNone(v);
  }

  /** Every command that answers keeps its promises: no collection is left empty, an error changed
      nothing, every changed key is one the table of writes names, and list values after plus values
      handed out plus values destroyed are the list values before plus the values pushed. A command
      that waits changed nothing, is not inside EXEC, and none of the keys it waits on exists. */
  lemma RunLawful(name: Name, argv: seq<Bytes>, db: Db, c: Context, v: Bytes)
    requires DbOk(db) && argv != []
    ensures var r := Run(name, argv, db, c);
            && (r.Done? ==> Kept(name, argv, db, r, v))
            && (r.Park? ==> name in {BLPOP, BRPOP, BLMOVE, BRPOPLPUSH, BLMPOP} && !c.inExec
                            && forall k | k in r.keys :: k !in db)
  {
    hide Stock, WrittenBy, Message, Ascii, RunSet, RunDel, RunPush, RunPop, RunMove, RunMpop, RunBlockingPop,
      RunBlockingMove, RunBlockingMpop, RunRename, RunCopy, Lawful, Balanced;
    match name
    case SET => SetLawful(argv, db, v);
    case DEL => DelLawful(argv, db, v);
    case LPUSH => PushLawful(name, argv, db, Left, false, v);
    case RPUSH => PushLawful(name, argv, db, Right, false, v);
    case LPUSHX => PushLawful(name, argv, db, Left, true, v);
    case RPUSHX => PushLawful(name, argv, db, Right, true, v);
    case LPOP => PopLawful(name, argv, db, Left, v);
    case RPOP => PopLawful(name, argv, db, Right, v);
    case RPOPLPUSH => MoveLawful(name, argv, db, c, v); MovesNeverPark(name, argv, db, c);
    case LMOVE => MoveLawful(name, argv, db, c, v); MovesNeverPark(name, argv, db, c);
    case BLMOVE => MoveLawful(name, argv, db, c, v);
    case BRPOPLPUSH => MoveLawful(name, argv, db, c, v);
    case BLPOP => BlockingPopLawful(name, argv, db, c, v);
    case BRPOP => BlockingPopLawful(name, argv, db, c, v);
    case LMPOP => MpopLawful(name, argv, db, c, v);
    case BLMPOP => MpopLawful(name, argv, db, c, v);
    case RENAME => RenameLawful(name, argv, db, v);
    case RENAMENX => RenameLawful(name, argv, db, v);
    case COPY => CopyLawful(argv, db, v);
    case FLUSHALL => FlushLawful(argv, db, v);
    case _ => IdleLawful(name, argv, db, c, v);
  }

  lemma MovesNeverPark(name: Name, argv: seq<Bytes>, db: Db, c: Context)
    requires argv != [] && name in {RPOPLPUSH, LMOVE}
    ensures !Run(name, argv, db, c).Park?
  {
    hide MoveOne, ParseEnd, Message;
  }

  lemma IdleLawful(name: Name, argv: seq<Bytes>, db: Db, c: Context, v: Bytes)
    requires DbOk(db) && argv != [] && PositionOf(name) == Nothing
    requires name != SET
    ensures var r := Run(name, argv, db, c); Kept(name, argv, db, r, v)
  {
    hide Stock, WrittenBy, Message, Ascii;
  }

  // ------------------------------------------------------------------
  // Commands that can wait

  predicate CanWait(name: Name) {
    name in {BLPOP, BRPOP, BLMOVE, BRPOPLPUSH, BLMPOP}
  }

  predicate IsMove(name: Name) {
    name in {BLMOVE, BRPOPLPUSH}
  }

  /** A retried command makes no key a list, except that a move makes its destination one. */
  lemma WaitersOnlyShrink(name: Name, argv: seq<Bytes>, db: Db, c: Context)
    requires DbOk(db) && argv != [] && CanWait(name) && Run(name, argv, db, c).Done?
    ensures var after := Run(name, argv, db, c).db;
            forall k | IsList(after, k) && !IsList(db, k) :: IsMove(name) && |argv| > 2 && k == argv[2]
  {
    hide Message, PopFirstList, MpopLists, MoveOne, ParseMultiKey, ParseEnd;
    if name in {BLPOP, BRPOP} && |argv| > 2 {
      PopFirstLaw(db, argv[1..|argv| - 1], if name == BLPOP then Left else Right, []);
    } else if name == BLMPOP && |argv| > 4 && ParseMultiKey(argv, 2).Pass? {
      var request := ParseMultiKey(argv, 2).value;
      WritesNumkeys(name, argv, 2);
      if ParseEnd(request.direction).Some? {
        MpopLaw(db, request.keys, ParseEnd(request.direction).value, request.count, []);
      }
    } else if IsMove(name) && MoveEnds(name, argv).Pass? {
      var (from, to) := MoveEnds(name, argv).value;
      if !WrongFor(db, argv[1]) && !WrongFor(db, argv[2]) {
        MoveOneLaw(db, argv[1], argv[2], from, to);
      }
    }
  }

  /** What a command waits on depends on its arguments alone: on an empty keyspace it would wait on
      the same keys and promise the same timeout reply. */
  lemma WaitsAlike(name: Name, argv: seq<Bytes>, db: Db, c: Context)
    requires DbOk(db) && argv != [] && Run(name, argv, db, c).Park?
    ensures WouldWait(name, argv, c.timeouts, Run(name, argv, db, c).keys, Run(name, argv, db, c).onTimeout)
  {
    hide Message, PopFirstList, MpopLists, MoveOne, ParseMultiKey, ParseEnd;
    RunLawful(name, argv, db, c, []);
    if name in {BLPOP, BRPOP} {
      PopFirstLaw(map[], argv[1..|argv| - 1], if name == BLPOP then Left else Right, []);
      NothingToPop(argv[1..|argv| - 1], if name == BLPOP then Left else Right);
    } else if name == BLMPOP {
      var request := ParseMultiKey(argv, 2).value;
      NothingToMpop(request.keys, ParseEnd(request.direction).value, request.count);
    } else {
      var (from, to) := MoveEnds(name, argv).value;
      MoveOneLaw(map[], argv[1], argv[2], from, to);
    }
  }

  lemma {:induction false} NothingToPop(keys: seq<Bytes>, end: End)
    ensures PopFirstList(map[], keys, end) == Pass(None)
  {
    if keys != [] {
      NothingToPop(keys[1..], end);
    }
  }

  lemma {:induction false} NothingToMpop(keys: seq<Bytes>, end: End, count: nat)
    ensures MpopLists(map[], keys, end, count) == Pass(None)
  {
    if keys != [] {
      NothingToMpop(keys[1..], end, count);
      assert PopMany(map[], keys[0], end, count).0 == [];
    }
  }

  /** `argv` is a blocking command that, finding nothing, waits on `keys` and times out with
      `onTimeout`. */
  predicate WouldWait(name: Name, argv: seq<Bytes>, timeouts: Bytes -> Timeout, keys: seq<Bytes>, onTimeout: Reply) {
    && argv != []
    && CanWait(name)
    && var r := Run(name, argv, map[], Context(0, false, timeouts));
       r.Park? && r.keys == keys && r.onTimeout == onTimeout
  }

  /** A pop waiting on one key is never sent back to wait, and never refused, while that key holds
      a list. */
  lemma PopIsServed(name: Name, argv: seq<Bytes>, key: Bytes, onTimeout: Reply, db: Db, c: Context)
    requires DbOk(db) && name in {BLPOP, BRPOP}
    requires WouldWait(name, argv, c.timeouts, [key], onTimeout) && IsList(db, key)
    ensures Run(name, argv, db, c).Done? && !Run(name, argv, db, c).reply.Error?
  {
    hide Message, PopOne, PopItem;
    var end := if name == BLPOP then Left else Right;
    assert argv[1..|argv| - 1] == [key] && [key][1..] == [];
    PopOneLaw(db, key, end, []);
    assert PopFirstList(db, [], end) == Pass(None);
    assert !IsList(db, key) ==>
             PopFirstList(db, [key], end) == if WrongFor(db, key) then Fail(Refused(WrongType)) else Pass(None);
  }

  /** And it is given a value only if that key holds a list. */
  lemma PopGivenMeansList(name: Name, argv: seq<Bytes>, key: Bytes, onTimeout: Reply, db: Db, c: Context)
    requires DbOk(db) && name in {BLPOP, BRPOP} && !c.inExec
    requires WouldWait(name, argv, c.timeouts, [key], onTimeout)
    requires Run(name, argv, db, c).Done? && !Run(name, argv, db, c).reply.Error?
    ensures IsList(db, key)
  {
    hide Message, PopOne, PopItem;
    var end := if name == BLPOP then Left else Right;
    assert argv[1..|argv| - 1] == [key] && [key][1..] == [];
    PopOneLaw(db, key, end, []);
    assert PopFirstList(db, [], end) == Pass(None);
    assert !IsList(db, key) ==>
             PopFirstList(db, [key], end) == if WrongFor(db, key) then Fail(Refused(WrongType)) else Pass(None);
  }

  /** Whatever it waits for, a waiter with a list on one of its keys is answered: it is given values
      or told about a key of the wrong kind, but it does not keep waiting. */
  lemma ListMeansAnswer(name: Name, argv: seq<Bytes>, db: Db, c: Context, key: Bytes)
    requires DbOk(db) && argv != [] && Run(name, argv, db, c).Park? && key in Run(name, argv, db, c).keys
    ensures !IsList(db, key)
  {
    hide Run;
    RunLawful(name, argv, db, c, []);
  }
}
