/** Lists as queues: what goes in at one end comes out in the order it should. */
module QueueLaws {
  import opened ByteStrings
  import opened Resp
  import opened Commands

  function Backwards(values: seq<Bytes>): (r: seq<Bytes>)
    ensures |r| == |values|
  {
    if values == [] then [] else Backwards(values[1..]) + [values[0]]
  }

  /** Pushing on the right appends the values in order; pushing on the left puts them in front, the
      last first. */
  lemma PushesInOrder(items: seq<Bytes>, values: seq<Bytes>)
    ensures PushItems(items, Right, values) == items + values
    ensures PushItems(items, Left, values) == Backwards(values) + items
  {
    PushesRight(items, values);
    PushesLeft(items, values);
  }

  lemma {:induction false} PushesRight(items: seq<Bytes>, values: seq<Bytes>)
    ensures PushItems(items, Right, values) == items + values
    decreases |values|
  {
    if values == [] {
      assert items + values == items;
    } else {
      PushesRight(items + [values[0]], values[1..]);
      Joined(items, [values[0]], values[1..]);
      assert [values[0]] + values[1..] == values;
    }
  }

  lemma {:induction false} PushesLeft(items: seq<Bytes>, values: seq<Bytes>)
    ensures PushItems(items, Left, values) == Backwards(values) + items
    decreases |values|
  {
    if values == [] {
      assert Backwards(values) + items == items;
    } else {
      PushesLeft([values[0]] + items, values[1..]);
      Joined(Backwards(values[1..]), [values[0]], items);
    }
  }

  lemma Joined(a: seq<Bytes>, b: seq<Bytes>, c: seq<Bytes>)
    ensures a + b + c == a + (b + c)
  {
  }

  lemma {:induction false} BackwardsLast(values: seq<Bytes>, last: Bytes)
    ensures Backwards(values + [last]) == [last] + Backwards(values)
    decreases |values|
  {
    var more := values + [last];
    if values == [] {
      assert more == [last] && more[1..] == [];
    } else {
      assert more[0] == values[0] && more[1..] == values[1..] + [last];
      BackwardsLast(values[1..], last);
      Joined([last], Backwards(values[1..]), [values[0]]);
    }
  }

  /** The keyspace with `items` at `key`, or without the key if there are none. */
  function Put(db: Db, key: Bytes, items: seq<Bytes>): Db {
    if items == [] then db - {key} else db[key := ListValue(items)]
  }

  /** Counted pops take the values next to their end, in order from that end, and leave the rest. */
  lemma PopsInOrder(db: Db, key: Bytes, count: nat)
    requires IsList(db, key) && 0 < |db[key].items| && count <= |db[key].items|
    ensures var items := db[key].items;
            && PopMany(db, key, Left, count) == (items[..count], Put(db, key, items[count..]))
            && PopMany(db, key, Right, count) == (Backwards(items[|items| - count..]), Put(db, key, items[..|items| - count]))
  {
    PopsLeft(db, key, count);
    PopsRight(db, key, count);
  }

  /** One pop, in one equation. */
  lemma PopIs(db: Db, key: Bytes, end: End)
    requires IsList(db, key) && 0 < |db[key].items|
    ensures var (value, rest) := PopItem(db[key].items, end);
            PopOne(db, key, end) == Some((value, Put(db, key, rest)))
  {
    hide PopItem;
    var (value, rest) := PopItem(db[key].items, end);
    assert db[key := ListValue(rest)] - {key} == db - {key};
  }

  lemma PopsOneMore(db: Db, key: Bytes, end: End, count: nat)
    requires IsList(db, key) && 0 < |db[key].items| && count > 0
    ensures var (value, rest) := PopItem(db[key].items, end);
            var (others, last) := PopMany(Put(db, key, rest), key, end, count - 1);
            PopMany(db, key, end, count) == ([value] + others, last)
  {
    hide PopItem, PopOne, Put;
    PopIs(db, key, end);
  }

  lemma PutIsList(db: Db, key: Bytes, items: seq<Bytes>)
    requires items != []
    ensures IsList(Put(db, key, items), key) && Put(db, key, items)[key].items == items
    ensures forall others: seq<Bytes> :: Put(Put(db, key, items), key, others) == Put(db, key, others)
  {
    forall others: seq<Bytes> ensures Put(Put(db, key, items), key, others) == Put(db, key, others) {
      PutTwice(db, key, items, others);
    }
  }

  lemma PutBackWhole(db: Db, key: Bytes)
    requires IsList(db, key) && 0 < |db[key].items|
    ensures Put(db, key, db[key].items) == db
  {
  }

  lemma FirstOff(items: seq<Bytes>, count: nat)
    requires 0 < count <= |items|
    ensures var rest := items[1..];
            items[..count] == [items[0]] + rest[..count - 1] && items[count..] == rest[count - 1..]
  {
  }

  lemma LastOff(items: seq<Bytes>, n: nat)
    requires n < |items|
    ensures var rest, last := items[..|items| - 1], items[|items| - 1];
            items[n..] == rest[n..] + [last] && items[..n] == rest[..n]
  {
  }

  lemma {:induction false} PopsLeft(db: Db, key: Bytes, count: nat)
    requires IsList(db, key) && 0 < |db[key].items| && count <= |db[key].items|
    ensures var items := db[key].items; PopMany(db, key, Left, count) == (items[..count], Put(db, key, items[count..]))
    decreases count
  {
    var items := db[key].items;
    if count == 0 {
      PutBackWhole(db, key);
      assert items[0..] == items && items[..0] == [];
    } else {
      hide PopMany, Put, IsList;
      PopsOneMore(db, key, Left, count);
      FirstOff(items, count);
      var rest := items[1..];
      if rest == [] {
        PopsNone(Put(db, key, rest), key, Left);
        assert rest[..count - 1] == [] && rest[count - 1..] == [];
      } else {
        PutIsList(db, key, rest);
        PopsLeft(Put(db, key, rest), key, count - 1);
      }
    }
  }

  lemma {:induction false} PopsRight(db: Db, key: Bytes, count: nat)
    requires IsList(db, key) && 0 < |db[key].items| && count <= |db[key].items|
    ensures var items := db[key].items;
            PopMany(db, key, Right, count) == (Backwards(items[|items| - count..]), Put(db, key, items[..|items| - count]))
    decreases count
  {
    var items := db[key].items;
    var n := |items| - count;
    if count == 0 {
      PutBackWhole(db, key);
      assert items[n..] == [] && items[..n] == items;
    } else {
      hide PopMany, Put, IsList, Backwards;
      PopsOneMore(db, key, Right, count);
      LastOff(items, n);
      var rest, last := items[..|items| - 1], items[|items| - 1];
      BackwardsLast(rest[n..], last);
      if rest == [] {
        PopsNone(Put(db, key, rest), key, Right);
        assert rest[n..] == [] && rest[..n] == [] && Backwards([]) == [] by { NothingBackwards(); }
      } else {
        PutIsList(db, key, rest);
        PopsRight(Put(db, key, rest), key, count - 1);
      }
    }
  }

  lemma NothingBackwards()
    ensures Backwards([]) == []
  {
  }

  lemma PopsNone(db: Db, key: Bytes, end: End)
    ensures PopMany(db, key, end, 0) == ([], db)
  {
  }

  lemma PutTwice(db: Db, key: Bytes, first: seq<Bytes>, then': seq<Bytes>)
    ensures Put(db[key := ListValue(first)], key, then') == Put(db, key, then')
  {
  }

  lemma PushIs(argv: seq<Bytes>, db: Db, end: End)
    requires |argv| > 2 && argv[1] !in db
    ensures RunPush(argv, db, end, false).db == db[argv[1] := ListValue(PushItems([], end, argv[2..]))]
  {
    hide Message, PushItems;
  }

  lemma DrainsWhole(db: Db, key: Bytes, values: seq<Bytes>)
    requires key !in db && values != []
    ensures PopMany(db[key := ListValue(values)], key, Left, |values|) == (values, db)
  {
    hide PopMany;
    PopsInOrder(db[key := ListValue(values)], key, |values|);
    assert values[..|values|] == values && values[|values|..] == [];
    assert db[key := ListValue(values)] - {key} == db;
  }

  /** A queue is first in, first out: values pushed on the right come out on the left in the order
      they went in, and then the keyspace is as it was. */
  lemma FirstInFirstOut(argv: seq<Bytes>, db: Db)
    requires |argv| > 2 && argv[1] !in db
    ensures PopMany(RunPush(argv, db, Right, false).db, argv[1], Left, |argv| - 2) == (argv[2..], db)
  {
    hide PopMany, RunPush, PushItems;
    PushIs(argv, db, Right);
    PushesInOrder([], argv[2..]);
    assert [] + argv[2..] == argv[2..];
    DrainsWhole(db, argv[1], argv[2..]);
  }

  /** A stack is last in, first out. */
  lemma LastInFirstOut(argv: seq<Bytes>, db: Db)
    requires |argv| > 2 && argv[1] !in db
    ensures PopMany(RunPush(argv, db, Left, false).db, argv[1], Left, |argv| - 2) == (Backwards(argv[2..]), db)
  {
    hide PopMany, RunPush, PushItems, Backwards;
    PushIs(argv, db, Left);
    PushesInOrder([], argv[2..]);
    assert Backwards(argv[2..]) + [] == Backwards(argv[2..]);
    DrainsWhole(db, argv[1], Backwards(argv[2..]));
  }

  /** A value moved to another list and moved back the way it came leaves no trace, whether the move
      emptied the one list or created the other. */
  lemma MoveThereAndBack(db: Db, source: Bytes, destination: Bytes, from: End, to: End)
    requires DbOk(db) && source != destination && IsList(db, source) && !WrongFor(db, destination)
    ensures var there := MoveOne(db, source, destination, from, to);
            && there.Some?
            && var (value, moved) := there.value;
               !WrongFor(moved, source) && MoveOne(moved, destination, source, to, from) == Some((value, db))
  {
    hide PopItem, PushItem, MoveOne;
    assert db[source].items != [];
    var (value, rest) := PopItem(db[source].items, from);
    var target := if destination in db then db[destination].items else [];
    MoveIs(db, source, destination, from, to);
    PushThenPop(target, to, value);
    PopThenPush(db[source].items, from);
    var moved := Put(db, source, rest)[destination := ListValue(PushItem(target, to, value))];
    assert !WrongFor(moved, source) && (if source in moved then moved[source].items else []) == rest;
    MoveIs(moved, destination, source, to, from);
    PutBack(db, source, rest, destination, target, PushItem(target, to, value));
  }

  lemma PutBack(db: Db, source: Bytes, rest: seq<Bytes>, destination: Bytes, target: seq<Bytes>, pushed: seq<Bytes>)
    requires DbOk(db) && source != destination && IsList(db, source) && !WrongFor(db, destination)
    requires target == if destination in db then db[destination].items else []
    ensures Put(Put(db, source, rest)[destination := ListValue(pushed)], destination, target)[source := ListValue(db[source].items)] == db
  {
    assert destination in db ==> target != [];
  }

  /** A move between two lists, in one equation. */
  lemma MoveIs(db: Db, source: Bytes, destination: Bytes, from: End, to: End)
    requires source != destination && IsList(db, source) && db[source].items != [] && !WrongFor(db, destination)
    ensures var (value, rest) := PopItem(db[source].items, from);
            var target := if destination in db then db[destination].items else [];
            && MoveOne(db, source, destination, from, to)
               == Some((value, Put(db, source, rest)[destination := ListValue(PushItem(target, to, value))]))
  {
    hide PopItem, PushItem;
    var (value, rest) := PopItem(db[source].items, from);
    var target := if destination in db then db[destination].items else [];
    var moved := db[source := ListValue(rest)][destination := ListValue(PushItem(target, to, value))];
    assert DeleteIfEmpty(moved, source) == Put(db, source, rest)[destination := ListValue(PushItem(target, to, value))];
  }

  lemma PushThenPop(items: seq<Bytes>, end: End, value: Bytes)
    ensures PopItem(PushItem(items, end, value), end) == (value, items)
  {
    assert ([value] + items)[1..] == items && (items + [value])[..|items|] == items;
  }

  lemma PopThenPush(items: seq<Bytes>, end: End)
    requires items != []
    ensures var (value, rest) := PopItem(items, end); PushItem(rest, end, value) == items
  {
    assert [items[0]] + items[1..] == items && items[..|items| - 1] + [items[|items| - 1]] == items;
  }

  /** `n` rotations of a list onto itself. */
  function Rotated(db: Db, key: Bytes, n: nat): Db
    requires IsList(db, key)
    ensures IsList(Rotated(db, key, n), key)
    decreases n
  {
    if n == 0 || db[key].items == [] then db
    else Rotated(MoveOne(db, key, key, Left, Right).value.1, key, n - 1)
  }

  lemma {:induction false} RotatesBy(db: Db, key: Bytes, n: nat)
    requires IsList(db, key) && n <= |db[key].items|
    ensures Rotated(db, key, n) == db[key := ListValue(Turned(db[key].items, n))]
    decreases n
  {
    var items := db[key].items;
    if n == 0 || items == [] {
      assert items[0..] + items[..0] == items && db[key := ListValue(items)] == db;
    } else {
      hide MoveOne, Turned;
      TurnsOnce(db, key);
      var once := db[key := ListValue(Turned(items, 1))];
      TurnedMore(items, n);
      RotatesBy(once, key, n - 1);
      assert once[key := ListValue(Turned(items, n))] == db[key := ListValue(Turned(items, n))];
    }
  }

  /** The first `n` values go behind the others. */
  function Turned(items: seq<Bytes>, n: nat): (r: seq<Bytes>)
    requires n <= |items|
    ensures |r| == |items|
  {
    items[n..] + items[..n]
  }

  lemma TurnsOnce(db: Db, key: Bytes)
    requires IsList(db, key) && db[key].items != []
    ensures MoveOne(db, key, key, Left, Right) == Some((db[key].items[0], db[key := ListValue(Turned(db[key].items, 1))]))
  {
    var items := db[key].items;
    assert items[..1] == [items[0]];
    var turned := items[1..] + [items[0]];
    assert db[key := ListValue(items[1..])][key := ListValue(turned)] == db[key := ListValue(turned)];
  }

  lemma TurnedMore(items: seq<Bytes>, n: nat)
    requires 0 < n <= |items|
    ensures Turned(Turned(items, 1), n - 1) == Turned(items, n)
  {
    var turned := Turned(items, 1);
    assert turned[..n - 1] == items[1..n] && turned[n - 1..] == items[n..] + items[..1];
    assert items[..1] + items[1..n] == items[..n];
  }

  /** Rotating a list onto itself as often as it is long brings it round, a list of one included. */
  lemma RotationComesRound(db: Db, key: Bytes)
    requires IsList(db, key)
    ensures Rotated(db, key, |db[key].items|) == db
  {
    hide Rotated;
    var items := db[key].items;
    RotatesBy(db, key, |items|);
    assert Turned(items, |items|) == items;
    assert db[key := ListValue(items)] == db;
  }
}
