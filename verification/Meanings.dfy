/** What the commands do, told by the words clients send and not by how the commands are carried out. */
module Meanings {
  import opened ByteStrings
  import opened Resp
  import opened Commands
  import opened CommandLaws
  import opened QueueLaws

  // ------------------------------------------------------------------
  // Words

  function Rank(word: string): int
    requires |word| >= 3
  {
    |word| * 0x100_0000_0000 + word[0] as int * 0x1_0000_0000 + word[1] as int * 0x100_0000 + word[2] as int * 0x1_0000
    + if |word| > 3 then word[3] as int else 0
  }

  lemma WordsAreCapitals()
    ensures forall i | 0 <= i < |WORDS| :: |WORDS[i].0| >= 3 && forall k | 0 <= k < |WORDS[i].0| :: WORDS[i].0[k] < 'a'
  {
  }

  lemma WordsAscend(i: nat)
    requires i + 1 < |WORDS|
    ensures |WORDS[i].0| >= 3 && |WORDS[i + 1].0| >= 3 && Rank(WORDS[i].0) < Rank(WORDS[i + 1].0)
  {
    hide Rank;
    if i < 12 { ShortWordsAscend(i); } else { LongWordsAscend(i); }
  }

  lemma ShortWordsAscend(i: nat)
    requires i < 12
    ensures |WORDS[i].0| >= 3 && |WORDS[i + 1].0| >= 3 && Rank(WORDS[i].0) < Rank(WORDS[i + 1].0)
  {
  }

  lemma LongWordsAscend(i: nat)
    requires 12 <= i && i + 1 < |WORDS|
    ensures |WORDS[i].0| >= 3 && |WORDS[i + 1].0| >= 3 && Rank(WORDS[i].0) < Rank(WORDS[i + 1].0)
  {
  }

  lemma {:induction false} RanksAscend(i: nat, j: nat)
    requires i < j < |WORDS| && forall k | 0 <= k < |WORDS| :: |WORDS[k].0| >= 3
    ensures Rank(WORDS[i].0) < Rank(WORDS[j].0)
    decreases j - i
  {
    hide Rank;
    WordsAscend(j - 1);
    if i < j - 1 { RanksAscend(i, j - 1); }
  }

  lemma {:induction false} Skips(token: Bytes, i: nat, j: nat)
    requires i <= j <= |WORDS| && forall k | i <= k < j :: !EqIgnoreCase(token, WORDS[k].0)
    ensures NameFrom(token, i) == NameFrom(token, j)
    decreases j - i
  {
    hide EqIgnoreCase;
    if i < j { Skips(token, i + 1, j); }
  }

  /** A word in the table, however its letters are written, is the name beside it. */
  lemma NameSpelled(token: Bytes, i: nat)
    requires i < |WORDS| && Spells(token, WORDS[i].0)
    ensures NameOf(token) == WORDS[i].1
  {
    WordsAreCapitals();
    forall k | 0 <= k < |WORDS| ensures EqIgnoreCase(token, WORDS[k].0) <==> Spells(token, WORDS[k].0) {
      SpelledUpper(token, WORDS[k].0);
    }
    forall k | 0 <= k < i ensures !EqIgnoreCase(token, WORDS[k].0) {
      if Spells(token, WORDS[k].0) {
        RanksAscend(k, i);
        OneWord(token, WORDS[k].0, WORDS[i].0);
      }
    }
    hide EqIgnoreCase, Spells, Rank;
    Skips(token, 0, i);
  }

  lemma OneWord(token: Bytes, a: string, b: string)
    requires Spells(token, a) && Spells(token, b)
    requires (forall k | 0 <= k < |a| :: a[k] < 'a') && forall k | 0 <= k < |b| :: b[k] < 'a'
    ensures a == b
  {
  }

  /** Any other is unknown. */
  lemma NothingSpelled(token: Bytes)
    ensures NameOf(token) == UNKNOWN <==> forall i | 0 <= i < |WORDS| :: !Spells(token, WORDS[i].0)
  {
    WordsAreCapitals();
    forall k | 0 <= k < |WORDS| ensures EqIgnoreCase(token, WORDS[k].0) <==> Spells(token, WORDS[k].0) {
      SpelledUpper(token, WORDS[k].0);
    }
    if forall i | 0 <= i < |WORDS| :: !Spells(token, WORDS[i].0) {
      Skips(token, 0, |WORDS|);
    } else {
      var i :| 0 <= i < |WORDS| && Spells(token, WORDS[i].0);
      NameSpelled(token, i);
      AllNamed(i);
    }
  }

  lemma AllNamed(i: nat)
    requires i < |WORDS|
    ensures WORDS[i].1 != UNKNOWN
  {
  }

  /** The words, by their places in the table. */
  lemma ListWords(token: Bytes)
    ensures (Spells(token, "LPOP") ==> NameOf(token) == LPOP) && (Spells(token, "RPOP") ==> NameOf(token) == RPOP)
    ensures (Spells(token, "BLPOP") ==> NameOf(token) == BLPOP) && (Spells(token, "BRPOP") ==> NameOf(token) == BRPOP)
    ensures (Spells(token, "LPUSH") ==> NameOf(token) == LPUSH) && (Spells(token, "RPUSH") ==> NameOf(token) == RPUSH)
    ensures (Spells(token, "LPUSHX") ==> NameOf(token) == LPUSHX) && (Spells(token, "RPUSHX") ==> NameOf(token) == RPUSHX)
  {
    hide Spells, NameOf;
    if Spells(token, WORDS[4].0) { NameSpelled(token, 4); }
    if Spells(token, WORDS[7].0) { NameSpelled(token, 7); }
    if Spells(token, WORDS[8].0) { NameSpelled(token, 8); }
    if Spells(token, WORDS[9].0) { NameSpelled(token, 9); }
    if Spells(token, WORDS[12].0) { NameSpelled(token, 12); }
    if Spells(token, WORDS[15].0) { NameSpelled(token, 15); }
    if Spells(token, WORDS[19].0) { NameSpelled(token, 19); }
    if Spells(token, WORDS[21].0) { NameSpelled(token, 21); }
  }

  lemma MoveWords(token: Bytes)
    ensures (Spells(token, "LMOVE") ==> NameOf(token) == LMOVE) && (Spells(token, "BLMOVE") ==> NameOf(token) == BLMOVE)
    ensures (Spells(token, "RPOPLPUSH") ==> NameOf(token) == RPOPLPUSH) && (Spells(token, "BRPOPLPUSH") ==> NameOf(token) == BRPOPLPUSH)
    ensures (Spells(token, "LMPOP") ==> NameOf(token) == LMPOP) && (Spells(token, "BLMPOP") ==> NameOf(token) == BLMPOP)
  {
    hide Spells, NameOf;
    if Spells(token, WORDS[10].0) { NameSpelled(token, 10); }
    if Spells(token, WORDS[17].0) { NameSpelled(token, 17); }
    if Spells(token, WORDS[28].0) { NameSpelled(token, 28); }
    if Spells(token, WORDS[29].0) { NameSpelled(token, 29); }
    if Spells(token, WORDS[11].0) { NameSpelled(token, 11); }
    if Spells(token, WORDS[18].0) { NameSpelled(token, 18); }
  }

  /** Which handler carries out which command. */
  lemma Carried(name: Name, argv: seq<Bytes>, db: Db, c: Context)
    requires argv != []
    ensures var r := Run(name, argv, db, c);
            && (name == LPOP ==> r == RunPop(argv, db, Left)) && (name == RPOP ==> r == RunPop(argv, db, Right))
            && (name == LPUSH ==> r == RunPush(argv, db, Left, false)) && (name == RPUSH ==> r == RunPush(argv, db, Right, false))
            && (name == LPUSHX ==> r == RunPush(argv, db, Left, true)) && (name == RPUSHX ==> r == RunPush(argv, db, Right, true))
            && (name == BLPOP ==> r == RunBlockingPop(argv, db, Left, c)) && (name == BRPOP ==> r == RunBlockingPop(argv, db, Right, c))
            && (name == LMPOP ==> r == RunMpop(argv, db)) && (name == BLMPOP ==> r == RunBlockingMpop(argv, db, c))
            && (name in {RPOPLPUSH, LMOVE} ==> r == RunMove(name, argv, db))
            && (name in {BLMOVE, BRPOPLPUSH} ==> r == RunBlockingMove(name, argv, db, c))
  {
    hide RunSet, RunDel, RunPush, RunPop, RunMove, RunMpop, RunRename, RunCopy, RunBlockingPop, RunBlockingMove, RunBlockingMpop,
      OkReply, Message, Ascii;
  }

  lemma KeysCarried(name: Name, argv: seq<Bytes>, db: Db, c: Context)
    requires argv != []
    ensures var r := Run(name, argv, db, c);
            && (name == SET ==> r == RunSet(argv, db)) && (name == DEL ==> r == RunDel(argv, db))
            && (name == RENAME ==> r == RunRename(argv, db, false)) && (name == RENAMENX ==> r == RunRename(argv, db, true))
            && (name == COPY ==> r == RunCopy(argv, db)) && (name == FLUSHALL ==> r == Done(map[], OkReply()))
  {
    hide RunSet, RunDel, RunPush, RunPop, RunMove, RunMpop, RunRename, RunCopy, RunBlockingPop, RunBlockingMove, RunBlockingMpop,
      OkReply, Message, Ascii;
  }

  // ------------------------------------------------------------------
  // Pops and pushes

  lemma TakesOff(db: Db, key: Bytes, count: nat)
    requires IsList(db, key) && db[key].items != []
    ensures var items := db[key].items;
            var k := if count < |items| then count else |items|;
            && PopMany(db, key, Left, count) == (items[..k], Put(db, key, items[k..]))
            && PopMany(db, key, Right, count) == (Backwards(items[|items| - k..]), Put(db, key, items[..|items| - k]))
  {
    hide PopMany, Put;
    var items := db[key].items;
    if count <= |items| {
      PopsInOrder(db, key, count);
    } else {
      PopsInOrder(db, key, |items|);
      PopsNoMore(db, key, Left, count, |items|);
      PopsNoMore(db, key, Right, count, |items|);
    }
  }

  lemma {:induction false} PopsNoMore(db: Db, key: Bytes, end: End, count: nat, n: nat)
    requires IsList(db, key) && |db[key].items| == n && n <= count
    ensures PopMany(db, key, end, count) == PopMany(db, key, end, n)
    decreases n
  {
    if n > 0 && count > n {
      hide PopMany, PopItem, Put;
      var rest := PopItem(db[key].items, end).1;
      RestIsShorter(db[key].items, end);
      PopsOneMore(db, key, end, count);
      PopsOneMore(db, key, end, n);
      if n == 1 {
        NothingLeft(db, key, end, count - 1, rest);
      } else {
        PutIsList(db, key, rest);
        PopsNoMore(Put(db, key, rest), key, end, count - 1, n - 1);
      }
    }
  }

  lemma RestIsShorter(items: seq<Bytes>, end: End)
    requires items != []
    ensures |PopItem(items, end).1| == |items| - 1
  {
  }

  lemma NothingLeft(db: Db, key: Bytes, end: End, count: nat, rest: seq<Bytes>)
    requires rest == []
    ensures PopMany(Put(db, key, rest), key, end, count) == ([], Put(db, key, rest))
    ensures PopMany(Put(db, key, rest), key, end, 0) == ([], Put(db, key, rest))
  {
  }

  /** LPOP takes the first value and RPOP the last. */
  lemma PopsByWord(argv: seq<Bytes>, db: Db, c: Context)
    requires |argv| == 2 && IsList(db, argv[1]) && db[argv[1]].items != []
    ensures var items, n := db[argv[1]].items, |db[argv[1]].items| - 1;
            && (Spells(argv[0], "LPOP") ==> Run(NameOf(argv[0]), argv, db, c) == Done(Put(db, argv[1], items[1..]), Bulk(items[0])))
            && (Spells(argv[0], "RPOP") ==> Run(NameOf(argv[0]), argv, db, c) == Done(Put(db, argv[1], items[..n]), Bulk(items[n])))
  {
    hide NameOf, Spells, Run, RunPop, Put;
    ListWords(argv[0]);
    Carried(NameOf(argv[0]), argv, db, c);
    PopsOne(argv, db);
  }

  lemma PopsOne(argv: seq<Bytes>, db: Db)
    requires |argv| == 2 && IsList(db, argv[1]) && db[argv[1]].items != []
    ensures var items, n := db[argv[1]].items, |db[argv[1]].items| - 1;
            && RunPop(argv, db, Left) == Done(Put(db, argv[1], items[1..]), Bulk(items[0]))
            && RunPop(argv, db, Right) == Done(Put(db, argv[1], items[..n]), Bulk(items[n]))
  {
    TakesOff(db, argv[1], 1);
    hide PopMany, Put, Message, ParseI64, BulkAll, Backwards;
    LastBackwards(db[argv[1]].items);
  }

  lemma LastBackwards(items: seq<Bytes>)
    requires items != []
    ensures Backwards(items[|items| - 1..]) == [items[|items| - 1]]
  {
    assert items[|items| - 1..] == [items[|items| - 1]];
    assert [items[|items| - 1]][1..] == [];
  }

  /** With a count, LPOP takes that many from the front, as far as they go, in order, and RPOP from the
      back, the last first. */
  lemma CountedPopsByWord(argv: seq<Bytes>, n: nat, db: Db, c: Context)
    requires |argv| == 3 && ParseI64(argv[2]) == Some(n) && IsList(db, argv[1]) && db[argv[1]].items != []
    ensures var items := db[argv[1]].items;
            var k := if n < |items| then n else |items|;
            var back := |items| - k;
            && (Spells(argv[0], "LPOP") ==>
                  Run(NameOf(argv[0]), argv, db, c)
                  == Done(Put(db, argv[1], items[k..]), if k == 0 then NilArray else Array(BulkAll(items[..k]))))
            && (Spells(argv[0], "RPOP") ==>
                  Run(NameOf(argv[0]), argv, db, c)
                  == Done(Put(db, argv[1], items[..back]), if k == 0 then NilArray else Array(BulkAll(Backwards(items[back..])))))
  {
    hide NameOf, Spells, Run, PopMany, Put, Message, ParseI64, BulkAll, Backwards;
    ListWords(argv[0]);
    Carried(NameOf(argv[0]), argv, db, c);
    TakesOff(db, argv[1], n);
  }

  /** From a key that is not there they take nothing; from one that holds no list they are refused. */
  lemma PopsOfNothing(argv: seq<Bytes>, db: Db, c: Context)
    requires 2 <= |argv| <= 3 && (|argv| == 3 ==> ParseI64(argv[2]).Some? && ParseI64(argv[2]).value >= 0)
    requires Spells(argv[0], "LPOP") || Spells(argv[0], "RPOP")
    ensures argv[1] !in db ==> Run(NameOf(argv[0]), argv, db, c) == Done(db, if |argv| == 2 then Nil else NilArray)
    ensures WrongFor(db, argv[1]) ==> Run(NameOf(argv[0]), argv, db, c) == Done(db, WrongKind())
  {
    hide NameOf, Spells, Run, ParseI64;
    ListWords(argv[0]);
    Carried(NameOf(argv[0]), argv, db, c);
    WrongKindIs();
  }

  function WrongKind(): Reply {
    Error(Ascii("WRONGTYPE Operation against a key holding the wrong kind of value"))
  }

  lemma WrongKindIs()
    ensures Refused(WrongType) == WrongKind()
  {
  }

  /** What a list will be when values are pushed: on the right they follow in order, on the left they
      stand before, the last pushed first. */
  function Pushed(items: seq<Bytes>, values: seq<Bytes>, front: bool): seq<Bytes> {
    if front then Backwards(values) + items else items + values
  }

  /** LPUSH and LPUSHX push on the left, RPUSH and RPUSHX on the right; those with an X only if the list is
      there. All answer how long it is. */
  lemma PushesByWord(argv: seq<Bytes>, db: Db, c: Context)
    requires |argv| > 2 && !WrongFor(db, argv[1])
    ensures var items := if argv[1] in db then db[argv[1]].items else [];
            var left, right := Pushed(items, argv[2..], true), Pushed(items, argv[2..], false);
            var r := Run(NameOf(argv[0]), argv, db, c);
            && (Spells(argv[0], "LPUSH") || (Spells(argv[0], "LPUSHX") && argv[1] in db) ==>
                  r == Done(db[argv[1] := ListValue(left)], Integer(|left|)))
            && (Spells(argv[0], "RPUSH") || (Spells(argv[0], "RPUSHX") && argv[1] in db) ==>
                  r == Done(db[argv[1] := ListValue(right)], Integer(|right|)))
            && ((Spells(argv[0], "LPUSHX") || Spells(argv[0], "RPUSHX")) && argv[1] !in db ==> r == Done(db, Integer(0)))
  {
    hide NameOf, Spells, Run, PushItems, Message, Backwards;
    ListWords(argv[0]);
    Carried(NameOf(argv[0]), argv, db, c);
    PushesInOrder(if argv[1] in db then db[argv[1]].items else [], argv[2..]);
  }

  lemma PushesOnOthers(argv: seq<Bytes>, db: Db, c: Context)
    requires |argv| > 2 && WrongFor(db, argv[1])
    requires Spells(argv[0], "LPUSH") || Spells(argv[0], "RPUSH") || Spells(argv[0], "LPUSHX") || Spells(argv[0], "RPUSHX")
    ensures Run(NameOf(argv[0]), argv, db, c) == Done(db, WrongKind())
  {
    hide NameOf, Spells, Run;
    ListWords(argv[0]);
    Carried(NameOf(argv[0]), argv, db, c);
    WrongKindIs();
  }

  // ------------------------------------------------------------------
  // Blocking pops and pops over several keys

  /** `keys[i]` is the first of the keys with anything in it, a list. */
  predicate FirstThere(db: Db, keys: seq<Bytes>, i: nat) {
    && i < |keys| && IsList(db, keys[i]) && db[keys[i]].items != []
    && forall j | 0 <= j < i :: keys[j] !in db
  }

  lemma {:induction false} PopsTheFirst(db: Db, keys: seq<Bytes>, i: nat, end: End)
    requires FirstThere(db, keys, i)
    ensures var (value, rest) := PopItem(db[keys[i]].items, end);
            PopFirstList(db, keys, end) == Pass(Some((Array([Bulk(keys[i]), Bulk(value)]), Put(db, keys[i], rest))))
    decreases i
  {
    hide PopItem, Put;
    if i == 0 {
      PopIs(db, keys[0], end);
    } else {
      PopsTheFirst(db, keys[1..], i - 1, end);
    }
  }

  lemma {:induction false} PopsManyFromFirst(db: Db, keys: seq<Bytes>, i: nat, end: End, count: nat)
    requires FirstThere(db, keys, i) && count > 0
    ensures var (popped, rest) := PopMany(db, keys[i], end, count);
            && popped != []
            && MpopLists(db, keys, end, count) == Pass(Some((Array([Bulk(keys[i]), Array(BulkAll(popped))]), rest)))
    decreases i
  {
    hide Put, PopItem, Backwards;
    if i == 0 {
      TakesOff(db, keys[0], count);
      hide PopMany;
    } else {
      NothingThere(db, keys[0], end, count);
      hide PopMany;
      PopsManyFromFirst(db, keys[1..], i - 1, end, count);
    }
  }

  lemma NothingThere(db: Db, key: Bytes, end: End, count: nat)
    requires key !in db
    ensures PopMany(db, key, end, count) == ([], db)
  {
  }

  /** BLPOP takes the first value of the first list among its keys, BRPOP the last, and says which key. */
  lemma BlockingPopsByWord(argv: seq<Bytes>, i: nat, db: Db, c: Context)
    requires |argv| > 2 && FirstThere(db, argv[1..|argv| - 1], i) && Waits(c.timeouts(argv[|argv| - 1]))
    ensures var key := argv[1 + i];
            var items, n := db[key].items, |db[key].items| - 1;
            && (Spells(argv[0], "BLPOP") ==>
                  Run(NameOf(argv[0]), argv, db, c) == Done(Put(db, key, items[1..]), Array([Bulk(key), Bulk(items[0])])))
            && (Spells(argv[0], "BRPOP") ==>
                  Run(NameOf(argv[0]), argv, db, c) == Done(Put(db, key, items[..n]), Array([Bulk(key), Bulk(items[n])])))
  {
    hide NameOf, Spells, Run, PopFirstList, Put, Message;
    ListWords(argv[0]);
    Carried(NameOf(argv[0]), argv, db, c);
    PopsTheFirst(db, argv[1..|argv| - 1], i, Left);
    PopsTheFirst(db, argv[1..|argv| - 1], i, Right);
  }

  /** A timeout argument that is a duration, 0 standing for ever. */
  predicate Waits(reading: Timeout) {
    reading.Forever? || reading.After?
  }

  /** From argument `at` on: how many keys, the keys, a side, and how many values, one if nothing is said. */
  predicate Asks(argv: seq<Bytes>, at: nat, keys: seq<Bytes>, count: nat) {
    && keys != [] && at + 1 + |keys| < |argv|
    && ParseI64(argv[at]) == Some(|keys|) && argv[at + 1..at + 1 + |keys|] == keys
    && var more := argv[at + 2 + |keys|..];
       || (more == [] && count == 1)
       || (|more| == 2 && Spells(more[0], "COUNT") && ParseI64(more[1]) == Some(count) && count > 0)
  }

  lemma AskedFor(argv: seq<Bytes>, at: nat, keys: seq<Bytes>, count: nat)
    requires Asks(argv, at, keys, count)
    ensures ParseMultiKey(argv, at) == Pass(MultiKey(keys, argv[at + 1 + |keys|], count))
  {
    hide ParseI64, Message;
    if at + 2 + |keys| < |argv| { SpelledUpper(argv[at + 2 + |keys|], "COUNT"); }
  }

  lemma SidesByWord(token: Bytes)
    ensures Spells(token, "LEFT") ==> ParseEnd(token) == Some(Left)
    ensures Spells(token, "RIGHT") ==> ParseEnd(token) == Some(Right)
    ensures !Spells(token, "LEFT") && !Spells(token, "RIGHT") ==> ParseEnd(token) == None
  {
    SpelledUpper(token, "LEFT");
    SpelledUpper(token, "RIGHT");
    assert Spells(token, "RIGHT") ==> !Spells(token, "LEFT");
  }

  /** Up to `count` values taken off one side of a list, in order from that side, and what is said. */
  function Mpopped(db: Db, key: Bytes, left: bool, count: nat): Outcome
    requires IsList(db, key)
  {
    var items := db[key].items;
    var k := if count < |items| then count else |items|;
    var back := |items| - k;
    if left then Done(Put(db, key, items[k..]), Array([Bulk(key), Array(BulkAll(items[..k]))]))
    else Done(Put(db, key, items[..back]), Array([Bulk(key), Array(BulkAll(Backwards(items[back..])))]))
  }

  /** LMPOP, and BLMPOP after its timeout, take values off the side named from the first list among
      their keys: up to as many as asked for, in order from that side. */
  lemma MpopsByWord(argv: seq<Bytes>, at: nat, keys: seq<Bytes>, count: nat, i: nat, db: Db, c: Context)
    requires |argv| > at + 2 && Asks(argv, at, keys, count) && FirstThere(db, keys, i)
    requires (Spells(argv[0], "LMPOP") && at == 1) || (Spells(argv[0], "BLMPOP") && at == 2 && Waits(c.timeouts(argv[1])))
    ensures var side := argv[at + 1 + |keys|];
            Run(NameOf(argv[0]), argv, db, c)
            == if Spells(side, "LEFT") then Mpopped(db, keys[i], true, count)
               else if Spells(side, "RIGHT") then Mpopped(db, keys[i], false, count)
               else Done(db, Error(Ascii("ERR syntax error")))
  {
    MoveWords(argv[0]);
    SidesByWord(argv[at + 1 + |keys|]);
    hide Spells, NameOf, Run, Mpopped, Asks, RunMpop, RunBlockingMpop, Message, Ascii;
    Carried(NameOf(argv[0]), argv, db, c);
    MpopsAsked(argv, at, keys, count, i, db, c);
  }

  lemma MpopsAsked(argv: seq<Bytes>, at: nat, keys: seq<Bytes>, count: nat, i: nat, db: Db, c: Context)
    requires |argv| > at + 2 && Asks(argv, at, keys, count) && FirstThere(db, keys, i)
    requires at == 1 || (at == 2 && Waits(c.timeouts(argv[1])))
    ensures (if at == 1 then RunMpop(argv, db) else RunBlockingMpop(argv, db, c))
            == match ParseEnd(argv[at + 1 + |keys|])
               case None => Done(db, Error(Ascii("ERR syntax error")))
               case Some(end) => Mpopped(db, keys[i], end == Left, count)
  {
    hide Spells, MpopLists, PopMany, Put, ParseMultiKey, ParseEnd, BulkAll, Backwards, FirstThere, ParseI64;
    AskedFor(argv, at, keys, count);
    PopsManyFromFirst(db, keys, i, Left, count);
    PopsManyFromFirst(db, keys, i, Right, count);
    TakesThere(db, keys, i, count);
  }

  lemma TakesThere(db: Db, keys: seq<Bytes>, i: nat, count: nat)
    requires FirstThere(db, keys, i)
    ensures IsList(db, keys[i]) && db[keys[i]].items != []
    ensures var items := db[keys[i]].items;
            var k := if count < |items| then count else |items|;
            && PopMany(db, keys[i], Left, count) == (items[..k], Put(db, keys[i], items[k..]))
            && PopMany(db, keys[i], Right, count) == (Backwards(items[|items| - k..]), Put(db, keys[i], items[..|items| - k]))
  {
    hide PopMany, Put, Backwards;
    TakesOff(db, keys[i], count);
  }

  // ------------------------------------------------------------------
  // Moves

  /** The keyspace once `value`, whose source keeps `rest`, stands at the front or the back of the
      destination, which may be the source. */
  function Moved(db: Db, source: Bytes, destination: Bytes, value: Bytes, rest: seq<Bytes>, front: bool): Db {
    var held := if destination == source then rest else if IsList(db, destination) then db[destination].items else [];
    var there := ListValue(if front then [value] + held else held + [value]);
    if destination == source then db[source := there] else Put(db, source, rest)[destination := there]
  }

  lemma MovesOne(db: Db, source: Bytes, destination: Bytes, from: End, to: End)
    requires IsList(db, source) && db[source].items != [] && !WrongFor(db, destination)
    ensures var (value, rest) := PopItem(db[source].items, from);
            MoveOne(db, source, destination, from, to) == Some((value, Moved(db, source, destination, value, rest, to == Left)))
  {
    hide PopItem;
    var (value, rest) := PopItem(db[source].items, from);
    var taken := db[source := ListValue(rest)];
    if source != destination {
      var target := PushItem(if destination in db then db[destination].items else [], to, value);
      assert taken[destination := ListValue(target)] - {source} == (db - {source})[destination := ListValue(target)];
    } else {
      assert db[source := ListValue(PushItem(rest, to, value))] == taken[source := ListValue(PushItem(rest, to, value))];
    }
  }

  lemma MovesRun(name: Name, argv: seq<Bytes>, from: End, to: End, db: Db, c: Context)
    requires name in {RPOPLPUSH, LMOVE, BLMOVE, BRPOPLPUSH} && |argv| > 2 && MoveEnds(name, argv) == Pass((from, to))
    requires name in {BLMOVE, BRPOPLPUSH} ==> Waits(c.timeouts(argv[|argv| - 1]))
    requires IsList(db, argv[1]) && db[argv[1]].items != [] && !WrongFor(db, argv[2])
    ensures var (value, rest) := PopItem(db[argv[1]].items, from);
            Run(name, argv, db, c) == Done(Moved(db, argv[1], argv[2], value, rest, to == Left), Bulk(value))
  {
    hide Run, MoveOne, Moved, MoveEnds, PopItem, Message;
    Carried(name, argv, db, c);
    MovesOne(db, argv[1], argv[2], from, to);
  }

  /** RPOPLPUSH and BRPOPLPUSH take the last value and put it first. */
  lemma PopPushesByWord(argv: seq<Bytes>, db: Db, c: Context)
    requires |argv| > 2 && IsList(db, argv[1]) && db[argv[1]].items != [] && !WrongFor(db, argv[2])
    requires || (|argv| == 3 && Spells(argv[0], "RPOPLPUSH"))
             || (|argv| == 4 && Spells(argv[0], "BRPOPLPUSH") && Waits(c.timeouts(argv[3])))
    ensures var items, n := db[argv[1]].items, |db[argv[1]].items| - 1;
            Run(NameOf(argv[0]), argv, db, c) == Done(Moved(db, argv[1], argv[2], items[n], items[..n], true), Bulk(items[n]))
  {
    MoveWords(argv[0]);
    hide Spells, NameOf, Moved, Run;
    MovesRun(NameOf(argv[0]), argv, Right, Left, db, c);
  }

  /** LMOVE and BLMOVE take the first value if their first side is the left, else the last, and put it
      first if their second side is the left, else last. */
  lemma SidedMovesByWord(argv: seq<Bytes>, db: Db, c: Context)
    requires |argv| > 4 && IsList(db, argv[1]) && db[argv[1]].items != [] && !WrongFor(db, argv[2])
    requires || (|argv| == 5 && Spells(argv[0], "LMOVE"))
             || (|argv| == 6 && Spells(argv[0], "BLMOVE") && Waits(c.timeouts(argv[5])))
    requires Spells(argv[3], "LEFT") || Spells(argv[3], "RIGHT")
    requires Spells(argv[4], "LEFT") || Spells(argv[4], "RIGHT")
    ensures var items, n := db[argv[1]].items, |db[argv[1]].items| - 1;
            var front := Spells(argv[4], "LEFT");
            Run(NameOf(argv[0]), argv, db, c)
            == if Spells(argv[3], "LEFT")
               then Done(Moved(db, argv[1], argv[2], items[0], items[1..], front), Bulk(items[0]))
               else Done(Moved(db, argv[1], argv[2], items[n], items[..n], front), Bulk(items[n]))
  {
    MoveWords(argv[0]);
    SidesByWord(argv[3]);
    SidesByWord(argv[4]);
    hide Spells, NameOf, Moved, Run, ParseEnd;
    MovesRun(NameOf(argv[0]), argv, ParseEnd(argv[3]).value, ParseEnd(argv[4]).value, db, c);
  }

  // ------------------------------------------------------------------
  // Waiting

  /** Which argument says how long to wait. */
  function TimeoutOf(argv: seq<Bytes>): Bytes
    requires |argv| > 1
  {
    if Spells(argv[0], "BLMPOP") then argv[1] else argv[|argv| - 1]
  }

  /** So long after `since`, or never. */
  predicate Lasts(reading: Timeout, since: int, deadline: Option<int>) {
    match reading
    case Forever => deadline == None
    case After(millis) => deadline == Some(since + millis)
    case _ => false
  }

  /** A command parked at `since` gives up, by its own argument, so long after; or never. */
  predicate WaitsUntil(argv: seq<Bytes>, timeouts: Bytes -> Timeout, since: int, deadline: Option<int>) {
    |argv| > 1 && Lasts(timeouts(TimeoutOf(argv)), since, deadline)
  }

  lemma PopParks(argv: seq<Bytes>, db: Db, end: End, c: Context)
    ensures var r := RunBlockingPop(argv, db, end, c);
            r.Park? ==>
              |argv| > 2 && Lasts(c.timeouts(argv[|argv| - 1]), c.now, r.deadline) && r.keys == argv[1..|argv| - 1] && r.onTimeout == NilArray
  {
    hide PopFirstList, Message;
  }

  lemma MoveParks(name: Name, argv: seq<Bytes>, db: Db, c: Context)
    requires name in {BLMOVE, BRPOPLPUSH}
    ensures var r := RunBlockingMove(name, argv, db, c);
            r.Park? ==>
              |argv| > 2 && Lasts(c.timeouts(argv[|argv| - 1]), c.now, r.deadline) && r.keys == [argv[1]] && r.onTimeout == Nil
  {
    hide MoveOne, ParseEnd, Message;
  }

  lemma MpopParks(argv: seq<Bytes>, db: Db, c: Context)
    ensures var r := RunBlockingMpop(argv, db, c);
            r.Park? ==>
              && |argv| > 3 && Lasts(c.timeouts(argv[1]), c.now, r.deadline) && r.onTimeout == NilArray
              && ParseI64(argv[2]).Some? && 0 < ParseI64(argv[2]).value && 3 + ParseI64(argv[2]).value < |argv|
              && r.keys == argv[3..3 + ParseI64(argv[2]).value]
  {
    hide MpopLists, ParseEnd, Message, ParseI64, EqIgnoreCase;
  }

  /** A command that parks is one of five, and waits as long as its timeout argument says, on the keys
      it names; giving up it answers a null. */
  lemma ParksAsAsked(argv: seq<Bytes>, db: Db, c: Context)
    requires argv != [] && Run(NameOf(argv[0]), argv, db, c).Park?
    ensures var r := Run(NameOf(argv[0]), argv, db, c);
            && WaitsUntil(argv, c.timeouts, c.now, r.deadline)
            && (if Spells(argv[0], "BLPOP") || Spells(argv[0], "BRPOP") then
                  r.keys == argv[1..|argv| - 1] && r.onTimeout == NilArray
                else if Spells(argv[0], "BLMOVE") || Spells(argv[0], "BRPOPLPUSH") then
                  r.keys == [argv[1]] && r.onTimeout == Nil
                else
                  && Spells(argv[0], "BLMPOP") && |argv| > 3 && r.onTimeout == NilArray
                  && ParseI64(argv[2]).Some? && 0 < ParseI64(argv[2]).value && 3 + ParseI64(argv[2]).value < |argv|
                  && r.keys == argv[3..3 + ParseI64(argv[2]).value])
  {
    OnlyTheseWait(argv, db, c);
    ListWords(argv[0]);
    MoveWords(argv[0]);
    WaitingWords(argv[0]);
    hide Spells, NameOf, Run, RunBlockingPop, RunBlockingMove, RunBlockingMpop, Lasts, ParseI64, Message, Ascii;
    var name := NameOf(argv[0]);
    Carried(name, argv, db, c);
    if name in {BLPOP, BRPOP} {
      PopParks(argv, db, if name == BLPOP then Left else Right, c);
    } else if name == BLMPOP {
      MpopParks(argv, db, c);
    } else {
      MoveParks(name, argv, db, c);
    }
  }

  lemma OnlyTheseWait(argv: seq<Bytes>, db: Db, c: Context)
    requires argv != [] && Run(NameOf(argv[0]), argv, db, c).Park?
    ensures NameOf(argv[0]) in {BLPOP, BRPOP, BLMOVE, BRPOPLPUSH, BLMPOP}
  {
    hide NameOf, Message, MoveOne, ParseEnd, Ascii;
  }

  lemma WordBeside(i: nat)
    requires i < |WORDS|
    ensures WORDS[i].1 == BLPOP ==> i == 8
    ensures WORDS[i].1 == BRPOP ==> i == 9
    ensures WORDS[i].1 == BLMOVE ==> i == 17
    ensures WORDS[i].1 == BLMPOP ==> i == 18
    ensures WORDS[i].1 == BRPOPLPUSH ==> i == 29
  {
  }

  /** Only these words are these names. */
  lemma WaitingWords(token: Bytes)
    ensures NameOf(token) == BLPOP ==> Spells(token, "BLPOP")
    ensures NameOf(token) == BRPOP ==> Spells(token, "BRPOP")
    ensures NameOf(token) == BLMOVE ==> Spells(token, "BLMOVE")
    ensures NameOf(token) == BRPOPLPUSH ==> Spells(token, "BRPOPLPUSH")
    ensures NameOf(token) == BLMPOP ==> Spells(token, "BLMPOP")
  {
    hide Spells, NameOf;
    if NameOf(token) in {BLPOP, BRPOP, BLMOVE, BRPOPLPUSH, BLMPOP} {
      var i := SpelledAs(token);
      WordBeside(i);
      if i == 8 { assert Spells(token, WORDS[8].0); }
      if i == 9 { assert Spells(token, WORDS[9].0); }
      if i == 17 { assert Spells(token, WORDS[17].0); }
      if i == 18 { assert Spells(token, WORDS[18].0); }
      if i == 29 { assert Spells(token, WORDS[29].0); }
    }
  }

  lemma SpelledAs(token: Bytes) returns (i: nat)
    requires NameOf(token) != UNKNOWN
    ensures i < |WORDS| && Spells(token, WORDS[i].0) && WORDS[i].1 == NameOf(token)
  {
    NothingSpelled(token);
    i :| 0 <= i < |WORDS| && Spells(token, WORDS[i].0);
    NameSpelled(token, i);
  }

  /** Inside EXEC a command that would park gives up at once instead. */
  lemma GivesUpInExec(argv: seq<Bytes>, db: Db, c: Context)
    requires argv != [] && !c.inExec
    ensures Run(NameOf(argv[0]), argv, db, c.(inExec := true))
            == match Run(NameOf(argv[0]), argv, db, c)
               case Park(_, _, onTimeout) => Done(db, onTimeout)
               case Done(after, reply) => Done(after, reply)
  {
    hide NameOf, Run;
    var name := NameOf(argv[0]);
    if CanWait(name) {
      WaitingGivesUp(name, argv, db, c);
    } else {
      ClockUnread(name, argv, db, c);
      if Run(name, argv, db, c).Park? { OnlyTheseWait(argv, db, c); }
    }
  }

  lemma ClockUnread(name: Name, argv: seq<Bytes>, db: Db, c: Context)
    requires argv != [] && !CanWait(name)
    ensures Run(name, argv, db, c.(inExec := true)) == Run(name, argv, db, c)
  {
    hide RunSet, RunDel, RunPush, RunPop, RunMove, RunMpop, RunRename, RunCopy, Message, Ascii;
  }

  lemma WaitingGivesUp(name: Name, argv: seq<Bytes>, db: Db, c: Context)
    requires argv != [] && CanWait(name) && !c.inExec
    ensures Run(name, argv, db, c.(inExec := true)) == AtOnce(Run(name, argv, db, c), db)
  {
    PopGivesUp(argv, db, Left, c);
    PopGivesUp(argv, db, Right, c);
    if name in {BLMOVE, BRPOPLPUSH} { MoveGivesUp(name, argv, db, c); }
    MpopGivesUp(argv, db, c);
    hide Run, RunBlockingPop, RunBlockingMove, RunBlockingMpop, AtOnce;
    Carried(name, argv, db, c);
    Carried(name, argv, db, c.(inExec := true));
  }

  /** What a blocking command comes to inside EXEC, given what it comes to outside. */
  function AtOnce(r: Outcome, db: Db): Outcome {
    match r
    case Park(_, _, onTimeout) => Done(db, onTimeout)
    case Done(_, _) => r
  }

  lemma PopGivesUp(argv: seq<Bytes>, db: Db, end: End, c: Context)
    requires !c.inExec
    ensures RunBlockingPop(argv, db, end, c.(inExec := true)) == AtOnce(RunBlockingPop(argv, db, end, c), db)
  {
    hide PopFirstList, Message;
  }

  lemma MoveGivesUp(name: Name, argv: seq<Bytes>, db: Db, c: Context)
    requires !c.inExec && name in {BLMOVE, BRPOPLPUSH}
    ensures RunBlockingMove(name, argv, db, c.(inExec := true)) == AtOnce(RunBlockingMove(name, argv, db, c), db)
  {
    hide MoveOne, ParseEnd, Message;
  }

  lemma MpopGivesUp(argv: seq<Bytes>, db: Db, c: Context)
    requires !c.inExec
    ensures RunBlockingMpop(argv, db, c.(inExec := true)) == AtOnce(RunBlockingMpop(argv, db, c), db)
  {
    hide MpopLists, ParseMultiKey, ParseEnd, Message;
  }

  /** What is said of a timeout argument that is no duration. */
  function BadDuration(reading: Timeout): Reply {
    Error(Ascii(match reading
                case NotAFloat => "ERR timeout is not a float or out of range"
                case Negative => "ERR timeout is negative"
                case _ => "ERR timeout is out of range"))
  }

  lemma BadTimeouts(argv: seq<Bytes>, db: Db, c: Context)
    requires |argv| > 2 && !Waits(c.timeouts(TimeoutOf(argv)))
    requires || Spells(argv[0], "BLPOP") || Spells(argv[0], "BRPOP") || (Spells(argv[0], "BRPOPLPUSH") && |argv| == 4)
             || (Spells(argv[0], "BLMPOP") && |argv| > 4)
    ensures Run(NameOf(argv[0]), argv, db, c) == Done(db, BadDuration(c.timeouts(TimeoutOf(argv))))
  {
    ListWords(argv[0]);
    MoveWords(argv[0]);
    TimeoutRefused(c.timeouts(TimeoutOf(argv)), c.now);
    BlockingRefused(argv, db, c);
    hide NameOf, Spells, Run, RunBlockingPop, RunBlockingMove, RunBlockingMpop, BadDuration, Waits;
    Carried(NameOf(argv[0]), argv, db, c);
  }

  lemma BlockingRefused(argv: seq<Bytes>, db: Db, c: Context)
    requires |argv| > 2
    ensures match ParseTimeout(c.timeouts(argv[|argv| - 1]), c.now)
            case Pass(_) => true
            case Fail(reply) =>
              && (forall end :: RunBlockingPop(argv, db, end, c) == Done(db, reply))
              && (|argv| == 4 ==> RunBlockingMove(BRPOPLPUSH, argv, db, c) == Done(db, reply))
    ensures match ParseTimeout(c.timeouts(argv[1]), c.now)
            case Pass(_) => true
            case Fail(reply) => |argv| > 4 ==> RunBlockingMpop(argv, db, c) == Done(db, reply)
  {
    hide ParseTimeout, Message;
  }

  lemma TimeoutRefused(reading: Timeout, now: int)
    requires !Waits(reading)
    ensures ParseTimeout(reading, now) == Fail(BadDuration(reading))
  {
  }

  lemma ControlBeside(i: nat)
    requires i < |WORDS|
    ensures WORDS[i].1 == EXEC ==> i == 3
    ensures WORDS[i].1 == QUIT ==> i == 6
    ensures WORDS[i].1 == MULTI ==> i == 13
    ensures WORDS[i].1 == RESET ==> i == 14
    ensures WORDS[i].1 == WATCH ==> i == 16
    ensures WORDS[i].1 == DISCARD ==> i == 23
  {
  }

  /** The words of the commands that a transaction does not hold back. */
  lemma ControlWords(token: Bytes)
    ensures (NameOf(token) == EXEC <==> Spells(token, "EXEC")) && (NameOf(token) == QUIT <==> Spells(token, "QUIT"))
    ensures (NameOf(token) == MULTI <==> Spells(token, "MULTI")) && (NameOf(token) == RESET <==> Spells(token, "RESET"))
    ensures (NameOf(token) == WATCH <==> Spells(token, "WATCH")) && (NameOf(token) == DISCARD <==> Spells(token, "DISCARD"))
  {
    hide Spells, NameOf;
    if Spells(token, WORDS[3].0) { NameSpelled(token, 3); }
    if Spells(token, WORDS[6].0) { NameSpelled(token, 6); }
    if Spells(token, WORDS[13].0) { NameSpelled(token, 13); }
    if Spells(token, WORDS[14].0) { NameSpelled(token, 14); }
    if Spells(token, WORDS[16].0) { NameSpelled(token, 16); }
    if Spells(token, WORDS[23].0) { NameSpelled(token, 23); }
    if NameOf(token) in {EXEC, QUIT, MULTI, RESET, WATCH, DISCARD} {
      var i := SpelledAs(token);
      ControlBeside(i);
      if i == 3 { assert Spells(token, WORDS[3].0); }
      if i == 6 { assert Spells(token, WORDS[6].0); }
      if i == 13 { assert Spells(token, WORDS[13].0); }
      if i == 14 { assert Spells(token, WORDS[14].0); }
      if i == 16 { assert Spells(token, WORDS[16].0); }
      if i == 23 { assert Spells(token, WORDS[23].0); }
    }
  }

  // ------------------------------------------------------------------
  // Whole keys

  lemma KeyWords(token: Bytes)
    ensures (Spells(token, "DEL") ==> NameOf(token) == DEL) && (Spells(token, "UNLINK") ==> NameOf(token) == DEL)
    ensures (Spells(token, "SET") ==> NameOf(token) == SET) && (Spells(token, "COPY") ==> NameOf(token) == COPY)
    ensures (Spells(token, "RENAME") ==> NameOf(token) == RENAME) && (Spells(token, "RENAMENX") ==> NameOf(token) == RENAMENX)
    ensures (Spells(token, "FLUSHDB") ==> NameOf(token) == FLUSHALL) && (Spells(token, "FLUSHALL") ==> NameOf(token) == FLUSHALL)
  {
    hide Spells, NameOf;
    if Spells(token, WORDS[0].0) { NameSpelled(token, 0); }
    if Spells(token, WORDS[1].0) { NameSpelled(token, 1); }
    if Spells(token, WORDS[2].0) { NameSpelled(token, 2); }
    if Spells(token, WORDS[20].0) { NameSpelled(token, 20); }
    if Spells(token, WORDS[22].0) { NameSpelled(token, 22); }
    if Spells(token, WORDS[24].0) { NameSpelled(token, 24); }
    if Spells(token, WORDS[26].0) { NameSpelled(token, 26); }
    if Spells(token, WORDS[27].0) { NameSpelled(token, 27); }
  }

  /** One of the options says this word. */
  predicate Says(options: seq<Bytes>, word: string) {
    exists k | 0 <= k < |options| :: Spells(options[k], word)
  }

  predicate Bare(token: Bytes) {
    Spells(token, "NX") || Spells(token, "XX") || Spells(token, "GET") || Spells(token, "KEEPTTL")
  }

  /** An option that says when the key expires. */
  predicate Timed(token: Bytes) {
    Spells(token, "EX") || Spells(token, "PX") || Spells(token, "EXAT") || Spells(token, "PXAT")
  }

  /** Option `i` is plain, or a time with its number after it, positive if it counts from now. */
  predicate RightOption(argv: seq<Bytes>, i: nat)
    requires i < |argv|
  {
    || Bare(argv[i])
    || (Timed(argv[i]) && i + 1 < |argv| && ParseI64(argv[i + 1]).Some?
        && (Spells(argv[i], "EX") || Spells(argv[i], "PX") ==> ParseI64(argv[i + 1]).value > 0))
  }

  /** Right options fill the arguments from one place up to another. */
  predicate Options(argv: seq<Bytes>, i: nat, to: nat)
    requires i <= |argv|
    decreases |argv| - i
  {
    i == to || (i < to && i < |argv| && RightOption(argv, i) && Options(argv, if Bare(argv[i]) then i + 1 else i + 2, to))
  }

  lemma {:induction false} OptionsRead(argv: seq<Bytes>, i: nat, o: SetOptions)
    requires i <= |argv| && Options(argv, i, |argv|)
    ensures var all := SetOptions(o.onlyIfAbsent || Says(argv[i..], "NX"), o.onlyIfPresent || Says(argv[i..], "XX"),
                                  o.returnOld || Says(argv[i..], "GET"));
            ParseSet(argv, i, o) == if all.onlyIfAbsent && all.onlyIfPresent then Fail(Refused(SyntaxError)) else Pass(all)
    decreases |argv| - i
  {
    hide Spells, EqIgnoreCase, Message, ParseI64;
    if i < |argv| {
      SaysFirst(argv, i, "NX");
      SaysFirst(argv, i, "XX");
      SaysFirst(argv, i, "GET");
      hide Says;
      if Bare(argv[i]) {
        OptionWord(argv[i]);
        hide Bare, Timed;
        OptionsRead(argv, i + 1, o.(onlyIfAbsent := o.onlyIfAbsent || Spells(argv[i], "NX"),
                                    onlyIfPresent := o.onlyIfPresent || Spells(argv[i], "XX"),
                                    returnOld := o.returnOld || Spells(argv[i], "GET")));
      } else {
        TimeWord(argv[i], argv[i + 1]);
        SaysFirst(argv, i + 1, "NX");
        SaysFirst(argv, i + 1, "XX");
        SaysFirst(argv, i + 1, "GET");
        OptionsRead(argv, i + 2, o);
      }
    }
  }

  lemma TimeWord(token: Bytes, number: Bytes)
    requires Timed(token) && ParseI64(number).Some?
    ensures (EqIgnoreCase(token, "EX") <==> Spells(token, "EX")) && (EqIgnoreCase(token, "PX") <==> Spells(token, "PX"))
    ensures (EqIgnoreCase(token, "EXAT") <==> Spells(token, "EXAT")) && (EqIgnoreCase(token, "PXAT") <==> Spells(token, "PXAT"))
    ensures !EqIgnoreCase(token, "NX") && !EqIgnoreCase(token, "XX") && !EqIgnoreCase(token, "GET") && !EqIgnoreCase(token, "KEEPTTL")
    ensures !Spells(token, "NX") && !Spells(token, "XX") && !Spells(token, "GET") && !Bare(token)
    ensures !Spells(number, "NX") && !Spells(number, "XX") && !Spells(number, "GET")
  {
    TimedIsNotBare(token);
    NumberIsNoWord(number);
    hide Spells;
    SpelledUpper(token, "EX");
    SpelledUpper(token, "PX");
    SpelledUpper(token, "EXAT");
    SpelledUpper(token, "PXAT");
    SpelledUpper(token, "NX");
    SpelledUpper(token, "XX");
    SpelledUpper(token, "GET");
    SpelledUpper(token, "KEEPTTL");
  }

  lemma TimedIsNotBare(token: Bytes)
    ensures Timed(token) ==> !Bare(token)
  {
    assert Timed(token) ==> (|token| == 2 || |token| == 4) && (token[0] == 69 || token[0] == 101 || token[0] == 80 || token[0] == 112);
  }

  lemma NumberIsNoWord(number: Bytes)
    requires ParseI64(number).Some?
    ensures !Spells(number, "NX") && !Spells(number, "XX") && !Spells(number, "GET")
  {
    assert number[0] < 65 by { if number[0] != MINUS && number[0] != PLUS { assert IsDigit(number[0]); } }
  }

  lemma SaysFirst(argv: seq<Bytes>, i: nat, word: string)
    requires i < |argv|
    ensures Says(argv[i..], word) <==> Spells(argv[i], word) || Says(argv[i + 1..], word)
  {
    hide Spells;
    assert argv[i..] == [argv[i]] + argv[i + 1..];
    if Says(argv[i + 1..], word) {
      var k :| 0 <= k < |argv[i + 1..]| && Spells(argv[i + 1..][k], word);
      assert argv[i..][k + 1] == argv[i + 1..][k];
    }
    if Spells(argv[i], word) { assert Spells(argv[i..][0], word); }
    if Says(argv[i..], word) && !Spells(argv[i], word) {
      var k :| 0 <= k < |argv[i..]| && Spells(argv[i..][k], word);
      assert argv[i + 1..][k - 1] == argv[i..][k];
    }
  }

  lemma OptionWord(token: Bytes)
    requires Bare(token)
    ensures EqIgnoreCase(token, "NX") <==> Spells(token, "NX")
    ensures EqIgnoreCase(token, "XX") <==> Spells(token, "XX")
    ensures EqIgnoreCase(token, "GET") <==> Spells(token, "GET")
    ensures EqIgnoreCase(token, "KEEPTTL") <==> Spells(token, "KEEPTTL")
    ensures Spells(token, "NX") ==> !Spells(token, "XX") && !Spells(token, "GET")
    ensures Spells(token, "XX") ==> !Spells(token, "GET")
    ensures Spells(token, "KEEPTTL") ==> !Spells(token, "NX") && !Spells(token, "XX") && !Spells(token, "GET")
  {
    SpelledUpper(token, "NX");
    SpelledUpper(token, "XX");
    SpelledUpper(token, "GET");
    SpelledUpper(token, "KEEPTTL");
    assert Spells(token, "NX") ==> token[0] in [78, 110];
    assert Spells(token, "XX") ==> token[0] in [88, 120];
  }

  /** What SET comes to under right options. */
  function SetTo(argv: seq<Bytes>, db: Db): Outcome
    requires |argv| > 2
  {
    var key, o := argv[1], argv[3..];
    var stored := (Says(o, "NX") ==> key !in db) && (Says(o, "XX") ==> key in db);
    if Says(o, "NX") && Says(o, "XX") then Done(db, Error(Ascii("ERR syntax error")))
    else if Says(o, "GET") && key in db && !db[key].StringValue? then Done(db, WrongKind())
    else
      Done(if stored then db[key := StringValue(argv[2])] else db,
           if Says(o, "GET") then (if key in db then Bulk(db[key].text) else Nil)
           else if stored then Simple(Ascii("OK"))
           else Nil)
  }

  /** SET stores its second argument as text, unless NX finds the key there or XX does not; GET answers
      what was there before, and is refused if that is no text. */
  lemma SetByWord(argv: seq<Bytes>, db: Db, c: Context)
    requires |argv| > 2 && Spells(argv[0], "SET") && Options(argv, 3, |argv|)
    ensures Run(NameOf(argv[0]), argv, db, c) == SetTo(argv, db)
  {
    hide NameOf, Spells, Run, SetTo, RunSet;
    KeyWords(argv[0]);
    SetRuns(argv, db);
    KeysCarried(NameOf(argv[0]), argv, db, c);
  }

  lemma SetRuns(argv: seq<Bytes>, db: Db)
    requires |argv| > 2 && Options(argv, 3, |argv|)
    ensures RunSet(argv, db) == SetTo(argv, db)
  {
    hide Spells, ParseSet, Says, Options, ParseI64, Refused, WrongKind, Ascii;
    OptionsRead(argv, 3, SetOptions(false, false, false));
    WrongKindIs();
    SyntaxIs();
  }

  lemma SyntaxIs()
    ensures Refused(SyntaxError) == Error(Ascii("ERR syntax error"))
  {
  }

  /** DEL and UNLINK take every key they name away and answer how many were there. */
  lemma DelByWord(argv: seq<Bytes>, db: Db, c: Context)
    requires |argv| > 1 && (Spells(argv[0], "DEL") || Spells(argv[0], "UNLINK"))
    ensures var named := set k | k in argv[1..];
            Run(NameOf(argv[0]), argv, db, c) == Done(db - named, Integer(|named * db.Keys|))
  {
    KeyWords(argv[0]);
    HeldAreCounted(db, argv[1..]);
    hide NameOf, Spells, Run, CountHeld;
    KeysCarried(NameOf(argv[0]), argv, db, c);
  }

  lemma {:induction false} HeldAreCounted(db: Db, keys: seq<Bytes>)
    ensures CountHeld(db, keys) == |(set k | k in keys) * db.Keys|
    decreases |keys|
  {
    if keys != [] {
      var first, rest := keys[0], db - {keys[0]};
      HeldAreCounted(rest, keys[1..]);
      HeldFirst(db, keys);
    } else {
      assert (set k | k in keys) * db.Keys == {};
    }
  }

  lemma HeldFirst(db: Db, keys: seq<Bytes>)
    requires keys != []
    ensures var held, others := (set k | k in keys) * db.Keys, (set k | k in keys[1..]) * (db - {keys[0]}).Keys;
            |held| == |others| + if keys[0] in db then 1 else 0
  {
    var first, named := keys[0], set k | k in keys[1..];
    assert keys == [first] + keys[1..];
    assert (set k | k in keys) == {first} + named;
    assert (db - {first}).Keys == db.Keys - {first};
    OneMoreHeld(first, named, db.Keys);
  }

  lemma OneMoreHeld(first: Bytes, named: set<Bytes>, all: set<Bytes>)
    ensures |({first} + named) * all| == |named * (all - {first})| + if first in all then 1 else 0
  {
    if first in all {
      assert ({first} + named) * all == named * (all - {first}) + {first};
    } else {
      assert ({first} + named) * all == named * (all - {first});
    }
  }

  /** RENAME and RENAMENX give a value another key, the latter only if that is free. */
  lemma RenameByWord(argv: seq<Bytes>, db: Db, c: Context)
    requires |argv| == 3 && (Spells(argv[0], "RENAME") || Spells(argv[0], "RENAMENX"))
    ensures var spares := Spells(argv[0], "RENAMENX");
            Run(NameOf(argv[0]), argv, db, c)
            == if argv[1] !in db then Done(db, Error(Ascii("ERR no such key")))
               else if spares && argv[1] != argv[2] && argv[2] in db then Done(db, Integer(0))
               else
                 Done((db - {argv[1]})[argv[2] := db[argv[1]]], if spares then Integer(1) else Simple(Ascii("OK")))
  {
    KeyWords(argv[0]);
    assert |argv[0]| == 6 ==> !Spells(argv[0], "RENAMENX");
    RenamesTo(argv, db, false);
    RenamesTo(argv, db, true);
    hide NameOf, Spells, Run, RunRename;
    KeysCarried(NameOf(argv[0]), argv, db, c);
  }

  lemma RenamesTo(argv: seq<Bytes>, db: Db, spares: bool)
    requires |argv| == 3
    ensures RunRename(argv, db, spares)
            == if argv[1] !in db then Done(db, Error(Ascii("ERR no such key")))
               else if spares && argv[1] != argv[2] && argv[2] in db then Done(db, Integer(0))
               else Done((db - {argv[1]})[argv[2] := db[argv[1]]], if spares then Integer(1) else Simple(Ascii("OK")))
  {
    if argv[1] == argv[2] && argv[1] in db { assert (db - {argv[1]})[argv[2] := db[argv[1]]] == db; }
  }

  /** COPY gives a value a second key, if that is free or REPLACE is said. */
  lemma CopyByWord(argv: seq<Bytes>, db: Db, c: Context)
    requires argv != [] && Spells(argv[0], "COPY") && (|argv| == 3 || (|argv| == 4 && Spells(argv[3], "REPLACE")))
    ensures Run(NameOf(argv[0]), argv, db, c)
            == if argv[1] !in db || (|argv| == 3 && argv[2] in db) then Done(db, Integer(0))
               else Done(db[argv[2] := db[argv[1]]], Integer(1))
  {
    KeyWords(argv[0]);
    if |argv| == 4 { SpelledUpper(argv[3], "REPLACE"); }
    hide NameOf, Spells, Run;
    KeysCarried(NameOf(argv[0]), argv, db, c);
  }

  lemma FlushByWord(argv: seq<Bytes>, db: Db, c: Context)
    requires argv != [] && (Spells(argv[0], "FLUSHALL") || Spells(argv[0], "FLUSHDB"))
    ensures Run(NameOf(argv[0]), argv, db, c) == Done(map[], Simple(Ascii("OK")))
  {
    KeyWords(argv[0]);
    hide NameOf, Spells, Run;
    KeysCarried(NameOf(argv[0]), argv, db, c);
  }

  /** PING answers PONG, or what it was sent; QUIT and UNWATCH answer OK; a word that names no command is refused. */
  lemma PlainByWord(argv: seq<Bytes>, db: Db, c: Context)
    requires argv != []
    ensures Spells(argv[0], "PING") && |argv| <= 2 ==>
              Run(NameOf(argv[0]), argv, db, c) == Done(db, if |argv| == 1 then Simple(Ascii("PONG")) else Bulk(argv[1]))
    ensures Spells(argv[0], "QUIT") || (Spells(argv[0], "UNWATCH") && |argv| == 1) ==>
              Run(NameOf(argv[0]), argv, db, c) == Done(db, Simple(Ascii("OK")))
    ensures (forall i | 0 <= i < |WORDS| :: !Spells(argv[0], WORDS[i].0)) ==>
              Run(NameOf(argv[0]), argv, db, c) == Done(db, Error(Ascii("ERR unknown command")))
  {
    hide Spells, NameOf, Run, Ascii;
    PlainRuns(argv, db, c);
    if Spells(argv[0], WORDS[5].0) { NameSpelled(argv[0], 5); }
    if Spells(argv[0], WORDS[6].0) { NameSpelled(argv[0], 6); }
    if Spells(argv[0], WORDS[25].0) { NameSpelled(argv[0], 25); }
    NothingSpelled(argv[0]);
  }

  lemma PlainRuns(argv: seq<Bytes>, db: Db, c: Context)
    requires argv != []
    ensures |argv| <= 2 ==> Run(PING, argv, db, c) == Done(db, if |argv| == 1 then Simple(Ascii("PONG")) else Bulk(argv[1]))
    ensures Run(QUIT, argv, db, c) == Done(db, Simple(Ascii("OK")))
    ensures |argv| == 1 ==> Run(UNWATCH, argv, db, c) == Done(db, Simple(Ascii("OK")))
    ensures Run(UNKNOWN, argv, db, c) == Done(db, Error(Ascii("ERR unknown command")))
  {
    hide Ascii, RunSet, RunDel, RunPush, RunPop, RunMove, RunMpop, RunRename, RunCopy, RunBlockingPop, RunBlockingMove,
      RunBlockingMpop;
  }

  // ------------------------------------------------------------------
  // What commands write

  /** The arguments from one place up to another. */
  predicate Among(argv: seq<Bytes>, from: nat, to: int, key: Bytes) {
    exists k | from <= k < |argv| && k < to :: argv[k] == key
  }

  /** The keys a command's name makes of its arguments: all, the named ones, the first two, the first,
      or none. */
  predicate Names(name: Name, argv: seq<Bytes>, key: Bytes) {
    if name == FLUSHALL then true
    else if name == DEL then Among(argv, 1, |argv|, key)
    else if name in {BLPOP, BRPOP} then Among(argv, 1, |argv| - 1, key)
    else if name == LMPOP then |argv| > 1 && ParseI64(argv[1]).Some? && Among(argv, 2, 2 + ParseI64(argv[1]).value, key)
    else if name == BLMPOP then |argv| > 2 && ParseI64(argv[2]).Some? && Among(argv, 3, 3 + ParseI64(argv[2]).value, key)
    else if name in {RENAME, RENAMENX, COPY, RPOPLPUSH, LMOVE, BLMOVE, BRPOPLPUSH} then Among(argv, 1, 3, key)
    else name in {SET, LPUSH, RPUSH, LPUSHX, RPUSHX, LPOP, RPOP} && Among(argv, 1, 2, key)
  }

  /** What a command is taken to write, which wakes who waits on it and breaks who watches it. */
  lemma WritesAsNamed(name: Name, argv: seq<Bytes>, key: Bytes)
    ensures Covered(WrittenBy(name, argv), key) <==> Names(name, argv, key)
  {
    hide ParseI64, Among, WrittenBy;
    PositionCovers(name, argv, key);
  }

  lemma PositionCovers(name: Name, argv: seq<Bytes>, key: Bytes)
    ensures Covered(WrittenBy(name, argv), key)
            <==> match PositionOf(name)
                 case Nothing => false
                 case Everything => true
                 case Numkeys(at) => at < |argv| && ParseI64(argv[at]).Some? && Among(argv, at + 1, at + 1 + ParseI64(argv[at]).value, key)
                 case Range(first, last, step) => Among(argv, first, if last < 0 then |argv| + last + 1 else last + 1, key)
  {
    StepsAreOne(name);
    hide ParseI64, Among, PositionOf;
    var position := PositionOf(name);
    if position.Range? {
      RangeCovers(argv, position.first, if position.last < 0 then |argv| + position.last else position.last, key);
    } else if position.Numkeys? && position.at < |argv| && ParseI64(argv[position.at]).Some? {
      CountedCover(argv, position.at, key);
    }
  }

  lemma StepsAreOne(name: Name)
    ensures PositionOf(name).Range? ==> PositionOf(name).step == 1
  {
  }

  lemma {:induction false} RangeCovers(argv: seq<Bytes>, first: nat, last: int, key: Bytes)
    ensures key in RangeKeys(argv, first, last, 1) <==> Among(argv, first, last + 1, key)
    decreases |argv| - first
  {
    if first <= last && first < |argv| { RangeCovers(argv, first + 1, last, key); }
  }

  lemma CountedCover(argv: seq<Bytes>, at: nat, key: Bytes)
    requires at < |argv| && ParseI64(argv[at]).Some?
    ensures key in NumkeysKeys(argv, at) <==> Among(argv, at + 1, at + 1 + ParseI64(argv[at]).value, key)
  {
    hide ParseI64;
    var count := ParseI64(argv[at]).value;
    if count > 0 && at + 1 < |argv| {
      var end := if at + 1 + count <= |argv| then at + 1 + count else |argv|;
      if Among(argv, at + 1, at + 1 + count, key) {
        var k :| at + 1 <= k < |argv| && k < at + 1 + count && argv[k] == key;
        assert argv[at + 1..end][k - at - 1] == key;
      }
      if key in argv[at + 1..end] {
        var k :| 0 <= k < end - at - 1 && argv[at + 1..end][k] == key;
        assert argv[at + 1 + k] == key;
      }
    }
  }

  /** Out of memory, just those commands are refused that may make the keyspace hold more. */
  lemma RefusedForMemory(i: nat)
    requires i < |WORDS|
    ensures DeniesOom(WORDS[i].1)
            <==> WORDS[i].0 in ["SET", "COPY", "RENAME", "RENAMENX", "LPUSH", "RPUSH", "LPUSHX", "RPUSHX",
                                "LMOVE", "RPOPLPUSH", "BLMOVE", "BRPOPLPUSH"]
  {
  }

  /** Any other leaves no more copies of any value. */
  lemma OthersNeverGrow(name: Name, argv: seq<Bytes>, db: Db, c: Context, v: Bytes)
    requires DbOk(db) && argv != [] && !DeniesOom(name) && Run(name, argv, db, c).Done?
    ensures Stock(Run(name, argv, db, c).db, v) <= Stock(db, v)
  {
    RunLawful(name, argv, db, c, v);
    hide Run, Stock, Lawful, HandedBy, LostBy;
  }
}
