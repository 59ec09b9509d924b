/** What the commands refuse, and what they say when there is nothing to take, by the words typed. */
module Refusals {
  import opened ByteStrings
  import opened Resp
  import opened Commands
  import opened Meanings

  function BadArity(): Reply { Error(Ascii("ERR wrong number of arguments")) }

  function BadSyntax(): Reply { Error(Ascii("ERR syntax error")) }

  function NotANumber(): Reply { Error(Ascii("ERR value is not an integer or out of range")) }

  function NotPositive(): Reply { Error(Ascii("ERR value is out of range, must be positive")) }

  function NoKeys(): Reply { Error(Ascii("ERR numkeys should be greater than 0")) }

  function NoCount(): Reply { Error(Ascii("ERR count should be greater than 0")) }

  lemma Texts()
    ensures Refused(WrongArity) == BadArity() && Refused(SyntaxError) == BadSyntax()
    ensures Refused(NotAnInteger) == NotANumber() && Refused(OutOfRange) == NotPositive()
    ensures Refused(NumkeysNotPositive) == NoKeys() && Refused(CountNotPositive) == NoCount()
  {
    ArityText();
    CountTexts();
    hide Message, BadArity, BadSyntax, NotANumber, NotPositive, NoKeys, NoCount;
  }

  lemma ArityText()
    ensures Refused(WrongArity) == BadArity() && Refused(SyntaxError) == BadSyntax() && Refused(NotAnInteger) == NotANumber()
  {
    hide Ascii;
  }

  lemma CountTexts()
    ensures Refused(OutOfRange) == NotPositive() && Refused(NumkeysNotPositive) == NoKeys() && Refused(CountNotPositive) == NoCount()
  {
    hide Ascii;
  }

  // ------------------------------------------------------------------
  // How many arguments

  /** Too few or too many for a command on one list. */
  predicate MiscountsList(argv: seq<Bytes>)
    requires argv != []
  {
    || ((Spells(argv[0], "LPOP") || Spells(argv[0], "RPOP")) && (|argv| < 2 || |argv| > 3))
    || ((Spells(argv[0], "LPUSH") || Spells(argv[0], "RPUSH") || Spells(argv[0], "LPUSHX") || Spells(argv[0], "RPUSHX")) && |argv| < 3)
    || ((Spells(argv[0], "BLPOP") || Spells(argv[0], "BRPOP")) && |argv| < 3)
  }

  predicate MiscountsMove(argv: seq<Bytes>)
    requires argv != []
  {
    || (Spells(argv[0], "RPOPLPUSH") && |argv| != 3) || (Spells(argv[0], "BRPOPLPUSH") && |argv| != 4)
    || (Spells(argv[0], "LMOVE") && |argv| != 5) || (Spells(argv[0], "BLMOVE") && |argv| != 6)
    || (Spells(argv[0], "LMPOP") && |argv| < 4) || (Spells(argv[0], "BLMPOP") && |argv| < 5)
  }

  predicate MiscountsKeys(argv: seq<Bytes>)
    requires argv != []
  {
    || (Spells(argv[0], "SET") && |argv| < 3) || (Spells(argv[0], "COPY") && |argv| < 3)
    || ((Spells(argv[0], "DEL") || Spells(argv[0], "UNLINK")) && |argv| < 2)
    || ((Spells(argv[0], "RENAME") || Spells(argv[0], "RENAMENX")) && |argv| != 3)
  }

  /** A command with too few or too many arguments is refused, and changes nothing. */
  lemma MiscountsRefused(argv: seq<Bytes>, db: Db, c: Context)
    requires argv != [] && (MiscountsList(argv) || MiscountsMove(argv) || MiscountsKeys(argv))
    ensures Run(NameOf(argv[0]), argv, db, c) == Done(db, BadArity())
  {
    Texts();
    hide Run, Refused, BadArity, BadSyntax, NotANumber, NotPositive, NoKeys, NoCount;
    if MiscountsList(argv) {
      ListMiscounts(argv, db, c);
    } else if MiscountsMove(argv) {
      MoveMiscounts(argv, db, c);
    } else {
      KeyMiscounts(argv, db, c);
    }
  }

  lemma ListMiscounts(argv: seq<Bytes>, db: Db, c: Context)
    requires argv != [] && MiscountsList(argv)
    ensures Run(NameOf(argv[0]), argv, db, c) == Done(db, Refused(WrongArity))
  {
    hide Spells, NameOf, Run, Refused;
    ListWords(argv[0]);
    Carried(NameOf(argv[0]), argv, db, c);
  }

  lemma MoveMiscounts(argv: seq<Bytes>, db: Db, c: Context)
    requires argv != [] && MiscountsMove(argv)
    ensures Run(NameOf(argv[0]), argv, db, c) == Done(db, Refused(WrongArity))
  {
    hide Spells, NameOf, Run, Refused;
    MoveWords(argv[0]);
    Carried(NameOf(argv[0]), argv, db, c);
  }

  lemma KeyMiscounts(argv: seq<Bytes>, db: Db, c: Context)
    requires argv != [] && MiscountsKeys(argv)
    ensures Run(NameOf(argv[0]), argv, db, c) == Done(db, Refused(WrongArity))
  {
    hide Spells, NameOf, Run, Refused;
    KeyWords(argv[0]);
    KeysCarried(NameOf(argv[0]), argv, db, c);
  }

  // ------------------------------------------------------------------
  // Counts

  /** A count that is no number, or a negative one, refuses LPOP and RPOP. */
  lemma CountsRefused(argv: seq<Bytes>, db: Db, c: Context)
    requires |argv| == 3 && (Spells(argv[0], "LPOP") || Spells(argv[0], "RPOP"))
    ensures ParseI64(argv[2]).None? ==>
              Run(NameOf(argv[0]), argv, db, c) == Done(db, NotANumber())
    ensures ParseI64(argv[2]).Some? && ParseI64(argv[2]).value < 0 ==>
              Run(NameOf(argv[0]), argv, db, c) == Done(db, NotPositive())
  {
    hide Spells, NameOf, Run, Refused, BadArity, BadSyntax, NotANumber, NotPositive, NoKeys, NoCount, ParseI64, PopMany, Ascii;
    Texts();
    ListWords(argv[0]);
    Carried(NameOf(argv[0]), argv, db, c);
  }

  /** Where LMPOP and BLMPOP begin to say what they want. */
  predicate AsksFrom(argv: seq<Bytes>, at: nat, timeouts: Bytes -> Timeout) {
    || (at == 1 && |argv| > 3 && Spells(argv[0], "LMPOP"))
    || (at == 2 && |argv| > 4 && Spells(argv[0], "BLMPOP") && Waits(timeouts(argv[1])))
  }

  /** What is wrong with the key count, the keys, or the count of values, from argument `at` on; or nothing. */
  function Wrong(argv: seq<Bytes>, at: nat): Option<Reply>
    requires at < |argv|
  {
    var n := ParseI64(argv[at]);
    if n.None? then Some(NotANumber())
    else if n.value < 1 then Some(NoKeys())
    else if at + n.value + 2 > |argv| then Some(BadArity())
    else
      var more := argv[at + n.value + 2..];
      if more == [] then None
      else if |more| != 2 || !Spells(more[0], "COUNT") then Some(BadSyntax())
      else if ParseI64(more[1]).None? then Some(NotANumber())
      else if ParseI64(more[1]).value < 1 then Some(NoCount())
      else None
  }

  lemma WrongIsRefused(argv: seq<Bytes>, at: nat)
    requires at < |argv|
    ensures var w := Wrong(argv, at); ParseMultiKey(argv, at).Fail? <==> w.Some?
    ensures var w := Wrong(argv, at); w.Some? ==> ParseMultiKey(argv, at) == Fail(w.value)
  {
    hide Refused, BadArity, BadSyntax, NotANumber, NotPositive, NoKeys, NoCount, ParseI64, Spells;
    Texts();
    var n := ParseI64(argv[at]);
    if n.Some? && n.value >= 1 && at + n.value + 2 < |argv| { SpelledUpper(argv[at + n.value + 2], "COUNT"); }
  }

  /** A counted pop whose counts are wrong is refused by name of what is wrong. */
  lemma WrongCountsRefused(argv: seq<Bytes>, at: nat, db: Db, c: Context)
    requires AsksFrom(argv, at, c.timeouts) && Wrong(argv, at).Some?
    ensures Run(NameOf(argv[0]), argv, db, c) == Done(db, Wrong(argv, at).value)
  {
    hide Spells, NameOf, Run, BadArity, BadSyntax, NotANumber, NotPositive, NoKeys, NoCount, Wrong, ParseMultiKey, MpopLists, ParseEnd, Ascii, Refused;
    MoveWords(argv[0]);
    WrongIsRefused(argv, at);
    Carried(NameOf(argv[0]), argv, db, c);
  }

  // ------------------------------------------------------------------
  // Nothing to take, and the wrong kind

  /** A blocking command that finds nothing parks, or inside EXEC answers its null. */
  predicate GoesWithout(r: Outcome, db: Db, c: Context, blocking: bool, nothing: Reply) {
    if blocking && !c.inExec then r.Park? && r.onTimeout == nothing else r == Done(db, nothing)
  }

  /** A move command with all its words in place. */
  predicate WellFormedMove(argv: seq<Bytes>, timeouts: Bytes -> Timeout) {
    || (|argv| == 3 && Spells(argv[0], "RPOPLPUSH"))
    || (|argv| == 4 && Spells(argv[0], "BRPOPLPUSH") && Waits(timeouts(argv[3])))
    || (|argv| == 5 && Spells(argv[0], "LMOVE") && IsSide(argv[3]) && IsSide(argv[4]))
    || (|argv| == 6 && Spells(argv[0], "BLMOVE") && IsSide(argv[3]) && IsSide(argv[4]) && Waits(timeouts(argv[5])))
  }

  predicate IsSide(token: Bytes) {
    Spells(token, "LEFT") || Spells(token, "RIGHT")
  }

  predicate MovesLater(argv: seq<Bytes>)
    requires argv != []
  {
    Spells(argv[0], "BRPOPLPUSH") || Spells(argv[0], "BLMOVE")
  }

  lemma EndsRead(argv: seq<Bytes>, timeouts: Bytes -> Timeout)
    requires WellFormedMove(argv, timeouts)
    ensures |argv| > 2 && NameOf(argv[0]) in {RPOPLPUSH, LMOVE, BLMOVE, BRPOPLPUSH} && MoveEnds(NameOf(argv[0]), argv).Pass?
    ensures MovesLater(argv) <==> NameOf(argv[0]) in {BLMOVE, BRPOPLPUSH}
    ensures MovesLater(argv) ==> Waits(timeouts(argv[|argv| - 1]))
  {
    hide Spells, NameOf, ParseEnd, Refused;
    MoveWords(argv[0]);
    if |argv| > 4 {
      SidesByWord(argv[3]);
      SidesByWord(argv[4]);
    }
  }

  /** A move from or to a key of another kind is refused; from a missing key it takes nothing, at once or in time. */
  lemma MovesOfNothing(argv: seq<Bytes>, db: Db, c: Context)
    requires WellFormedMove(argv, c.timeouts)
    ensures var r := Run(NameOf(argv[0]), argv, db, c);
            && (WrongFor(db, argv[1]) || WrongFor(db, argv[2]) ==> r == Done(db, WrongKind()))
            && (argv[1] !in db && !WrongFor(db, argv[2]) ==> GoesWithout(r, db, c, MovesLater(argv), Nil))
  {
    hide Spells, NameOf, Run, Refused, WrongKind, WellFormedMove, MoveEnds, MovesLater;
    EndsRead(argv, c.timeouts);
    WrongKindIs();
    Carried(NameOf(argv[0]), argv, db, c);
  }

  /** A side that is neither left nor right is refused. */
  lemma SidesRefused(argv: seq<Bytes>, db: Db, c: Context)
    requires (|argv| == 5 && Spells(argv[0], "LMOVE")) || (|argv| == 6 && Spells(argv[0], "BLMOVE"))
    requires !IsSide(argv[3]) || !IsSide(argv[4])
    ensures Run(NameOf(argv[0]), argv, db, c) == Done(db, BadSyntax())
  {
    hide Spells, NameOf, Run, Refused, BadArity, BadSyntax, NotANumber, NotPositive, NoKeys, NoCount, ParseEnd;
    Texts();
    MoveWords(argv[0]);
    SidesByWord(argv[3]);
    SidesByWord(argv[4]);
    Carried(NameOf(argv[0]), argv, db, c);
  }

  /** The first of the keys with anything in it holds another kind. */
  predicate WrongKindFirst(db: Db, keys: seq<Bytes>, i: nat) {
    i < |keys| && WrongFor(db, keys[i]) && forall j | 0 <= j < i :: keys[j] !in db
  }

  lemma {:induction false} NoneOfThem(db: Db, keys: seq<Bytes>, end: End, count: nat)
    requires forall k | k in keys :: k !in db
    ensures PopFirstList(db, keys, end) == Pass(None) && MpopLists(db, keys, end, count) == Pass(None)
    decreases |keys|
  {
    if keys != [] {
      assert keys[0] in keys;
      NothingThere(db, keys[0], end, count);
      hide PopMany;
      NoneOfThem(db, keys[1..], end, count);
    }
  }

  lemma {:induction false} WrongOneMet(db: Db, keys: seq<Bytes>, i: nat, end: End, count: nat)
    requires WrongKindFirst(db, keys, i)
    ensures PopFirstList(db, keys, end) == Fail(Refused(WrongType)) && MpopLists(db, keys, end, count) == Fail(Refused(WrongType))
    decreases i
  {
    hide Refused;
    if i > 0 {
      NothingThere(db, keys[0], end, count);
      hide PopMany;
      WrongOneMet(db, keys[1..], i - 1, end, count);
    }
  }

  /** BLPOP and BRPOP on keys none of which is there park, and meeting a key of another kind first are refused. */
  lemma BlockingPopsOfNothing(argv: seq<Bytes>, i: nat, db: Db, c: Context)
    requires |argv| > 2 && (Spells(argv[0], "BLPOP") || Spells(argv[0], "BRPOP")) && Waits(c.timeouts(argv[|argv| - 1]))
    ensures var r, keys := Run(NameOf(argv[0]), argv, db, c), argv[1..|argv| - 1];
            && (WrongKindFirst(db, keys, i) ==> r == Done(db, WrongKind()))
            && ((forall k | k in keys :: k !in db) ==> GoesWithout(r, db, c, true, NilArray))
  {
    hide Spells, NameOf, Run, Refused, WrongKind, PopFirstList, WrongKindFirst, Ascii;
    ListWords(argv[0]);
    WrongKindIs();
    var keys := argv[1..|argv| - 1];
    if WrongKindFirst(db, keys, i) {
      WrongOneMet(db, keys, i, Left, 1);
      WrongOneMet(db, keys, i, Right, 1);
    }
    if forall k | k in keys :: k !in db {
      NoneOfThem(db, keys, Left, 1);
      NoneOfThem(db, keys, Right, 1);
    }
    Carried(NameOf(argv[0]), argv, db, c);
  }

  lemma SideRead(token: Bytes)
    requires IsSide(token)
    ensures ParseEnd(token).Some?
  {
    SidesByWord(token);
  }

  /** What the handlers make of a pop that comes to nothing or to an error. */
  lemma MpopsTakeNothing(argv: seq<Bytes>, at: nat, keys: seq<Bytes>, end: End, count: nat, db: Db, c: Context)
    requires (at == 1 && |argv| > 3) || (at == 2 && |argv| > 4 && Waits(c.timeouts(argv[1])))
    requires at + 1 + |keys| < |argv| && ParseMultiKey(argv, at) == Pass(MultiKey(keys, argv[at + 1 + |keys|], count))
    requires ParseEnd(argv[at + 1 + |keys|]) == Some(end)
    ensures var found, r := MpopLists(db, keys, end, count), if at == 1 then RunMpop(argv, db) else RunBlockingMpop(argv, db, c);
            && (found.Fail? ==> r == Done(db, found.reply))
            && (found == Pass(None) ==> GoesWithout(r, db, c, at == 2, NilArray))
  {
    hide MpopLists, ParseMultiKey, ParseEnd, Refused;
  }

  /** So do LMPOP and BLMPOP, but that LMPOP answers its null at once. */
  lemma MpopsOfNothing(argv: seq<Bytes>, at: nat, keys: seq<Bytes>, count: nat, i: nat, db: Db, c: Context)
    requires AsksFrom(argv, at, c.timeouts) && Asks(argv, at, keys, count) && IsSide(argv[at + 1 + |keys|])
    ensures var r := Run(NameOf(argv[0]), argv, db, c);
            && (WrongKindFirst(db, keys, i) ==> r == Done(db, WrongKind()))
            && ((forall k | k in keys :: k !in db) ==> GoesWithout(r, db, c, at == 2, NilArray))
  {
    assert |argv| > at + 1 + |keys|;
    hide Spells, NameOf, Run, Refused, WrongKind, MpopLists, WrongKindFirst, ParseMultiKey, ParseEnd, Asks, IsSide, Ascii;
    MoveWords(argv[0]);
    SideRead(argv[at + 1 + |keys|]);
    AskedFor(argv, at, keys, count);
    WrongKindIs();
    var end := ParseEnd(argv[at + 1 + |keys|]).value;
    if WrongKindFirst(db, keys, i) { WrongOneMet(db, keys, i, end, count); }
    if forall k | k in keys :: k !in db { NoneOfThem(db, keys, end, count); }
    MpopsTakeNothing(argv, at, keys, end, count, db, c);
    hide RunMpop, RunBlockingMpop, GoesWithout;
    Carried(NameOf(argv[0]), argv, db, c);
  }

  // ------------------------------------------------------------------
  // The options of SET

  /** What is wrong with option `i` of a SET; or nothing. */
  function WrongOption(argv: seq<Bytes>, i: nat): Option<Reply>
    requires i < |argv|
  {
    if Bare(argv[i]) then None
    else if !Timed(argv[i]) || i + 1 == |argv| then Some(BadSyntax())
    else if ParseI64(argv[i + 1]).None? then Some(NotANumber())
    else if (Spells(argv[i], "EX") || Spells(argv[i], "PX")) && ParseI64(argv[i + 1]).value < 1
    then Some(NotPositive())
    else None
  }

  lemma OptionRead(argv: seq<Bytes>, i: nat, o: SetOptions)
    requires i < |argv|
    ensures match WrongOption(argv, i)
            case Some(reply) => ParseSet(argv, i, o) == Fail(reply)
            case None => Timed(argv[i]) ==> i + 2 <= |argv| && ParseSet(argv, i, o) == ParseSet(argv, i + 2, o)
  {
    hide Refused, BadArity, BadSyntax, NotANumber, NotPositive, NoKeys, NoCount, ParseI64, Spells, EqIgnoreCase, Ascii;
    Texts();
    OptionWords(argv[i]);
  }

  lemma OptionWords(token: Bytes)
    ensures (EqIgnoreCase(token, "NX") <==> Spells(token, "NX")) && (EqIgnoreCase(token, "XX") <==> Spells(token, "XX"))
    ensures (EqIgnoreCase(token, "GET") <==> Spells(token, "GET")) && (EqIgnoreCase(token, "KEEPTTL") <==> Spells(token, "KEEPTTL"))
    ensures (EqIgnoreCase(token, "EX") <==> Spells(token, "EX")) && (EqIgnoreCase(token, "PX") <==> Spells(token, "PX"))
    ensures (EqIgnoreCase(token, "EXAT") <==> Spells(token, "EXAT")) && (EqIgnoreCase(token, "PXAT") <==> Spells(token, "PXAT"))
    ensures Timed(token) ==> !Bare(token)
  {
    hide Spells;
    TimedIsNotBare(token);
    SpelledUpper(token, "NX");
    SpelledUpper(token, "XX");
    SpelledUpper(token, "GET");
    SpelledUpper(token, "KEEPTTL");
    SpelledUpper(token, "EX");
    SpelledUpper(token, "PX");
    SpelledUpper(token, "EXAT");
    SpelledUpper(token, "PXAT");
  }

  /** Right options up to `i`, and then a wrong one: SET is refused by name of what is wrong with it. */
  lemma WrongOptionRefused(argv: seq<Bytes>, i: nat, db: Db, c: Context)
    requires 3 <= i < |argv| && Spells(argv[0], "SET")
    requires Options(argv, 3, i) && WrongOption(argv, i).Some?
    ensures Run(NameOf(argv[0]), argv, db, c) == Done(db, WrongOption(argv, i).value)
  {
    hide Spells, NameOf, Run, WrongOption, ParseSet, Options;
    KeyWords(argv[0]);
    WrongAfterRight(argv, 3, i, SetOptions(false, false, false));
    KeysCarried(NameOf(argv[0]), argv, db, c);
  }

  lemma {:induction false} WrongAfterRight(argv: seq<Bytes>, from: nat, i: nat, o: SetOptions)
    requires from <= i < |argv| && Options(argv, from, i) && WrongOption(argv, i).Some?
    ensures ParseSet(argv, from, o) == Fail(WrongOption(argv, i).value)
    decreases i - from
  {
    if from == i {
      OptionRead(argv, i, o);
    } else {
      hide WrongOption, Spells, EqIgnoreCase, ParseI64, Refused;
      if Bare(argv[from]) {
        OptionWord(argv[from]);
        WrongAfterRight(argv, from + 1, i, o.(onlyIfAbsent := o.onlyIfAbsent || EqIgnoreCase(argv[from], "NX"),
                                              onlyIfPresent := o.onlyIfPresent || EqIgnoreCase(argv[from], "XX"),
                                              returnOld := o.returnOld || EqIgnoreCase(argv[from], "GET")));
      } else {
        TimeWord(argv[from], argv[from + 1]);
        WrongAfterRight(argv, from + 2, i, o);
      }
    }
  }
}
