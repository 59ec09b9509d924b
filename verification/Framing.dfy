/** A connection's bytes and the commands taken from them. */
module Framing {
  import opened ByteStrings
  import opened Requests

  /** Requests that name a command; an empty array or line is a no-op. */
  function NonEmpty(requests: seq<seq<Bytes>>): seq<seq<Bytes>> {
    if requests == [] then []
    else NonEmpty(requests[..|requests| - 1])
         + (if requests[|requests| - 1] != [] then [requests[|requests| - 1]] else [])
  }

  lemma NonEmptyAppend(requests: seq<seq<Bytes>>, argv: seq<Bytes>)
    ensures NonEmpty(requests + [argv]) == NonEmpty(requests) + if argv != [] then [argv] else []
  {
    assert (requests + [argv])[..|requests|] == requests;
  }

  lemma {:induction false} NonEmptyConcat(a: seq<seq<Bytes>>, b: seq<seq<Bytes>>)
    ensures NonEmpty(a + b) == NonEmpty(a) + NonEmpty(b)
    decreases |b|
  {
    if b == [] {
      assert a + b == a;
    } else {
      var last, rest := b[|b| - 1], b[..|b| - 1];
      assert a + b == a + rest + [last] && b == rest + [last];
      NonEmptyConcat(a, rest);
      NonEmptyAppend(a + rest, last);
      NonEmptyAppend(rest, last);
    }
  }

  lemma {:induction false} NonEmptyAll(requests: seq<seq<Bytes>>)
    requires forall q | q in requests :: q != []
    ensures NonEmpty(requests) == requests
    decreases |requests|
  {
    if requests != [] {
      var rest, last := requests[..|requests| - 1], requests[|requests| - 1];
      assert requests == rest + [last] && last in requests && forall q | q in rest :: q in requests;
      NonEmptyAll(rest);
    }
  }

  // ------------------------------------------------------------------
  // Requests taken off the front

  /** These requests, one by one, are what the parser finds at the front of the bytes, and `rest` is what
      is left behind them. */
  predicate Taken(bytes: Bytes, requests: seq<seq<Bytes>>, rest: Bytes, maxBulk: nat)
    decreases |requests|
  {
    if requests == [] then bytes == rest
    else
      match Parse(bytes, maxBulk)
      case Parsed(argv, consumed) => argv == requests[0] && Taken(bytes[consumed..], requests[1..], rest, maxBulk)
      case _ => false
  }

  /** And then the parser fails. */
  ghost predicate Broken(bytes: Bytes, requests: seq<seq<Bytes>>, maxBulk: nat) {
    exists rest :: Taken(bytes, requests, rest, maxBulk) && Parse(rest, maxBulk).Malformed?
  }

  /** Bytes that arrive later change nothing about what was taken. */
  lemma {:induction false} TakenStays(bytes: Bytes, requests: seq<seq<Bytes>>, rest: Bytes, more: Bytes, maxBulk: nat)
    requires Taken(bytes, requests, rest, maxBulk)
    ensures Taken(bytes + more, requests, rest + more, maxBulk)
    decreases |requests|
  {
    hide Parse;
    if requests != [] {
      var consumed := Parse(bytes, maxBulk).consumed;
      ParseStable(bytes, maxBulk, more);
      assert (bytes + more)[consumed..] == bytes[consumed..] + more;
      TakenStays(bytes[consumed..], requests[1..], rest, more, maxBulk);
    }
  }

  lemma {:induction false} TakenOneMore(bytes: Bytes, requests: seq<seq<Bytes>>, rest: Bytes, argv: seq<Bytes>, consumed: nat, maxBulk: nat)
    requires Taken(bytes, requests, rest, maxBulk) && Parse(rest, maxBulk) == Parsed(argv, consumed)
    ensures Taken(bytes, requests + [argv], rest[consumed..], maxBulk)
    decreases |requests|
  {
    hide Parse;
    if requests == [] {
      assert [] + [argv] == [argv] && [argv][1..] == [];
      assert Taken(rest[consumed..], [], rest[consumed..], maxBulk);
    } else {
      assert (requests + [argv])[0] == requests[0] && (requests + [argv])[1..] == requests[1..] + [argv];
      TakenOneMore(bytes[Parse(bytes, maxBulk).consumed..], requests[1..], rest, argv, consumed, maxBulk);
    }
  }

  lemma {:induction false} TakenDrains(bytes: Bytes, requests: seq<seq<Bytes>>, rest: Bytes, maxBulk: nat)
    requires Taken(bytes, requests, rest, maxBulk)
    ensures Drain(bytes, maxBulk) == Before(requests, Drain(rest, maxBulk))
    decreases |requests|
  {
    hide Parse;
    if requests == [] {
      assert [] + Drain(rest, maxBulk).requests == Drain(rest, maxBulk).requests;
    } else {
      var after := bytes[Parse(bytes, maxBulk).consumed..];
      TakenDrains(after, requests[1..], rest, maxBulk);
      assert [requests[0]] + (requests[1..] + Drain(rest, maxBulk).requests) == requests + Drain(rest, maxBulk).requests;
    }
  }

  // ------------------------------------------------------------------
  // A connection's bytes

  /** Of the bytes heard, `accepted` lists the commands taken and `rbuf` is what is left; or framing broke
      off behind those commands, and the connection wants to close. */
  ghost predicate Framed(heard: Bytes, rbuf: Bytes, accepted: seq<seq<Bytes>>, wantClose: bool, maxBulk: nat) {
    exists requests :: FramedBy(heard, rbuf, accepted, wantClose, maxBulk, requests)
  }

  ghost predicate FramedBy(heard: Bytes, rbuf: Bytes, accepted: seq<seq<Bytes>>, wantClose: bool, maxBulk: nat, requests: seq<seq<Bytes>>) {
    && accepted == NonEmpty(requests)
    && (Taken(heard, requests, rbuf, maxBulk) || (wantClose && rbuf == [] && Broken(heard, requests, maxBulk)))
  }

  lemma NothingHeard(wantClose: bool, maxBulk: nat)
    ensures Framed([], [], [], wantClose, maxBulk)
  {
    assert FramedBy([], [], [], wantClose, maxBulk, []);
  }

  lemma FramedCloses(heard: Bytes, rbuf: Bytes, accepted: seq<seq<Bytes>>, wantClose: bool, maxBulk: nat)
    requires Framed(heard, rbuf, accepted, wantClose, maxBulk)
    ensures Framed(heard, rbuf, accepted, true, maxBulk)
  {
    var requests :| FramedBy(heard, rbuf, accepted, wantClose, maxBulk, requests);
    assert FramedBy(heard, rbuf, accepted, true, maxBulk, requests);
  }

  lemma HearsMore(heard: Bytes, rbuf: Bytes, accepted: seq<seq<Bytes>>, chunk: Bytes, wantClose: bool, maxBulk: nat)
    requires Framed(heard, rbuf, accepted, false, maxBulk)
    ensures Framed(heard + chunk, rbuf + chunk, accepted, wantClose, maxBulk)
  {
    var requests :| FramedBy(heard, rbuf, accepted, false, maxBulk, requests);
    TakenStays(heard, requests, rbuf, chunk, maxBulk);
    assert FramedBy(heard + chunk, rbuf + chunk, accepted, wantClose, maxBulk, requests);
  }

  lemma NothingToParse(maxBulk: nat)
    ensures Parse([], maxBulk) == NeedMore
  {
  }

  lemma TakesOne(heard: Bytes, rbuf: Bytes, accepted: seq<seq<Bytes>>, wantClose: bool, argv: seq<Bytes>, consumed: nat, maxBulk: nat)
    requires Framed(heard, rbuf, accepted, wantClose, maxBulk) && Parse(rbuf, maxBulk) == Parsed(argv, consumed)
    ensures Framed(heard, rbuf[consumed..], accepted + (if argv != [] then [argv] else []), wantClose, maxBulk)
  {
    hide Parse, Taken;
    NothingToParse(maxBulk);
    var requests :| FramedBy(heard, rbuf, accepted, wantClose, maxBulk, requests);
    TakenOneMore(heard, requests, rbuf, argv, consumed, maxBulk);
    NonEmptyAppend(requests, argv);
    assert FramedBy(heard, rbuf[consumed..], accepted + (if argv != [] then [argv] else []), wantClose, maxBulk, requests + [argv]);
  }

  lemma BreaksOff(heard: Bytes, rbuf: Bytes, accepted: seq<seq<Bytes>>, wantClose: bool, maxBulk: nat)
    requires Framed(heard, rbuf, accepted, wantClose, maxBulk) && Parse(rbuf, maxBulk).Malformed?
    ensures Framed(heard, [], accepted, true, maxBulk)
  {
    hide Parse, Taken;
    NothingToParse(maxBulk);
    var requests :| FramedBy(heard, rbuf, accepted, wantClose, maxBulk, requests);
    assert Broken(heard, requests, maxBulk);
    assert FramedBy(heard, [], accepted, true, maxBulk, requests);
  }

  /** However the bytes arrived, draining them all at once yields the commands accepted and then what the
      buffer still drains to; or, if framing broke off, the commands accepted and an error. */
  lemma FramedDrains(heard: Bytes, rbuf: Bytes, accepted: seq<seq<Bytes>>, wantClose: bool, maxBulk: nat)
    requires Framed(heard, rbuf, accepted, wantClose, maxBulk)
    ensures var all, left := Drain(heard, maxBulk), Drain(rbuf, maxBulk);
            || (NonEmpty(all.requests) == accepted + NonEmpty(left.requests) && all.rest == left.rest && all.error == left.error)
            || (wantClose && rbuf == [] && NonEmpty(all.requests) == accepted && all.error.Some?)
  {
    hide Parse, Taken;
    var requests :| FramedBy(heard, rbuf, accepted, wantClose, maxBulk, requests);
    if Taken(heard, requests, rbuf, maxBulk) {
      TakenDrains(heard, requests, rbuf, maxBulk);
      NonEmptyConcat(requests, Drain(rbuf, maxBulk).requests);
    } else {
      var rest :| Taken(heard, requests, rest, maxBulk) && Parse(rest, maxBulk).Malformed?;
      TakenDrains(heard, requests, rest, maxBulk);
      assert requests + [] == requests;
    }
  }

  /** Of a client that sent the beginning of an encoded pipeline of commands, the commands accepted are
      the first of these. */
  lemma FramedPipeline(heard: Bytes, rbuf: Bytes, accepted: seq<seq<Bytes>>, wantClose: bool, maxBulk: nat, commands: seq<seq<Bytes>>, more: Bytes)
    requires Framed(heard, rbuf, accepted, wantClose, maxBulk) && heard + more == EncodeAll(commands)
    requires forall c | c in commands :: c != [] && WithinLimits(c, maxBulk)
    ensures accepted <= commands
  {
    hide Drain, EncodeAll, WithinLimits, Framed, NonEmpty;
    FramedDrains(heard, rbuf, accepted, wantClose, maxBulk);
    PrefixDrains(commands, heard, more, maxBulk);
    var d := Drain(heard, maxBulk);
    var k: nat :| DrainsTo(commands, heard, more, maxBulk, k);
    assert forall q | q in commands[..k] :: q in commands;
    NonEmptyAll(d.requests);
    assert accepted <= commands[..k];
  }

  /** And if it sent all of it, and nothing more can be parsed, they are all of these. */
  lemma FramedWhole(heard: Bytes, rbuf: Bytes, accepted: seq<seq<Bytes>>, wantClose: bool, maxBulk: nat, commands: seq<seq<Bytes>>)
    requires Framed(heard, rbuf, accepted, wantClose, maxBulk) && heard == EncodeAll(commands)
    requires forall c | c in commands :: c != [] && WithinLimits(c, maxBulk)
    requires Parse(rbuf, maxBulk) == NeedMore
    ensures accepted == commands && rbuf == []
  {
    hide EncodeAll, WithinLimits, Framed, Parse;
    FramedDrains(heard, rbuf, accepted, wantClose, maxBulk);
    DrainAll(commands, maxBulk);
    NonEmptyAll(commands);
    assert Drain(rbuf, maxBulk) == Drained([], rbuf, None);
    assert NonEmpty([]) == [] && accepted + [] == accepted;
  }
}
