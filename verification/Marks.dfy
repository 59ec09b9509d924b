/** What the history says of watching: which keys a client watches, and which of them were touched
    since it began to. */
module Marks {
  import opened ByteStrings
  import opened Resp
  import opened Commands
  import opened CommandLaws
  import opened Serving
  import W = Watches

  /** Whether an event touches a key: by evicting it, or by a command that succeeded and is listed as
      writing it. A key that merely expires is not touched. */
  predicate Touches(e: Event, key: Bytes) {
    match e
    case Vanished(_, _, evicted) => key in evicted
    case Executed(name, argv, _, _, _, reply) => !reply.Error? && Covered(WrittenBy(name, argv), key)
    case _ => false
  }

  /** The keys a client watches after these events. */
  function WatchedIn(log: seq<Event>, id: nat): set<Bytes> {
    if log == [] then {}
    else
      var e, earlier := log[|log| - 1], WatchedIn(log[..|log| - 1], id);
      if e.BeganWatch? && e.id == id then earlier + e.keys
      else if e == EndedWatch(id) then {}
      else earlier
  }

  /** The keys it watches that were touched while it watched them. */
  function DirtyIn(log: seq<Event>, id: nat): set<Bytes> {
    if log == [] then {}
    else
      var e, earlier := log[|log| - 1], log[..|log| - 1];
      if e == EndedWatch(id) then {}
      else DirtyIn(earlier, id) + set k | k in WatchedIn(earlier, id) && Touches(e, k)
  }

  /** The client began to watch the key at event `i` and has not stopped. */
  predicate WatchedSince(log: seq<Event>, id: nat, key: Bytes, i: nat) {
    && i < |log| && log[i].BeganWatch? && log[i].id == id && key in log[i].keys
    && forall n | i < n < |log| :: log[n] != EndedWatch(id)
  }

  ghost predicate IsWatched(log: seq<Event>, id: nat, key: Bytes) {
    exists i: nat :: WatchedSince(log, id, key, i)
  }

  ghost predicate TouchedSince(log: seq<Event>, id: nat, key: Bytes) {
    exists i: nat, j: nat | i < j < |log| :: WatchedSince(log, id, key, i) && Touches(log[j], key)
  }

  /** A key is dirty for a client exactly when some event touched it after the client began to watch
      it, and the client has not stopped watching since. */
  lemma {:induction false} DirtyMeansTouchedSince(log: seq<Event>, id: nat, key: Bytes)
    ensures key in WatchedIn(log, id) <==> IsWatched(log, id, key)
    ensures key in DirtyIn(log, id) <==> TouchedSince(log, id, key)
    decreases |log|
  {
    hide Touches;
    if log != [] {
      var e, earlier := log[|log| - 1], log[..|log| - 1];
      DirtyMeansTouchedSince(earlier, id, key);
      if e == EndedWatch(id) {
        forall i: nat ensures !WatchedSince(log, id, key, i) {
          assert log[|log| - 1] == EndedWatch(id);
        }
      } else {
        WatchedOneMore(log, id, key);
        TouchedOneMore(log, id, key);
      }
    }
  }

  lemma SinceEarlier(log: seq<Event>, id: nat, key: Bytes, i: nat)
    requires log != [] && log[|log| - 1] != EndedWatch(id) && i < |log| - 1
    ensures WatchedSince(log, id, key, i) <==> WatchedSince(log[..|log| - 1], id, key, i)
  {
    var earlier := log[..|log| - 1];
    assert forall n | 0 <= n < |earlier| :: earlier[n] == log[n];
    if WatchedSince(earlier, id, key, i) {
      assert forall n | i < n < |log| :: n == |log| - 1 || log[n] == earlier[n];
    }
  }

  lemma WatchedOneMore(log: seq<Event>, id: nat, key: Bytes)
    requires log != [] && log[|log| - 1] != EndedWatch(id)
    ensures IsWatched(log, id, key) <==>
              IsWatched(log[..|log| - 1], id, key)
              || (log[|log| - 1].BeganWatch? && log[|log| - 1].id == id && key in log[|log| - 1].keys)
  {
    var last, earlier := |log| - 1, log[..|log| - 1];
    if i: nat :| WatchedSince(earlier, id, key, i) {
      SinceEarlier(log, id, key, i);
    }
    if log[last].BeganWatch? && log[last].id == id && key in log[last].keys {
      assert WatchedSince(log, id, key, last);
    }
    if i: nat :| WatchedSince(log, id, key, i) {
      if i < last { SinceEarlier(log, id, key, i); }
    }
  }

  lemma TouchedOneMore(log: seq<Event>, id: nat, key: Bytes)
    requires log != [] && log[|log| - 1] != EndedWatch(id)
    ensures TouchedSince(log, id, key) <==>
              TouchedSince(log[..|log| - 1], id, key) || (IsWatched(log[..|log| - 1], id, key) && Touches(log[|log| - 1], key))
  {
    hide Touches, WatchedSince;
    var last, earlier := |log| - 1, log[..|log| - 1];
    assert forall n | 0 <= n < |earlier| :: earlier[n] == log[n];
    forall i: nat ensures WatchedSince(earlier, id, key, i) ==> i < last {
      SinceInside(earlier, id, key, i);
    }
    forall i: nat | i < last ensures WatchedSince(log, id, key, i) <==> WatchedSince(earlier, id, key, i) {
      SinceEarlier(log, id, key, i);
    }
    if i: nat, j: nat :| i < j < |earlier| && WatchedSince(earlier, id, key, i) && Touches(earlier[j], key) {
      assert WatchedSince(log, id, key, i) && Touches(log[j], key);
    }
    if IsWatched(earlier, id, key) && Touches(log[last], key) {
      var i: nat :| WatchedSince(earlier, id, key, i);
      assert WatchedSince(log, id, key, i) && Touches(log[last], key);
    }
    if i: nat, j: nat :| i < j < |log| && WatchedSince(log, id, key, i) && Touches(log[j], key) {
      assert WatchedSince(earlier, id, key, i);
      if j < last { assert Touches(earlier[j], key); }
    }
  }

  lemma SinceInside(log: seq<Event>, id: nat, key: Bytes, i: nat)
    ensures WatchedSince(log, id, key, i) ==> i < |log|
  {
  }

  // ------------------------------------------------------------------
  // The registry's lists and marks are what the history says

  ghost predicate MarksFit(dirty: map<nat, set<Bytes>>, clients: map<nat, seq<W.Tracked>>, log: seq<Event>) {
    && dirty.Keys == clients.Keys
    && forall id | id in clients :: W.Listed(clients[id]) == WatchedIn(log, id) && dirty[id] == DirtyIn(log, id)
  }

  /** The keys a command touches by writing them: none if it failed, every tracked key if it flushed. */
  function Struck(name: Name, argv: seq<Bytes>, reply: Reply, tracked: set<Bytes>): set<Bytes> {
    if reply.Error? then {}
    else
      match WrittenBy(name, argv)
      case WrittenNothing => {}
      case WrittenEverything => tracked
      case WrittenKeys(keys) => Keys(keys)
  }

  lemma InAppended(log: seq<Event>, e: Event, id: nat)
    ensures WatchedIn(log + [e], id) ==
            if e.BeganWatch? && e.id == id then WatchedIn(log, id) + e.keys
            else if e == EndedWatch(id) then {}
            else WatchedIn(log, id)
    ensures DirtyIn(log + [e], id) ==
            if e == EndedWatch(id) then {} else DirtyIn(log, id) + set k | k in WatchedIn(log, id) && Touches(e, k)
  {
    hide Touches;
    assert (log + [e])[..|log|] == log;
  }

  lemma FitVanished(dirty: map<nat, set<Bytes>>, clients: map<nat, seq<W.Tracked>>, log: seq<Event>, e: Event)
    requires MarksFit(dirty, clients, log) && e.Vanished?
    ensures MarksFit(W.Marked(dirty, clients, e.evicted), clients, log + [e])
  {
    hide W.Listed, WatchedIn, DirtyIn;
    forall id | id in clients
      ensures W.Listed(clients[id]) == WatchedIn(log + [e], id)
      ensures W.Marked(dirty, clients, e.evicted)[id] == DirtyIn(log + [e], id)
    {
      InAppended(log, e, id);
      assert e.evicted * W.Listed(clients[id]) == set k | k in WatchedIn(log, id) && Touches(e, k);
    }
  }

  lemma FitExecuted(dirty: map<nat, set<Bytes>>, clients: map<nat, seq<W.Tracked>>, log: seq<Event>, e: Event, tracked: set<Bytes>)
    requires MarksFit(dirty, clients, log) && e.Executed?
    requires forall id | id in clients :: W.Listed(clients[id]) <= tracked
    ensures MarksFit(W.Marked(dirty, clients, Struck(e.name, e.argv, e.reply, tracked)), clients, log + [e])
  {
    hide W.Listed, WatchedIn, DirtyIn, WrittenBy;
    var struck := Struck(e.name, e.argv, e.reply, tracked);
    forall id | id in clients
      ensures W.Listed(clients[id]) == WatchedIn(log + [e], id)
      ensures W.Marked(dirty, clients, struck)[id] == DirtyIn(log + [e], id)
    {
      InAppended(log, e, id);
      assert struck * W.Listed(clients[id]) == set k | k in WatchedIn(log, id) && Touches(e, k);
    }
  }

  lemma FitBegan(dirty: map<nat, set<Bytes>>, clients: map<nat, seq<W.Tracked>>, log: seq<Event>, id: nat, keys: set<Bytes>, list: seq<W.Tracked>)
    requires MarksFit(dirty, clients, log) && id in clients && W.Listed(list) == W.Listed(clients[id]) + keys
    ensures MarksFit(dirty, clients[id := list], log + [BeganWatch(id, keys)])
  {
    hide W.Listed, WatchedIn, DirtyIn;
    var after := clients[id := list];
    forall other | other in after
      ensures W.Listed(after[other]) == WatchedIn(log + [BeganWatch(id, keys)], other)
      ensures dirty[other] == DirtyIn(log + [BeganWatch(id, keys)], other)
    {
      InAppended(log, BeganWatch(id, keys), other);
    }
  }

  lemma FitEnded(dirty: map<nat, set<Bytes>>, clients: map<nat, seq<W.Tracked>>, log: seq<Event>, id: nat)
    requires MarksFit(dirty, clients, log)
    ensures MarksFit(dirty[id := {}], clients[id := []], log + [EndedWatch(id)])
  {
    hide WatchedIn, DirtyIn;
    forall other
      ensures WatchedIn(log + [EndedWatch(id)], other) == if other == id then {} else WatchedIn(log, other)
      ensures DirtyIn(log + [EndedWatch(id)], other) == if other == id then {} else DirtyIn(log, other)
    {
      InAppended(log, EndedWatch(id), other);
    }
  }

  /** A client nobody has heard of watches nothing. */
  lemma FitNew(dirty: map<nat, set<Bytes>>, clients: map<nat, seq<W.Tracked>>, log: seq<Event>, id: nat)
    requires MarksFit(dirty, clients, log) && forall e | e in WatchLog(log) && e.BeganWatch? :: e.id != id
    ensures MarksFit(dirty[id := {}], clients[id := []], log)
  {
    NeverWatched(log, id);
  }

  lemma {:induction false} NeverWatched(log: seq<Event>, id: nat)
    requires forall e | e in WatchLog(log) && e.BeganWatch? :: e.id != id
    ensures WatchedIn(log, id) == {} && DirtyIn(log, id) == {}
    decreases |log|
  {
    if log != [] {
      var e, earlier := log[|log| - 1], log[..|log| - 1];
      assert forall x | x in WatchLog(earlier) :: x in WatchLog(log);
      if e.BeganWatch? { assert e in WatchLog(log); }
      NeverWatched(earlier, id);
    }
  }

  lemma FitGone(dirty: map<nat, set<Bytes>>, clients: map<nat, seq<W.Tracked>>, log: seq<Event>, id: nat)
    requires MarksFit(dirty, clients, log)
    ensures MarksFit(dirty - {id}, clients - {id}, log)
  {
  }
}
