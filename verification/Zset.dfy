/** Sorted sets: a vector of entries kept in order, and the index rules it shares with lists. */
module Zsets {
  import opened ByteStrings

  // ------------------------------------------------------------------
  // Inclusive index ranges

  /** The position an index means: a negative one is measured from the far side. */
  function Position(len: nat, index: int): int {
    if index < 0 then index + len else index
  }

  /** An inclusive index pair clamped to `len` items, or `None` if nothing is left of it. */
  function ResolveRange(len: nat, start: int, stop: int): (r: Option<(nat, nat)>)
    ensures r.Some? ==> r.value.0 <= r.value.1 < len
  {
    var first := if Position(len, start) < 0 then 0 else Position(len, start);
    var last := if Position(len, stop) >= len then len - 1 else Position(len, stop);
    if len == 0 || first > last || first >= len then None else Some((first, last))
  }

  function RangeOf<T>(s: seq<T>, start: int, stop: int): seq<T> {
    match ResolveRange(|s|, start, stop)
    case None => []
    case Some((first, last)) => s[first..last + 1]
  }

  /** The same indices counted from the far end. */
  function RevRangeOf<T>(s: seq<T>, start: int, stop: int): seq<T> {
    match ResolveRange(|s|, start, stop)
    case None => []
    case Some((first, last)) => Reversed(s[|s| - 1 - last..|s| - first])
  }

  function Reversed<T>(s: seq<T>): (r: seq<T>)
    ensures |r| == |s| && forall i | 0 <= i < |s| :: r[i] == s[|s| - 1 - i]
  {
    seq(|s|, i requires 0 <= i < |s| => s[|s| - 1 - i])
  }

  /** A resolved range covers exactly the positions between the two ends. */
  lemma ResolveExact(len: nat, start: int, stop: int, i: int)
    ensures var r := ResolveRange(len, start, stop);
            (r.Some? && r.value.0 <= i <= r.value.1)
            <==> (0 <= i < len && Position(len, start) <= i <= Position(len, stop))
  {
  }

  /** Counting from the far end is counting on the reversed sequence. */
  lemma RevRangeIsRangeOfReverse<T>(s: seq<T>, start: int, stop: int)
    ensures RevRangeOf(s, start, stop) == RangeOf(Reversed(s), start, stop)
  {
    hide ResolveRange, Reversed;
    var r, back := ResolveRange(|s|, start, stop), Reversed(s);
    if r.Some? {
      assert RevRangeOf(s, start, stop) == Reversed(s[|s| - 1 - r.value.1..|s| - r.value.0]);
      assert RangeOf(back, start, stop) == back[r.value.0..r.value.1 + 1];
      Flipped(s, r.value.0, r.value.1);
    }
  }

  lemma Flipped<T>(s: seq<T>, first: nat, last: nat)
    requires first <= last < |s|
    ensures Reversed(s[|s| - 1 - last..|s| - first]) == Reversed(s)[first..last + 1]
  {
    var part, whole := s[|s| - 1 - last..|s| - first], Reversed(s);
    forall i | 0 <= i <= last - first ensures Reversed(part)[i] == whole[first..last + 1][i] {
      assert Reversed(part)[i] == part[last - first - i] == s[|s| - 1 - first - i] == whole[first + i];
    }
  }

  /** And it is the mirror image of a range under negated indices. */
  lemma RevRangeMirrors<T>(s: seq<T>, start: int, stop: int)
    ensures RevRangeOf(s, start, stop) == Reversed(RangeOf(s, -1 - stop, -1 - start))
  {
    var there, back := ResolveRange(|s|, start, stop), ResolveRange(|s|, -1 - stop, -1 - start);
    assert there.Some? <==> back.Some?;
    if there.Some? {
      assert back.value == (|s| - 1 - there.value.1, |s| - 1 - there.value.0);
    }
  }

  class List {
    var items: seq<Bytes>

    /** Keeps only the given range; an empty one clears the list. */
    method Trim(start: int, stop: int)
      modifies this
      ensures items == RangeOf(old(items), start, stop)
    {
      var range := ResolveRange(|items|, start, stop);
      if range.None? {
        items := [];
      } else {
        items := items[..range.value.1 + 1];
        items := items[range.value.0..];
      }
    }
  }

  // ------------------------------------------------------------------
  // Scores and entries

  /** A score that is not NaN. */
  datatype Score = NegInf | Finite(value: real) | PosInf

  predicate Below(a: Score, b: Score) {
    match (a, b)
    case (Finite(x), Finite(y)) => x < y
    case (NegInf, _) => b != NegInf
    case (_, PosInf) => a != PosInf
    case _ => false
  }

  /** `None` where the float sum is NaN. */
  function Plus(a: Score, b: Score): Option<Score> {
    match (a, b)
    case (Finite(x), Finite(y)) => Some(Finite(x + y))
    case (Finite(_), _) => Some(b)
    case (_, Finite(_)) => Some(a)
    case _ => if a == b then Some(a) else None
  }

  /** A member's score raised, from zero if it has none. */
  function Raised(scores: map<Bytes, Score>, member: Bytes, delta: Score): Option<Score> {
    Plus(if member in scores then scores[member] else Finite(0.0), delta)
  }

  lemma LeavingShows(scores: map<Bytes, Score>, member: Bytes)
    ensures scores - {member} == scores <==> member !in scores
  {
  }

  /** A member at infinity, which ZADD accepts, is raised by one: refused, and the member is gone. */
  lemma RefusedIncrementLosesMember(member: Bytes)
    ensures var scores := map[member := PosInf];
            var sum := Raised(scores, member, Finite(1.0));
            sum == Some(PosInf) && scores - {member} == map[] != scores
  {
    assert member in map[member := PosInf];
  }

  datatype Entry = Entry(member: Bytes, score: Score)

  /** Lower score first; ties break on the member. */
  predicate Less(a: Entry, b: Entry) {
    Below(a.score, b.score) || (a.score == b.score && LexLess(a.member, b.member))
  }

  lemma LessTotal(a: Entry, b: Entry)
    ensures a == b || Less(a, b) || Less(b, a)
  {
    LexTotal(a.member, b.member);
  }

  lemma LessIrreflexive(a: Entry)
    ensures !Less(a, a)
  {
    LexIrreflexive(a.member);
  }

  lemma LessTransitive(a: Entry, b: Entry, c: Entry)
    requires Less(a, b) && Less(b, c)
    ensures Less(a, c)
  {
    if a.score == b.score == c.score { LexTransitive(a.member, b.member, c.member); }
  }

  ghost predicate Sorted(entries: seq<Entry>) {
    forall i, j | 0 <= i < j < |entries| :: Less(entries[i], entries[j])
  }

  function At(scores: map<Bytes, Score>, member: Bytes): Entry
    requires member in scores
  {
    Entry(member, scores[member])
  }

  /** `entries` is the sorted listing of `scores`. */
  ghost predicate Lists(entries: seq<Entry>, scores: map<Bytes, Score>) {
    Sorted(entries) && Agrees(entries, scores)
  }

  ghost predicate Agrees(entries: seq<Entry>, scores: map<Bytes, Score>) {
    forall e :: e in entries <==> e.member in scores && scores[e.member] == e.score
  }

  /** What a listing comes to: the lowest score first, minus infinity before every number and infinity after, and
      members of one score by their bytes. */
  lemma ListedInOrder(entries: seq<Entry>, i: nat, j: nat)
    requires Sorted(entries) && i < j < |entries|
    ensures var (a, b) := (entries[i], entries[j]);
            && (a.score.Finite? && b.score.Finite? ==> a.score.value <= b.score.value)
            && (b.score.NegInf? ==> a.score.NegInf?)
            && (a.score.PosInf? ==> b.score.PosInf?)
            && (a.score == b.score ==> LexLess(a.member, b.member))
  {
    assert Less(entries[i], entries[j]);
  }

  lemma OneIndex(entries: seq<Entry>, scores: map<Bytes, Score>, i: nat, j: nat)
    requires Lists(entries, scores) && i < |entries| && j < |entries| && entries[i].member == entries[j].member
    ensures i == j
  {
    hide Less;
    LessIrreflexive(entries[i]);
    assert entries[i] in entries && entries[j] in entries;
    assert entries[i] == entries[j];
  }

  /** There is one sorted listing of a map. */
  lemma {:induction false} ListingUnique(a: seq<Entry>, b: seq<Entry>, scores: map<Bytes, Score>)
    requires Lists(a, scores) && Lists(b, scores)
    ensures a == b
    decreases |a|
  {
    hide Less, Sorted, Agrees;
    assert (a == [] || b == []) ==> a == b by { EmptyListing(a, b, scores); }
    if a != [] && b != [] {
      SameFirst(a, b, scores);
      Without(a, scores, 0);
      Without(b, scores, 0);
      assert a[..0] + a[1..] == a[1..] && b[..0] + b[1..] == b[1..];
      ListingUnique(a[1..], b[1..], scores - {a[0].member});
      assert a == [a[0]] + a[1..] && b == [b[0]] + b[1..];
    }
  }

  lemma EmptyListing(a: seq<Entry>, b: seq<Entry>, scores: map<Bytes, Score>)
    requires Lists(a, scores) && Lists(b, scores)
    ensures (a == []) == (b == [])
  {
    hide Less, Sorted;
    if a != [] { assert a[0] in a; }
    if b != [] { assert b[0] in b; }
  }

  lemma SameFirst(a: seq<Entry>, b: seq<Entry>, scores: map<Bytes, Score>)
    requires Lists(a, scores) && Lists(b, scores) && a != [] && b != []
    ensures a[0] == b[0]
  {
    hide Less;
    assert a[0] in a && b[0] in b;
    var i :| 0 <= i < |b| && b[i] == a[0];
    var j :| 0 <= j < |a| && a[j] == b[0];
    if a[0] != b[0] {
      assert Less(b[0], b[i]) && Less(a[0], a[j]);
      LessTransitive(a[0], b[0], a[0]);
      LessIrreflexive(a[0]);
    }
  }

  /** A sorted sequence with a stretch cut out stays sorted, and nothing of the stretch is left. */
  lemma CutOut(entries: seq<Entry>, first: nat, end: nat)
    requires Sorted(entries) && first <= end <= |entries|
    ensures Sorted(entries[..first] + entries[end..])
    ensures forall e :: e in entries[..first] + entries[end..] <==> e in entries && e !in entries[first..end]
  {
    hide Less, Sorted;
    SortedCut(entries, first, end);
    var rest := entries[..first] + entries[end..];
    assert entries == entries[..first] + entries[first..end] + entries[end..];
    forall e | e in rest ensures e !in entries[first..end] {
      var i :| 0 <= i < |rest| && rest[i] == e;
      Apart(entries, if i < first then i else i + end - first, first, end);
    }
  }

  lemma SortedCut(entries: seq<Entry>, first: nat, end: nat)
    requires Sorted(entries) && first <= end <= |entries|
    ensures Sorted(entries[..first] + entries[end..])
  {
    hide Less;
    var rest := entries[..first] + entries[end..];
    forall i, j | 0 <= i < j < |rest| ensures Less(rest[i], rest[j]) {
      var i' := if i < first then i else i + end - first;
      var j' := if j < first then j else j + end - first;
      assert rest[i] == entries[i'] && rest[j] == entries[j'];
    }
  }

  lemma Apart(entries: seq<Entry>, i: nat, first: nat, end: nat)
    requires Sorted(entries) && first <= end <= |entries| && i < |entries| && !(first <= i < end)
    ensures entries[i] !in entries[first..end]
  {
    hide Less;
    LessIrreflexive(entries[i]);
    assert forall k | first <= k < end :: entries[k] != entries[i];
  }

  /** Taking one entry out takes its member out of the map. */
  lemma Without(entries: seq<Entry>, scores: map<Bytes, Score>, i: nat)
    requires Lists(entries, scores) && i < |entries|
    ensures Lists(entries[..i] + entries[i + 1..], scores - {entries[i].member})
  {
    hide Less, Sorted;
    CutOut(entries, i, i + 1);
    assert entries[i] in entries && entries[i..i + 1] == [entries[i]];
  }

  /** An entry put where everything before it is less, and nothing after it is, keeps the listing. */
  lemma With(entries: seq<Entry>, scores: map<Bytes, Score>, at: nat, e: Entry)
    requires Lists(entries, scores) && e.member !in scores && at <= |entries|
    requires forall i | 0 <= i < at :: Less(entries[i], e)
    requires forall i | at <= i < |entries| :: !Less(entries[i], e)
    ensures Lists(entries[..at] + [e] + entries[at..], scores[e.member := e.score])
  {
    hide Less, Agrees;
    assert e !in entries by { NotListed(entries, scores, e); }
    forall i | at <= i < |entries| ensures Less(e, entries[i]) {
      LessTotal(e, entries[i]);
      assert entries[i] in entries;
    }
    SortedWith(entries, at, e);
    AgreesWith(entries, scores, at, e);
  }

  lemma NotListed(entries: seq<Entry>, scores: map<Bytes, Score>, e: Entry)
    requires Agrees(entries, scores) && e.member !in scores
    ensures e !in entries
  {
  }

  lemma SortedWith(entries: seq<Entry>, at: nat, e: Entry)
    requires Sorted(entries) && at <= |entries|
    requires forall i | 0 <= i < at :: Less(entries[i], e)
    requires forall i | at <= i < |entries| :: Less(e, entries[i])
    ensures Sorted(entries[..at] + [e] + entries[at..])
  {
    hide Less;
    var more := entries[..at] + [e] + entries[at..];
    forall i, j | 0 <= i < j < |more| ensures Less(more[i], more[j]) {
      var i' := if i < at then i else i - 1;
      var j' := if j < at then j else j - 1;
      assert i != at ==> more[i] == entries[i'];
      assert j != at ==> more[j] == entries[j'];
    }
  }

  lemma AgreesWith(entries: seq<Entry>, scores: map<Bytes, Score>, at: nat, e: Entry)
    requires Agrees(entries, scores) && e.member !in scores && at <= |entries|
    ensures Agrees(entries[..at] + [e] + entries[at..], scores[e.member := e.score])
  {
    assert entries == entries[..at] + entries[at..];
    assert forall x :: x in entries[..at] + [e] + entries[at..] <==> x in entries || x == e;
  }

  /** What of `scores` is still listed. */
  ghost function Left(scores: map<Bytes, Score>, part: seq<Entry>): map<Bytes, Score> {
    map m | m in scores && At(scores, m) in part :: scores[m]
  }

  /** Some of the entries, in order, are a listing of what they hold. */
  lemma Part(entries: seq<Entry>, scores: map<Bytes, Score>, part: seq<Entry>)
    requires Lists(entries, scores) && Sorted(part)
    requires forall e | e in part :: e in entries
    ensures Lists(part, Left(scores, part))
  {
    hide Less, Sorted;
    forall e | e in part ensures e.member in Left(scores, part) && Left(scores, part)[e.member] == e.score {
      assert e in entries;
      assert At(scores, e.member) == e;
    }
    forall e: Entry | e.member in Left(scores, part) && Left(scores, part)[e.member] == e.score ensures e in part {
      assert At(scores, e.member) == e;
    }
  }

  datatype Bound = Bound(score: Score, exclusive: bool)

  predicate Within(min: Bound, max: Bound, score: Score) {
    && (Below(min.score, score) || (!min.exclusive && min.score == score))
    && (Below(score, max.score) || (!max.exclusive && max.score == score))
  }

  /** What bounds admit: a score between them, or equal to one that is not exclusive. */
  lemma WithinMeans(low: real, high: real, x: real, afterLow: bool, beforeHigh: bool)
    ensures Within(Bound(Finite(low), afterLow), Bound(Finite(high), beforeHigh), Finite(x))
            <==> (if afterLow then low < x else low <= x) && (if beforeHigh then x < high else x <= high)
    ensures Within(Bound(NegInf, afterLow), Bound(PosInf, beforeHigh), Finite(x))
    ensures Within(Bound(NegInf, afterLow), Bound(PosInf, beforeHigh), NegInf) <==> !afterLow
    ensures Within(Bound(NegInf, afterLow), Bound(PosInf, beforeHigh), PosInf) <==> !beforeHigh
    ensures !Within(Bound(Finite(low), afterLow), Bound(PosInf, beforeHigh), NegInf)
    ensures !Within(Bound(NegInf, afterLow), Bound(Finite(high), beforeHigh), PosInf)
  {
  }

  function InBounds(scores: map<Bytes, Score>, min: Bound, max: Bound): map<Bytes, Score> {
    map m | m in scores && Within(min, max, scores[m]) :: scores[m]
  }

  /** The members that sort before `member`. */
  ghost function Smaller(scores: map<Bytes, Score>, member: Bytes): set<Bytes>
    requires member in scores
  {
    set m | m in scores && Less(At(scores, m), At(scores, member))
  }

  /** The members at the first `i` positions. */
  ghost function MembersBefore(entries: seq<Entry>, i: nat): set<Bytes>
    requires i <= |entries|
  {
    set k | 0 <= k < i :: entries[k].member
  }

  lemma {:induction false} CountBefore(entries: seq<Entry>, scores: map<Bytes, Score>, i: nat)
    requires Lists(entries, scores) && i <= |entries|
    ensures |MembersBefore(entries, i)| == i
  {
    hide Less, Lists;
    if i > 0 {
      CountBefore(entries, scores, i - 1);
      var last := entries[i - 1].member;
      forall k | 0 <= k < i - 1 ensures entries[k].member != last {
        if entries[k].member == last { OneIndex(entries, scores, k, i - 1); }
      }
      assert MembersBefore(entries, i) == MembersBefore(entries, i - 1) + {last};
    } else {
      assert MembersBefore(entries, 0) == {};
    }
  }

  /** A listing is as long as its map. */
  lemma ListingSize(entries: seq<Entry>, scores: map<Bytes, Score>)
    requires Lists(entries, scores)
    ensures |scores| == |entries|
  {
    hide Less, Sorted;
    CountBefore(entries, scores, |entries|);
    forall k | 0 <= k < |entries| ensures entries[k].member in scores {
      assert entries[k] in entries;
    }
    forall m | m in scores ensures m in MembersBefore(entries, |entries|) {
      assert At(scores, m) in entries;
    }
    assert MembersBefore(entries, |entries|) == scores.Keys;
  }

  /** An entry's position counts the entries that are less. */
  lemma RankCounts(entries: seq<Entry>, scores: map<Bytes, Score>, i: nat)
    requires Lists(entries, scores) && i < |entries|
    ensures entries[i].member in scores && |Smaller(scores, entries[i].member)| == i
  {
    hide Less;
    assert entries[i] in entries;
    assert At(scores, entries[i].member) == entries[i];
    CountBefore(entries, scores, i);
    forall m | m in Smaller(scores, entries[i].member) ensures m in MembersBefore(entries, i) {
      assert At(scores, m) in entries;
      var k :| 0 <= k < |entries| && entries[k] == At(scores, m);
      NotAfter(entries, i, k);
    }
    forall k | 0 <= k < i ensures entries[k].member in Smaller(scores, entries[i].member) {
      assert entries[k] in entries;
      assert At(scores, entries[k].member) == entries[k];
    }
    assert MembersBefore(entries, i) == Smaller(scores, entries[i].member);
  }

  lemma NotAfter(entries: seq<Entry>, i: nat, k: nat)
    requires Sorted(entries) && i < |entries| && k < |entries| && Less(entries[k], entries[i])
    ensures k < i
  {
    hide Less;
    LessIrreflexive(entries[i]);
    if k > i { LessTransitive(entries[k], entries[i], entries[k]); LessIrreflexive(entries[k]); }
  }

  class Zset {
    var entries: seq<Entry>
    /** The member scores this set stands for. */
    ghost var scores: map<Bytes, Score>

    ghost predicate Valid()
      reads this
    {
      Lists(entries, scores)
    }

    constructor ()
      ensures Valid() && scores == map[]
    {
      entries, scores := [], map[];
    }

    method FindIndex(member: Bytes) returns (index: Option<nat>)
      requires Valid()
      ensures index.Some? ==> index.value < |entries| && entries[index.value].member == member
      ensures index.None? <==> member !in scores
    {
      if member in scores { assert At(scores, member) in entries; }
      for i := 0 to |entries|
        invariant forall k | 0 <= k < i :: entries[k].member != member
      {
        assert entries[i] in entries;
        if entries[i].member == member { return Some(i); }
      }
      return None;
    }

    /** Where the entries stop being less than `e`, by halving. */
    method PartitionPoint(e: Entry) returns (at: nat)
      requires Valid()
      ensures at <= |entries|
      ensures forall i | 0 <= i < at :: Less(entries[i], e)
      ensures forall i | at <= i < |entries| :: !Less(entries[i], e)
    {
      hide Less, Agrees;
      at := 0;
      var high := |entries|;
      while at < high
        invariant at <= high <= |entries|
        invariant forall i | 0 <= i < at :: Less(entries[i], e)
        invariant forall i | high <= i < |entries| :: !Less(entries[i], e)
      {
        var mid := (at + high) / 2;
        if Less(entries[mid], e) {
          forall i | 0 <= i < mid ensures Less(entries[i], e) { LessTransitive(entries[i], entries[mid], e); }
          at := mid + 1;
        } else {
          forall i | mid < i < |entries| ensures !Less(entries[i], e) {
            if Less(entries[i], e) { LessTransitive(entries[mid], entries[i], e); }
          }
          high := mid;
        }
      }
    }

    /** Adds a member, or moves it to its new score. */
    method Add(member: Bytes, score: Score) returns (isNew: bool)
      requires Valid()
      modifies this
      ensures Valid() && scores == old(scores)[member := score] && isNew == (member !in old(scores))
    {
      hide Lists;
      var removed := Rem(member);
      isNew := !removed;
      var at := PartitionPoint(Entry(member, score));
      With(entries, scores, at, Entry(member, score));
      entries := entries[..at] + [Entry(member, score)] + entries[at..];
      scores := scores[member := score];
    }

    method Rem(member: Bytes) returns (removed: bool)
      requires Valid()
      modifies this
      ensures Valid() && scores == old(scores) - {member} && removed == (member in old(scores))
    {
      hide Lists;
      var index := FindIndex(member);
      if index.None? {
        assert scores - {member} == scores;
        return false;
      }
      Without(entries, scores, index.value);
      entries := entries[..index.value] + entries[index.value + 1..];
      scores := scores - {member};
      return true;
    }

    method ScoreOf(member: Bytes) returns (score: Option<Score>)
      requires Valid()
      ensures score == if member in scores then Some(scores[member]) else None
    {
      var index := FindIndex(member);
      return if index.Some? then Some(entries[index.value].score) else None;
    }

    /** Raises a member's score, a missing one's from zero. A sum that is not a number leaves the member
        without a score. */
    method IncrBy(member: Bytes, delta: Score) returns (sum: Option<Score>)
      requires Valid()
      modifies this
      ensures Valid() && sum == Raised(old(scores), member, delta)
      ensures scores == if sum.Some? then old(scores)[member := sum.value] else old(scores) - {member}
    {
      hide Lists;
      var current := ScoreOf(member);
      sum := Plus(if current.Some? then current.value else Finite(0.0), delta);
      if sum.Some? {
        var _ := Add(member, sum.value);
      } else {
        var _ := Rem(member);
      }
    }

    /** The command around it: a sum that is not a finite number is refused, and the member taken out. */
    method Increment(member: Bytes, delta: Score) returns (score: Option<Score>)
      requires Valid()
      modifies this
      ensures Valid()
      ensures score.None? <==> !delta.Finite? || (member in old(scores) && !old(scores)[member].Finite?)
      ensures score.Some? ==> score == Raised(old(scores), member, delta) && scores == old(scores)[member := score.value]
      ensures score.None? ==> scores == old(scores) - {member} && (scores == old(scores) <==> member !in old(scores))
    {
      hide Lists;
      score := IncrBy(member, delta);
      if score.None? || !score.value.Finite? {
        LeavingShows(old(scores), member);
        var _ := Rem(member);
        return None;
      }
    }

    /** How many entries come before the member's. */
    method Rank(member: Bytes) returns (rank: Option<nat>)
      requires Valid()
      ensures rank == if member in scores then Some(|Smaller(scores, member)|) else None
    {
      rank := FindIndex(member);
      if rank.Some? { RankCounts(entries, scores, rank.value); }
    }

    /** How many entries come after it. */
    method RevRank(member: Bytes) returns (rank: Option<nat>)
      requires Valid()
      ensures rank == if member in scores then Some(|scores| - 1 - |Smaller(scores, member)|) else None
    {
      var index := FindIndex(member);
      if index.None? { return None; }
      RankCounts(entries, scores, index.value);
      ListingSize(entries, scores);
      return Some(|entries| - 1 - index.value);
    }

    method Range(start: int, stop: int) returns (part: seq<Entry>)
      requires Valid()
      ensures part == RangeOf(entries, start, stop)
    {
      match ResolveRange(|entries|, start, stop)
      case None => part := [];
      case Some((first, last)) => part := entries[first..last + 1];
    }

    method RevRange(start: int, stop: int) returns (part: seq<Entry>)
      requires Valid()
      ensures part == RangeOf(Reversed(entries), start, stop)
    {
      RevRangeIsRangeOfReverse(entries, start, stop);
      match ResolveRange(|entries|, start, stop)
      case None => part := [];
      case Some((first, last)) => part := Reversed(entries[|entries| - 1 - last..|entries| - first]);
    }

    /** Exactly the members whose score is within bounds, in order. */
    method RangeByScore(min: Bound, max: Bound) returns (part: seq<Entry>)
      requires Valid()
      ensures Lists(part, InBounds(scores, min, max))
    {
      part := Filter((e: Entry) => Within(min, max, e.score));
      hide Less, Sorted;
      Part(entries, scores, part);
      forall m | m in scores ensures At(scores, m) in part <==> Within(min, max, scores[m]) {
        assert At(scores, m) in entries;
      }
      assert Left(scores, part) == InBounds(scores, min, max);
    }

    method Filter(keep: Entry -> bool) returns (part: seq<Entry>)
      requires Sorted(entries)
      ensures Sorted(part) && forall e :: e in part <==> e in entries && keep(e)
    {
      hide Less, Sorted;
      part := [];
      assert Sorted([]) by { SortedNothing(); }
      for i := 0 to |entries|
        invariant Sorted(part)
        invariant forall e :: e in part <==> e in entries[..i] && keep(e)
      {
        assert entries[..i + 1] == entries[..i] + [entries[i]];
        if keep(entries[i]) {
          SortedNext(entries, i, part);
          part := part + [entries[i]];
        }
      }
      assert entries[..|entries|] == entries;
    }

    /** Drops exactly the members in a rank range. */
    method RemoveRangeByRank(start: int, stop: int) returns (count: nat)
      requires Valid()
      modifies this
      ensures Valid() && count == |RangeOf(old(entries), start, stop)|
      ensures forall e :: e in entries <==> e in old(entries) && e !in RangeOf(old(entries), start, stop)
    {
      hide Less, Lists, ResolveRange;
      var range := ResolveRange(|entries|, start, stop);
      if range.None? { return 0; }
      var (first, last) := range.value;
      Drain(first, last + 1);
      return last + 1 - first;
    }

    /** Takes a stretch out. */
    method Drain(first: nat, end: nat)
      requires Valid() && first <= end <= |entries|
      modifies this
      ensures Valid() && entries == old(entries)[..first] + old(entries)[end..]
      ensures forall e :: e in entries <==> e in old(entries) && e !in old(entries)[first..end]
    {
      hide Less, Sorted, Agrees;
      CutOut(entries, first, end);
      ghost var rest := entries[..first] + entries[end..];
      Part(entries, scores, rest);
      scores := Left(scores, rest);
      entries := entries[..first] + entries[end..];
    }

    /** Drops exactly the members whose score is within bounds. */
    method RemoveRangeByScore(min: Bound, max: Bound) returns (count: nat)
      requires Valid()
      modifies this
      ensures Valid() && scores == old(scores) - InBounds(old(scores), min, max).Keys
      ensures count == |old(entries)| - |entries|
    {
      var kept := Filter((e: Entry) => !Within(min, max, e.score));
      hide Less, Sorted, Agrees, Within, InBounds;
      Part(entries, scores, kept);
      KeptOutside(entries, scores, kept, min, max);
      ghost var fewer := scores - InBounds(scores, min, max).Keys;
      ListingSize(entries, scores);
      ListingSize(kept, fewer);
      SubsetSize(fewer.Keys, scores.Keys);
      count := |entries| - |kept|;
      entries, scores := kept, fewer;
    }

    /** Hands out up to `count` members from one end, in order from that end, and keeps the rest. */
    method Pop(count: nat, fromMax: bool) returns (popped: seq<Entry>)
      requires Valid()
      modifies this
      ensures Valid() && |popped| == if count < |old(entries)| then count else |old(entries)|
      ensures if fromMax then entries + Reversed(popped) == old(entries) else popped + entries == old(entries)
    {
      hide Less, Sorted, Agrees, Reversed;
      var n := if count < |entries| then count else |entries|;
      var from := if fromMax then |entries| - n else 0;
      popped := entries[from..from + n];
      Ends(entries, from, n, fromMax);
      Drain(from, from + n);
      if fromMax { popped := Reversed(popped); }
    }
  }

  /** What is kept when the members within bounds go. */
  lemma KeptOutside(entries: seq<Entry>, scores: map<Bytes, Score>, kept: seq<Entry>, min: Bound, max: Bound)
    requires Agrees(entries, scores) && forall e :: e in kept <==> e in entries && !Within(min, max, e.score)
    ensures Left(scores, kept) == scores - InBounds(scores, min, max).Keys
  {
    hide Within;
    forall m | m in scores ensures At(scores, m) in kept <==> !Within(min, max, scores[m]) {
      assert At(scores, m) in entries;
    }
  }

  lemma ReversedTwice<T>(s: seq<T>)
    ensures Reversed(Reversed(s)) == s
  {
    var r := Reversed(s);
    forall i | 0 <= i < |s| ensures Reversed(r)[i] == s[i] {
      assert Reversed(r)[i] == r[|s| - 1 - i];
    }
  }

  lemma Ends(entries: seq<Entry>, from: nat, n: nat, fromMax: bool)
    requires n <= |entries| && from == if fromMax then |entries| - n else 0
    ensures var part, left := entries[from..from + n], entries[..from] + entries[from + n..];
            if fromMax then left + Reversed(Reversed(part)) == entries else part + left == entries
  {
    hide Reversed;
    ReversedTwice(entries[from..from + n]);
    if fromMax { LowEnd(entries, from); } else { HighEnd(entries, n); }
  }

  lemma LowEnd(entries: seq<Entry>, from: nat)
    requires from <= |entries|
    ensures entries[..from] + entries[|entries|..] + entries[from..|entries|] == entries
  {
  }

  lemma HighEnd(entries: seq<Entry>, n: nat)
    requires n <= |entries|
    ensures entries[0..n] + (entries[..0] + entries[n..]) == entries
  {
  }

  lemma SortedNothing()
    ensures Sorted([])
  {
  }

  /** What was kept of the first `i` entries, and then the next. */
  lemma SortedNext(entries: seq<Entry>, i: nat, part: seq<Entry>)
    requires Sorted(entries) && i < |entries| && Sorted(part) && forall e | e in part :: e in entries[..i]
    ensures Sorted(part + [entries[i]])
  {
    hide Less;
    forall k | 0 <= k < |part| ensures Less(part[k], entries[i]) {
      assert part[k] in part;
      var j :| 0 <= j < i && entries[..i][j] == part[k];
    }
  }

  lemma SubsetSize<T>(a: set<T>, b: set<T>)
    requires a <= b
    ensures |a| <= |b|
  {
    assert b == a + (b - a);
  }
}
