/** Hybrid retrieval: turning a keyword ranking and a vector ranking into one. */
module Fusions {
  import opened ByteStrings
  import TC = TextCopies
  import TI = TextIndexes
  import Mem = Memories

  datatype Fusion = Linear | Rrf

  const RRF_K: real := 60.0

  // ------------------------------------------------------------------
  // What one list contributes, on its candidates' scores

  /** How many candidates score strictly higher. */
  ghost function Higher(m: map<Bytes, real>, x: real): nat {
    |set id | id in m && m[id] > x|
  }

  ghost predicate IsLow(m: map<Bytes, real>, x: real) {
    (exists id :: id in m && m[id] == x) && forall id | id in m :: x <= m[id]
  }

  ghost predicate IsHigh(m: map<Bytes, real>, x: real) {
    (exists id :: id in m && m[id] == x) && forall id | id in m :: m[id] <= x
  }

  /** Where `x` sits between the ends; everyone's place is the top when there is no spread. */
  function Between(low: real, high: real, x: real): real {
    if high - low > 0.0 then (x - low) / (high - low) else 1.0
  }

  function Reciprocal(higher: nat): real {
    1.0 / (RRF_K + (1 + higher) as real)
  }

  /** What a list contributes to a candidate: nothing if it never found it, and otherwise its score
      scaled among the list's own candidates. */
  ghost predicate Contributes(fusion: Fusion, m: map<Bytes, real>, id: Bytes, c: real) {
    if id !in m then c == 0.0
    else if fusion == Rrf then c == Reciprocal(Higher(m, m[id]))
    else exists low, high :: IsLow(m, low) && IsHigh(m, high) && c == Between(low, high, m[id])
  }

  lemma ContributionUnique(fusion: Fusion, m: map<Bytes, real>, id: Bytes, c: real, d: real)
    requires Contributes(fusion, m, id, c) && Contributes(fusion, m, id, d)
    ensures c == d
  {
    hide Between, Reciprocal, Higher;
    if id in m && fusion == Linear {
      var low, high :| IsLow(m, low) && IsHigh(m, high) && c == Between(low, high, m[id]);
      var low', high' :| IsLow(m, low') && IsHigh(m, high') && d == Between(low', high', m[id]);
      OneLow(m, low, low');
      OneHigh(m, high, high');
    }
  }

  lemma OneLow(m: map<Bytes, real>, x: real, y: real)
    requires IsLow(m, x) && IsLow(m, y)
    ensures x == y
  {
  }

  lemma OneHigh(m: map<Bytes, real>, x: real, y: real)
    requires IsHigh(m, x) && IsHigh(m, y)
    ensures x == y
  {
  }

  // ------------------------------------------------------------------
  // What fusion does not depend on

  /** The same candidates, ordered and tied alike. */
  ghost predicate SameOrder(m: map<Bytes, real>, n: map<Bytes, real>) {
    m.Keys == n.Keys && forall a, b | a in m && b in m :: m[a] < m[b] <==> n[a] < n[b]
  }

  /** Reciprocal ranks do not change under any change of scores that keeps their order and ties. */
  lemma RrfSeesOnlyOrder(m: map<Bytes, real>, n: map<Bytes, real>, id: Bytes, c: real)
    requires SameOrder(m, n)
    ensures Contributes(Rrf, m, id, c) <==> Contributes(Rrf, n, id, c)
  {
    if id in m {
      assert (set k | k in m && m[k] > m[id]) == set k | k in n && n[k] > n[id];
    }
  }

  function Rescaled(m: map<Bytes, real>, a: real, b: real): map<Bytes, real> {
    map id | id in m :: a * m[id] + b
  }

  lemma QuotientIs(n: real, d: real, q: real)
    requires d != 0.0 && q * d == n
    ensures n / d == q
  {
  }

  lemma BetweenRescaled(low: real, high: real, x: real, a: real, b: real, low': real, high': real, x': real)
    requires a > 0.0 && low' == a * low + b && high' == a * high + b && x' == a * x + b
    ensures Between(low', high', x') == Between(low, high, x)
  {
    var spread := high - low;
    assert high' - low' == a * spread && x' - low' == a * (x - low);
    if spread > 0.0 {
      var q := (x - low) / spread;
      assert q * spread == x - low;
      assert q * (a * spread) == a * (q * spread) == a * (x - low);
      Positive(a, spread);
      QuotientIs(a * (x - low), a * spread, q);
    } else {
      NotPositive(a, spread);
    }
  }

  lemma Positive(a: real, s: real)
    requires a > 0.0 && s > 0.0
    ensures a * s > 0.0
  {
  }

  lemma NotPositive(a: real, s: real)
    requires a > 0.0 && s <= 0.0
    ensures a * s <= 0.0
  {
  }

  lemma Monotone(a: real, b: real, x: real, y: real, x': real, y': real)
    requires a > 0.0 && x <= y && x' == a * x + b && y' == a * y + b
    ensures x' <= y'
  {
    assert y' - x' == a * (y - x);
  }

  /** Min-max scaling does not change under a positive affine change of scores. */
  lemma LinearIsScaleFree(m: map<Bytes, real>, a: real, b: real, id: Bytes, c: real)
    requires a > 0.0 && Contributes(Linear, m, id, c)
    ensures Contributes(Linear, Rescaled(m, a, b), id, c)
  {
    hide Between, Rescaled, IsLow, IsHigh;
    assert id in Rescaled(m, a, b) <==> id in m by { RescaledAt(m, a, b, id); }
    if id in m {
      var low, high :| IsLow(m, low) && IsHigh(m, high) && c == Between(low, high, m[id]);
      RescaledAt(m, a, b, id);
      var low', high', n := a * low + b, a * high + b, Rescaled(m, a, b);
      EndsRescaled(m, a, b, low, high, low', high');
      BetweenRescaled(low, high, m[id], a, b, low', high', n[id]);
      assert IsLow(n, low') && IsHigh(n, high') && c == Between(low', high', n[id]);
    }
  }

  lemma RescaledAt(m: map<Bytes, real>, a: real, b: real, id: Bytes)
    ensures id in Rescaled(m, a, b) <==> id in m
    ensures id in m ==> Rescaled(m, a, b)[id] == a * m[id] + b
  {
  }

  lemma EndsRescaled(m: map<Bytes, real>, a: real, b: real, low: real, high: real, low': real, high': real)
    requires a > 0.0 && IsLow(m, low) && IsHigh(m, high) && low' == a * low + b && high' == a * high + b
    ensures IsLow(Rescaled(m, a, b), low') && IsHigh(Rescaled(m, a, b), high')
  {
    hide Rescaled;
    var n := Rescaled(m, a, b);
    forall k ensures k in n ==> k in m && low' <= n[k] <= high' {
      RescaledAt(m, a, b, k);
      if k in n {
        Monotone(a, b, low, m[k], low', n[k]);
        Monotone(a, b, m[k], high, n[k], high');
      }
    }
    var l :| l in m && m[l] == low;
    var h :| h in m && m[h] == high;
    RescaledAt(m, a, b, l);
    RescaledAt(m, a, b, h);
  }

  // ------------------------------------------------------------------
  // Normalizing and ranking

  /** `low` and `high` are the ends of the scores. */
  ghost predicate Ends(s: seq<real>, low: real, high: real) {
    low in s && high in s && forall i | 0 <= i < |s| :: low <= s[i] <= high
  }

  /** Rescales scores onto [0, 1], in place. */
  method Normalize(values: array<real>) returns (ghost low: real, ghost high: real)
    modifies values
    ensures values.Length > 0 ==> Ends(old(values[..]), low, high)
    ensures forall i | 0 <= i < values.Length :: values[i] == Between(low, high, old(values[i]))
  {
    if values.Length == 0 {
      low, high := 0.0, 0.0;
      return;
    }
    var bottom, top := values[0], values[0];
    for i := 0 to values.Length
      invariant bottom in values[..] && top in values[..]
      invariant bottom <= values[0] <= top
      invariant forall k | 0 <= k < i :: bottom <= values[k] <= top
    {
      if values[i] < bottom { bottom := values[i]; }
      if values[i] > top { top := values[i]; }
    }
    low, high := bottom, top;
    var spread := top - bottom;
    for i := 0 to values.Length
      invariant forall k | 0 <= k < i :: values[k] == Between(bottom, top, old(values[k]))
      invariant forall k | i <= k < values.Length :: values[k] == old(values[k])
    {
      values[i] := if spread > 0.0 then (values[i] - bottom) / spread else 1.0;
    }
  }

  /** How many scores are strictly greater. */
  ghost function Greater(s: seq<real>, x: real): nat {
    |set i: nat | 0 <= i < |s| && s[i] > x|
  }

  /** The first `n` positions of `scores`, highest score first. */
  ghost predicate Descending(order: seq<nat>, scores: seq<real>, n: nat) {
    && |order| == n <= |scores|
    && (forall i | 0 <= i < n :: order[i] < n)
    && Downward(order, scores)
    && (forall k | 0 <= k < n :: k in order)
  }

  ghost predicate Downward(order: seq<nat>, scores: seq<real>)
    requires forall i | 0 <= i < |order| :: order[i] < |scores|
  {
    forall i, j | 0 <= i < j < |order| :: order[i] != order[j] && scores[order[i]] >= scores[order[j]]
  }

  method SortDescending(scores: seq<real>) returns (order: seq<nat>)
    ensures Descending(order, scores, |scores|)
  {
    order := [];
    for n := 0 to |scores|
      invariant Descending(order, scores, n)
    {
      var at := |order|;
      while at > 0 && scores[order[at - 1]] < scores[n]
        invariant 0 <= at <= |order|
        invariant forall i | at <= i < |order| :: scores[order[i]] < scores[n]
      {
        at := at - 1;
      }
      Inserted(order, scores, n, at);
      order := order[..at] + [n] + order[at..];
    }
  }

  lemma Inserted(order: seq<nat>, scores: seq<real>, n: nat, at: nat)
    requires n < |scores| && Descending(order, scores, n) && at <= |order|
    requires at > 0 ==> scores[order[at - 1]] >= scores[n]
    requires forall i | at <= i < |order| :: scores[order[i]] < scores[n]
    ensures Descending(order[..at] + [n] + order[at..], scores, n + 1)
  {
    hide Downward;
    StillDownward(order, scores, n, at);
    StillCovers(order, n, at);
  }

  lemma StillCovers(order: seq<nat>, n: nat, at: nat)
    requires at <= |order| && forall k | 0 <= k < n :: k in order
    ensures forall k | 0 <= k < n + 1 :: k in order[..at] + [n] + order[at..]
  {
    var more := order[..at] + [n] + order[at..];
    forall k | 0 <= k < n + 1 ensures k in more {
      if k < n {
        assert k in order;
        var i :| 0 <= i < |order| && order[i] == k;
        assert more[if i < at then i else i + 1] == k;
      } else {
        assert more[at] == n;
      }
    }
  }

  lemma StillDownward(order: seq<nat>, scores: seq<real>, n: nat, at: nat)
    requires n < |scores| && at <= |order| && (forall k | 0 <= k < |order| :: order[k] < n) && Downward(order, scores)
    requires at > 0 ==> scores[order[at - 1]] >= scores[n]
    requires forall i | at <= i < |order| :: scores[order[i]] < scores[n]
    ensures var more := order[..at] + [n] + order[at..];
            (forall i | 0 <= i < |more| :: more[i] <= n) && Downward(more, scores)
  {
    var more := order[..at] + [n] + order[at..];
    forall i | 0 <= i < |more| ensures more[i] <= n {
      assert more[i] == if i < at then order[i] else if i == at then n else order[i - 1];
    }
    forall i, j | 0 <= i < j < |more| ensures more[i] != more[j] && scores[more[i]] >= scores[more[j]] {
      InsertedPair(order, scores, n, at, i, j);
    }
  }

  lemma InsertedPair(order: seq<nat>, scores: seq<real>, n: nat, at: nat, i: nat, j: nat)
    requires n < |scores| && at <= |order| && i < j <= |order|
    requires forall k | 0 <= k < |order| :: order[k] < n
    requires Downward(order, scores)
    requires at > 0 ==> scores[order[at - 1]] >= scores[n]
    requires forall i | at <= i < |order| :: scores[order[i]] < scores[n]
    ensures var more := order[..at] + [n] + order[at..];
            more[i] <= n && more[j] <= n && more[i] != more[j] && scores[more[i]] >= scores[more[j]]
  {
    var more := order[..at] + [n] + order[at..];
    assert more[i] == if i < at then order[i] else if i == at then n else order[i - 1];
    assert more[j] == if j < at then order[j] else if j == at then n else order[j - 1];
    if j == at && i < at - 1 { assert scores[order[i]] >= scores[order[at - 1]]; }
  }

  /** The indices at positions before `p`. */
  ghost function Placed(order: seq<nat>, p: nat): set<nat>
    requires p <= |order|
  {
    set q | 0 <= q < p :: order[q]
  }

  lemma {:induction false} PlacedCount(order: seq<nat>, p: nat)
    requires p <= |order| && forall i, j | 0 <= i < j < |order| :: order[i] != order[j]
    ensures |Placed(order, p)| == p
  {
    if p == 0 {
      assert Placed(order, 0) == {};
    } else {
      PlacedCount(order, p - 1);
      assert Placed(order, p) == Placed(order, p - 1) + {order[p - 1]};
    }
  }

  /** Whoever starts a run of equal scores has exactly the positions before it above it. */
  lemma RunStart(order: seq<nat>, scores: seq<real>, p: nat)
    requires Descending(order, scores, |scores|) && p < |order|
    requires p == 0 || scores[order[p]] != scores[order[p - 1]]
    ensures Greater(scores, scores[order[p]]) == p
  {
    PlacedCount(order, p);
    var above := set i: nat | 0 <= i < |scores| && scores[i] > scores[order[p]];
    forall i | i in above ensures i in Placed(order, p) {
      assert i in order;
      var q :| 0 <= q < |order| && order[q] == i;
      assert q < p;
    }
    forall q | 0 <= q < p ensures order[q] in above {
      assert scores[order[q]] >= scores[order[p - 1]] >= scores[order[p]];
    }
    assert above == Placed(order, p);
  }

  /** Every score's rank, one for the largest; equal scores get equal ranks, the smallest of theirs. */
  method Ranks(scores: seq<real>) returns (ranks: seq<real>)
    ensures |ranks| == |scores|
    ensures forall i | 0 <= i < |scores| :: ranks[i] == (1 + Greater(scores, scores[i])) as real
  {
    hide Greater;
    var order := SortDescending(scores);
    ranks := seq(|scores|, i => 0.0);
    var rank := 0.0;
    for position := 0 to |order|
      invariant |ranks| == |scores|
      invariant position > 0 ==> rank == (1 + Greater(scores, scores[order[position - 1]])) as real
      invariant forall q | 0 <= q < position :: ranks[order[q]] == (1 + Greater(scores, scores[order[q]])) as real
    {
      var index := order[position];
      if position == 0 || scores[index] != scores[order[position - 1]] {
        RunStart(order, scores, position);
        rank := position as real + 1.0;
      }
      ranks := ranks[index := rank];
    }
    forall i | 0 <= i < |scores| ensures ranks[i] == (1 + Greater(scores, scores[i])) as real {
      assert i in order;
      var q :| 0 <= q < |order| && order[q] == i;
    }
  }

  // ------------------------------------------------------------------
  // One component, aligned with its rows

  /** The scores of the rows that have one. */
  function Found(raw: seq<real>, present: seq<bool>): seq<real>
    requires |raw| == |present|
  {
    if raw == [] then []
    else
      var rest := Found(raw[..|raw| - 1], present[..|raw| - 1]);
      if present[|raw| - 1] then rest + [raw[|raw| - 1]] else rest
  }

  ghost predicate Scaled(fusion: Fusion, found: seq<real>, x: real, c: real) {
    if fusion == Rrf then c == Reciprocal(Greater(found, x))
    else exists low, high :: Ends(found, low, high) && c == Between(low, high, x)
  }

  method Scale(found: seq<real>, fusion: Fusion) returns (scaled: seq<real>)
    requires found != []
    ensures |scaled| == |found| && forall i | 0 <= i < |found| :: Scaled(fusion, found, found[i], scaled[i])
  {
    hide Between, Greater, Ends;
    match fusion
    case Linear =>
      var values := new real[|found|](i requires 0 <= i < |found| => found[i]);
      assert values[..] == found;
      ghost var low, high;
      low, high := Normalize(values);
      scaled := values[..];
      assert Ends(found, low, high);
    case Rrf =>
      var ranks := Ranks(found);
      scaled := seq(|ranks|, i requires 0 <= i < |ranks| && ranks[i] > 0.0 => 1.0 / (RRF_K + ranks[i]));
  }

  lemma FoundNext(raw: seq<real>, present: seq<bool>, i: nat)
    requires |raw| == |present| && i < |raw|
    ensures Found(raw[..i + 1], present[..i + 1])
            == if present[i] then Found(raw[..i], present[..i]) + [raw[i]] else Found(raw[..i], present[..i])
  {
    assert raw[..i + 1][..i] == raw[..i] && present[..i + 1][..i] == present[..i];
  }

  lemma {:induction false} FoundPrefix(raw: seq<real>, present: seq<bool>, i: nat)
    requires |raw| == |present| && i <= |raw|
    ensures Found(raw[..i], present[..i]) <= Found(raw, present)
    decreases |raw| - i
  {
    if i == |raw| {
      assert raw[..i] == raw && present[..i] == present;
    } else {
      FoundNext(raw, present, i);
      FoundPrefix(raw, present, i + 1);
    }
  }

  /** Scales the scores that are there and puts each back in its own row. */
  method Component(raw: seq<real>, present: seq<bool>, fusion: Fusion) returns (out: seq<real>)
    requires |raw| == |present|
    ensures |out| == |raw|
    ensures forall i | 0 <= i < |raw| ::
              if present[i] then Scaled(fusion, Found(raw, present), raw[i], out[i]) else out[i] == 0.0
  {
    hide Scaled;
    var found: seq<real> := [];
    for i := 0 to |raw|
      invariant found == Found(raw[..i], present[..i])
    {
      FoundNext(raw, present, i);
      if present[i] { found := found + [raw[i]]; }
    }
    assert raw[..|raw|] == raw && present[..|raw|] == present;
    var scaled: seq<real> := [];
    if found != [] { scaled := Scale(found, fusion); }
    // Reversed, so that popping from the back restores input order.
    var stack := seq(|scaled|, i requires 0 <= i < |scaled| => scaled[|scaled| - 1 - i]);
    out := [];
    for i := 0 to |raw|
      invariant |out| == i
      invariant |stack| == |scaled| - |Found(raw[..i], present[..i])|
      invariant forall k | 0 <= k < |stack| :: stack[k] == scaled[|scaled| - 1 - k]
      invariant forall k | 0 <= k < i ::
                  if present[k] then Scaled(fusion, found, raw[k], out[k]) else out[k] == 0.0
    {
      FoundNext(raw, present, i);
      FoundPrefix(raw, present, i + 1);
      if present[i] {
        var taken := |Found(raw[..i], present[..i])|;
        assert Found(raw[..i + 1], present[..i + 1])[taken] == raw[i] == found[taken];
        out := out + [stack[|stack| - 1]];
        stack := stack[..|stack| - 1];
      } else {
        out := out + [0.0];
      }
    }
  }

  // ------------------------------------------------------------------
  // Fusing

  datatype Weights = Weights(keyword: real, vector: real, recency: real, importance: real)

  /** A result of fusing: the score, and what each of its parts came to. */
  datatype Hit = Hit(id: Bytes, score: real, keyword: real, vector: real, recency: real)

  /** The last score each candidate came with. */
  function LastScores(list: seq<TI.Hit>): map<Bytes, real> {
    if list == [] then map[] else LastScores(list[..|list| - 1])[list[|list| - 1].id := list[|list| - 1].score]
  }

  /** How much weight a record still carries, halving every half-life. */
  function Recency(halve: real -> real, updatedAt: int, now: int, halfLife: int): real {
    var seconds := if halfLife < 1_000_000_000 then 1_000_000_000 else halfLife;
    halve((if now < updatedAt then 0 else now - updatedAt) as real / seconds as real)
  }

  function ScoreIn(m: map<Bytes, real>, id: Bytes): real {
    if id in m then m[id] else 0.0
  }

  /** What fusion ranks by: the weighted sum of the two lists' contributions, recency and importance. */
  function Sum(w: Weights, keyword: real, vector: real, recency: real, importance: real): real {
    w.keyword * keyword + w.vector * vector + w.recency * recency + w.importance * importance
  }

  /** Everything fusion is given besides the two lists. */
  datatype Setting = Setting(records: map<Bytes, Mem.Record>, weights: Weights, fusion: Fusion, halve: real -> real, halfLife: int, now: int)

  ghost predicate IsScore(s: Setting, kw: map<Bytes, real>, vc: map<Bytes, real>, id: Bytes, score: real)
    requires id in s.records
  {
    exists k, v ::
      && Contributes(s.fusion, kw, id, k) && Contributes(s.fusion, vc, id, v)
      && score == Sum(s.weights, k, v, Recency(s.halve, s.records[id].updatedAt, s.now, s.halfLife), Mem.Clamp(s.records[id].importance))
  }

  ghost predicate IsHit(s: Setting, kw: map<Bytes, real>, vc: map<Bytes, real>, h: Hit) {
    && h.id in s.records && (h.id in kw || h.id in vc)
    && IsScore(s, kw, vc, h.id, h.score)
    && h.keyword == ScoreIn(kw, h.id) && h.vector == ScoreIn(vc, h.id)
    && h.recency == Recency(s.halve, s.records[h.id].updatedAt, s.now, s.halfLife)
  }

  /** A hit's score, part by part: the keyword weight times what the keyword list contributes, and so for the
      vector list; the recency weight times one halving for each half-life since the record was updated; and
      the importance weight times the importance, between 0 and 1. */
  lemma ScoresAddUp(s: Setting, kw: map<Bytes, real>, vc: map<Bytes, real>, h: Hit)
    requires IsHit(s, kw, vc, h) && s.halfLife >= 1_000_000_000
    ensures exists k, v ::
              && Contributes(s.fusion, kw, h.id, k) && Contributes(s.fusion, vc, h.id, v)
              && var r := s.records[h.id];
                 var age := if s.now < r.updatedAt then 0 else s.now - r.updatedAt;
                 var importance := if r.importance < 0.0 then 0.0 else if 1.0 < r.importance then 1.0 else r.importance;
                 h.score == s.weights.keyword * k + s.weights.vector * v + s.weights.recency * s.halve(age as real / s.halfLife as real)
                            + s.weights.importance * importance
  {
    hide Contributes;
    var k, v :| && Contributes(s.fusion, kw, h.id, k) && Contributes(s.fusion, vc, h.id, v)
                && h.score == Sum(s.weights, k, v, Recency(s.halve, s.records[h.id].updatedAt, s.now, s.halfLife),
                                  Mem.Clamp(s.records[h.id].importance));
  }

  /** What a list contributes to an id on it: under RRF 1 over 60 and its rank, the best ranked first; under
      LINEAR 1 for the best and, unless all are equal, 0 for the worst. */
  lemma ContributionsAtTheEnds(m: map<Bytes, real>, id: Bytes, c: real)
    requires id in m
    ensures Contributes(Rrf, m, id, c) <==> c == 1.0 / (61 + Higher(m, m[id])) as real
    ensures IsHigh(m, m[id]) && Contributes(Linear, m, id, c) ==> c == 1.0
    ensures IsLow(m, m[id]) && !IsHigh(m, m[id]) && Contributes(Linear, m, id, c) ==> c == 0.0
  {
    if IsHigh(m, m[id]) && Contributes(Linear, m, id, c) {
      var low, high :| IsLow(m, low) && IsHigh(m, high) && c == Between(low, high, m[id]);
      assert high == m[id];
      if high - low > 0.0 { TC.SelfQuotient(high - low); }
    }
    if IsLow(m, m[id]) && !IsHigh(m, m[id]) && Contributes(Linear, m, id, c) {
      var low, high :| IsLow(m, low) && IsHigh(m, high) && c == Between(low, high, m[id]);
      assert low == m[id] && high != low;
      ZeroQuotient(high - low);
    }
  }

  lemma ZeroQuotient(x: real)
    requires x > 0.0
    ensures 0.0 / x == 0.0
  {
  }

  predicate Before(a: Hit, b: Hit) {
    a.score > b.score || (a.score == b.score && LexLess(a.id, b.id))
  }

  ghost predicate Sorted(hits: seq<Hit>) {
    forall i, j | 0 <= i < j < |hits| :: Before(hits[i], hits[j])
  }

  /** The highest score first, and hits of one score by the bytes of their ids. */
  lemma HighestFirst(hits: seq<Hit>, i: nat, j: nat)
    requires Sorted(hits) && i < j < |hits|
    ensures hits[i].score >= hits[j].score && (hits[i].score == hits[j].score ==> LexLess(hits[i].id, hits[j].id))
  {
    assert Before(hits[i], hits[j]);
  }

  /** The fused ranking: one hit for each candidate that has a record, with its score, in order. */
  ghost predicate Fuses(hits: seq<Hit>, s: Setting, kw: map<Bytes, real>, vc: map<Bytes, real>) {
    && Sorted(hits)
    && (forall h | h in hits :: IsHit(s, kw, vc, h))
    && (forall id | (id in kw || id in vc) && id in s.records :: exists i | 0 <= i < |hits| :: hits[i].id == id)
  }

  lemma OneHitEach(hits: seq<Hit>, s: Setting, kw: map<Bytes, real>, vc: map<Bytes, real>, i: nat, j: nat)
    requires Fuses(hits, s, kw, vc) && i < |hits| && j < |hits| && hits[i].id == hits[j].id
    ensures i == j
  {
    hide Contributes, Sum, Recency, Before;
    assert hits[i] in hits && hits[j] in hits;
    ScoreUnique(s, kw, vc, hits[i].id, hits[i].score, hits[j].score);
    BeforeIrreflexive(hits[i]);
    assert hits[i] == hits[j];
  }

  lemma ScoreUnique(s: Setting, kw: map<Bytes, real>, vc: map<Bytes, real>, id: Bytes, x: real, y: real)
    requires id in s.records && IsScore(s, kw, vc, id, x) && IsScore(s, kw, vc, id, y)
    ensures x == y
  {
    hide Contributes, Sum, Recency;
    var recency, importance := Recency(s.halve, s.records[id].updatedAt, s.now, s.halfLife), Mem.Clamp(s.records[id].importance);
    var k, v :| Contributes(s.fusion, kw, id, k) && Contributes(s.fusion, vc, id, v) && x == Sum(s.weights, k, v, recency, importance);
    var k', v' :| Contributes(s.fusion, kw, id, k') && Contributes(s.fusion, vc, id, v') && y == Sum(s.weights, k', v', recency, importance);
    ContributionUnique(s.fusion, kw, id, k, k');
    ContributionUnique(s.fusion, vc, id, v, v');
  }

  lemma BeforeIrreflexive(h: Hit)
    ensures !Before(h, h)
  {
    LexIrreflexive(h.id);
  }

  /** Under reciprocal ranks, each candidate's score stays the same when one list's scores change but
      not their order and ties. */
  lemma RrfScoresInvariant(s: Setting, kw: map<Bytes, real>, kw2: map<Bytes, real>, vc: map<Bytes, real>, id: Bytes, score: real)
    requires s.fusion == Rrf && SameOrder(kw, kw2) && id in s.records
    ensures IsScore(s, kw, vc, id, score) <==> IsScore(s, kw2, vc, id, score)
    ensures IsScore(s, vc, kw, id, score) <==> IsScore(s, vc, kw2, id, score)
  {
    hide Contributes, Sum, Recency;
    forall c ensures Contributes(Rrf, kw, id, c) <==> Contributes(Rrf, kw2, id, c) {
      RrfSeesOnlyOrder(kw, kw2, id, c);
    }
  }

  /** Under min-max scaling, when one list's scores all go through the same positive affine change. */
  lemma LinearScoresInvariant(s: Setting, kw: map<Bytes, real>, vc: map<Bytes, real>, a: real, b: real, id: Bytes, score: real)
    requires s.fusion == Linear && a > 0.0 && id in s.records
    ensures IsScore(s, kw, vc, id, score) ==> IsScore(s, Rescaled(kw, a, b), vc, id, score)
    ensures IsScore(s, vc, kw, id, score) ==> IsScore(s, vc, Rescaled(kw, a, b), id, score)
  {
    hide Contributes, Sum, Recency, Rescaled;
    forall c | Contributes(Linear, kw, id, c) ensures Contributes(Linear, Rescaled(kw, a, b), id, c) {
      LinearIsScaleFree(kw, a, b, id, c);
    }
  }

  // ------------------------------------------------------------------
  // Rows

  /** One row per candidate: its id, and what each list scored it. */
  datatype Rows = Rows(ids: seq<Bytes>, kw: seq<real>, vc: seq<real>, hadKw: seq<bool>, hadVc: seq<bool>)

  /** A column holds a list's scores: present where the list has the row's id, and its score there. */
  ghost predicate Column(ids: seq<Bytes>, raw: seq<real>, present: seq<bool>, m: map<Bytes, real>) {
    && |raw| == |present| == |ids|
    && (forall i | 0 <= i < |ids| :: present[i] == (ids[i] in m) && raw[i] == ScoreIn(m, ids[i]))
    && (forall id | id in m :: id in ids)
  }

  ghost predicate RowsOk(r: Rows, kw: map<Bytes, real>, vc: map<Bytes, real>) {
    NoRepeat(r.ids) && Column(r.ids, r.kw, r.hadKw, kw) && Column(r.ids, r.vc, r.hadVc, vc)
  }

  lemma ColumnSet(ids: seq<Bytes>, raw: seq<real>, present: seq<bool>, m: map<Bytes, real>, row: nat, score: real)
    requires Column(ids, raw, present, m) && NoRepeat(ids) && row < |ids|
    ensures Column(ids, raw[row := score], present[row := true], m[ids[row] := score])
  {
  }

  lemma ColumnGrows(ids: seq<Bytes>, raw: seq<real>, present: seq<bool>, m: map<Bytes, real>, id: Bytes)
    requires Column(ids, raw, present, m) && id !in ids
    ensures Column(ids + [id], raw + [0.0], present + [false], m)
  {
    assert id !in m;
  }

  lemma NoRepeatGrows(ids: seq<Bytes>, id: Bytes)
    requires NoRepeat(ids) && id !in ids
    ensures NoRepeat(ids + [id])
  {
  }

  /** The row of a candidate, added with no scores if it is new. */
  method RowFor(r: Rows, id: Bytes, ghost kw: map<Bytes, real>, ghost vc: map<Bytes, real>) returns (after: Rows, row: nat)
    requires RowsOk(r, kw, vc)
    ensures RowsOk(after, kw, vc) && row < |after.ids| && after.ids[row] == id
    ensures forall x :: x in after.ids <==> x in r.ids || x == id
  {
    hide Column, NoRepeat;
    for i := 0 to |r.ids|
      invariant forall k | 0 <= k < i :: r.ids[k] != id
    {
      if r.ids[i] == id { return r, i; }
    }
    ColumnGrows(r.ids, r.kw, r.hadKw, kw, id);
    ColumnGrows(r.ids, r.vc, r.hadVc, vc, id);
    NoRepeatGrows(r.ids, id);
    return Rows(r.ids + [id], r.kw + [0.0], r.vc + [0.0], r.hadKw + [false], r.hadVc + [false]), |r.ids|;
  }

  lemma LastScoresMore(list: seq<TI.Hit>, i: nat)
    requires i < |list|
    ensures LastScores(list[..i + 1]) == LastScores(list[..i])[list[i].id := list[i].score]
  {
    assert list[..i + 1][..i] == list[..i];
  }

  method GatherRows(keyword: seq<TI.Hit>, vector: seq<TI.Hit>) returns (r: Rows)
    ensures RowsOk(r, LastScores(keyword), LastScores(vector))
    ensures forall id :: id in r.ids <==> id in LastScores(keyword) || id in LastScores(vector)
  {
    hide Column, NoRepeat, LastScores;
    r := Rows([], [], [], [], []);
    assert RowsOk(r, map[], map[]) && LastScores(keyword[..0]) == map[] == LastScores(vector[..0]) by { NoRows(keyword, vector); }
    var row;
    for i := 0 to |keyword|
      invariant RowsOk(r, LastScores(keyword[..i]), map[])
      invariant forall id :: id in r.ids <==> id in LastScores(keyword[..i])
    {
      ghost var kw := LastScores(keyword[..i]);
      LastScoresMore(keyword, i);
      r, row := RowFor(r, keyword[i].id, kw, map[]);
      SetKeyword(r, kw, map[], row, keyword[i].score);
      r := r.(kw := r.kw[row := keyword[i].score], hadKw := r.hadKw[row := true]);
    }
    assert keyword[..|keyword|] == keyword;
    ghost var all := LastScores(keyword);
    for i := 0 to |vector|
      invariant RowsOk(r, all, LastScores(vector[..i]))
      invariant forall id :: id in r.ids <==> id in all || id in LastScores(vector[..i])
    {
      ghost var vc := LastScores(vector[..i]);
      LastScoresMore(vector, i);
      r, row := RowFor(r, vector[i].id, all, vc);
      SetVector(r, all, vc, row, vector[i].score);
      r := r.(vc := r.vc[row := vector[i].score], hadVc := r.hadVc[row := true]);
    }
    assert vector[..|vector|] == vector;
  }

  lemma NoRows(keyword: seq<TI.Hit>, vector: seq<TI.Hit>)
    ensures RowsOk(Rows([], [], [], [], []), map[], map[])
    ensures LastScores(keyword[..0]) == map[] == LastScores(vector[..0])
  {
  }

  lemma SetKeyword(r: Rows, kw: map<Bytes, real>, vc: map<Bytes, real>, row: nat, score: real)
    requires RowsOk(r, kw, vc) && row < |r.ids|
    ensures |r.kw| == |r.hadKw| == |r.ids|
    ensures RowsOk(r.(kw := r.kw[row := score], hadKw := r.hadKw[row := true]), kw[r.ids[row] := score], vc)
  {
    ColumnSet(r.ids, r.kw, r.hadKw, kw, row, score);
  }

  lemma SetVector(r: Rows, kw: map<Bytes, real>, vc: map<Bytes, real>, row: nat, score: real)
    requires RowsOk(r, kw, vc) && row < |r.ids|
    ensures |r.vc| == |r.hadVc| == |r.ids|
    ensures RowsOk(r.(vc := r.vc[row := score], hadVc := r.hadVc[row := true]), kw, vc[r.ids[row] := score])
  {
    ColumnSet(r.ids, r.vc, r.hadVc, vc, row, score);
  }

  // ------------------------------------------------------------------
  // A component is a contribution

  function FoundIds(ids: seq<Bytes>, present: seq<bool>): seq<Bytes>
    requires |ids| == |present|
  {
    if ids == [] then []
    else
      var rest := FoundIds(ids[..|ids| - 1], present[..|ids| - 1]);
      if present[|ids| - 1] then rest + [ids[|ids| - 1]] else rest
  }

  ghost predicate HasRow(ids: seq<Bytes>, raw: seq<real>, present: seq<bool>, id: Bytes, score: real)
    requires |ids| == |raw| == |present|
  {
    exists i | 0 <= i < |ids| :: present[i] && ids[i] == id && raw[i] == score
  }

  lemma HasRowMore(ids: seq<Bytes>, raw: seq<real>, present: seq<bool>, id: Bytes, x: real)
    requires |ids| == |raw| == |present| > 0
    requires HasRow(ids[..|ids| - 1], raw[..|ids| - 1], present[..|ids| - 1], id, x)
    ensures HasRow(ids, raw, present, id, x) && id in ids[..|ids| - 1]
  {
    var n := |ids| - 1;
    var i :| 0 <= i < n && present[..n][i] && id == ids[..n][i] && x == raw[..n][i];
    assert present[i] && id == ids[i] && x == raw[i];
  }

  lemma HasRowLast(ids: seq<Bytes>, raw: seq<real>, present: seq<bool>)
    requires |ids| == |raw| == |present| > 0 && present[|ids| - 1]
    ensures HasRow(ids, raw, present, ids[|ids| - 1], raw[|ids| - 1])
  {
  }

  /** The scores found and the ids they belong to. */
  lemma {:induction false} FoundAligned(ids: seq<Bytes>, raw: seq<real>, present: seq<bool>)
    requires |ids| == |raw| == |present| && NoRepeat(ids)
    ensures var f, g := Found(raw, present), FoundIds(ids, present);
            && |f| == |g|
            && (forall k | 0 <= k < |g| :: HasRow(ids, raw, present, g[k], f[k]))
            && (forall i | 0 <= i < |ids| && present[i] :: ids[i] in g)
            && NoRepeat(g)
    decreases |ids|
  {
    hide HasRow;
    if ids != [] {
      var n := |ids| - 1;
      FoundAligned(ids[..n], raw[..n], present[..n]);
      var f, g := Found(raw, present), FoundIds(ids, present);
      var f', g' := Found(raw[..n], present[..n]), FoundIds(ids[..n], present[..n]);
      forall k | 0 <= k < |g'| ensures g'[k] in ids[..n] {
        HasRowMore(ids, raw, present, g'[k], f'[k]);
      }
      forall k | 0 <= k < |g| ensures HasRow(ids, raw, present, g[k], f[k]) {
        if k < |g'| {
          HasRowMore(ids, raw, present, g'[k], f'[k]);
        } else {
          HasRowLast(ids, raw, present);
        }
      }
      forall i | 0 <= i < |ids| && present[i] ensures ids[i] in g {
        if i < n { assert ids[..n][i] in FoundIds(ids[..n], present[..n]); }
      }
    }
  }

  /** `f` lists a map's scores, `g` the ids they belong to. */
  ghost predicate Pairs(f: seq<real>, g: seq<Bytes>, m: map<Bytes, real>) {
    && |f| == |g| && NoRepeat(g)
    && (forall k | 0 <= k < |g| :: g[k] in m && f[k] == m[g[k]])
    && (forall id | id in m :: id in g)
  }

  lemma FoundPairs(ids: seq<Bytes>, raw: seq<real>, present: seq<bool>, m: map<Bytes, real>)
    requires Column(ids, raw, present, m) && NoRepeat(ids)
    ensures Pairs(Found(raw, present), FoundIds(ids, present), m)
  {
    FoundAligned(ids, raw, present);
    var f, g := Found(raw, present), FoundIds(ids, present);
    forall k | 0 <= k < |g| ensures g[k] in m && f[k] == m[g[k]] {
      assert HasRow(ids, raw, present, g[k], f[k]);
    }
    forall id | id in m ensures id in g {
      var i :| 0 <= i < |ids| && ids[i] == id;
      assert present[i];
    }
  }

  ghost function Above(f: seq<real>, x: real, n: nat): set<nat>
    requires n <= |f|
  {
    set k: nat | 0 <= k < n && f[k] > x
  }

  ghost function IdsAbove(f: seq<real>, g: seq<Bytes>, x: real, n: nat): set<Bytes>
    requires n <= |f| == |g|
  {
    set k | 0 <= k < n && f[k] > x :: g[k]
  }

  lemma GreaterIsHigher(f: seq<real>, g: seq<Bytes>, m: map<Bytes, real>, x: real)
    requires Pairs(f, g, m)
    ensures Greater(f, x) == Higher(m, x)
  {
    SameCount(f, g, x, |f|);
    assert Above(f, x, |f|) == set i: nat | 0 <= i < |f| && f[i] > x;
    forall id | id in m && m[id] > x ensures id in IdsAbove(f, g, x, |f|) {
      assert id in g;
      var k :| 0 <= k < |g| && g[k] == id;
    }
    assert IdsAbove(f, g, x, |f|) == set id | id in m && m[id] > x;
  }

  lemma {:induction false} SameCount(f: seq<real>, g: seq<Bytes>, x: real, n: nat)
    requires |f| == |g| && NoRepeat(g) && n <= |f|
    ensures |Above(f, x, n)| == |IdsAbove(f, g, x, n)|
  {
    hide Above, IdsAbove, NoRepeat;
    if n == 0 {
      NoneAbove(f, g, x);
    } else {
      SameCount(f, g, x, n - 1);
      AboveNext(f, g, x, n - 1);
    }
  }

  lemma NoneAbove(f: seq<real>, g: seq<Bytes>, x: real)
    requires |f| == |g|
    ensures Above(f, x, 0) == {} && IdsAbove(f, g, x, 0) == {}
  {
  }

  lemma AboveNext(f: seq<real>, g: seq<Bytes>, x: real, n: nat)
    requires n < |f| == |g| && NoRepeat(g)
    ensures Above(f, x, n + 1) == if f[n] > x then Above(f, x, n) + {n} else Above(f, x, n)
    ensures IdsAbove(f, g, x, n + 1) == if f[n] > x then IdsAbove(f, g, x, n) + {g[n]} else IdsAbove(f, g, x, n)
    ensures n !in Above(f, x, n) && g[n] !in IdsAbove(f, g, x, n)
  {
  }

  lemma EndsAreEnds(f: seq<real>, g: seq<Bytes>, m: map<Bytes, real>, low: real, high: real)
    requires Pairs(f, g, m) && Ends(f, low, high)
    ensures IsLow(m, low) && IsHigh(m, high)
  {
    var l :| 0 <= l < |f| && f[l] == low;
    var h :| 0 <= h < |f| && f[h] == high;
    assert m[g[l]] == low && m[g[h]] == high;
    forall id | id in m ensures low <= m[id] <= high {
      assert id in g;
      var k :| 0 <= k < |g| && g[k] == id;
    }
  }

  /** What a column's component gives a row is what the list contributes to its candidate. */
  lemma ComponentContributes(fusion: Fusion, ids: seq<Bytes>, raw: seq<real>, present: seq<bool>, m: map<Bytes, real>, row: nat, c: real)
    requires Column(ids, raw, present, m) && NoRepeat(ids) && row < |ids|
    requires if present[row] then Scaled(fusion, Found(raw, present), raw[row], c) else c == 0.0
    ensures Contributes(fusion, m, ids[row], c)
  {
    hide Between, Reciprocal, Greater, Higher, Ends, IsLow, IsHigh, Pairs;
    if present[row] {
      var f, g := Found(raw, present), FoundIds(ids, present);
      FoundPairs(ids, raw, present, m);
      match fusion
      case Rrf => GreaterIsHigher(f, g, m, raw[row]);
      case Linear =>
        var low, high :| Ends(f, low, high) && c == Between(low, high, raw[row]);
        EndsAreEnds(f, g, m, low, high);
    }
  }

  // ------------------------------------------------------------------
  // The fused ranking

  lemma BeforeTotal(a: Hit, b: Hit)
    requires a.id != b.id
    ensures Before(a, b) || Before(b, a)
  {
    LexTotal(a.id, b.id);
  }

  lemma BeforeTransitive(a: Hit, b: Hit, c: Hit)
    requires Before(a, b) && Before(b, c)
    ensures Before(a, c)
  {
    if a.score == b.score == c.score { LexTransitive(a.id, b.id, c.id); }
  }

  method Place(hits: seq<Hit>, h: Hit) returns (sorted: seq<Hit>)
    requires Sorted(hits) && forall x | x in hits :: x.id != h.id
    ensures Sorted(sorted) && |sorted| == |hits| + 1
    ensures forall x :: x in sorted <==> x in hits || x == h
  {
    hide Before;
    var at := 0;
    while at < |hits| && Before(hits[at], h)
      invariant 0 <= at <= |hits|
      invariant forall i | 0 <= i < at :: Before(hits[i], h)
    {
      at := at + 1;
    }
    sorted := hits[..at] + [h] + hits[at..];
    forall i | at <= i < |hits| ensures Before(h, hits[i]) {
      assert hits[at] in hits;
      BeforeTotal(h, hits[at]);
      if at < i { BeforeTransitive(h, hits[at], hits[i]); }
    }
    forall i, j | 0 <= i < j < |sorted| ensures Before(sorted[i], sorted[j]) {
      var i' := if i < at then i else i - 1;
      var j' := if j < at then j else j - 1;
      assert i != at ==> sorted[i] == hits[i'];
      assert j != at ==> sorted[j] == hits[j'];
    }
    assert hits == hits[..at] + hits[at..];
  }

  method SortHits(hits: seq<Hit>) returns (sorted: seq<Hit>)
    requires forall i, j | 0 <= i < j < |hits| :: hits[i].id != hits[j].id
    ensures Sorted(sorted) && |sorted| == |hits| && forall h :: h in sorted <==> h in hits
  {
    hide Before;
    sorted := [];
    for i := 0 to |hits|
      invariant Sorted(sorted) && |sorted| == i && forall h :: h in sorted <==> h in hits[..i]
    {
      assert hits[..i + 1] == hits[..i] + [hits[i]];
      forall x | x in sorted ensures x.id != hits[i].id {
        var k :| 0 <= k < i && hits[..i][k] == x;
      }
      sorted := Place(sorted, hits[i]);
    }
    assert hits[..|hits|] == hits;
  }

  lemma RowShape(r: Rows, kw: map<Bytes, real>, vc: map<Bytes, real>)
    requires RowsOk(r, kw, vc)
    ensures |r.kw| == |r.vc| == |r.hadKw| == |r.hadVc| == |r.ids|
    ensures forall i | 0 <= i < |r.ids| :: r.kw[i] == ScoreIn(kw, r.ids[i]) && r.vc[i] == ScoreIn(vc, r.ids[i])
  {
  }

  ghost predicate AmongFirst(ids: seq<Bytes>, n: nat, id: Bytes)
    requires n <= |ids|
  {
    exists k | 0 <= k < n :: ids[k] == id
  }

  /** `hits` are of the first `n` ids that have a record, one each. */
  ghost predicate Gathered(hits: seq<Hit>, ids: seq<Bytes>, n: nat, records: map<Bytes, Mem.Record>)
    requires n <= |ids|
  {
    && (forall i | 0 <= i < |hits| :: AmongFirst(ids, n, hits[i].id))
    && (forall i, j | 0 <= i < j < |hits| :: hits[i].id != hits[j].id)
    && (forall k | 0 <= k < n && ids[k] in records :: exists i | 0 <= i < |hits| :: hits[i].id == ids[k])
  }

  lemma GatheredMore(hits: seq<Hit>, ids: seq<Bytes>, n: nat, records: map<Bytes, Mem.Record>, h: Hit)
    requires n < |ids| && Gathered(hits, ids, n, records) && NoRepeat(ids) && h.id == ids[n]
    ensures Gathered(hits + [h], ids, n + 1, records)
  {
    var more := hits + [h];
    forall i | 0 <= i < |more| ensures AmongFirst(ids, n + 1, more[i].id) && (i < |hits| ==> more[i].id != h.id) {
      if i < |hits| {
        assert AmongFirst(ids, n, hits[i].id);
        var k :| 0 <= k < n && ids[k] == hits[i].id;
        assert ids[k] == more[i].id;
      } else {
        assert ids[n] == more[i].id;
      }
    }
    forall k | 0 <= k < n + 1 && ids[k] in records ensures exists i | 0 <= i < |more| :: more[i].id == ids[k] {
      if k < n {
        var i :| 0 <= i < |hits| && hits[i].id == ids[k];
        assert more[i].id == ids[k];
      } else {
        assert more[|hits|].id == ids[k];
      }
    }
  }

  lemma GatheredSkip(hits: seq<Hit>, ids: seq<Bytes>, n: nat, records: map<Bytes, Mem.Record>)
    requires n < |ids| && Gathered(hits, ids, n, records) && ids[n] !in records
    ensures Gathered(hits, ids, n + 1, records)
  {
  }

  /** The hit of one row. */
  method HitOf(s: Setting, r: Rows, row: nat, keywordPart: real, vectorPart: real, ghost kw: map<Bytes, real>, ghost vc: map<Bytes, real>)
    returns (h: Hit)
    requires RowsOk(r, kw, vc) && row < |r.ids| && r.ids[row] in s.records && (r.ids[row] in kw || r.ids[row] in vc)
    requires Contributes(s.fusion, kw, r.ids[row], keywordPart) && Contributes(s.fusion, vc, r.ids[row], vectorPart)
    ensures h.id == r.ids[row] && IsHit(s, kw, vc, h)
  {
    hide Contributes, Recency, Sum, RowsOk;
    RowShape(r, kw, vc);
    var record := s.records[r.ids[row]];
    var recency := Recency(s.halve, record.updatedAt, s.now, s.halfLife);
    var score := Sum(s.weights, keywordPart, vectorPart, recency, Mem.Clamp(record.importance));
    h := Hit(r.ids[row], score, r.kw[row], r.vc[row], recency);
  }

  /** Fuses a keyword ranking and a vector ranking. */
  method Fuse(keyword: seq<TI.Hit>, vector: seq<TI.Hit>, s: Setting) returns (hits: seq<Hit>)
    ensures Fuses(hits, s, LastScores(keyword), LastScores(vector))
  {
    hide Before, LastScores, Contributes, Scaled, Recency, Sum, Column, NoRepeat, Found, IsHit, Gathered;
    ghost var kw, vc := LastScores(keyword), LastScores(vector);
    var r := GatherRows(keyword, vector);
    RowShape(r, kw, vc);
    var keywordPart := Component(r.kw, r.hadKw, s.fusion);
    var vectorPart := Component(r.vc, r.hadVc, s.fusion);
    hits := [];
    assert Gathered([], r.ids, 0, s.records) by { NothingGathered(r.ids, s.records); }
    for row := 0 to |r.ids|
      invariant forall h | h in hits :: IsHit(s, kw, vc, h)
      invariant Gathered(hits, r.ids, row, s.records)
    {
      assert r.ids[row] in r.ids;
      if r.ids[row] in s.records {
        ComponentContributes(s.fusion, r.ids, r.kw, r.hadKw, kw, row, keywordPart[row]);
        ComponentContributes(s.fusion, r.ids, r.vc, r.hadVc, vc, row, vectorPart[row]);
        var h := HitOf(s, r, row, keywordPart[row], vectorPart[row], kw, vc);
        GatheredMore(hits, r.ids, row, s.records, h);
        hits := hits + [h];
      } else {
        GatheredSkip(hits, r.ids, row, s.records);
      }
    }
    GatheredIds(hits, r.ids, s.records);
    ghost var all := hits;
    hits := SortHits(hits);
    forall id | (id in kw || id in vc) && id in s.records ensures exists i | 0 <= i < |hits| :: hits[i].id == id {
      assert id in r.ids;
      var i :| 0 <= i < |all| && all[i].id == id;
      assert all[i] in hits;
    }
  }

  lemma NothingGathered(ids: seq<Bytes>, records: map<Bytes, Mem.Record>)
    ensures Gathered([], ids, 0, records)
  {
  }

  lemma GatheredIds(hits: seq<Hit>, ids: seq<Bytes>, records: map<Bytes, Mem.Record>)
    requires Gathered(hits, ids, |ids|, records)
    ensures forall i, j | 0 <= i < j < |hits| :: hits[i].id != hits[j].id
    ensures forall id | id in ids && id in records :: exists i | 0 <= i < |hits| :: hits[i].id == id
  {
  }

  // ------------------------------------------------------------------
  // The query itself

  /** What a query is given besides its text and its vector. */
  datatype Query = Query(text: Option<Bytes>, vector: Option<seq<real>>, limit: nat, filter: Mem.Record -> bool, maxScan: nat)

  /** The memory indexes text, if the query has one. */
  predicate TextFits(memory: Mem.Memory, q: Query) {
    q.text.Some? ==> memory.mode != Mem.VectorMode
  }

  /** Asks the keyword index if the query has a text and the vector array if it has a vector, and fuses
      what they say: BM25's best and the nearest neighbours. A query is refused for its text first, then
      for its vector, and otherwise answered. */
  method RunQuery(memory: Mem.Memory, q: Query, maxTerms: nat, ln: real -> real, similarity: (seq<real>, seq<real>) -> real, weights: Weights, fusion: Fusion, halve: real -> real, halfLife: int, now: int)
    returns (r: Mem.Result<seq<Hit>>, ghost keyword: seq<TI.Hit>, ghost vector: seq<TI.Hit>)
    requires memory.Sound()
    ensures r == Mem.Failed(Mem.TextNotSupported) <==> q.text.Some? && memory.mode == Mem.VectorMode
    ensures r == Mem.Failed(Mem.VectorsNotSupported) <==> TextFits(memory, q) && q.vector.Some? && memory.mode == Mem.SearchMode
    ensures r == Mem.Failed(Mem.WrongDimension) <==>
              TextFits(memory, q) && q.vector.Some? && Mem.StoresVectors(memory.mode) && |q.vector.value| != memory.vectors.dim
    ensures r == Mem.Failed(Mem.TooLargeToScan) <==>
              && TextFits(memory, q) && q.vector.Some? && Mem.StoresVectors(memory.mode) && |q.vector.value| == memory.vectors.dim
              && memory.vectors.live > q.maxScan
    ensures r.Done? <==>
              && TextFits(memory, q)
              && (q.vector.Some? ==>
                    Mem.StoresVectors(memory.mode) && |q.vector.value| == memory.vectors.dim && memory.vectors.live <= q.maxScan)
    ensures r.Done? ==> Fuses(r.value, Setting(memory.records, weights, fusion, halve, halfLife, now), LastScores(keyword), LastScores(vector))
    ensures memory.Tight() ==> memory.vectors.live == |memory.last|
    ensures r.Done? && q.text.Some? ==>
              TI.TopOf(keyword, TI.IndexScores(ln, memory.text.postings, memory.text.docLen, memory.text.totalLen, TI.Tokens(q.text.value, maxTerms),
                                               Mem.Keeps(memory.records, q.filter)), q.limit)
    ensures r.Done? && q.text.Some? && memory.text.Valid() ==>
              TI.TopOf(keyword, TI.Scores(ln, Mem.TextsOf(memory.records, memory.caps), TI.Tokens(q.text.value, maxTerms), Mem.Keeps(memory.records, q.filter)), q.limit)
    ensures r.Done? && q.vector.Some? ==>
              TI.TopOf(vector, Mem.Similarities(memory.records, memory.last, q.filter, x => similarity(x, q.vector.value)), q.limit)
    ensures r.Done? ==> (q.text.None? ==> keyword == []) && (q.vector.None? ==> vector == [])
  {
    hide Fuses, LastScores, TI.TopOf, TI.Scores, TI.Tokens, Mem.TextsOf, Mem.Keeps, Mem.Similarities, Mem.Memory.Sound, TI.TextIndex.Valid, TI.IndexScores, Mem.Memory.Tight;
    memory.LiveIsTheRecordsWithVectors();
    keyword, vector := [], [];
    var words: seq<TI.Hit> := [];
    if q.text.Some? {
      var found := memory.SearchText(ln, q.text.value, q.limit, q.filter, maxTerms);
      if found.Failed? { return Mem.Failed(found.error), [], []; }
      words := found.value;
    }
    var near: seq<TI.Hit> := [];
    if q.vector.Some? {
      var target := q.vector.value;
      var found := memory.SearchVector(x => similarity(x, target), |target|, q.limit, q.filter, q.maxScan);
      if found.Failed? { return Mem.Failed(found.error), [], []; }
      near := found.value;
    }
    keyword, vector := words, near;
    var hits := Fuse(words, near, Setting(memory.records, weights, fusion, halve, halfLife, now));
    r := Mem.Done(hits);
  }
}
