/** Keyword retrieval: the tokenizer, the inverted index and BM25. */
module TextIndexes {
  import opened ByteStrings

  // ------------------------------------------------------------------
  // Tokenizing

  const STOPWORDS: seq<string> := [
    "a", "an", "and", "are", "as", "at", "be", "but", "by", "for", "from", "had", "has", "have",
    "he", "her", "his", "in", "is", "it", "its", "of", "on", "or", "she", "that", "the", "their",
    "them", "then", "there", "these", "they", "this", "to", "was", "were", "with"
  ]

  predicate IsStopword(term: Bytes) {
    exists i | 0 <= i < |STOPWORDS| :: Ascii(STOPWORDS[i]) == term
  }

  /** ASCII letters and digits, the underscore, and every byte of a longer UTF-8 sequence. */
  predicate IsWordByte(b: Byte) {
    48 <= b <= 57 || 65 <= b <= 90 || 97 <= b <= 122 || b == 95 || b >= 0x80
  }

  function LowerByte(b: Byte): Byte {
    if 65 <= b <= 90 then b + 32 else b
  }

  predicate Survives(term: Bytes) {
    |term| > 1 && !IsStopword(term)
  }

  function Pushed(terms: seq<Bytes>, current: Bytes): seq<Bytes> {
    if Survives(current) then terms + [current] else terms
  }

  /** The rest of a text, given the terms so far and the word being spelled. */
  function TokensFrom(text: Bytes, terms: seq<Bytes>, current: Bytes, maxTerms: nat): seq<Bytes> {
    if text == [] then Pushed(terms, current)
    else if IsWordByte(text[0]) then TokensFrom(text[1..], terms, current + [LowerByte(text[0])], maxTerms)
    else
      var next := Pushed(terms, current);
      if |next| >= maxTerms then next else TokensFrom(text[1..], next, [], maxTerms)
  }

  function Tokens(text: Bytes, maxTerms: nat): seq<Bytes> {
    TokensFrom(text, [], [], maxTerms)
  }

  method PushTerm(terms: seq<Bytes>, current: Bytes, maxTerms: nat) returns (after: seq<Bytes>, full: bool)
    ensures after == Pushed(terms, current) && full == (|after| >= maxTerms)
  {
    after := terms;
    if |current| > 1 && !IsStopword(current) { after := after + [current]; }
    full := |after| >= maxTerms;
  }

  method Tokenize(text: Bytes, maxTerms: nat) returns (terms: seq<Bytes>)
    ensures terms == Tokens(text, maxTerms)
  {
    hide IsStopword;
    terms := [];
    var current: Bytes := [];
    for i := 0 to |text|
      invariant TokensFrom(text[i..], terms, current, maxTerms) == Tokens(text, maxTerms)
    {
      assert text[i..][0] == text[i] && text[i..][1..] == text[i + 1..];
      if IsWordByte(text[i]) {
        current := current + [LowerByte(text[i])];
        continue;
      }
      var full;
      terms, full := PushTerm(terms, current, maxTerms);
      current := [];
      if full { return; }
    }
    assert text[|text|..] == [];
    var full;
    terms, full := PushTerm(terms, current, maxTerms);
  }

  /** Terms already found are never taken back. */
  lemma {:induction false} TokensExtend(text: Bytes, terms: seq<Bytes>, current: Bytes, maxTerms: nat)
    ensures terms <= TokensFrom(text, terms, current, maxTerms)
    decreases |text|
  {
    hide IsStopword;
    if text != [] {
      if IsWordByte(text[0]) {
        TokensExtend(text[1..], terms, current + [LowerByte(text[0])], maxTerms);
      } else if |Pushed(terms, current)| < maxTerms {
        TokensExtend(text[1..], Pushed(terms, current), [], maxTerms);
      }
    }
  }

  /** A smaller cap keeps a beginning of what a larger one would. */
  lemma {:induction false} SmallerCapIsPrefix(text: Bytes, terms: seq<Bytes>, current: Bytes, small: nat, large: nat)
    requires small <= large
    ensures TokensFrom(text, terms, current, small) <= TokensFrom(text, terms, current, large)
    decreases |text|
  {
    hide IsStopword;
    if text != [] {
      if IsWordByte(text[0]) {
        SmallerCapIsPrefix(text[1..], terms, current + [LowerByte(text[0])], small, large);
      } else {
        var next := Pushed(terms, current);
        if |next| < small {
          SmallerCapIsPrefix(text[1..], next, [], small, large);
        } else if |next| < large {
          TokensExtend(text[1..], next, [], large);
        }
      }
    }
  }

  /** The cap holds, but for a text of one word under a cap of zero, whose word gets through. */
  lemma {:induction false} CapHolds(text: Bytes, terms: seq<Bytes>, current: Bytes, maxTerms: nat)
    requires |terms| < maxTerms || (maxTerms == 0 && terms == [])
    ensures |TokensFrom(text, terms, current, maxTerms)| <= (if maxTerms == 0 then 1 else maxTerms)
    decreases |text|
  {
    hide IsStopword;
    if text != [] {
      if IsWordByte(text[0]) {
        CapHolds(text[1..], terms, current + [LowerByte(text[0])], maxTerms);
      } else if |Pushed(terms, current)| < maxTerms {
        CapHolds(text[1..], Pushed(terms, current), [], maxTerms);
      }
    }
  }

  /** Two caps index a text alike exactly when the smaller one does not cut it. */
  lemma CapsAgree(text: Bytes, small: nat, large: nat)
    requires 1 <= small <= large
    ensures Tokens(text, small) == Tokens(text, large) <==> |Tokens(text, large)| <= small
  {
    CapHolds(text, [], [], small);
    if |Tokens(text, large)| <= small { Uncut(text, [], [], small, large); }
  }

  lemma {:induction false} Uncut(text: Bytes, terms: seq<Bytes>, current: Bytes, small: nat, large: nat)
    requires |terms| < small <= large && |TokensFrom(text, terms, current, large)| <= small
    ensures TokensFrom(text, terms, current, small) == TokensFrom(text, terms, current, large)
    decreases |text|
  {
    hide IsStopword;
    if text != [] {
      if IsWordByte(text[0]) {
        Uncut(text[1..], terms, current + [LowerByte(text[0])], small, large);
      } else {
        var next := Pushed(terms, current);
        if |next| < small {
          Uncut(text[1..], next, [], small, large);
        } else if |next| < large {
          TokensExtend(text[1..], next, [], large);
        }
      }
    }
  }

  // ------------------------------------------------------------------
  // Sums over maps

  ghost function Total(m: map<Bytes, nat>): nat
    decreases |m|
  {
    if m == map[] then 0
    else
      var k :| k in m;
      m[k] + Total(m - {k})
  }

  lemma {:induction false} TotalAt(m: map<Bytes, nat>, key: Bytes)
    requires key in m
    ensures Total(m) == m[key] + Total(m - {key})
    decreases |m|
  {
    var k :| k in m && Total(m) == m[k] + Total(m - {k});
    if k != key {
      TotalAt(m - {k}, key);
      TotalAt(m - {key}, k);
      assert m - {k} - {key} == m - {key} - {k};
    }
  }

  lemma TotalPut(m: map<Bytes, nat>, key: Bytes, n: nat)
    ensures Total(m[key := n]) + (if key in m then m[key] else 0) == Total(m) + n
  {
    TotalAt(m[key := n], key);
    assert m[key := n] - {key} == m - {key};
    if key in m { TotalAt(m, key); } else { assert m - {key} == m; }
  }

  // ------------------------------------------------------------------
  // Term counts

  /** A document as term counts, each positive. */
  type Bag = map<Bytes, nat>

  function Tf(terms: seq<Bytes>, term: Bytes): nat {
    multiset(terms)[term]
  }

  function BagOf(terms: seq<Bytes>): Bag {
    map t | t in terms :: Tf(terms, t)
  }

  lemma BagAppend(terms: seq<Bytes>, t: Bytes)
    ensures BagOf(terms + [t]) == BagOf(terms)[t := (if t in BagOf(terms) then BagOf(terms)[t] else 0) + 1]
  {
    assert t !in terms ==> Tf(terms, t) == 0;
  }

  /** One pair a distinct term, in no particular order. */
  predicate ListsBag(pairs: seq<(Bytes, nat)>, bag: Bag) {
    && (forall i, j | 0 <= i < j < |pairs| :: pairs[i].0 != pairs[j].0)
    && (forall i | 0 <= i < |pairs| :: pairs[i].0 in bag && pairs[i].1 == bag[pairs[i].0])
    && (forall t | t in bag :: (t, bag[t]) in pairs)
  }

  function SumTf(pairs: seq<(Bytes, nat)>): nat {
    if pairs == [] then 0 else SumTf(pairs[..|pairs| - 1]) + pairs[|pairs| - 1].1
  }

  /** One pair for each distinct term, with how often it occurs; the counts add up to the length. */
  method TermFrequencies(terms: seq<Bytes>) returns (pairs: seq<(Bytes, nat)>)
    ensures ListsBag(pairs, BagOf(terms)) && SumTf(pairs) == |terms|
  {
    var counts: Bag := map[];
    for i := 0 to |terms|
      invariant counts == BagOf(terms[..i]) && Total(counts) == i
    {
      BagAppend(terms[..i], terms[i]);
      assert terms[..i + 1] == terms[..i] + [terms[i]];
      var n := (if terms[i] in counts then counts[terms[i]] else 0) + 1;
      TotalPut(counts, terms[i], n);
      counts := counts[terms[i] := n];
    }
    assert terms[..|terms|] == terms;
    pairs := Listing(counts);
  }

  method Listing(counts: Bag) returns (pairs: seq<(Bytes, nat)>)
    ensures ListsBag(pairs, counts) && SumTf(pairs) == Total(counts)
  {
    hide ListsBag, Total, SumTf, Except;
    pairs := [];
    var left := counts.Keys;
    ListsNothing();
    ExceptLaw(counts, left);
    while left != {}
      invariant left <= counts.Keys
      invariant ListsBag(pairs, Except(counts, left)) && SumTf(pairs) == Total(Except(counts, left))
      decreases left
    {
      var t :| t in left;
      ghost var done := Except(counts, left);
      ExceptStep(counts, left, t);
      ListsAppend(pairs, done, t, counts[t]);
      TotalPut(done, t, counts[t]);
      pairs := pairs + [(t, counts[t])];
      left := left - {t};
    }
    ExceptLaw(counts, {});
  }

  function Except(counts: Bag, left: set<Bytes>): Bag {
    map t | t in counts && t !in left :: counts[t]
  }

  lemma ExceptLaw(counts: Bag, left: set<Bytes>)
    ensures Except(counts, {}) == counts
    ensures left == counts.Keys ==> Except(counts, left) == map[]
  {
  }

  lemma ExceptStep(counts: Bag, left: set<Bytes>, t: Bytes)
    requires t in left && t in counts
    ensures t !in Except(counts, left)
    ensures Except(counts, left - {t}) == WithTerm(Except(counts, left), t, counts[t])
    ensures WithTerm(Except(counts, left), t, counts[t]) == Except(counts, left)[t := counts[t]]
  {
  }

  lemma ListsNothing()
    ensures ListsBag([], map[]) && SumTf([]) == 0 && Total(map[]) == 0
  {
  }

  lemma ListsAppend(pairs: seq<(Bytes, nat)>, bag: Bag, t: Bytes, n: nat)
    requires ListsBag(pairs, bag) && t !in bag
    ensures ListsBag(pairs + [(t, n)], WithTerm(bag, t, n)) && SumTf(pairs + [(t, n)]) == SumTf(pairs) + n
  {
    var more, after := pairs + [(t, n)], WithTerm(bag, t, n);
    assert more[..|more| - 1] == pairs && more[|pairs|] == (t, n);
    forall u | u in after ensures (u, after[u]) in more {
      if u != t { assert (u, bag[u]) in pairs; }
    }
  }

  function WithTerm(bag: Bag, term: Bytes, n: nat): Bag {
    bag[term := n]
  }

  // ------------------------------------------------------------------
  // The inverted index

  datatype Posting = Posting(id: Bytes, tf: nat)

  predicate DistinctIds(list: seq<Posting>) {
    forall i, j | 0 <= i < j < |list| :: list[i].id != list[j].id
  }

  /** A posting list names, once each, exactly the documents that hold the term, with their counts. */
  ghost predicate PostingsOk(list: seq<Posting>, bags: map<Bytes, Bag>, term: Bytes) {
    && list != []
    && DistinctIds(list)
    && (forall p | p in list :: p.id in bags && term in bags[p.id] && p.tf == bags[p.id][term])
    && (forall id | id in bags && term in bags[id] :: Posting(id, bags[id][term]) in list)
  }

  /** The postings are exactly those of the documents, with no empty list. */
  ghost predicate Agrees(postings: map<Bytes, seq<Posting>>, bags: map<Bytes, Bag>) {
    && (forall term | term in postings :: PostingsOk(postings[term], bags, term))
    && (forall id, term | id in bags && term in bags[id] :: term in postings)
  }

  function Retain(list: seq<Posting>, id: Bytes): (r: seq<Posting>)
    ensures forall p :: p in r <==> p in list && p.id != id
  {
    if list == [] then []
    else (if list[0].id != id then [list[0]] else []) + Retain(list[1..], id)
  }

  lemma {:induction false} RetainDistinct(list: seq<Posting>, id: Bytes)
    requires DistinctIds(list)
    ensures DistinctIds(Retain(list, id))
  {
    if list != [] {
      assert forall i | 0 <= i < |list[1..]| :: list[1..][i] == list[i + 1];
      RetainDistinct(list[1..], id);
      var r := Retain(list[1..], id);
      forall i | 0 <= i < |r| ensures r[i].id != list[0].id {
        assert r[i] in list[1..];
        var j :| 0 <= j < |list[1..]| && list[1..][j] == r[i];
        assert list[j + 1] == r[i];
      }
      assert forall i | 0 < i < |[list[0]] + r| :: ([list[0]] + r)[i] == r[i - 1];
    }
  }

  /** The postings without a document's under these terms; a list that empties goes. */
  function Stripped(postings: map<Bytes, seq<Posting>>, id: Bytes, terms: set<Bytes>): map<Bytes, seq<Posting>> {
    map t | t in postings && (t in terms ==> Retain(postings[t], id) != []) ::
      if t in terms then Retain(postings[t], id) else postings[t]
  }

  lemma StrippedNothing(postings: map<Bytes, seq<Posting>>, id: Bytes)
    ensures Stripped(postings, id, {}) == postings
  {
  }

  lemma StrippedMore(postings: map<Bytes, seq<Posting>>, id: Bytes, terms: set<Bytes>, t: Bytes)
    requires t !in terms
    ensures var s := Stripped(postings, id, terms);
            Stripped(postings, id, terms + {t})
            == if t !in s then s
               else if Retain(s[t], id) == [] then s - {t}
               else s[t := Retain(s[t], id)]
  {
  }

  /** The postings with a document's counts added behind. */
  function Extended(postings: map<Bytes, seq<Posting>>, id: Bytes, bag: Bag): map<Bytes, seq<Posting>> {
    map t | t in postings.Keys + bag.Keys ::
      (if t in postings then postings[t] else []) + (if t in bag then [Posting(id, bag[t])] else [])
  }

  lemma ExtendedNothing(postings: map<Bytes, seq<Posting>>, id: Bytes)
    ensures Extended(postings, id, map[]) == postings
  {
    assert forall t | t in postings :: postings[t] + [] == postings[t];
  }

  lemma ExtendedMore(postings: map<Bytes, seq<Posting>>, id: Bytes, bag: Bag, t: Bytes, n: nat)
    requires t !in bag
    ensures var e := Extended(postings, id, bag);
            Extended(postings, id, bag[t := n]) == e[t := (if t in e then e[t] else []) + [Posting(id, n)]]
  {
    assert t in postings ==> postings[t] + [] == postings[t];
    assert [] + [Posting(id, n)] == [Posting(id, n)];
  }

  /** Some posting is of a document that is not there. */
  ghost predicate Leftover(postings: map<Bytes, seq<Posting>>, ids: set<Bytes>) {
    exists t, p | t in postings && p in postings[t] :: p.id !in ids
  }

  lemma LeftoverDisagrees(postings: map<Bytes, seq<Posting>>, bags: map<Bytes, Bag>)
    requires Leftover(postings, bags.Keys)
    ensures !Agrees(postings, bags)
  {
    var t, p :| t in postings && p in postings[t] && p.id !in bags.Keys;
    assert !PostingsOk(postings[t], bags, t);
  }

  /** Taking another document out does not clear up what one left behind. */
  lemma LeftoverStays(postings: map<Bytes, seq<Posting>>, ids: set<Bytes>, id: Bytes, terms: set<Bytes>)
    requires Leftover(postings, ids) && id in ids
    ensures Leftover(Stripped(postings, id, terms), ids - {id})
  {
    var t, p :| t in postings && p in postings[t] && p.id !in ids;
    var s := Stripped(postings, id, terms);
    assert p in Retain(postings[t], id);
    assert t in s && p in s[t] && p.id !in ids - {id};
  }

  lemma StrippedTerm(list: seq<Posting>, bags: map<Bytes, Bag>, id: Bytes, term: Bytes)
    requires PostingsOk(list, bags, term)
    ensures var left := Retain(list, id);
            && (left != [] ==> PostingsOk(left, bags - {id}, term))
            && (left == [] ==> forall other | other in bags - {id} :: term !in bags[other])
    ensures id in bags && term !in bags[id] ==> PostingsOk(list, bags - {id}, term)
  {
    var left := Retain(list, id);
    RetainDistinct(list, id);
    forall other | other in bags - {id} && term in bags[other] ensures Posting(other, bags[other][term]) in left {
      assert Posting(other, bags[other][term]) in list;
    }
  }

  /** Stripping a document of terms that include all its own leaves exactly the other documents. */
  lemma StrippedAgrees(postings: map<Bytes, seq<Posting>>, bags: map<Bytes, Bag>, id: Bytes, terms: set<Bytes>)
    requires Agrees(postings, bags) && id in bags && bags[id].Keys <= terms
    ensures Agrees(Stripped(postings, id, terms), bags - {id})
  {
    var s := Stripped(postings, id, terms);
    forall t | t in postings
      ensures t in s ==> PostingsOk(s[t], bags - {id}, t)
      ensures t !in s ==> forall other | other in bags - {id} :: t !in bags[other]
    {
      assert PostingsOk(postings[t], bags, t);
      StrippedTerm(postings[t], bags, id, t);
    }
    hide PostingsOk;
  }

  /** Stripping it of fewer leaves one of its postings behind. */
  lemma StrippedLeaves(postings: map<Bytes, seq<Posting>>, bags: map<Bytes, Bag>, id: Bytes, terms: set<Bytes>)
    requires Agrees(postings, bags) && id in bags && !(bags[id].Keys <= terms)
    ensures exists t | t in Stripped(postings, id, terms) :: exists p | p in Stripped(postings, id, terms)[t] :: p.id == id
    ensures Leftover(Stripped(postings, id, terms), (bags - {id}).Keys)
  {
    var t :| t in bags[id] && t !in terms;
    assert PostingsOk(postings[t], bags, t);
    var s, p := Stripped(postings, id, terms), Posting(id, bags[id][t]);
    assert t in s && p in s[t] && p.id !in (bags - {id}).Keys;
  }

  lemma ExtendedTerm(list: seq<Posting>, bags: map<Bytes, Bag>, id: Bytes, term: Bytes, bag: Bag)
    requires id !in bags && (term in bag || list != [])
    requires if list != [] then PostingsOk(list, bags, term) else forall other | other in bags :: term !in bags[other]
    ensures PostingsOk(list + (if term in bag then [Posting(id, bag[term])] else []), bags[id := bag], term)
  {
    var more, after := list + (if term in bag then [Posting(id, bag[term])] else []), bags[id := bag];
    forall i | 0 <= i < |list| ensures list[i].id != id {
      assert list[i] in list;
    }
    forall other | other in after && term in after[other] ensures Posting(other, after[other][term]) in more {
      if other == id { assert more[|list|] == Posting(id, bag[term]); } else { assert Posting(other, bags[other][term]) in list; }
    }
  }

  /** Adding a document that is not there yet. */
  lemma ExtendedAgrees(postings: map<Bytes, seq<Posting>>, bags: map<Bytes, Bag>, id: Bytes, bag: Bag)
    requires Agrees(postings, bags) && id !in bags
    ensures Agrees(Extended(postings, id, bag), bags[id := bag])
  {
    var e := Extended(postings, id, bag);
    forall t | t in e ensures PostingsOk(e[t], bags[id := bag], t) {
      var list := if t in postings then postings[t] else [];
      assert t in postings ==> PostingsOk(list, bags, t);
      ExtendedTerm(list, bags, id, t, bag);
    }
    hide PostingsOk;
  }

  /** Adding a document some posting of which is there already never comes out right. */
  lemma ExtendedClashes(postings: map<Bytes, seq<Posting>>, bags: map<Bytes, Bag>, id: Bytes, bag: Bag)
    requires exists t | t in postings :: exists p | p in postings[t] :: p.id == id
    requires id in bags && bags[id] == bag
    ensures !Agrees(Extended(postings, id, bag), bags)
  {
    var t :| t in postings && exists p | p in postings[t] :: p.id == id;
    var i :| 0 <= i < |postings[t]| && postings[t][i].id == id;
    var e := Extended(postings, id, bag);
    assert e[t][i] == postings[t][i] && e[t][i] in e[t];
    if t in bag {
      assert e[t][|postings[t]|] == Posting(id, bag[t]);
      assert !DistinctIds(e[t]);
    }
    assert !PostingsOk(e[t], bags, t);
  }

  /** Stripping a document of some terms and adding it again comes out right exactly when those terms
      were all it had. */
  lemma Reindexed(postings: map<Bytes, seq<Posting>>, bags: map<Bytes, Bag>, id: Bytes, terms: set<Bytes>, bag: Bag)
    requires Agrees(postings, bags) && id in bags
    ensures Agrees(Extended(Stripped(postings, id, terms), id, bag), bags[id := bag]) <==> bags[id].Keys <= terms
  {
    hide Agrees, Stripped, Extended, Leftover;
    if bags[id].Keys <= terms {
      StrippedAgrees(postings, bags, id, terms);
      ExtendedAgrees(Stripped(postings, id, terms), bags - {id}, id, bag);
      assert (bags - {id})[id := bag] == bags[id := bag];
    } else {
      StrippedLeaves(postings, bags, id, terms);
      ExtendedClashes(Stripped(postings, id, terms), bags[id := bag], id, bag);
    }
  }

  function BagsOf(docs: map<Bytes, seq<Bytes>>): map<Bytes, Bag> {
    map id | id in docs :: BagOf(docs[id])
  }

  function LengthsOf(docs: map<Bytes, seq<Bytes>>): map<Bytes, nat> {
    map id | id in docs :: |docs[id]|
  }

  // ------------------------------------------------------------------
  // BM25, straight from the stored documents

  const K1: real := 1.2
  const B: real := 0.75

  ghost function Average(docs: map<Bytes, seq<Bytes>>): real {
    if docs == map[] then 0.0 else Total(LengthsOf(docs)) as real / |docs| as real
  }

  function Holders(docs: map<Bytes, seq<Bytes>>, term: Bytes): set<Bytes> {
    set id | id in docs && term in docs[id]
  }

  /** Inverse document frequency: of `n` documents, `df` hold the term. */
  function Idf(ln: real -> real, n: nat, df: nat): real {
    ln(1.0 + (n as real - df as real + 0.5) / (df as real + 0.5))
  }

  lemma QuotientSign(x: real, y: real)
    requires x >= 0.0 && y > 0.0
    ensures x / y >= 0.0
  {
  }

  /** Term frequency, saturated and normalized by length. */
  function Saturated(tf: nat, length: nat, avg: real): real
    requires avg > 0.0
  {
    QuotientSign(B * length as real, avg);
    tf as real * (K1 + 1.0) / (tf as real + K1 * (1.0 - B + B * length as real / avg))
  }

  /** What one query term is worth to one document. */
  ghost function Worth(ln: real -> real, docs: map<Bytes, seq<Bytes>>, term: Bytes, id: Bytes): real {
    if id in docs && term in docs[id] && Average(docs) > 0.0 then
      Idf(ln, |docs|, |Holders(docs, term)|) * Saturated(Tf(docs[id], term), |docs[id]|, Average(docs))
    else 0.0
  }

  /** A document's score: the worth of every query term, a repeated term counting each time. */
  ghost function Score(ln: real -> real, docs: map<Bytes, seq<Bytes>>, query: seq<Bytes>, id: Bytes): real {
    if query == [] then 0.0
    else Score(ln, docs, query[..|query| - 1], id) + Worth(ln, docs, query[|query| - 1], id)
  }

  /** The eligible documents that share a term with the query. */
  ghost function Matches(docs: map<Bytes, seq<Bytes>>, query: seq<Bytes>, keep: Bytes -> bool): set<Bytes> {
    set id | id in docs && keep(id) && exists q | q in query :: q in docs[id]
  }

  ghost function Scores(ln: real -> real, docs: map<Bytes, seq<Bytes>>, query: seq<Bytes>, keep: Bytes -> bool): map<Bytes, real> {
    map id | id in Matches(docs, query, keep) :: Score(ln, docs, query, id)
  }

  // ------------------------------------------------------------------
  // The same, from the index as it stands

  function LengthIn(docLen: map<Bytes, nat>, id: Bytes): nat {
    if id in docLen then docLen[id] else 0
  }

  function MeanLength(docLen: map<Bytes, nat>, totalLen: nat): real {
    if docLen == map[] then 0.0 else totalLen as real / |docLen| as real
  }

  /** What a list's postings of one document weigh together. */
  function ListWeight(list: seq<Posting>, docLen: map<Bytes, nat>, avg: real, id: Bytes): real
    requires avg > 0.0
  {
    if list == [] then 0.0
    else
      var last := list[|list| - 1];
      ListWeight(list[..|list| - 1], docLen, avg, id) + if last.id == id then Saturated(last.tf, LengthIn(docLen, id), avg) else 0.0
  }

  function Gain(idf: real, list: seq<Posting>, docLen: map<Bytes, nat>, avg: real, id: Bytes): real
    requires avg > 0.0
  {
    idf * ListWeight(list, docLen, avg, id)
  }

  function IndexWorth(ln: real -> real, postings: map<Bytes, seq<Posting>>, docLen: map<Bytes, nat>, avg: real, term: Bytes, id: Bytes): real
    requires avg > 0.0
  {
    if term in postings then Gain(Idf(ln, |docLen|, |postings[term]|), postings[term], docLen, avg, id) else 0.0
  }

  function IndexScore(ln: real -> real, postings: map<Bytes, seq<Posting>>, docLen: map<Bytes, nat>, avg: real, query: seq<Bytes>, id: Bytes): real
    requires avg > 0.0
  {
    if query == [] then 0.0
    else
      IndexScore(ln, postings, docLen, avg, query[..|query| - 1], id)
      + IndexWorth(ln, postings, docLen, avg, query[|query| - 1], id)
  }

  /** The eligible documents a list of some query term names. */
  ghost function Found(postings: map<Bytes, seq<Posting>>, query: seq<Bytes>, keep: Bytes -> bool): set<Bytes> {
    set q, p | q in query && q in postings && p in postings[q] && keep(p.id) :: p.id
  }

  ghost function ScoresFound(ln: real -> real, postings: map<Bytes, seq<Posting>>, docLen: map<Bytes, nat>, avg: real, query: seq<Bytes>, keep: Bytes -> bool): map<Bytes, real>
    requires avg > 0.0
  {
    map id | id in Found(postings, query, keep) :: IndexScore(ln, postings, docLen, avg, query, id)
  }

  /** What the index makes of a query, exact or not: the documents its lists name, scored by its counts. */
  ghost function IndexScores(ln: real -> real, postings: map<Bytes, seq<Posting>>, docLen: map<Bytes, nat>, totalLen: nat, query: seq<Bytes>, keep: Bytes -> bool): map<Bytes, real> {
    var avg := MeanLength(docLen, totalLen);
    if avg > 0.0 then ScoresFound(ln, postings, docLen, avg, query, keep) else map[]
  }

  datatype Hit = Hit(id: Bytes, score: real)

  /** Better score first; ties break on the id. */
  predicate Before(a: Hit, b: Hit) {
    a.score > b.score || (a.score == b.score && LexLess(a.id, b.id))
  }

  ghost predicate Sorted(hits: seq<Hit>) {
    forall i, j | 0 <= i < j < |hits| :: Before(hits[i], hits[j])
  }

  /** `hits` is the whole of `scores`, best first. */
  ghost predicate Lists(hits: seq<Hit>, scores: map<Bytes, real>) {
    && Sorted(hits)
    && |hits| == |scores|
    && forall h :: h in hits <==> h.id in scores && scores[h.id] == h.score
  }

  /** `hits` is the first `limit` of `scores`, best first: as many as there are up to the limit, each
      with its score, in order, and everything left out comes after everything taken. */
  ghost predicate TopOf(hits: seq<Hit>, scores: map<Bytes, real>, limit: nat) {
    && Sorted(hits)
    && |hits| == (if |scores| < limit then |scores| else limit)
    && (forall h | h in hits :: h.id in scores && scores[h.id] == h.score)
    && (forall h, id | h in hits && id in scores && Hit(id, scores[id]) !in hits :: Before(h, Hit(id, scores[id])))
  }

  class TextIndex {
    var postings: map<Bytes, seq<Posting>>
    var docLen: map<Bytes, nat>
    var totalLen: nat
    /** The token lists indexed, by document. */
    ghost var docs: map<Bytes, seq<Bytes>>

    /** What any sequence of calls keeps: the documents are counted with their lengths, and those add up
        to no more than the total. */
    ghost predicate Sound()
      reads this
    {
      docLen == LengthsOf(docs) && Total(LengthsOf(docs)) <= totalLen
    }

    /** The index is exactly that of `docs`. */
    ghost predicate Valid()
      reads this
    {
      && Agrees(postings, BagsOf(docs))
      && docLen == LengthsOf(docs)
      && totalLen == Total(LengthsOf(docs))
    }

    /** A posting was left behind by a document that has gone. */
    ghost predicate HasLeftover()
      reads this
    {
      Leftover(postings, docs.Keys)
    }

    constructor ()
      ensures Valid() && docs == map[]
    {
      postings, docLen, totalLen, docs := map[], map[], 0, map[];
      assert LengthsOf(map[]) == map[];
    }

    lemma LeftoverInvalid()
      requires HasLeftover()
      ensures !Valid()
    {
      hide Agrees, Leftover;
      BagsKeys(docs);
      LeftoverDisagrees(postings, BagsOf(docs));
    }

    /** Indexes a document's new text, having un-indexed its previous one if that is given. An exact
        index stays exact just when that clears every term the document had: this call's cap may be lower
        than the one the terms were found under. */
    method Index(id: Bytes, previous: Option<Bytes>, text: Bytes, maxTerms: nat)
      requires Sound()
      modifies this
      ensures Sound() && docs == old(docs)[id := Tokens(text, maxTerms)]
      ensures postings == Extended(Stripped(old(postings), id, if id in old(docs) then Cleared(previous, maxTerms) else {}),
                                   id, BagOf(Tokens(text, maxTerms)))
      ensures totalLen == old(totalLen) + |Tokens(text, maxTerms)| - if previous.Some? && id in old(docs) then |old(docs)[id]| else 0
      ensures old(Valid()) ==> (Valid() <==> (id in old(docs) ==> TermsOf(old(docs)[id]) <= Cleared(previous, maxTerms)))
    {
      hide Tokens, Agrees, BagOf, ListsBag, LengthsOf, BagsOf, Extended, Stripped, Leftover;
      StrippedNothing(postings, id);
      ghost var cleared := if id in docs then Cleared(previous, maxTerms) else {};
      if previous.Some? { Remove(id, previous.value, maxTerms); }
      assert postings == Stripped(old(postings), id, cleared);
      ghost var docs1 := docs;
      var terms := Tokenize(text, maxTerms);
      var frequencies := TermFrequencies(terms);
      var length := AddPostings(id, frequencies, BagOf(terms));
      LengthPut(docs1, id, terms);
      docs := docs[id := terms];
      assert docs == old(docs)[id := terms];
      docLen := docLen[id := length];
      totalLen := totalLen + length;
      if old(Valid()) {
        ReindexedDocs(old(postings), old(docs), id, Cleared(previous, maxTerms), terms);
        if id in docs1 && TermsOf(docs1[id]) <= {} { NoTermsNoLength(docs1[id]); }
      }
    }

    method AddPostings(id: Bytes, frequencies: seq<(Bytes, nat)>, ghost bag: Bag) returns (length: nat)
      requires ListsBag(frequencies, bag)
      modifies this`postings
      ensures postings == Extended(old(postings), id, bag) && length == SumTf(frequencies)
    {
      hide Extended;
      length := 0;
      assert frequencies[..0] == [];
      ExtendedNothing(postings, id);
      for i := 0 to |frequencies|
        invariant postings == Extended(old(postings), id, Part(frequencies[..i]))
        invariant length == SumTf(frequencies[..i])
      {
        var (term, tf) := frequencies[i];
        PartAppend(frequencies, i);
        ExtendedMore(old(postings), id, Part(frequencies[..i]), term, tf);
        var list := if term in postings then postings[term] else [];
        postings := postings[term := list + [Posting(id, tf)]];
        length := length + tf;
        assert frequencies[..i + 1][..i] == frequencies[..i];
      }
      assert frequencies[..|frequencies|] == frequencies;
      PartIsBag(frequencies, bag);
    }

    /** Takes a document out, given its text. An exact index stays exact just when the terms this call's
        cap allows include every term the document had; else a posting stays behind. */
    method Remove(id: Bytes, text: Bytes, maxTerms: nat)
      requires Sound()
      modifies this
      ensures Sound() && docs == old(docs) - {id}
      ensures postings == Stripped(old(postings), id, if id in old(docs) then Cleared(Some(text), maxTerms) else {})
      ensures totalLen == old(totalLen) - if id in old(docs) then |old(docs)[id]| else 0
      ensures old(Valid()) ==> (Valid() <==> (id in old(docs) ==> TermsOf(old(docs)[id]) <= Cleared(Some(text), maxTerms)))
      ensures old(Valid()) && !Valid() ==> HasLeftover()
      ensures old(HasLeftover()) ==> HasLeftover()
    {
      hide Tokens, Agrees, BagOf, ListsBag, BagsOf, LengthsOf, Stripped, Leftover;
      StrippedNothing(postings, id);
      LengthsKeys(docs);
      if id !in docLen {
        assert docs - {id} == docs;
        return;
      }
      ghost var docs0, cleared := docs, Cleared(Some(text), maxTerms);
      TotalAt(LengthsOf(docs0), id);
      LengthsAt(docs0, id);
      totalLen := totalLen - docLen[id];
      docLen := docLen - {id};
      var terms := Tokenize(text, maxTerms);
      var frequencies := TermFrequencies(terms);
      RemovePostings(id, frequencies, BagOf(terms));
      docs := docs - {id};
      BagsDrop(docs0, id);
      BagKeys(terms);
      if old(Valid()) {
        BagsAt(docs0, id);
        if TermsOf(docs0[id]) <= cleared {
          StrippedAgrees(old(postings), BagsOf(docs0), id, cleared);
        } else {
          StrippedLeaves(old(postings), BagsOf(docs0), id, cleared);
          BagsKeys(docs);
          LeftoverInvalid();
        }
      }
      if old(HasLeftover()) { LeftoverStays(old(postings), docs0.Keys, id, cleared); }
      assert docs.Keys == docs0.Keys - {id};
    }

    method RemovePostings(id: Bytes, frequencies: seq<(Bytes, nat)>, ghost bag: Bag)
      requires ListsBag(frequencies, bag)
      modifies this`postings
      ensures postings == Stripped(old(postings), id, bag.Keys)
    {
      hide Stripped, Retain;
      PartIsBag(frequencies, bag);
      ListsDistinct(frequencies, bag);
      assert frequencies[..0] == [] && Part([]).Keys == {};
      StrippedNothing(postings, id);
      for i := 0 to |frequencies|
        invariant postings == Stripped(old(postings), id, Part(frequencies[..i]).Keys)
      {
        var term := frequencies[i].0;
        PartAppend(frequencies, i);
        StrippedMore(old(postings), id, Part(frequencies[..i]).Keys, term);
        assert Part(frequencies[..i + 1]).Keys == Part(frequencies[..i]).Keys + {term};
        if term in postings {
          var list := Retain(postings[term], id);
          postings := if list == [] then postings - {term} else postings[term := list];
        }
      }
      assert frequencies[..|frequencies|] == frequencies;
    }

    method AverageLength() returns (avg: real)
      ensures avg == MeanLength(docLen, totalLen) && avg >= 0.0
      ensures Valid() ==> avg == Average(docs)
    {
      assert LengthsOf(docs).Keys == docs.Keys;
      if docLen == map[] {
        assert Valid() ==> docs == map[];
        return 0.0;
      }
      QuotientSign(totalLen as real, |docLen| as real);
      if Valid() {
        SameSize(LengthsOf(docs), docs);
        assert docs != map[];
      }
      return totalLen as real / |docLen| as real;
    }

    method InverseFrequency(ln: real -> real, term: Bytes) returns (idf: real)
      ensures idf == Idf(ln, |docLen|, if term in postings then |postings[term]| else 0)
      ensures Valid() ==> idf == Idf(ln, |docs|, |Holders(docs, term)|)
    {
      var df := if term in postings then |postings[term]| else 0;
      if Valid() {
        PostingCount(postings, docs, term);
        assert LengthsOf(docs).Keys == docs.Keys;
        SameSize(LengthsOf(docs), docs);
      }
      return Idf(ln, |docLen|, df);
    }

    /** Scores by BM25, term by term, from the index as it stands. On an exact index the hits are exactly
        the first `limit`, by score then id, of all stored documents that pass `keep` and share a query
        term, scored from their own terms. */
    method Search(ln: real -> real, query: seq<Bytes>, limit: nat, keep: Bytes -> bool) returns (hits: seq<Hit>)
      ensures TopOf(hits, IndexScores(ln, postings, docLen, totalLen, query, keep), limit)
      ensures Valid() ==> TopOf(hits, Scores(ln, docs, query, keep), limit)
    {
      hide Score, Matches, Agrees, BagsOf, Idf, Sorted, Found, TopOf, ScoresFound, MeanLength, LengthsOf, Average;
      if Valid() { IndexIsExact(ln, postings, docs, query, keep); }
      var avg := AverageLength();
      if avg == 0.0 {
        NoHits(limit);
        return [];
      }
      var scores: map<Bytes, real> := map[];
      assert query[..0] == [];
      NothingFound(ln, postings, docLen, avg, keep);
      for i := 0 to |query|
        invariant scores == ScoresFound(ln, postings, docLen, avg, query[..i], keep)
      {
        var term := query[i];
        assert query[..i + 1] == query[..i] + [term];
        FoundMore(ln, postings, docLen, avg, query[..i], term, keep);
        if term in postings {
          var idf := InverseFrequency(ln, term);
          scores := AddWorth(term, idf, avg, keep, scores);
        }
      }
      assert query[..|query|] == query;
      var all := SortHits(scores);
      hits := if |all| <= limit then all else all[..limit];
      Truncated(all, scores, limit);
    }

    /** Adds to each eligible document on a term's posting list what its postings there weigh. */
    method AddWorth(term: Bytes, idf: real, avg: real, keep: Bytes -> bool, before: map<Bytes, real>)
      returns (scores: map<Bytes, real>)
      requires term in postings && avg > 0.0
      ensures scores == AddTo(before, postings[term], keep, idf, docLen, avg)
    {
      hide AddTo, Saturated;
      var list, lengths := postings[term], docLen;
      scores := before;
      assert list[..0] == [];
      AddNothing(before, keep, idf, lengths, avg);
      for p := 0 to |list|
        invariant scores == AddTo(before, list[..p], keep, idf, lengths, avg)
      {
        var posting := list[p];
        ghost var done := list[..p];
        assert list[..p + 1] == done + [posting];
        if !keep(posting.id) {
          AddSkipped(before, done, posting, keep, idf, lengths, avg);
          continue;
        }
        var length := if posting.id in lengths then lengths[posting.id] else 0;
        var gained := idf * Saturated(posting.tf, length, avg);
        AddOne(before, done, posting, keep, idf, lengths, avg, gained);
        var soFar := if posting.id in scores then scores[posting.id] else 0.0;
        scores := scores[posting.id := soFar + gained];
      }
      assert list[..|list|] == list;
    }
  }

  lemma ListsDistinct(pairs: seq<(Bytes, nat)>, bag: Bag)
    requires ListsBag(pairs, bag)
    ensures forall a, b | 0 <= a < b < |pairs| :: pairs[a].0 != pairs[b].0
  {
  }

  function TermsOf(terms: seq<Bytes>): set<Bytes> {
    set t | t in terms
  }

  /** The terms un-indexing a text under this cap clears. */
  function Cleared(text: Option<Bytes>, maxTerms: nat): set<Bytes> {
    if text.Some? then TermsOf(Tokens(text.value, maxTerms)) else {}
  }

  /** The same, in terms of the documents. */
  lemma ReindexedDocs(postings: map<Bytes, seq<Posting>>, docs: map<Bytes, seq<Bytes>>, id: Bytes, cleared: set<Bytes>, terms: seq<Bytes>)
    requires Agrees(postings, BagsOf(docs))
    ensures Agrees(Extended(Stripped(postings, id, if id in docs then cleared else {}), id, BagOf(terms)), BagsOf(docs[id := terms]))
            <==> (id in docs ==> TermsOf(docs[id]) <= cleared)
  {
    hide Agrees, Extended, Stripped, BagsOf, BagOf;
    BagsPut(docs, id, terms);
    if id in docs {
      Reindexed(postings, BagsOf(docs), id, cleared, BagOf(terms));
      BagsAt(docs, id);
    } else {
      StrippedNothing(postings, id);
      ExtendedAgrees(postings, BagsOf(docs), id, BagOf(terms));
    }
  }

  /** Counting a document again adds its new length and takes off the one it had. */
  lemma LengthPut(docs: map<Bytes, seq<Bytes>>, id: Bytes, terms: seq<Bytes>)
    ensures LengthsOf(docs[id := terms]) == LengthsOf(docs)[id := |terms|]
    ensures Total(LengthsOf(docs[id := terms])) + (if id in docs then |docs[id]| else 0) == Total(LengthsOf(docs)) + |terms|
  {
    hide Total;
    LengthsAt(docs, id);
    TotalPut(LengthsOf(docs), id, |terms|);
    assert LengthsOf(docs[id := terms]) == LengthsOf(docs)[id := |terms|];
  }

  /** Un-indexing under a cap at least as large as the one indexed under clears every term. */
  lemma LargerCapClears(text: Bytes, under: nat, cap: nat)
    requires under <= cap
    ensures TermsOf(Tokens(text, under)) <= Cleared(Some(text), cap)
  {
    SmallerCapIsPrefix(text, [], [], under, cap);
    var few, many := Tokens(text, under), Tokens(text, cap);
    forall t | t in few ensures t in many {
      var i :| 0 <= i < |few| && few[i] == t;
      assert many[i] == t;
    }
  }

  lemma BagKeys(terms: seq<Bytes>)
    ensures BagOf(terms).Keys == TermsOf(terms)
  {
  }

  lemma BagsKeys(docs: map<Bytes, seq<Bytes>>)
    ensures BagsOf(docs).Keys == docs.Keys
  {
  }

  lemma BagsAt(docs: map<Bytes, seq<Bytes>>, id: Bytes)
    requires id in docs
    ensures id in BagsOf(docs) && BagsOf(docs)[id].Keys == TermsOf(docs[id])
    ensures BagsOf(docs).Keys == docs.Keys
  {
  }

  lemma LengthsKeys(docs: map<Bytes, seq<Bytes>>)
    ensures LengthsOf(docs).Keys == docs.Keys
  {
  }

  lemma LengthsAt(docs: map<Bytes, seq<Bytes>>, id: Bytes)
    ensures LengthsOf(docs).Keys == docs.Keys && LengthsOf(docs - {id}) == LengthsOf(docs) - {id}
    ensures id in docs ==> LengthsOf(docs)[id] == |docs[id]|
  {
  }

  lemma NoTermsNoLength(terms: seq<Bytes>)
    ensures TermsOf(terms) <= {} <==> |terms| == 0
  {
    if terms != [] { assert terms[0] in TermsOf(terms); }
  }

  lemma BagsPut(docs: map<Bytes, seq<Bytes>>, id: Bytes, terms: seq<Bytes>)
    ensures BagsOf(docs[id := terms]) == BagsOf(docs)[id := BagOf(terms)]
    ensures LengthsOf(docs[id := terms]) == LengthsOf(docs)[id := |terms|]
    ensures BagsOf(docs).Keys == docs.Keys && LengthsOf(docs).Keys == docs.Keys
  {
    hide BagOf;
  }

  lemma BagsDrop(docs: map<Bytes, seq<Bytes>>, id: Bytes)
    requires id in docs
    ensures BagsOf(docs - {id}) == BagsOf(docs) - {id}
    ensures id in BagsOf(docs) && BagsOf(docs)[id] == BagOf(docs[id])
  {
    hide BagOf;
  }

  function Part(pairs: seq<(Bytes, nat)>): Bag {
    if pairs == [] then map[] else Part(pairs[..|pairs| - 1])[pairs[|pairs| - 1].0 := pairs[|pairs| - 1].1]
  }

  lemma {:induction false} PartKeys(pairs: seq<(Bytes, nat)>)
    ensures forall t :: t in Part(pairs) <==> exists i | 0 <= i < |pairs| :: pairs[i].0 == t
  {
    if pairs != [] {
      var rest := pairs[..|pairs| - 1];
      PartKeys(rest);
      forall t ensures t in Part(pairs) <==> exists i | 0 <= i < |pairs| :: pairs[i].0 == t {
        if t in Part(rest) {
          var i :| 0 <= i < |rest| && rest[i].0 == t;
          assert pairs[i].0 == t;
        }
        if i :| 0 <= i < |pairs| && pairs[i].0 == t {
          if i < |rest| { assert rest[i].0 == t; }
        }
        assert pairs[|pairs| - 1].0 in Part(pairs);
      }
    }
  }

  lemma PartAppend(pairs: seq<(Bytes, nat)>, i: nat)
    requires i < |pairs| && forall a, b | 0 <= a < b < |pairs| :: pairs[a].0 != pairs[b].0
    ensures Part(pairs[..i + 1]) == Part(pairs[..i])[pairs[i].0 := pairs[i].1]
    ensures pairs[i].0 !in Part(pairs[..i])
  {
    assert pairs[..i + 1][..i] == pairs[..i];
    PartKeys(pairs[..i]);
  }

  lemma PartIsBag(pairs: seq<(Bytes, nat)>, bag: Bag)
    requires ListsBag(pairs, bag)
    ensures Part(pairs) == bag
  {
    PartKeys(pairs);
    PartValues(pairs, bag);
    forall t ensures t in Part(pairs) <==> t in bag {
      if t in bag {
        var i :| 0 <= i < |pairs| && pairs[i] == (t, bag[t]);
        assert pairs[i].0 == t;
      }
    }
  }

  lemma {:induction false} PartValues(pairs: seq<(Bytes, nat)>, bag: Bag)
    requires forall i | 0 <= i < |pairs| :: pairs[i].0 in bag && pairs[i].1 == bag[pairs[i].0]
    ensures forall t | t in Part(pairs) :: t in bag && Part(pairs)[t] == bag[t]
  {
    if pairs != [] {
      PartValues(pairs[..|pairs| - 1], bag);
    }
  }

  // ------------------------------------------------------------------
  // Scoring term by term

  function KeptIds(list: seq<Posting>, keep: Bytes -> bool): set<Bytes> {
    set p | p in list && keep(p.id) :: p.id
  }

  /** `scores` with what the list's postings weigh added, for each eligible document on it. */
  ghost function AddTo(scores: map<Bytes, real>, list: seq<Posting>, keep: Bytes -> bool, idf: real, docLen: map<Bytes, nat>, avg: real): map<Bytes, real>
    requires avg > 0.0
  {
    map id | id in scores.Keys + KeptIds(list, keep) ::
      (if id in scores then scores[id] else 0.0) + (if id in KeptIds(list, keep) then Gain(idf, list, docLen, avg, id) else 0.0)
  }

  function Raised(scores: map<Bytes, real>, id: Bytes, x: real): map<Bytes, real> {
    scores[id := (if id in scores then scores[id] else 0.0) + x]
  }

  lemma AddNothing(scores: map<Bytes, real>, keep: Bytes -> bool, idf: real, docLen: map<Bytes, nat>, avg: real)
    requires avg > 0.0
    ensures AddTo(scores, [], keep, idf, docLen, avg) == scores
  {
    assert KeptIds([], keep) == {};
  }

  lemma AddSkipped(scores: map<Bytes, real>, list: seq<Posting>, p: Posting, keep: Bytes -> bool, idf: real, docLen: map<Bytes, nat>, avg: real)
    requires avg > 0.0 && !keep(p.id)
    ensures AddTo(scores, list + [p], keep, idf, docLen, avg) == AddTo(scores, list, keep, idf, docLen, avg)
  {
    hide Saturated, Gain, KeptIds;
    KeptAppend(list, p, keep);
    KeptAreKept(list, keep);
    forall id | id != p.id ensures Gain(idf, list + [p], docLen, avg, id) == Gain(idf, list, docLen, avg, id) {
      GainAppend(idf, list, p, docLen, avg, id);
    }
  }

  lemma AddOne(scores: map<Bytes, real>, list: seq<Posting>, p: Posting, keep: Bytes -> bool, idf: real, docLen: map<Bytes, nat>, avg: real, gained: real)
    requires avg > 0.0 && keep(p.id) && gained == idf * Saturated(p.tf, LengthIn(docLen, p.id), avg)
    ensures AddTo(scores, list + [p], keep, idf, docLen, avg) == Raised(AddTo(scores, list, keep, idf, docLen, avg), p.id, gained)
  {
    hide AddTo, Saturated;
    var after, raised := AddTo(scores, list + [p], keep, idf, docLen, avg), Raised(AddTo(scores, list, keep, idf, docLen, avg), p.id, gained);
    forall id ensures id in after <==> id in raised {
      AddOneAt(scores, list, p, keep, idf, docLen, avg, gained, id);
    }
    forall id | id in after ensures after[id] == raised[id] {
      AddOneAt(scores, list, p, keep, idf, docLen, avg, gained, id);
    }
  }

  lemma AddOneAt(scores: map<Bytes, real>, list: seq<Posting>, p: Posting, keep: Bytes -> bool, idf: real, docLen: map<Bytes, nat>, avg: real,
                 gained: real, id: Bytes)
    requires avg > 0.0 && keep(p.id) && gained == idf * Saturated(p.tf, LengthIn(docLen, p.id), avg)
    ensures var after, raised := AddTo(scores, list + [p], keep, idf, docLen, avg), Raised(AddTo(scores, list, keep, idf, docLen, avg), p.id, gained);
            (id in after <==> id in raised) && (id in after ==> after[id] == raised[id])
  {
    hide Saturated, Gain, KeptIds;
    KeptAppend(list, p, keep);
    GainAppend(idf, list, p, docLen, avg, id);
    if p.id !in KeptIds(list, keep) { Unlisted(idf, list, docLen, avg, p.id, keep); }
  }

  lemma KeptAreKept(list: seq<Posting>, keep: Bytes -> bool)
    ensures forall id | id in KeptIds(list, keep) :: keep(id)
  {
  }

  lemma GainAppend(idf: real, list: seq<Posting>, p: Posting, docLen: map<Bytes, nat>, avg: real, id: Bytes)
    requires avg > 0.0
    ensures Gain(idf, list + [p], docLen, avg, id)
            == Gain(idf, list, docLen, avg, id) + if p.id == id then idf * Saturated(p.tf, LengthIn(docLen, id), avg) else 0.0
  {
    hide Saturated, ListWeight;
    WeightAppend(list, p, docLen, avg, id);
    if p.id == id { Distributes(idf, ListWeight(list, docLen, avg, id), Saturated(p.tf, LengthIn(docLen, id), avg)); }
  }

  lemma Distributes(x: real, y: real, z: real)
    ensures x * (y + z) == x * y + x * z
  {
  }

  lemma WeightAppend(list: seq<Posting>, p: Posting, docLen: map<Bytes, nat>, avg: real, id: Bytes)
    requires avg > 0.0
    ensures ListWeight(list + [p], docLen, avg, id)
            == ListWeight(list, docLen, avg, id) + if p.id == id then Saturated(p.tf, LengthIn(docLen, id), avg) else 0.0
  {
    hide Saturated;
    assert (list + [p])[..|list|] == list;
  }

  lemma {:induction false} NoPostings(list: seq<Posting>, docLen: map<Bytes, nat>, avg: real, id: Bytes)
    requires avg > 0.0 && forall p | p in list :: p.id != id
    ensures ListWeight(list, docLen, avg, id) == 0.0
    decreases |list|
  {
    hide Saturated;
    if list != [] {
      assert list[|list| - 1] in list && forall p | p in list[..|list| - 1] :: p in list;
      NoPostings(list[..|list| - 1], docLen, avg, id);
    }
  }

  lemma Unlisted(idf: real, list: seq<Posting>, docLen: map<Bytes, nat>, avg: real, id: Bytes, keep: Bytes -> bool)
    requires avg > 0.0 && keep(id) && id !in KeptIds(list, keep)
    ensures Gain(idf, list, docLen, avg, id) == 0.0
  {
    NoPostings(list, docLen, avg, id);
  }

  lemma KeptAppend(list: seq<Posting>, p: Posting, keep: Bytes -> bool)
    ensures KeptIds(list + [p], keep) == if keep(p.id) then KeptIds(list, keep) + {p.id} else KeptIds(list, keep)
  {
    assert forall q :: q in list + [p] <==> q in list || q == p;
  }

  lemma NoHits(limit: nat)
    ensures TopOf([], map[], limit)
  {
  }

  lemma NothingFound(ln: real -> real, postings: map<Bytes, seq<Posting>>, docLen: map<Bytes, nat>, avg: real, keep: Bytes -> bool)
    requires avg > 0.0
    ensures ScoresFound(ln, postings, docLen, avg, [], keep) == map[]
  {
    assert Found(postings, [], keep) == {};
  }

  /** One more query term adds what its list weighs, if it has a list. */
  lemma FoundMore(ln: real -> real, postings: map<Bytes, seq<Posting>>, docLen: map<Bytes, nat>, avg: real, query: seq<Bytes>, term: Bytes, keep: Bytes -> bool)
    requires avg > 0.0
    ensures var before := ScoresFound(ln, postings, docLen, avg, query, keep);
            ScoresFound(ln, postings, docLen, avg, query + [term], keep)
            == if term in postings then AddTo(before, postings[term], keep, Idf(ln, |docLen|, |postings[term]|), docLen, avg) else before
  {
    hide Gain, Idf, Found, KeptIds, IndexScore, IndexWorth;
    FoundOneMore(postings, query, term, keep);
    forall id | id in Found(postings, query + [term], keep)
      ensures IndexScore(ln, postings, docLen, avg, query + [term], id)
              == (if id in Found(postings, query, keep) then IndexScore(ln, postings, docLen, avg, query, id) else 0.0)
                 + (if term in postings && id in KeptIds(postings[term], keep)
                    then Gain(Idf(ln, |docLen|, |postings[term]|), postings[term], docLen, avg, id) else 0.0)
    {
      ScoreMore(ln, postings, docLen, avg, query, term, id, keep);
    }
  }

  lemma ScoreMore(ln: real -> real, postings: map<Bytes, seq<Posting>>, docLen: map<Bytes, nat>, avg: real, query: seq<Bytes>, term: Bytes, id: Bytes, keep: Bytes -> bool)
    requires avg > 0.0 && keep(id)
    ensures IndexScore(ln, postings, docLen, avg, query + [term], id)
            == (if id in Found(postings, query, keep) then IndexScore(ln, postings, docLen, avg, query, id) else 0.0)
               + (if term in postings && id in KeptIds(postings[term], keep)
                  then Gain(Idf(ln, |docLen|, |postings[term]|), postings[term], docLen, avg, id) else 0.0)
  {
    hide Gain, Idf, Found, KeptIds;
    var more := query + [term];
    assert more[..|query|] == query && more[|query|] == term;
    if id !in Found(postings, query, keep) { NotFound(ln, postings, docLen, avg, query, id, keep); }
    if term in postings && id !in KeptIds(postings[term], keep) {
      Unlisted(Idf(ln, |docLen|, |postings[term]|), postings[term], docLen, avg, id, keep);
    }
  }

  lemma FoundOneMore(postings: map<Bytes, seq<Posting>>, query: seq<Bytes>, term: Bytes, keep: Bytes -> bool)
    ensures Found(postings, query + [term], keep)
            == Found(postings, query, keep) + if term in postings then KeptIds(postings[term], keep) else {}
    ensures forall id | id in Found(postings, query + [term], keep) :: keep(id)
  {
    assert forall q :: q in query + [term] <==> q in query || q == term;
  }

  lemma {:induction false} NotFound(ln: real -> real, postings: map<Bytes, seq<Posting>>, docLen: map<Bytes, nat>, avg: real, query: seq<Bytes>, id: Bytes, keep: Bytes -> bool)
    requires avg > 0.0 && keep(id) && id !in Found(postings, query, keep)
    ensures IndexScore(ln, postings, docLen, avg, query, id) == 0.0
    decreases |query|
  {
    hide Gain, Idf, Found, KeptIds;
    if query != [] {
      var rest, last := query[..|query| - 1], query[|query| - 1];
      assert query == rest + [last];
      FoundOneMore(postings, rest, last, keep);
      NotFound(ln, postings, docLen, avg, rest, id, keep);
      if last in postings { Unlisted(Idf(ln, |docLen|, |postings[last]|), postings[last], docLen, avg, id, keep); }
    }
  }

  // ------------------------------------------------------------------
  // On an exact index that is BM25 over the documents

  lemma IndexIsExact(ln: real -> real, postings: map<Bytes, seq<Posting>>, docs: map<Bytes, seq<Bytes>>, query: seq<Bytes>, keep: Bytes -> bool)
    requires Agrees(postings, BagsOf(docs))
    ensures IndexScores(ln, postings, LengthsOf(docs), Total(LengthsOf(docs)), query, keep) == Scores(ln, docs, query, keep)
  {
    hide Agrees, BagsOf, Average, Found, Score, IndexScore, MeanLength;
    MeanIsAverage(docs);
    AveragePositive(docs);
    if Average(docs) == 0.0 {
      NoTermsNoMatches(ln, docs, query, keep);
    } else {
      FoundAreMatches(postings, docs, query, keep);
      forall id | id in Matches(docs, query, keep)
        ensures IndexScore(ln, postings, LengthsOf(docs), Average(docs), query, id) == Score(ln, docs, query, id)
      {
        ScoreIsExact(ln, postings, docs, query, id);
      }
    }
  }

  lemma MeanIsAverage(docs: map<Bytes, seq<Bytes>>)
    ensures MeanLength(LengthsOf(docs), Total(LengthsOf(docs))) == Average(docs)
  {
    LengthsKeys(docs);
    SameSize(LengthsOf(docs), docs);
    assert LengthsOf(docs) == map[] <==> docs == map[];
  }

  lemma FoundAreMatches(postings: map<Bytes, seq<Posting>>, docs: map<Bytes, seq<Bytes>>, query: seq<Bytes>, keep: Bytes -> bool)
    requires Agrees(postings, BagsOf(docs))
    ensures Found(postings, query, keep) == Matches(docs, query, keep)
  {
    hide Agrees, BagsOf;
    forall id | id in Found(postings, query, keep) ensures id in Matches(docs, query, keep) {
      var q, p :| q in query && q in postings && p in postings[q] && keep(p.id) && p.id == id;
      PostingsExact(postings, docs, q);
    }
    forall id | id in Matches(docs, query, keep) ensures id in Found(postings, query, keep) {
      var q :| q in query && q in docs[id];
      PostingsComplete(postings, docs, q);
      PostingsExact(postings, docs, q);
      assert id in Holders(docs, q);
      var p :| p in postings[q] && p.id == id;
    }
  }

  lemma {:induction false} ScoreIsExact(ln: real -> real, postings: map<Bytes, seq<Posting>>, docs: map<Bytes, seq<Bytes>>, query: seq<Bytes>, id: Bytes)
    requires Agrees(postings, BagsOf(docs)) && Average(docs) > 0.0 && id in docs
    ensures IndexScore(ln, postings, LengthsOf(docs), Average(docs), query, id) == Score(ln, docs, query, id)
    decreases |query|
  {
    hide Agrees, BagsOf, Average, Worth, IndexWorth;
    if query != [] {
      ScoreIsExact(ln, postings, docs, query[..|query| - 1], id);
      WorthIsExact(ln, postings, docs, query[|query| - 1], id);
    }
  }

  lemma WorthIsExact(ln: real -> real, postings: map<Bytes, seq<Posting>>, docs: map<Bytes, seq<Bytes>>, term: Bytes, id: Bytes)
    requires Agrees(postings, BagsOf(docs)) && Average(docs) > 0.0 && id in docs
    ensures IndexWorth(ln, postings, LengthsOf(docs), Average(docs), term, id) == Worth(ln, docs, term, id)
  {
    hide Agrees, BagsOf, Average, Idf, Saturated, ListWeight, Tf;
    PostingsComplete(postings, docs, term);
    LengthsAt(docs, id);
    SameSize(LengthsOf(docs), docs);
    if term in postings {
      PostingCount(postings, docs, term);
      PostingsExact(postings, docs, term);
      if term in docs[id] {
        assert id in Holders(docs, term);
        var p :| p in postings[term] && p.id == id;
        OnePosting(postings[term], LengthsOf(docs), Average(docs), p);
      } else {
        NoPostings(postings[term], LengthsOf(docs), Average(docs), id);
      }
    }
  }

  /** A list that names a document once weighs for it what that posting does. */
  lemma {:induction false} OnePosting(list: seq<Posting>, docLen: map<Bytes, nat>, avg: real, p: Posting)
    requires avg > 0.0 && DistinctIds(list) && p in list
    ensures ListWeight(list, docLen, avg, p.id) == Saturated(p.tf, LengthIn(docLen, p.id), avg)
    decreases |list|
  {
    hide Saturated;
    var rest, last := list[..|list| - 1], list[|list| - 1];
    assert list == rest + [last];
    if last == p {
      forall q | q in rest ensures q.id != p.id {
        var i :| 0 <= i < |rest| && rest[i] == q;
        assert list[i] == q;
      }
      NoPostings(rest, docLen, avg, p.id);
    } else {
      assert p in rest && DistinctIds(rest);
      OnePosting(rest, docLen, avg, p);
      var i :| 0 <= i < |rest| && rest[i] == p;
      assert list[i].id != last.id;
    }
  }

  lemma SameSize<T, U>(a: map<Bytes, T>, b: map<Bytes, U>)
    requires a.Keys == b.Keys
    ensures |a| == |b|
  {
    assert |a| == |a.Keys| && |b| == |b.Keys|;
  }

  lemma AveragePositive(docs: map<Bytes, seq<Bytes>>)
    ensures Average(docs) >= 0.0
  {
    if docs != map[] {
      QuotientSign(Total(LengthsOf(docs)) as real, |docs| as real);
    }
  }

  lemma NoTermsNoMatches(ln: real -> real, docs: map<Bytes, seq<Bytes>>, query: seq<Bytes>, keep: Bytes -> bool)
    requires Average(docs) == 0.0
    ensures Scores(ln, docs, query, keep) == map[]
    ensures forall limit: nat :: TopOf([], Scores(ln, docs, query, keep), limit)
  {
    hide Score;
    forall id | id in docs ensures docs[id] == [] {
      TotalAt(LengthsOf(docs), id);
      ZeroQuotient(Total(LengthsOf(docs)) as real, |docs| as real);
    }
    assert Matches(docs, query, keep) == {};
  }

  lemma ZeroQuotient(x: real, y: real)
    requires y > 0.0 && x / y == 0.0
    ensures x == 0.0
  {
    assert x == x / y * y;
  }

  /** A posting list is as long as the term has holders. */
  lemma PostingCount(postings: map<Bytes, seq<Posting>>, docs: map<Bytes, seq<Bytes>>, term: Bytes)
    requires Agrees(postings, BagsOf(docs))
    ensures |Holders(docs, term)| == if term in postings then |postings[term]| else 0
  {
    PostingsComplete(postings, docs, term);
    if term in postings {
      PostingsExact(postings, docs, term);
      IdCount(postings[term], Holders(docs, term));
    } else {
      assert Holders(docs, term) == {};
    }
  }

  lemma {:induction false} IdCount(list: seq<Posting>, ids: set<Bytes>)
    requires DistinctIds(list) && ids == set p | p in list :: p.id
    ensures |ids| == |list|
    decreases |list|
  {
    if list == [] {
      assert ids == {};
    } else {
      var last, rest := list[|list| - 1], list[..|list| - 1];
      assert list == rest + [last];
      forall p | p in rest ensures p.id != last.id {
        var i :| 0 <= i < |rest| && rest[i] == p;
      }
      assert (set p | p in rest :: p.id) == ids - {last.id};
      IdCount(rest, ids - {last.id});
    }
  }

  /** On a consistent index, a term nobody's list names is held by nobody. */
  lemma PostingsComplete(postings: map<Bytes, seq<Posting>>, docs: map<Bytes, seq<Bytes>>, term: Bytes)
    requires Agrees(postings, BagsOf(docs))
    ensures term !in postings ==> forall id | id in docs :: term !in docs[id]
  {
    forall id | id in docs && term in docs[id] ensures term in postings {
      assert id in BagsOf(docs) && term in BagsOf(docs)[id];
    }
  }

  /** And a list that exists names its holders, with their counts. */
  lemma PostingsExact(postings: map<Bytes, seq<Posting>>, docs: map<Bytes, seq<Bytes>>, term: Bytes)
    requires Agrees(postings, BagsOf(docs)) && term in postings
    ensures DistinctIds(postings[term])
    ensures forall p | p in postings[term] ::
              p.id in docs && term in docs[p.id] && p.tf == Tf(docs[p.id], term) && p.tf > 0
    ensures (set p | p in postings[term] :: p.id) == Holders(docs, term)
  {
    var list, bags := postings[term], BagsOf(docs);
    assert PostingsOk(list, bags, term);
    forall id | id in docs && term in docs[id] ensures Posting(id, Tf(docs[id], term)) in list {
      assert id in bags && term in bags[id];
    }
    forall p | p in list ensures p.id in docs && term in docs[p.id] && p.tf == Tf(docs[p.id], term) && p.tf > 0 {
      assert p.id in bags && term in bags[p.id];
    }
    forall id | id in docs && term in docs[id] ensures id in set p | p in list :: p.id {
      assert Posting(id, Tf(docs[id], term)) in list;
    }
  }

  // ------------------------------------------------------------------
  // Sorting and truncating

  lemma BeforeTotal(a: Hit, b: Hit)
    requires a.id != b.id
    ensures Before(a, b) || Before(b, a)
  {
    LexTotal(a.id, b.id);
  }

  lemma BeforeTransitive(a: Hit, b: Hit, c: Hit)
    requires Before(a, b) && Before(b, c)
    ensures Before(a, c)
  {
    if a.score == b.score == c.score { LexTransitive(a.id, b.id, c.id); }
  }

  /** Where a hit goes in a sorted list. */
  method Place(hits: seq<Hit>, h: Hit) returns (sorted: seq<Hit>)
    requires Sorted(hits) && forall x | x in hits :: x.id != h.id
    ensures Sorted(sorted) && |sorted| == |hits| + 1
    ensures forall x :: x in sorted <==> x in hits || x == h
  {
    hide Before;
    var at := 0;
    while at < |hits| && Before(hits[at], h)
      invariant 0 <= at <= |hits|
      invariant forall i | 0 <= i < at :: Before(hits[i], h)
    {
      at := at + 1;
    }
    sorted := hits[..at] + [h] + hits[at..];
    assert hits == hits[..at] + hits[at..];
    forall i | at <= i < |hits| ensures Before(h, hits[i]) {
      assert hits[at] in hits;
      BeforeTotal(h, hits[at]);
      if at < i { BeforeTransitive(h, hits[at], hits[i]); }
    }
    PlacedSorted(hits, at, h);
  }

  lemma PlacedSorted(hits: seq<Hit>, at: nat, h: Hit)
    requires at <= |hits| && Sorted(hits)
    requires (forall i | 0 <= i < at :: Before(hits[i], h)) && forall i | at <= i < |hits| :: Before(h, hits[i])
    ensures Sorted(hits[..at] + [h] + hits[at..])
  {
    hide Before;
    var sorted := hits[..at] + [h] + hits[at..];
    forall i, j | 0 <= i < j < |sorted| ensures Before(sorted[i], sorted[j]) {
      var i' := if i < at then i else i - 1;
      var j' := if j < at then j else j - 1;
      assert i != at ==> sorted[i] == hits[i'];
      assert j != at ==> sorted[j] == hits[j'];
    }
  }

  /** All the scored documents, best first. */
  method SortHits(scores: map<Bytes, real>) returns (hits: seq<Hit>)
    ensures Lists(hits, scores)
  {
    hide Before, Sorted;
    hits := [];
    var left := scores;
    assert Sorted([]) by { SortedNothing(); }
    while left != map[]
      invariant left.Keys <= scores.Keys && forall id | id in left :: left[id] == scores[id]
      invariant Sorted(hits) && |hits| + |left| == |scores|
      invariant forall h :: h in hits <==> h.id in scores && h.id !in left && scores[h.id] == h.score
      decreases |left|
    {
      var id :| id in left;
      ghost var before, rest := hits, left - {id};
      hits := Place(hits, Hit(id, left[id]));
      left := left - {id};
      assert |left| + 1 == |scores| - |before| by {
        assert rest.Keys + {id} == (rest[id := scores[id]]).Keys;
      }
    }
  }

  lemma SortedNothing()
    ensures Sorted([])
  {
  }

  /** Cutting a full listing at the limit leaves the top of it. */
  lemma Truncated(all: seq<Hit>, scores: map<Bytes, real>, limit: nat)
    requires Lists(all, scores)
    ensures TopOf(if |all| <= limit then all else all[..limit], scores, limit)
  {
    hide Before;
    var hits := if |all| <= limit then all else all[..limit];
    forall h, id | h in hits && id in scores && Hit(id, scores[id]) !in hits ensures Before(h, Hit(id, scores[id])) {
      var i :| 0 <= i < |hits| && hits[i] == h;
      assert Hit(id, scores[id]) in all;
      var j :| 0 <= j < |all| && all[j] == Hit(id, scores[id]);
      assert forall k | 0 <= k < |hits| :: all[k] == hits[k] && hits[k] in hits;
      assert Before(all[i], all[j]);
    }
  }

  /** The order is total on distinct ids, so a listing is determined: there is one answer to a query. */
  lemma {:induction false} RankingUnique(a: seq<Hit>, b: seq<Hit>)
    requires Sorted(a) && Sorted(b) && forall h :: h in a <==> h in b
    ensures a == b
    decreases |a|
  {
    hide Before;
    assert (forall i | 0 <= i < |a| :: a[i] in a) && (forall i | 0 <= i < |b| :: b[i] in b);
    if a == [] || b == [] {
    } else {
      assert a[0] in b && b[0] in a;
      var i :| 0 <= i < |b| && b[i] == a[0];
      var j :| 0 <= j < |a| && a[j] == b[0];
      if a[0] != b[0] {
        assert Before(b[0], b[i]) && Before(a[0], a[j]);
        BeforeTransitive(a[0], b[0], a[0]);
        NotBeforeItself(a[0]);
      }
      forall h ensures h in a[1..] <==> h in b[1..] {
        TailMember(a, h);
        TailMember(b, h);
      }
      RankingUnique(a[1..], b[1..]);
      assert a == [a[0]] + a[1..] && b == [b[0]] + b[1..];
    }
  }

  lemma NotBeforeItself(h: Hit)
    ensures !Before(h, h)
  {
    LexIrreflexive(h.id);
  }

  lemma TailMember(s: seq<Hit>, h: Hit)
    requires s != [] && Sorted(s)
    ensures h in s[1..] <==> h in s && h != s[0]
  {
    hide Before;
    if h in s[1..] {
      var i :| 0 <= i < |s[1..]| && s[1..][i] == h;
      assert s[i + 1] == h && Before(s[0], s[i + 1]);
      NotBeforeItself(h);
    }
    if h in s && h != s[0] {
      var i :| 0 <= i < |s| && s[i] == h;
      assert s[1..][i - 1] == h;
    }
  }
}
