/** What a copy of a text index answers: `COPY` indexes every live text again, under no cap. */
module TextCopies {
  import opened ByteStrings
  import opened TextIndexes

  type Docs = map<Bytes, seq<Bytes>>

  /** A filter that shows documents of this collection only. Every filter of a query does so for the
      copy's documents: it hides the records that have expired. */
  ghost predicate Shows(keep: Bytes -> bool, copied: Docs) {
    forall id :: keep(id) ==> id in copied
  }

  /** Under this logarithm both collections answer every query alike, whichever of the copied documents
      the filter lets through. */
  ghost predicate AlikeUnder(ln: real -> real, docs: Docs, copied: Docs) {
    forall query: seq<Bytes>, keep: Bytes -> bool | Shows(keep, copied) :: Scores(ln, docs, query, keep) == Scores(ln, copied, query, keep)
  }

  /** The same, under every logarithm. */
  ghost predicate SameAnswers(docs: Docs, copied: Docs) {
    forall ln: real -> real :: AlikeUnder(ln, docs, copied)
  }

  function Showing(copied: Docs): Bytes -> bool {
    id => id in copied
  }

  /** Searches for one word, filtered by nothing but expiry. An indexed word, typed as a query, is that one
      word: `WordReadsBack`. */
  ghost predicate AlikeOnWords(ln: real -> real, docs: Docs, copied: Docs) {
    forall term: Bytes :: Scores(ln, docs, [term], Showing(copied)) == Scores(ln, copied, [term], Showing(copied))
  }

  /** There is nothing to search for. */
  predicate Termless(docs: Docs) {
    forall id | id in docs :: docs[id] == []
  }

  /** Some of the documents, each with all its terms and perhaps more behind them. */
  predicate Grown(docs: Docs, copied: Docs) {
    copied.Keys <= docs.Keys && forall id | id in copied :: docs[id] <= copied[id]
  }

  predicate Holds(docs: Docs, id: Bytes, term: Bytes) {
    id in docs && term in docs[id]
  }

  // ------------------------------------------------------------------
  // Answers are alike when every term is worth the same to every copied document

  ghost predicate SameWorth(ln: real -> real, docs: Docs, copied: Docs, id: Bytes, term: Bytes) {
    && (Holds(docs, id, term) <==> Holds(copied, id, term))
    && (Holds(copied, id, term) ==> Worth(ln, docs, term, id) == Worth(ln, copied, term, id))
  }

  /** One-word searches without a filter already tell. */
  lemma WorthsTell(ln: real -> real, docs: Docs, copied: Docs)
    ensures AlikeUnder(ln, docs, copied) <==> forall id, term | id in copied :: SameWorth(ln, docs, copied, id, term)
    ensures AlikeUnder(ln, docs, copied) <==> AlikeOnWords(ln, docs, copied)
  {
    hide SameWorth, Scores;
    if AlikeUnder(ln, docs, copied) {
      assert Shows(Showing(copied), copied);
    }
    if AlikeOnWords(ln, docs, copied) {
      forall id, term | id in copied ensures SameWorth(ln, docs, copied, id, term) {
        WordTells(ln, docs, copied, id, term);
      }
    }
    if forall id, term | id in copied :: SameWorth(ln, docs, copied, id, term) {
      forall query: seq<Bytes>, keep: Bytes -> bool | Shows(keep, copied) ensures Scores(ln, docs, query, keep) == Scores(ln, copied, query, keep) {
        SameScores(ln, docs, copied, query, keep);
      }
    }
  }

  lemma WordTells(ln: real -> real, docs: Docs, copied: Docs, id: Bytes, term: Bytes)
    requires id in copied && AlikeOnWords(ln, docs, copied)
    ensures SameWorth(ln, docs, copied, id, term)
  {
    hide Worth, Scores, Holds;
    OneTerm(ln, docs, id, term, Showing(copied));
    OneTerm(ln, copied, id, term, Showing(copied));
    assert Scores(ln, docs, [term], Showing(copied)) == Scores(ln, copied, [term], Showing(copied));
  }

  lemma OneTerm(ln: real -> real, docs: Docs, id: Bytes, term: Bytes, keep: Bytes -> bool)
    requires keep(id)
    ensures id in Scores(ln, docs, [term], keep) <==> Holds(docs, id, term)
    ensures Holds(docs, id, term) ==> Scores(ln, docs, [term], keep)[id] == Worth(ln, docs, term, id)
  {
    hide Worth;
    assert [term][..0] == [] && term in [term];
    assert id in Matches(docs, [term], keep) <==> Holds(docs, id, term);
    assert Score(ln, docs, [], id) == 0.0;
    assert Score(ln, docs, [term], id) == Score(ln, docs, [], id) + Worth(ln, docs, term, id);
  }

  lemma SameScores(ln: real -> real, docs: Docs, copied: Docs, query: seq<Bytes>, keep: Bytes -> bool)
    requires Shows(keep, copied) && forall id, term | id in copied :: SameWorth(ln, docs, copied, id, term)
    ensures Scores(ln, docs, query, keep) == Scores(ln, copied, query, keep)
  {
    hide Worth, Score;
    forall id ensures id in Matches(docs, query, keep) <==> id in Matches(copied, query, keep) {
      if keep(id) {
        forall q ensures Holds(docs, id, q) <==> Holds(copied, id, q) {
          assert SameWorth(ln, docs, copied, id, q);
        }
        MatchesHold(docs, query, keep, id);
        MatchesHold(copied, query, keep, id);
      }
    }
    assert Matches(docs, query, keep) == Matches(copied, query, keep);
    forall id | id in Matches(copied, query, keep) ensures Score(ln, docs, query, id) == Score(ln, copied, query, id) {
      SameScore(ln, docs, copied, query, id);
    }
  }

  lemma MatchesHold(docs: Docs, query: seq<Bytes>, keep: Bytes -> bool, id: Bytes)
    ensures id in Matches(docs, query, keep) <==> keep(id) && exists q | q in query :: Holds(docs, id, q)
  {
  }

  lemma {:induction false} SameScore(ln: real -> real, docs: Docs, copied: Docs, query: seq<Bytes>, id: Bytes)
    requires forall term :: SameWorth(ln, docs, copied, id, term)
    ensures Score(ln, docs, query, id) == Score(ln, copied, query, id)
    decreases |query|
  {
    hide Worth;
    if query != [] {
      var last := query[|query| - 1];
      SameScore(ln, docs, copied, query[..|query| - 1], id);
      assert SameWorth(ln, docs, copied, id, last);
      if !Holds(copied, id, last) {
        NotHeld(ln, docs, id, last);
        NotHeld(ln, copied, id, last);
      }
    }
  }

  lemma NotHeld(ln: real -> real, docs: Docs, id: Bytes, term: Bytes)
    requires !Holds(docs, id, term)
    ensures Worth(ln, docs, term, id) == 0.0
  {
  }

  // ------------------------------------------------------------------
  // Under every logarithm: when the statistics agree

  /** A term's inverse document frequency is the same, whatever the logarithm. */
  predicate SameIdf(docs: Docs, copied: Docs, term: Bytes) {
    (|docs| + 1) * (2 * |Holders(copied, term)| + 1) == (|copied| + 1) * (2 * |Holders(docs, term)| + 1)
  }

  /** A term weighs the same in a document: its counts are in proportion to what the document's lengths
      make of them. */
  ghost predicate SameWeighing(docs: Docs, copied: Docs, id: Bytes, term: Bytes)
    requires Holds(docs, id, term) && Holds(copied, id, term)
  {
    HeldCounts(docs, id, term);
    HeldCounts(copied, id, term);
    InProportion(Tf(docs[id], term), Tf(copied[id], term), Norm(|docs[id]|, Average(docs)), Norm(|copied[id]|, Average(copied)))
  }

  ghost predicate SameStanding(docs: Docs, copied: Docs, id: Bytes, term: Bytes) {
    && (Holds(docs, id, term) <==> Holds(copied, id, term))
    && (Holds(copied, id, term) ==> SameIdf(docs, copied, term) && SameWeighing(docs, copied, id, term))
  }

  /** Answers are alike under every logarithm exactly when every term stands the same in every copied
      document. */
  lemma StatisticsTell(docs: Docs, copied: Docs)
    ensures SameAnswers(docs, copied) <==> forall id, term | id in copied :: SameStanding(docs, copied, id, term)
  {
    hide SameStanding, AlikeUnder, SameWorth;
    if SameAnswers(docs, copied) {
      forall id, term | id in copied ensures SameStanding(docs, copied, id, term) {
        forall ln ensures SameWorth(ln, docs, copied, id, term) {
          assert AlikeUnder(ln, docs, copied);
          WorthsTell(ln, docs, copied);
        }
        StandingTells(docs, copied, id, term);
      }
    }
    if forall id, term | id in copied :: SameStanding(docs, copied, id, term) {
      forall ln ensures AlikeUnder(ln, docs, copied) {
        forall id, term | id in copied ensures SameWorth(ln, docs, copied, id, term) {
          StandingTells(docs, copied, id, term);
        }
        WorthsTell(ln, docs, copied);
      }
    }
  }

  lemma StandingTells(docs: Docs, copied: Docs, id: Bytes, term: Bytes)
    ensures SameStanding(docs, copied, id, term) <==> forall ln :: SameWorth(ln, docs, copied, id, term)
  {
    hide Worth, Weight, SameIdf, SameWeighing;
    if Holds(docs, id, term) && Holds(copied, id, term) {
      WeightTells(docs, copied, id, term);
      ArgumentTells(|docs|, |Holders(docs, term)|, |copied|, |Holders(copied, term)|);
      assert SameIdf(docs, copied, term) <==> ArgumentOf(docs, term) == ArgumentOf(copied, term) by { IdfIs(docs, copied, term); }
      if forall ln :: SameWorth(ln, docs, copied, id, term) {
        var one, identity := (_: real) => 1.0, (x: real) => x;
        assert SameWorth(one, docs, copied, id, term) && SameWorth(identity, docs, copied, id, term);
        WorthUnfolds(one, docs, id, term);
        WorthUnfolds(one, copied, id, term);
        WorthUnfolds(identity, docs, id, term);
        WorthUnfolds(identity, copied, id, term);
        Cancel(ArgumentOf(docs, term), ArgumentOf(copied, term), Weight(docs, id, term));
      } else {
        var ln :| !SameWorth(ln, docs, copied, id, term);
        WorthUnfolds(ln, docs, id, term);
        WorthUnfolds(ln, copied, id, term);
      }
    } else {
      assert (Holds(docs, id, term) <==> Holds(copied, id, term)) <==> SameWorth((_: real) => 1.0, docs, copied, id, term);
    }
  }

  lemma IdfIs(docs: Docs, copied: Docs, term: Bytes)
    ensures SameIdf(docs, copied, term) <==> ArgumentOf(docs, term) == ArgumentOf(copied, term)
  {
    hide Argument;
    ArgumentTells(|docs|, |Holders(docs, term)|, |copied|, |Holders(copied, term)|);
  }

  function ArgumentOf(docs: Docs, term: Bytes): real {
    Argument(|docs|, |Holders(docs, term)|)
  }

  function Argument(n: nat, df: nat): real {
    1.0 + (n as real - df as real + 0.5) / (df as real + 0.5)
  }

  /** The part of a term's worth the logarithm has no say in. */
  ghost function Weight(docs: Docs, id: Bytes, term: Bytes): real
    requires Holds(docs, id, term)
  {
    HeldCounts(docs, id, term);
    Saturated(Tf(docs[id], term), |docs[id]|, Average(docs))
  }

  lemma HeldCounts(docs: Docs, id: Bytes, term: Bytes)
    requires Holds(docs, id, term)
    ensures Tf(docs[id], term) > 0 && docs[id] != [] && Average(docs) > 0.0
  {
    TotalAt(LengthsOf(docs), id);
    PositiveQuotient(Total(LengthsOf(docs)) as real, |docs| as real);
  }

  lemma PositiveQuotient(x: real, y: real)
    requires x > 0.0 && y > 0.0
    ensures x / y > 0.0
  {
  }

  lemma WorthUnfolds(ln: real -> real, docs: Docs, id: Bytes, term: Bytes)
    requires Holds(docs, id, term)
    ensures Worth(ln, docs, term, id) == ln(ArgumentOf(docs, term)) * Weight(docs, id, term)
    ensures Weight(docs, id, term) > 0.0
  {
    hide Average;
    HeldCounts(docs, id, term);
    var tf, length, avg := Tf(docs[id], term), |docs[id]|, Average(docs);
    QuotientSign(B * length as real, avg);
    PositiveQuotient(tf as real * (K1 + 1.0), tf as real + K1 * (1.0 - B + B * length as real / avg));
  }

  lemma Cancel(x: real, y: real, weight: real)
    requires weight > 0.0 && x * weight == y * weight
    ensures x == y
  {
    assert (x - y) * weight == 0.0;
  }

  lemma ArgumentTells(n: nat, df: nat, m: nat, other: nat)
    ensures Argument(n, df) == Argument(m, other) <==> (n + 1) * (2 * other + 1) == (m + 1) * (2 * df + 1)
  {
    ArgumentIs(n, df);
    ArgumentIs(m, other);
    var a, b, c, d := (n + 1) as real, (2 * df + 1) as real, (m + 1) as real, (2 * other + 1) as real;
    EqualQuotients(a, b, c, d);
    assert a * d == ((n + 1) * (2 * other + 1)) as real;
    assert c * b == ((m + 1) * (2 * df + 1)) as real;
  }

  lemma ArgumentIs(n: nat, df: nat)
    ensures Argument(n, df) == 2.0 * ((n + 1) as real / (2 * df + 1) as real)
  {
    var d := df as real + 0.5;
    assert Argument(n, df) * d == n as real + 1.0;
    assert 2.0 * ((n + 1) as real / (2 * df + 1) as real) * d == n as real + 1.0;
    Cancel(Argument(n, df), 2.0 * ((n + 1) as real / (2 * df + 1) as real), d);
  }

  lemma EqualQuotients(a: real, b: real, c: real, d: real)
    requires b > 0.0 && d > 0.0
    ensures a / b == c / d <==> a * d == c * b
  {
    var x, y := a / b, c / d;
    assert x * b == a && y * d == c;
    assert a * d == x * (b * d) && c * b == y * (b * d);
    if a * d == c * b { Cancel(x, y, b * d); }
  }

  /** Two weights are equal when the counts are in proportion. */
  lemma WeightTells(docs: Docs, copied: Docs, id: Bytes, term: Bytes)
    requires Holds(docs, id, term) && Holds(copied, id, term)
    ensures SameWeighing(docs, copied, id, term) <==> Weight(docs, id, term) == Weight(copied, id, term)
  {
    hide Average, Norm, InProportion;
    HeldCounts(docs, id, term);
    HeldCounts(copied, id, term);
    SaturatedIs(Tf(docs[id], term), |docs[id]|, Average(docs));
    SaturatedIs(Tf(copied[id], term), |copied[id]|, Average(copied));
    CrossMultiply(Tf(docs[id], term), Tf(copied[id], term), Norm(|docs[id]|, Average(docs)), Norm(|copied[id]|, Average(copied)));
  }

  // ------------------------------------------------------------------
  // What equal weights say of the lengths

  /** Every term weighs the same in every copied document. */
  ghost predicate SameWeights(docs: Docs, copied: Docs) {
    forall id, term | id in copied :: SameWeight(docs, copied, id, term)
  }

  ghost predicate SameWeight(docs: Docs, copied: Docs, id: Bytes, term: Bytes) {
    && (Holds(docs, id, term) <==> Holds(copied, id, term))
    && (Holds(docs, id, term) && Holds(copied, id, term) ==> SameWeighing(docs, copied, id, term))
  }

  /** Then a document's lengths are in that proportion too. */
  lemma LengthsInProportion(docs: Docs, copied: Docs, id: Bytes)
    requires SameWeights(docs, copied) && id in docs && id in copied && copied[id] != []
    ensures docs[id] != [] && Average(docs) > 0.0 && Average(copied) > 0.0
    ensures InProportion(|docs[id]|, |copied[id]|, Norm(|docs[id]|, Average(docs)), Norm(|copied[id]|, Average(copied)))
  {
    hide BagOf, Average, Norm, InProportion, SameWeighing;
    var terms, more := docs[id], copied[id];
    assert Holds(copied, id, more[0]) && SameWeight(docs, copied, id, more[0]);
    HeldCounts(docs, id, more[0]);
    HeldCounts(copied, id, more[0]);
    var k, l := Norm(|terms|, Average(docs)), Norm(|more|, Average(copied));
    SameBagKeys(docs, copied, id);
    forall t | t in BagOf(terms) ensures InProportion(BagOf(terms)[t], BagOf(more)[t], k, l) {
      TfsInProportion(docs, copied, id, t);
    }
    Proportional(BagOf(terms), BagOf(more), k, l);
    BagTotal(terms);
    BagTotal(more);
  }

  /** Of a document that grew the average fell, and the other way round. */
  lemma GrewMeansLower(docs: Docs, copied: Docs, id: Bytes)
    requires Grown(docs, copied) && SameWeights(docs, copied) && id in copied && copied[id] != []
    ensures |docs[id]| < |copied[id]| <==> Average(copied) < Average(docs)
    ensures |docs[id]| == |copied[id]| <==> Average(copied) == Average(docs)
  {
    hide SameWeights, Average;
    LengthsInProportion(docs, copied, id);
    Balanced(|docs[id]| as real, |copied[id]| as real, Average(docs), Average(copied));
  }

  lemma Balanced(m: real, n: real, avg: real, wide: real)
    requires 0.0 < m <= n && 0.0 < avg && 0.0 < wide
    requires m * (K1 * (1.0 - B + B * n / wide)) == n * (K1 * (1.0 - B + B * m / avg))
    ensures (m < n <==> wide < avg) && (m == n <==> wide == avg)
  {
    var p, q, mn := 1.0 / avg, 1.0 / wide, m * n;
    assert mn > 0.0;
    Reciprocals(avg, wide);
    assert B * n / wide == B * n * q && B * m / avg == B * m * p;
    assert m * (1.0 - B + B * n * q) == m * (1.0 - B) + B * (mn * q);
    assert n * (1.0 - B + B * m * p) == n * (1.0 - B) + B * (mn * p);
    assert (n - m) * (1.0 - B) == B * (mn * (q - p));
    Signs(mn, q - p);
  }

  lemma Reciprocals(avg: real, wide: real)
    requires 0.0 < avg && 0.0 < wide
    ensures (1.0 / wide > 1.0 / avg <==> wide < avg) && (1.0 / wide == 1.0 / avg <==> wide == avg)
  {
    var p, q := 1.0 / avg, 1.0 / wide;
    assert p * avg == 1.0 && q * wide == 1.0;
    if wide < avg { assert q * wide < q * avg; assert q > p; }
    if avg < wide { assert p * avg < p * wide; assert p > q; }
  }

  lemma Signs(x: real, y: real)
    requires x > 0.0
    ensures (x * y > 0.0 <==> y > 0.0) && (x * y == 0.0 <==> y == 0.0)
  {
  }

  // ------------------------------------------------------------------
  // Nothing had expired

  ghost predicate Increases(ln: real -> real) {
    forall x | x > 1.0 :: ln(x) > 0.0
  }

  /** If every document was copied, then under any one logarithm that is positive above one the answers
      are alike exactly when no document grew. */
  lemma NothingExpired(ln: real -> real, docs: Docs, copied: Docs)
    requires Grown(docs, copied) && docs.Keys == copied.Keys && Increases(ln)
    ensures AlikeUnder(ln, docs, copied) <==> copied == docs
  {
    hide AlikeUnder, SameWeights, Average;
    if copied == docs {
      AlikeIfSame(ln, docs);
    } else if AlikeUnder(ln, docs, copied) {
      WorthsTellWeights(ln, docs, copied);
      var id :| id in docs && docs[id] != copied[id];
      assert docs[id] <= copied[id];
      assert |docs[id]| < |copied[id]|;
      GrewMeansLower(docs, copied, id);
      AverageGrows(docs, copied, id);
      assert false;
    }
  }

  lemma AlikeIfSame(ln: real -> real, docs: Docs)
    ensures AlikeUnder(ln, docs, docs)
  {
  }

  lemma WorthsTellWeights(ln: real -> real, docs: Docs, copied: Docs)
    requires docs.Keys == copied.Keys && Increases(ln) && AlikeUnder(ln, docs, copied)
    ensures SameWeights(docs, copied)
  {
    hide AlikeUnder, Worth, Weight, SameWeighing, Argument;
    WorthsTell(ln, docs, copied);
    assert |docs| == |docs.Keys| == |copied|;
    forall id, term | id in copied ensures SameWeight(docs, copied, id, term) {
      assert SameWorth(ln, docs, copied, id, term);
      if Holds(copied, id, term) {
        SameHolders(ln, docs, copied, term);
        WorthUnfolds(ln, docs, id, term);
        WorthUnfolds(ln, copied, id, term);
        AboveOne(docs, term);
        Cancel(Weight(docs, id, term), Weight(copied, id, term), ln(ArgumentOf(docs, term)));
        WeightTells(docs, copied, id, term);
      }
    }
  }

  lemma SameHolders(ln: real -> real, docs: Docs, copied: Docs, term: Bytes)
    requires docs.Keys == copied.Keys && forall id, t | id in copied :: SameWorth(ln, docs, copied, id, t)
    ensures Holders(docs, term) == Holders(copied, term)
  {
    hide Worth;
    forall id | id in docs ensures term in docs[id] <==> term in copied[id] {
      assert SameWorth(ln, docs, copied, id, term);
    }
  }

  lemma AboveOne(docs: Docs, term: Bytes)
    ensures ArgumentOf(docs, term) > 1.0
  {
    assert Holders(docs, term) <= docs.Keys;
    Fewer(Holders(docs, term), docs.Keys);
    assert |docs| == |docs.Keys|;
    PositiveQuotient(|docs| as real - |Holders(docs, term)| as real + 0.5, |Holders(docs, term)| as real + 0.5);
  }

  lemma Fewer(part: set<Bytes>, whole: set<Bytes>)
    requires part <= whole
    ensures |part| <= |whole|
  {
    assert whole == part + (whole - part);
  }

  // ------------------------------------------------------------------
  // Nothing had been cut

  /** If every copied document is as it was, the answers are alike exactly when there is nothing to find,
      or the documents left out changed neither the average length nor any findable term's idf. */
  lemma NothingCut(docs: Docs, copied: Docs)
    requires copied.Keys <= docs.Keys && forall id | id in copied :: docs[id] == copied[id]
    ensures SameAnswers(docs, copied) <==>
              Termless(copied)
              || (Average(docs) == Average(copied) && forall id, term | Holds(copied, id, term) :: SameIdf(docs, copied, term))
  {
    hide SameAnswers, Average, SameIdf, SameWeighing;
    StatisticsTell(docs, copied);
    forall id, term | Holds(copied, id, term)
      ensures SameStanding(docs, copied, id, term) <==> SameIdf(docs, copied, term) && Average(docs) == Average(copied)
    {
      UncutWeighs(docs, copied, id, term);
    }
    forall id, term | id in copied && !Holds(copied, id, term) ensures SameStanding(docs, copied, id, term) {
    }
    if !Termless(copied) {
      var id :| id in copied && copied[id] != [];
      assert Holds(copied, id, copied[id][0]);
    }
  }

  lemma UncutWeighs(docs: Docs, copied: Docs, id: Bytes, term: Bytes)
    requires Holds(copied, id, term) && id in docs && docs[id] == copied[id]
    ensures SameWeighing(docs, copied, id, term) <==> Average(docs) == Average(copied)
  {
    hide Average, Norm;
    HeldCounts(docs, id, term);
    HeldCounts(copied, id, term);
    var tf, k, l := Tf(docs[id], term), Norm(|docs[id]|, Average(docs)), Norm(|docs[id]|, Average(copied));
    if tf as real * l == tf as real * k { Cancel(l, k, tf as real); }
    NormTells(|docs[id]|, Average(docs), Average(copied));
  }

  lemma NormTells(length: nat, avg: real, wide: real)
    requires length > 0 && avg > 0.0 && wide > 0.0
    ensures Norm(length, avg) == Norm(length, wide) <==> avg == wide
  {
    var x := B * length as real;
    if Norm(length, avg) == Norm(length, wide) {
      var q := x / avg;
      assert q == x / wide;
      assert q * avg == x && q * wide == x;
      assert q != 0.0;
      Cancel(avg, wide, q);
    }
  }

  // ------------------------------------------------------------------
  // Some text had been cut

  /** If a copied document grew, answers can only be alike by a coincidence: the average length is lower
      in the copy, so something had expired too, and every copied document with a term grew. */
  lemma SomeGrew(docs: Docs, copied: Docs, id: Bytes)
    requires Grown(docs, copied) && SameAnswers(docs, copied) && id in copied && docs[id] != copied[id]
    ensures Average(copied) < Average(docs) && docs.Keys != copied.Keys
    ensures forall other | other in copied && copied[other] != [] :: |docs[other]| < |copied[other]|
  {
    hide SameAnswers, SameWeights, Average;
    AnswersTellWeights(docs, copied);
    GrewMeansLower(docs, copied, id);
    forall other | other in copied && copied[other] != [] ensures |docs[other]| < |copied[other]| {
      GrewMeansLower(docs, copied, other);
    }
    if docs.Keys == copied.Keys { AverageGrows(docs, copied, id); }
  }

  lemma AnswersTellWeights(docs: Docs, copied: Docs)
    requires SameAnswers(docs, copied)
    ensures SameWeights(docs, copied)
  {
    hide SameAnswers, SameIdf, SameWeighing;
    StatisticsTell(docs, copied);
    forall id, term | id in copied ensures SameWeight(docs, copied, id, term) {
      assert SameStanding(docs, copied, id, term);
    }
  }

  // ------------------------------------------------------------------
  // Lengths, counts and averages

  /** How a document's length weighs on its terms' frequencies. */
  function Norm(length: nat, avg: real): (r: real)
    requires avg > 0.0
    ensures r > 0.0
  {
    QuotientSign(B * length as real, avg);
    K1 * (1.0 - B + B * length as real / avg)
  }

  lemma SameBagKeys(docs: Docs, copied: Docs, id: Bytes)
    requires SameWeights(docs, copied) && id in docs && id in copied
    ensures BagOf(docs[id]).Keys == BagOf(copied[id]).Keys
  {
    hide SameWeighing;
    forall t ensures t in docs[id] <==> t in copied[id] {
      assert SameWeight(docs, copied, id, t);
    }
  }

  lemma TfsInProportion(docs: Docs, copied: Docs, id: Bytes, t: Bytes)
    requires SameWeights(docs, copied) && id in docs && id in copied && t in BagOf(docs[id])
    requires Average(docs) > 0.0 && Average(copied) > 0.0
    ensures t in BagOf(copied[id])
    ensures InProportion(BagOf(docs[id])[t], BagOf(copied[id])[t], Norm(|docs[id]|, Average(docs)), Norm(|copied[id]|, Average(copied)))
  {
    hide Average, Norm, InProportion;
    assert Holds(docs, id, t) && SameWeight(docs, copied, id, t);
  }

  lemma SaturatedIs(tf: nat, length: nat, avg: real)
    requires tf > 0 && avg > 0.0
    ensures Saturated(tf, length, avg) == tf as real * (K1 + 1.0) / (tf as real + Norm(length, avg))
  {
  }

  lemma CrossMultiply(m: nat, n: nat, k: real, l: real)
    requires m > 0 && n > 0 && k > 0.0 && l > 0.0
    ensures m as real * (K1 + 1.0) / (m as real + k) == n as real * (K1 + 1.0) / (n as real + l) <==> InProportion(m, n, k, l)
  {
    var x, y, c := m as real, n as real, K1 + 1.0;
    EqualQuotients(x * c, x + k, y * c, y + l);
    assert x * c * (y + l) == (x * y + x * l) * c && y * c * (x + k) == (x * y + y * k) * c;
    if x * c * (y + l) == y * c * (x + k) { Cancel(x * y + x * l, x * y + y * k, c); }
  }

  predicate InProportion(x: nat, y: nat, k: real, l: real) {
    x as real * l == y as real * k
  }

  lemma {:induction false} Proportional(a: Bag, b: Bag, k: real, l: real)
    requires a.Keys == b.Keys && forall t | t in a :: InProportion(a[t], b[t], k, l)
    ensures InProportion(Total(a), Total(b), k, l)
    decreases |a|
  {
    if a == map[] {
      assert b == map[];
    } else {
      hide Total, InProportion;
      var t :| t in a;
      TotalAt(a, t);
      TotalAt(b, t);
      Proportional(a - {t}, b - {t}, k, l);
      Both(a[t], b[t], Total(a - {t}), Total(b - {t}), k, l);
    }
  }

  lemma Both(x: nat, y: nat, u: nat, v: nat, k: real, l: real)
    requires InProportion(x, y, k, l) && InProportion(u, v, k, l)
    ensures InProportion(x + u, y + v, k, l)
  {
    assert (x + u) as real * l == x as real * l + u as real * l;
    assert (y + v) as real * k == y as real * k + v as real * k;
  }

  lemma {:induction false} BagTotal(terms: seq<Bytes>)
    ensures Total(BagOf(terms)) == |terms|
    decreases |terms|
  {
    if terms == [] {
      assert BagOf(terms) == map[];
    } else {
      var rest, last := terms[..|terms| - 1], terms[|terms| - 1];
      BagTotal(rest);
      assert terms == rest + [last];
      BagAppend(rest, last);
      TotalPut(BagOf(rest), last, (if last in BagOf(rest) then BagOf(rest)[last] else 0) + 1);
    }
  }

  lemma AverageGrows(docs: Docs, copied: Docs, id: Bytes)
    requires Grown(docs, copied) && docs.Keys == copied.Keys && id in docs && |docs[id]| < |copied[id]|
    ensures Average(docs) < Average(copied)
  {
    var a, b := LengthsOf(docs), LengthsOf(copied);
    assert forall other | other in docs :: |docs[other]| <= |copied[other]|;
    TotalsGrow(a - {id}, b - {id});
    TotalAt(a, id);
    TotalAt(b, id);
    assert |docs| == |docs.Keys| == |copied|;
    QuotientGrows(Total(a) as real, Total(b) as real, |docs| as real);
  }

  lemma {:induction false} TotalsGrow(a: Bag, b: Bag)
    requires a.Keys == b.Keys && forall t | t in a :: a[t] <= b[t]
    ensures Total(a) <= Total(b)
    decreases |a|
  {
    if a == map[] {
      assert b == map[];
    } else {
      var t :| t in a;
      TotalAt(a, t);
      TotalAt(b, t);
      TotalsGrow(a - {t}, b - {t});
    }
  }

  lemma QuotientGrows(x: real, y: real, n: real)
    requires x < y && n > 0.0
    ensures x / n < y / n
  {
  }

  // ------------------------------------------------------------------
  // Indexed words as queries

  predicate IsWord(t: Bytes) {
    Survives(t) && Lowercase(t)
  }

  predicate Lowercase(t: Bytes) {
    forall b | b in t :: IsWordByte(b) && LowerByte(b) == b
  }

  lemma {:induction false} TokensAreWords(text: Bytes, terms: seq<Bytes>, current: Bytes, cap: nat)
    requires (forall t | t in terms :: IsWord(t)) && Lowercase(current)
    ensures forall t | t in TokensFrom(text, terms, current, cap) :: IsWord(t)
    decreases |text|
  {
    hide IsStopword;
    if text != [] {
      if IsWordByte(text[0]) {
        TokensAreWords(text[1..], terms, current + [LowerByte(text[0])], cap);
      } else if |Pushed(terms, current)| < cap {
        TokensAreWords(text[1..], Pushed(terms, current), [], cap);
      }
    }
  }

  /** A term found in any text, under any cap, is the one term found in itself. */
  lemma WordReadsBack(text: Bytes, cap: nat, term: Bytes, other: nat)
    requires term in Tokens(text, cap)
    ensures Tokens(term, other) == [term]
  {
    hide Survives, TokensFrom;
    TokensAreWords(text, [], [], cap);
    assert term + [] == term && [] + term == term && [] + [term] == [term];
    Spelled(term, [], [], [], other);
    WordEnds(term, [], [], other);
  }

  // ------------------------------------------------------------------
  // Texts and collections that show the difference

  /** The cap a copy indexes under: the largest 64-bit unsigned integer. */
  const USIZE_MAX: nat := 0xFFFF_FFFF_FFFF_FFFF

  const MEMORY := Ascii("memory")
  const SERVER := Ascii("server")

  /** One word `n` times, then another once. */
  function LongText(n: nat): Bytes {
    if n == 0 then SERVER else MEMORY + [32] + LongText(n - 1)
  }

  function Copies(n: nat): seq<Bytes> {
    seq(n, _ => MEMORY)
  }

  lemma StopwordsAreShort(i: nat)
    requires i < |STOPWORDS|
    ensures |STOPWORDS[i]| <= 5
  {
  }

  lemma BothSurvive()
    ensures Survives(MEMORY) && Survives(SERVER) && MEMORY != SERVER
  {
    forall i | 0 <= i < |STOPWORDS| ensures Ascii(STOPWORDS[i]) != MEMORY && Ascii(STOPWORDS[i]) != SERVER {
      StopwordsAreShort(i);
    }
    assert MEMORY[0] == 109 && SERVER[0] == 115;
  }

  lemma {:induction false} Spelled(word: Bytes, rest: Bytes, terms: seq<Bytes>, current: Bytes, maxTerms: nat)
    requires forall b | b in word :: IsWordByte(b) && LowerByte(b) == b
    ensures TokensFrom(word + rest, terms, current, maxTerms) == TokensFrom(rest, terms, current + word, maxTerms)
    decreases |word|
  {
    hide IsStopword;
    if word == [] {
      assert word + rest == rest && current + word == current;
    } else {
      assert (word + rest)[0] == word[0] && (word + rest)[1..] == word[1..] + rest;
      Spelled(word[1..], rest, terms, current + [word[0]], maxTerms);
      assert current + [word[0]] + word[1..] == current + word;
    }
  }

  lemma {:induction false} LongTokens(n: nat, terms: seq<Bytes>, maxTerms: nat)
    requires |terms| < maxTerms
    ensures TokensFrom(LongText(n), terms, [], maxTerms)
            == if |terms| + n < maxTerms then terms + Copies(n) + [SERVER] else terms + Copies(maxTerms - |terms|)
    decreases n
  {
    hide IsStopword, TokensFrom;
    if n == 0 {
      LastWord(terms, maxTerms);
      assert terms + Copies(0) == terms;
    } else {
      OneWord(LongText(n - 1), terms, maxTerms);
      var next := terms + [MEMORY];
      if |next| < maxTerms {
        LongTokens(n - 1, next, maxTerms);
        if |terms| + n < maxTerms {
          assert next + Copies(n - 1) == terms + Copies(n);
        } else {
          assert next + Copies(maxTerms - |next|) == terms + Copies(maxTerms - |terms|);
        }
      } else {
        assert next == terms + Copies(1);
      }
    }
  }

  lemma WordEnds(word: Bytes, rest: Bytes, terms: seq<Bytes>, maxTerms: nat)
    requires Survives(word)
    ensures TokensFrom([], terms, word, maxTerms) == terms + [word]
    ensures TokensFrom([32] + rest, terms, word, maxTerms)
            == if |terms| + 1 >= maxTerms then terms + [word] else TokensFrom(rest, terms + [word], [], maxTerms)
  {
    hide IsStopword;
    assert ([32] + rest)[1..] == rest;
  }

  lemma LowerWords()
    ensures (forall b | b in MEMORY :: IsWordByte(b) && LowerByte(b) == b) && (forall b | b in SERVER :: IsWordByte(b) && LowerByte(b) == b)
  {
  }

  lemma LastWord(terms: seq<Bytes>, maxTerms: nat)
    ensures TokensFrom(SERVER, terms, [], maxTerms) == terms + [SERVER]
  {
    hide Survives, TokensFrom;
    BothSurvive();
    LowerWords();
    assert SERVER + [] == SERVER && [] + SERVER == SERVER;
    Spelled(SERVER, [], terms, [], maxTerms);
    WordEnds(SERVER, [], terms, maxTerms);
  }

  lemma OneWord(rest: Bytes, terms: seq<Bytes>, maxTerms: nat)
    ensures TokensFrom(MEMORY + [32] + rest, terms, [], maxTerms)
            == if |terms| + 1 >= maxTerms then terms + [MEMORY] else TokensFrom(rest, terms + [MEMORY], [], maxTerms)
  {
    hide Survives, TokensFrom;
    BothSurvive();
    LowerWords();
    var tail := [32] + rest;
    assert MEMORY + [32] + rest == MEMORY + tail && [] + MEMORY == MEMORY;
    Spelled(MEMORY, tail, terms, [], maxTerms);
    WordEnds(MEMORY, rest, terms, maxTerms);
  }

  /** Under any cap there is a text whose last term the cap cuts off and a copy's index keeps. */
  lemma CutText(cap: nat)
    requires 1 <= cap < USIZE_MAX
    ensures SERVER in Tokens(LongText(cap), USIZE_MAX) && SERVER !in Tokens(LongText(cap), cap)
  {
    BothSurvive();
    LongTokens(cap, [], cap);
    LongTokens(cap, [], USIZE_MAX);
    assert Tokens(LongText(cap), cap) == [] + Copies(cap);
    assert Tokens(LongText(cap), USIZE_MAX)[cap] == SERVER;
  }

  /** So the copy finds, under a word of that text, what the original does not. */
  lemma CutTextAnswersDiffer(cap: nat, id: Bytes, ln: real -> real)
    requires 1 <= cap < USIZE_MAX
    ensures var keep := (other: Bytes) => other == id;
            && Scores(ln, map[id := Tokens(LongText(cap), cap)], [SERVER], keep) == map[]
            && id in Scores(ln, map[id := Tokens(LongText(cap), USIZE_MAX)], [SERVER], keep)
  {
    hide Score, Tokens;
    CutText(cap);
    var keep := (other: Bytes) => other == id;
    assert SERVER in [SERVER];
    assert Matches(map[id := Tokens(LongText(cap), cap)], [SERVER], keep) == {};
    assert id in Matches(map[id := Tokens(LongText(cap), USIZE_MAX)], [SERVER], keep);
  }

  /** And un-indexing it on the copy, under the cap, leaves a posting behind. */
  lemma CopyThenDeleteLeavesPosting(cap: nat, id: Bytes, postings: map<Bytes, seq<Posting>>)
    requires 1 <= cap < USIZE_MAX
    requires Agrees(postings, BagsOf(map[id := Tokens(LongText(cap), USIZE_MAX)]))
    ensures Leftover(Stripped(postings, id, Cleared(Some(LongText(cap)), cap)), {})
  {
    hide Tokens, Agrees, Stripped, Leftover, BagOf;
    var docs := map[id := Tokens(LongText(cap), USIZE_MAX)];
    CutText(cap);
    BagsAt(docs, id);
    assert SERVER in TermsOf(docs[id]) && SERVER !in Cleared(Some(LongText(cap)), cap);
    StrippedLeaves(postings, BagsOf(docs), id, Cleared(Some(LongText(cap)), cap));
    assert (BagsOf(docs) - {id}).Keys == {};
  }

  /** A record whose only word is "memory", loaded a second time: the word's list comes to name the
      document twice. */
  lemma LoadedTwiceClashes(id: Bytes, cap: nat, postings: map<Bytes, seq<Posting>>)
    requires Agrees(postings, BagsOf(map[id := Tokens(MEMORY, cap)]))
    ensures !Agrees(Extended(postings, id, BagOf(Tokens(MEMORY, cap))), BagsOf(map[id := Tokens(MEMORY, cap)]))
  {
    hide Agrees, Extended, Stripped, BagOf, Tokens;
    var terms := Tokens(MEMORY, cap);
    var docs := map[id := terms];
    MemoryReadsBack(cap);
    ReindexedDocs(postings, docs, id, {}, terms);
    StrippedNothing(postings, id);
    assert MEMORY in TermsOf(terms) && docs[id := terms] == docs;
  }

  lemma MemoryReadsBack(cap: nat)
    ensures Tokens(MEMORY, cap) == [MEMORY]
  {
    hide Survives, TokensFrom;
    BothSurvive();
    LowerWords();
    assert MEMORY + [] == MEMORY && [] + MEMORY == MEMORY && [] + [MEMORY] == [MEMORY];
    Spelled(MEMORY, [], [], [], cap);
    WordEnds(MEMORY, [], [], cap);
  }

  /** A record that expired and was not swept counts in the original's statistics and not in the
      copy's: the live record beside it scores differently, under any increasing logarithm. */
  lemma ExpiredAnswersDiffer(live: Bytes, expired: Bytes, ln: real -> real)
    requires live != expired && ln(1.2) < ln(4.0 / 3.0)
    ensures var keep := (id: Bytes) => id == live;
            var docs, copied := map[live := [MEMORY], expired := [MEMORY]], map[live := [MEMORY]];
            && Scores(ln, docs, [MEMORY], keep) == map[live := ln(1.2)]
            && Scores(ln, copied, [MEMORY], keep) == map[live := ln(4.0 / 3.0)]
  {
    var keep := (id: Bytes) => id == live;
    var docs, copied := map[live := [MEMORY], expired := [MEMORY]], map[live := [MEMORY]];
    hide Scores, Argument;
    assert docs.Keys == {live, expired} && copied.Keys == {live};
    assert |{live, expired}| == 2 && |{live}| == 1;
    OneWordScore(docs, live, ln, {live, expired}, keep);
    OneWordScore(copied, live, ln, {live}, keep);
    Arguments();
  }

  /** With nothing live in the original, both find nothing, though their indexes differ. */
  lemma OnlyExpiredAnswersAlike(expired: Bytes)
    ensures var docs: Docs, copied: Docs := map[expired := [MEMORY]], map[];
            docs != copied && SameAnswers(docs, copied)
  {
    var docs: Docs, copied: Docs := map[expired := [MEMORY]], map[];
    assert expired in docs && expired !in copied;
    hide SameAnswers;
    NothingCut(docs, copied);
  }

  /** Two live records beside two that expired with the same words: the average length and every idf are
      the same without those, so every query is answered alike. */
  lemma TwinsAnswerAlike(a: Bytes, b: Bytes, c: Bytes, d: Bytes)
    requires NoRepeat([a, b, c, d])
    ensures var docs, copied := map[a := [MEMORY], b := [SERVER], c := [MEMORY], d := [SERVER]], map[a := [MEMORY], b := [SERVER]];
            docs != copied && SameAnswers(docs, copied)
  {
    hide SameAnswers, Average, SameIdf;
    var four, words := [a, b, c, d], [MEMORY, SERVER];
    assert four[0] != four[1] && four[0] != four[2] && four[0] != four[3] && four[1] != four[2] && four[1] != four[3] && four[2] != four[3];
    BothSurvive();
    var docs, copied := map[a := [MEMORY], b := [SERVER], c := [MEMORY], d := [SERVER]], map[a := [MEMORY], b := [SERVER]];
    assert c in docs && c !in copied;
    OneWordEach(docs, {a, b, c, d});
    OneWordEach(copied, {a, b});
    Twin(docs, copied, MEMORY, a, c);
    Twin(docs, copied, SERVER, b, d);
    forall id, term | Holds(copied, id, term) ensures SameIdf(docs, copied, term) {
      assert term == MEMORY || term == SERVER;
    }
    NothingCut(docs, copied);
  }

  lemma OneWordEach(docs: Docs, ids: set<Bytes>)
    requires docs.Keys == ids && ids != {} && forall id | id in ids :: |docs[id]| == 1
    ensures Average(docs) == 1.0 && |docs| == |ids|
  {
    hide Average, Total;
    assert |docs| == |docs.Keys|;
    OneEach(docs, ids);
    assert docs != map[];
    AverageOne(docs);
  }

  lemma Twin(docs: Docs, copied: Docs, term: Bytes, x: Bytes, y: Bytes)
    requires |docs| == 4 && |copied| == 2 && x != y
    requires Holders(docs, term) == {x, y} && Holders(copied, term) == {x}
    ensures SameIdf(docs, copied, term)
  {
  }

  lemma Arguments()
    ensures Argument(2, 2) == 1.2 && Argument(1, 1) == 4.0 / 3.0
  {
  }

  lemma OneWordScore(docs: Docs, live: Bytes, ln: real -> real, ids: set<Bytes>, keep: Bytes -> bool)
    requires live in ids && docs.Keys == ids && (forall id | id in ids :: docs[id] == [MEMORY])
    requires forall id | id in ids :: keep(id) <==> id == live
    ensures Scores(ln, docs, [MEMORY], keep) == map[live := ln(Argument(|ids|, |ids|))]
  {
    hide Worth, Average;
    assert MEMORY in [MEMORY];
    assert Matches(docs, [MEMORY], keep) == {live};
    OneTerm(ln, docs, live, MEMORY, keep);
    WorthUnfolds(ln, docs, live, MEMORY);
    assert Holders(docs, MEMORY) == ids;
    assert |docs| == |docs.Keys|;
    OneEach(docs, ids);
    assert Average(docs) == 1.0 by { AverageOne(docs); }
    assert Tf([MEMORY], MEMORY) == 1;
    assert Weight(docs, live, MEMORY) == 1.0;
    assert Scores(ln, docs, [MEMORY], keep).Keys == {live};
  }

  lemma {:induction false} OneEach(docs: Docs, ids: set<Bytes>)
    requires docs.Keys == ids && forall id | id in ids :: |docs[id]| == 1
    ensures Total(LengthsOf(docs)) == |ids|
    decreases |ids|
  {
    if ids == {} {
      assert LengthsOf(docs) == map[];
    } else {
      var id :| id in ids;
      LengthsAt(docs, id);
      TotalAt(LengthsOf(docs), id);
      OneEach(docs - {id}, ids - {id});
    }
  }

  lemma AverageOne(docs: Docs)
    requires docs != map[] && Total(LengthsOf(docs)) == |docs|
    ensures Average(docs) == 1.0
  {
    hide Total;
    var id :| id in docs;
    assert |docs - {id}| == |docs| - 1;
    SelfQuotient(|docs| as real);
  }

  lemma SelfQuotient(x: real)
    requires x > 0.0
    ensures x / x == 1.0
  {
  }
}
