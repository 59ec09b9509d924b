/** What keyword search makes of the bytes of a text, and how its scores compare. */
module Wording {
  import opened ByteStrings
  import opened TextIndexes

  // ------------------------------------------------------------------
  // Letter case

  /** Byte for byte the same, or an ASCII capital in the one where the other has its small letter. */
  predicate SameButCase(a: Bytes, b: Bytes) {
    && |a| == |b|
    && forall i | 0 <= i < |a| ::
         || a[i] == b[i]
         || (65 <= a[i] <= 90 && b[i] == a[i] + 32)
         || (65 <= b[i] <= 90 && a[i] == b[i] + 32)
  }

  /** Two texts that differ only in letter case have the same terms, under any cap. */
  lemma CaseIgnored(a: Bytes, b: Bytes, cap: nat)
    requires SameButCase(a, b)
    ensures Tokens(a, cap) == Tokens(b, cap)
  {
    CaseIgnoredFrom(a, b, [], [], cap);
  }

  lemma {:induction false} CaseIgnoredFrom(a: Bytes, b: Bytes, terms: seq<Bytes>, current: Bytes, cap: nat)
    requires SameButCase(a, b)
    ensures TokensFrom(a, terms, current, cap) == TokensFrom(b, terms, current, cap)
    decreases |a|
  {
    hide Pushed;
    if a != [] {
      if IsWordByte(a[0]) {
        CaseIgnoredFrom(a[1..], b[1..], terms, current + [LowerByte(a[0])], cap);
      } else {
        CaseIgnoredFrom(a[1..], b[1..], Pushed(terms, current), [], cap);
      }
    }
  }

  /** Digits, small letters, the underscore and the bytes beyond ASCII: what terms are made of. */
  predicate Wordlike(term: Bytes) {
    forall b | b in term :: 48 <= b <= 57 || 97 <= b <= 122 || b == 95 || 128 <= b
  }

  /** No term holds a capital, nor a byte that separates words; none is a single byte or a stopword. */
  lemma {:induction false} TermsAreWordlike(text: Bytes, terms: seq<Bytes>, current: Bytes, cap: nat)
    requires Wordlike(current) && forall t | t in terms :: Wordlike(t) && |t| >= 2 && !IsStopword(t)
    ensures forall t | t in TokensFrom(text, terms, current, cap) :: Wordlike(t) && |t| >= 2 && !IsStopword(t)
    decreases |text|
  {
    hide IsStopword;
    if text != [] {
      if IsWordByte(text[0]) {
        TermsAreWordlike(text[1..], terms, current + [LowerByte(text[0])], cap);
      } else {
        TermsAreWordlike(text[1..], Pushed(terms, current), [], cap);
      }
    }
  }

  /** The words too common to index: an article, a preposition, a pronoun or the like, by name. */
  lemma StopwordsAre(word: string)
    requires forall i | 0 <= i < |word| :: word[i] < 128 as char
    ensures IsStopword(Ascii(word)) <==> word in [
              "a", "an", "and", "are", "as", "at", "be", "but", "by", "for", "from", "had", "has", "have",
              "he", "her", "his", "in", "is", "it", "its", "of", "on", "or", "she", "that", "the", "their",
              "them", "then", "there", "these", "they", "this", "to", "was", "were", "with"]
  {
    if IsStopword(Ascii(word)) {
      var i :| 0 <= i < |STOPWORDS| && Ascii(STOPWORDS[i]) == Ascii(word);
      StopwordsAreSmall(i);
      SameAscii(STOPWORDS[i], word);
      assert word in STOPWORDS;
    } else {
      assert forall i | 0 <= i < |STOPWORDS| :: Ascii(STOPWORDS[i]) != Ascii(word);
      assert word !in STOPWORDS;
    }
  }

  lemma StopwordsAreSmall(i: nat)
    requires i < |STOPWORDS|
    ensures forall k | 0 <= k < |STOPWORDS[i]| :: STOPWORDS[i][k] < 128 as char
  {
  }

  lemma SameAscii(a: string, b: string)
    requires Ascii(a) == Ascii(b)
    requires (forall k | 0 <= k < |a| :: a[k] < 128 as char) && forall k | 0 <= k < |b| :: b[k] < 128 as char
    ensures a == b
  {
    forall k | 0 <= k < |a| ensures a[k] == b[k] {
      assert Ascii(a)[k] as int == a[k] as int && Ascii(b)[k] as int == b[k] as int;
    }
  }

  // ------------------------------------------------------------------
  // Words and what stands between them

  predicate SpellsWord(b: Byte) {
    48 <= b <= 57 || 65 <= b <= 90 || 97 <= b <= 122 || b == 95 || 128 <= b
  }

  /** Words, each before a gap, the first after one. */
  predicate Text(words: seq<Bytes>, gaps: seq<Bytes>) {
    && |gaps| == |words| + 1
    && (forall i | 0 <= i < |words| :: words[i] != [] && forall b | b in words[i] :: SpellsWord(b))
    && (forall i | 0 <= i < |gaps| :: forall b | b in gaps[i] :: !SpellsWord(b))
    && (forall i | 0 < i < |words| :: gaps[i] != [])
  }

  function Written(words: seq<Bytes>, gaps: seq<Bytes>): Bytes
    requires |gaps| == |words| + 1
  {
    gaps[0] + if words == [] then [] else words[0] + Written(words[1..], gaps[1..])
  }

  function Lowered(word: Bytes): (lowered: Bytes)
    ensures |lowered| == |word|
    ensures forall i | 0 <= i < |word| :: lowered[i] == if 65 <= word[i] <= 90 then word[i] + 32 else word[i]
  {
    if word == [] then [] else [if 65 <= word[0] <= 90 then word[0] + 32 else word[0]] + Lowered(word[1..])
  }

  /** The words worth finding, in small letters: those of two bytes or more that are no stopwords. */
  function Findable(words: seq<Bytes>): seq<Bytes> {
    if words == [] then []
    else (if |words[0]| > 1 && !IsStopword(Lowered(words[0])) then [Lowered(words[0])] else []) + Findable(words[1..])
  }

  function Least(a: nat, b: nat): nat {
    if a < b then a else b
  }

  /** The terms of a text, however its words are set apart, are its findable words in order, up to the cap. */
  lemma TermsAreTheWords(words: seq<Bytes>, gaps: seq<Bytes>, cap: nat)
    requires Text(words, gaps) && cap > 0
    ensures Tokens(Written(words, gaps), cap) == Findable(words)[..Least(cap, |Findable(words)|)]
  {
    TermsFromWords(words, gaps, [], cap);
  }

  lemma {:induction false} TermsFromWords(words: seq<Bytes>, gaps: seq<Bytes>, terms: seq<Bytes>, cap: nat)
    requires Text(words, gaps) && |terms| < cap
    ensures TokensFrom(Written(words, gaps), terms, [], cap) == terms + Findable(words)[..Least(cap - |terms|, |Findable(words)|)]
    decreases |words|
  {
    hide IsStopword, SpellsWord;
    if words == [] {
      assert gaps[0] + [] == gaps[0];
      GapSkipped(gaps[0], [], terms, cap);
    } else {
      var rest := Written(words[1..], gaps[1..]);
      GapSkipped(gaps[0], words[0] + rest, terms, cap);
      WordRead(words[0], rest, terms, [], cap);
      assert [] + Lowered(words[0]) == Lowered(words[0]);
      WordEnds(words, gaps, terms, cap);
      var next := Pushed(terms, Lowered(words[0]));
      if |next| < cap {
        RestIsText(words, gaps);
        TermsFromWords(words[1..], gaps[1..], next, cap);
      }
      FindableFirst(words, terms, cap);
    }
  }

  lemma RestIsText(words: seq<Bytes>, gaps: seq<Bytes>)
    requires Text(words, gaps) && words != []
    ensures Text(words[1..], gaps[1..])
  {
    hide SpellsWord;
    assert forall i | 0 <= i < |words[1..]| :: words[1..][i] == words[i + 1];
    assert forall i | 0 <= i < |gaps[1..]| :: gaps[1..][i] == gaps[i + 1];
  }

  lemma {:induction false} GapSkipped(gap: Bytes, rest: Bytes, terms: seq<Bytes>, cap: nat)
    requires (forall b | b in gap :: !SpellsWord(b)) && |terms| < cap
    ensures TokensFrom(gap + rest, terms, [], cap) == TokensFrom(rest, terms, [], cap)
    decreases |gap|
  {
    hide Pushed;
    if gap == [] {
      assert gap + rest == rest;
    } else {
      assert (gap + rest)[0] == gap[0] && (gap + rest)[1..] == gap[1..] + rest;
      Separates(gap[0]);
      NothingPushed(terms);
      GapSkipped(gap[1..], rest, terms, cap);
    }
  }

  lemma {:induction false} WordRead(word: Bytes, rest: Bytes, terms: seq<Bytes>, current: Bytes, cap: nat)
    requires forall b | b in word :: SpellsWord(b)
    ensures TokensFrom(word + rest, terms, current, cap) == TokensFrom(rest, terms, current + Lowered(word), cap)
    decreases |word|
  {
    hide IsStopword, Pushed;
    if word == [] {
      assert word + rest == rest && current + Lowered(word) == current;
    } else {
      assert (word + rest)[0] == word[0] && (word + rest)[1..] == word[1..] + rest;
      assert word[0] in word && IsWordByte(word[0]);
      var b := LowerByte(word[0]);
      WordRead(word[1..], rest, terms, current + [b], cap);
      assert Lowered(word) == [b] + Lowered(word[1..]);
      assert current + [b] + Lowered(word[1..]) == current + ([b] + Lowered(word[1..]));
    }
  }

  /** The word spelled so far ends where its gap begins, or with the text. */
  lemma WordEnds(words: seq<Bytes>, gaps: seq<Bytes>, terms: seq<Bytes>, cap: nat)
    requires Text(words, gaps) && words != [] && |terms| < cap
    ensures var rest, next := Written(words[1..], gaps[1..]), Pushed(terms, Lowered(words[0]));
            TokensFrom(rest, terms, Lowered(words[0]), cap) == if |next| < cap then TokensFrom(rest, next, [], cap) else next
  {
    hide Pushed, SpellsWord;
    var rest, next, gap := Written(words[1..], gaps[1..]), Pushed(terms, Lowered(words[0])), gaps[1];
    assert gaps[1..][0] == gap;
    if gap == [] {
      assert |words| == 1 && words[1..] == [] && rest == [];
      NothingPushed(next);
    } else {
      assert rest[0] == gap[0] && !SpellsWord(gap[0]);
      Separates(gap[0]);
      NothingPushed(next);
    }
  }

  lemma Separates(b: Byte)
    requires !SpellsWord(b)
    ensures !IsWordByte(b)
  {
  }

  lemma NothingPushed(terms: seq<Bytes>)
    ensures Pushed(terms, []) == terms
  {
  }

  lemma FindableFirst(words: seq<Bytes>, terms: seq<Bytes>, cap: nat)
    requires words != [] && |terms| < cap
    ensures var next, more := Pushed(terms, Lowered(words[0])), Findable(words[1..]);
            terms + Findable(words)[..Least(cap - |terms|, |Findable(words)|)]
            == if |next| < cap then next + more[..Least(cap - |next|, |more|)] else next
  {
    hide Findable, Pushed, Survives;
    var first := if Survives(Lowered(words[0])) then [Lowered(words[0])] else [];
    FirstFound(words, terms);
    CutAfterFirst(terms, first, Findable(words[1..]), cap - |terms|);
  }

  lemma FirstFound(words: seq<Bytes>, terms: seq<Bytes>)
    requires words != []
    ensures var first := if Survives(Lowered(words[0])) then [Lowered(words[0])] else [];
            Findable(words) == first + Findable(words[1..]) && Pushed(terms, Lowered(words[0])) == terms + first
  {
    hide IsStopword;
  }

  lemma CutAfterFirst(terms: seq<Bytes>, first: seq<Bytes>, more: seq<Bytes>, room: nat)
    requires |first| <= 1 <= room
    ensures terms + (first + more)[..Least(room, |first + more|)]
            == if |first| < room then terms + first + more[..Least(room - |first|, |more|)] else terms + first
  {
    if |first| == room { assert (first + more)[..room] == first; }
  }

  // ------------------------------------------------------------------
  // Scores

  lemma Quotients(a: real, b: real, c: real, d: real)
    requires b > 0.0 && d > 0.0 && a * d < c * b
    ensures a / b < c / d
  {
    var x, y := a / b, c / d;
    assert a == x * b && c == y * d;
  }

  lemma Scales(x: real, y: real, p: real)
    requires x <= y && p > 0.0
    ensures x * p <= y * p
  {
  }

  /** How far a document's length damps its terms. */
  function Damping(length: nat, avg: real): (k: real)
    requires avg > 0.0
    ensures k > 0.0
  {
    QuotientSign(0.75 * length as real, avg);
    1.2 * (0.25 + 0.75 * length as real / avg)
  }

  /** A term's weight in a document is its count over its count and the damping, times 2.2: so a term that
      occurs more weighs more, but never 2.2; and once, in a document of average length, it weighs one. */
  lemma WeightOfCounts(tf: nat, more: nat, length: nat, avg: real)
    requires avg > 0.0 && tf < more
    ensures Saturated(more, length, avg) == more as real * 2.2 / (more as real + Damping(length, avg))
    ensures Saturated(tf, length, avg) < Saturated(more, length, avg) < 2.2
    ensures length > 0 && avg == length as real ==> Saturated(1, length, avg) == 1.0
  {
    MoreWeighs(tf as real, more as real, Damping(length, avg));
    if length > 0 && avg == length as real { OnceWeighsOne(length, avg); }
  }

  lemma OnceWeighsOne(length: nat, avg: real)
    requires length > 0 && avg == length as real
    ensures Saturated(1, length, avg) == 1.0
  {
  }

  lemma MoreWeighs(m: real, n: real, k: real)
    requires 0.0 <= m < n && k > 0.0
    ensures m * 2.2 / (m + k) < n * 2.2 / (n + k) < 2.2
  {
    var mk, nk := m * k, n * k;
    Scales(m, n, k);
    assert mk < nk by { assert nk - mk == (n - m) * k; Positive(n - m, k); }
    assert (m * 2.2) * (n + k) < (n * 2.2) * (m + k) by {
      var mn := m * n;
      assert (m * 2.2) * (n + k) == 2.2 * mn + 2.2 * mk && (n * 2.2) * (m + k) == 2.2 * mn + 2.2 * nk;
    }
    Quotients(m * 2.2, m + k, n * 2.2, n + k);
    Positive(n, k);
    Quotients(n * 2.2, n + k, 2.2, 1.0);
  }

  lemma Positive(x: real, y: real)
    requires x > 0.0 && y > 0.0
    ensures x * y > 0.0
  {
  }

  /** A term weighs less in a longer document. */
  lemma WeightOfLengths(tf: nat, length: nat, longer: nat, avg: real)
    requires avg > 0.0 && tf > 0 && length < longer
    ensures Saturated(tf, longer, avg) < Saturated(tf, length, avg)
  {
    Quotients(0.75 * length as real, avg, 0.75 * longer as real, avg);
    var k, l, m := Damping(length, avg), Damping(longer, avg), tf as real * 2.2;
    assert k < l;
    assert m * (tf as real + k) < m * (tf as real + l) by { Positive(m, l - k); }
    Quotients(m, tf as real + l, m, tf as real + k);
  }

  /** Of two terms the one that fewer documents hold is worth more. */
  lemma RarerIsWorthMore(ln: real -> real, n: nat, df: nat, more: nat)
    requires df < more <= n && forall x, y | 0.0 < x < y :: ln(x) < ln(y)
    ensures Idf(ln, n, more) < Idf(ln, n, df)
  {
    var a, b, c, d := n as real - more as real + 0.5, more as real + 0.5, n as real - df as real + 0.5, df as real + 0.5;
    CrossedOdds(n as real, df as real, more as real);
    Quotients(a, b, c, d);
    Quotients(0.0, 1.0, a, b);
  }

  lemma CrossedOdds(n: real, df: real, more: real)
    requires 0.0 <= df < more <= n
    ensures (n - more + 0.5) * (df + 0.5) < (n - df + 0.5) * (more + 0.5)
  {
    Positive(more - df, n + 1.0);
    var p, q, r := n * df, n * more, more * df;
    assert (n - more + 0.5) * (df + 0.5) == p + 0.5 * n - r - 0.5 * more + 0.5 * df + 0.25;
    assert (n - df + 0.5) * (more + 0.5) == q + 0.5 * n - r - 0.5 * df + 0.5 * more + 0.25;
    assert (more - df) * (n + 1.0) == q - p + more - df;
  }

  /** Hits come best first, and by id where scores are equal; whatever is left out scores no better. */
  lemma BestComeFirst(hits: seq<Hit>, scores: map<Bytes, real>, limit: nat)
    requires TopOf(hits, scores, limit)
    ensures forall i, j | 0 <= i < j < |hits| ::
              hits[i].score >= hits[j].score && (hits[i].score == hits[j].score ==> LexLess(hits[i].id, hits[j].id))
    ensures forall h, id | h in hits && id in scores && Hit(id, scores[id]) !in hits :: h.score >= scores[id]
  {
  }
}
