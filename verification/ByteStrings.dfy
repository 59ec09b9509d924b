/** Byte strings, decimal text and the other small vocabulary every module shares. */
module ByteStrings {

  newtype Byte = b: int | 0 <= b < 256

  type Bytes = seq<Byte>

  datatype Option<+T> = None | Some(value: T)

  const TAB: Byte := 9
  const LF: Byte := 10
  const CR: Byte := 13
  const SPACE: Byte := 32
  const QUOTE: Byte := 34
  const DOLLAR: Byte := 36
  const APOSTROPHE: Byte := 39
  const STAR: Byte := 42
  const PLUS: Byte := 43
  const MINUS: Byte := 45
  const ZERO: Byte := 48
  const COLON: Byte := 58
  const BACKSLASH: Byte := 92

  const CRLF: Bytes := [CR, LF]

  const I64_MIN: int := -0x8000_0000_0000_0000
  const I64_MAX: int := 0x7fff_ffff_ffff_ffff

  predicate IsDigit(b: Byte) {
    ZERO <= b <= ZERO + 9
  }

  predicate AllDigits(s: Bytes) {
    forall i | 0 <= i < |s| :: IsDigit(s[i])
  }

  /** The decimal text of a number, with no sign and no padding. */
  function Decimal(n: nat): (s: Bytes)
    ensures 0 < |s| && AllDigits(s)
  {
    if n < 10 then [ZERO + n as Byte] else Decimal(n / 10) + [ZERO + (n % 10) as Byte]
  }

  /** The decimal text of a number that may be negative. */
  function IntText(n: int): (s: Bytes)
    ensures 0 < |s|
    ensures forall i | 0 <= i < |s| :: IsDigit(s[i]) || s[i] == MINUS
  {
    if n < 0 then [MINUS] + Decimal(-n) else Decimal(n)
  }

  /** The number a run of digits spells. */
  function DigitsValue(s: Bytes): nat
    requires AllDigits(s)
  {
    if s == [] then 0 else DigitsValue(s[..|s| - 1]) * 10 + (s[|s| - 1] - ZERO) as int
  }

  /** Rust's `str::parse::<usize>` over the width this model needs: an optional `+`, then digits. */
  function ParseNat(s: Bytes): Option<nat> {
    var digits := if s != [] && s[0] == PLUS then s[1..] else s;
    if digits != [] && AllDigits(digits) then Some(DigitsValue(digits)) else None
  }

  /** Rust's `str::parse::<i64>`: an optional sign, then digits, within 64 bits. */
  function ParseI64(s: Bytes): Option<int> {
    if s != [] && s[0] == MINUS then
      if s[1..] != [] && AllDigits(s[1..]) && 0 - DigitsValue(s[1..]) >= I64_MIN
      then Some(0 - DigitsValue(s[1..])) else None
    else
      match ParseNat(s)
      case Some(n) => if n <= I64_MAX then Some(n) else None
      case None => None
  }

  lemma {:induction false} DecimalRoundTrip(n: nat)
    ensures DigitsValue(Decimal(n)) == n
  {
    if n >= 10 {
      DecimalRoundTrip(n / 10);
      assert Decimal(n)[..|Decimal(n)| - 1] == Decimal(n / 10);
    }
  }

  lemma ParseDecimal(n: nat)
    ensures ParseNat(Decimal(n)) == Some(n)
    ensures n <= I64_MAX ==> ParseI64(Decimal(n)) == Some(n)
  {
    DecimalRoundTrip(n);
    assert IsDigit(Decimal(n)[0]);
  }

  /** Printing a 64-bit integer and reading it back gives the same integer. */
  lemma ParseIntText(n: int)
    requires I64_MIN <= n <= I64_MAX
    ensures ParseI64(IntText(n)) == Some(n)
  {
    if n < 0 {
      DecimalRoundTrip(-n);
      assert IntText(n)[1..] == Decimal(-n);
    } else {
      ParseDecimal(n);
    }
  }

  function Unsigned(text: Bytes): Bytes {
    if text != [] && (text[0] == 43 || text[0] == 45) then text[1..] else text
  }

  /** A sign or none, then decimal digits. */
  predicate Number(text: Bytes) {
    Unsigned(text) != [] && forall i | 0 <= i < |Unsigned(text)| :: 48 <= Unsigned(text)[i] <= 57
  }

  /** The number such a text says. */
  function Says(text: Bytes): int
    requires Number(text)
  {
    assert AllDigits(Unsigned(text));
    if text[0] == 45 then 0 - DigitsValue(Unsigned(text)) else DigitsValue(Unsigned(text))
  }

  /** Which texts are read as integers, and as which: those that say a number of 64 bits. */
  lemma IntegersRead(text: Bytes)
    ensures ParseI64(text)
            == if Number(text) && -9_223_372_036_854_775_808 <= Says(text) <= 9_223_372_036_854_775_807
               then Some(Says(text)) else None
  {
    hide DigitsValue;
    assert Number(text) <==> Unsigned(text) != [] && AllDigits(Unsigned(text));
  }

  /** Two numbers never share a decimal text. */
  lemma DecimalInjective(m: nat, n: nat)
    requires Decimal(m) == Decimal(n)
    ensures m == n
  {
    DecimalRoundTrip(m);
    DecimalRoundTrip(n);
  }

  /** The byte an ASCII letter has in upper case; every other byte is itself. */
  function UpperByte(b: Byte): Byte {
    if 97 <= b <= 122 then b - 32 else b
  }

  function Upper(s: Bytes): (u: Bytes)
    ensures |u| == |s|
  {
    seq(|s|, i requires 0 <= i < |s| => UpperByte(s[i]))
  }

  /** The bytes of ASCII text. */
  function Ascii(s: string): (bytes: Bytes)
    ensures |bytes| == |s| && forall i | 0 <= i < |s| && s[i] as int < 256 :: bytes[i] as int == s[i] as int
  {
    seq(|s|, i requires 0 <= i < |s| => (s[i] as int % 256) as Byte)
  }

  /** `token` is `word`, which is in capitals, in any mix of capital and small letters. */
  predicate Spells(token: Bytes, word: string) {
    |token| == |word| && forall i | 0 <= i < |word| ::
      token[i] as int == word[i] as int || ('A' <= word[i] <= 'Z' && token[i] as int == word[i] as int + 32)
  }

  lemma SpelledUpper(token: Bytes, word: string)
    requires forall i | 0 <= i < |word| :: word[i] < 'a'
    ensures Spells(token, word) <==> Upper(token) == Ascii(word)
  {
    if Upper(token) == Ascii(word) {
      forall i | 0 <= i < |word|
        ensures token[i] as int == word[i] as int || ('A' <= word[i] <= 'Z' && token[i] as int == word[i] as int + 32)
      {
        assert Upper(token)[i] == Ascii(word)[i];
      }
    }
  }

  /** The bytes that mark out requests and replies. */
  lemma MarkingBytes()
    ensures [TAB, LF, CR, SPACE, QUOTE, DOLLAR, APOSTROPHE, STAR, PLUS, MINUS, ZERO, COLON, BACKSLASH] == Ascii("\t\n\r \"$'*+-0:\\")
  {
  }

  predicate NoRepeat<T(==)>(s: seq<T>) {
    forall i, j | 0 <= i < j < |s| :: s[i] != s[j]
  }

  function Concat(parts: seq<Bytes>): Bytes {
    if parts == [] then [] else parts[0] + Concat(parts[1..])
  }

  /** `part` sits in `whole` at `at`. */
  predicate Sits(whole: Bytes, at: nat, part: Bytes) {
    at + |part| <= |whole| && whole[at..at + |part|] == part
  }

  lemma SitsSplit(whole: Bytes, at: nat, a: Bytes, b: Bytes)
    requires Sits(whole, at, a + b)
    ensures Sits(whole, at, a) && Sits(whole, at + |a|, b)
  {
    assert whole[at..at + |a|] == (a + b)[..|a|];
    assert whole[at + |a|..at + |a| + |b|] == (a + b)[|a|..];
  }

  /** Byte strings in lexicographic order, the order keys, ids and members sort by. */
  predicate LexLess(a: Bytes, b: Bytes) {
    b != [] && (a == [] || a[0] < b[0] || (a[0] == b[0] && LexLess(a[1..], b[1..])))
  }

  /** The first byte in which two texts differ decides, and a text comes before those that go on from it. */
  lemma {:induction false} FirstDifferenceDecides(same: Bytes, a: Bytes, b: Bytes)
    requires a == [] || b == [] || a[0] != b[0]
    ensures LexLess(same + a, same + b) <==> b != [] && (a == [] || a[0] < b[0])
  {
    if same == [] {
      assert same + a == a && same + b == b;
    } else {
      assert (same + a)[1..] == same[1..] + a && (same + b)[1..] == same[1..] + b;
      FirstDifferenceDecides(same[1..], a, b);
    }
  }

  lemma {:induction false} LexTotal(a: Bytes, b: Bytes)
    ensures a == b || LexLess(a, b) || LexLess(b, a)
  {
    if a != [] && b != [] && a[0] == b[0] {
      LexTotal(a[1..], b[1..]);
      assert a == [a[0]] + a[1..] && b == [b[0]] + b[1..];
    }
  }

  lemma {:induction false} LexIrreflexive(a: Bytes)
    ensures !LexLess(a, a)
  {
    if a != [] {
      LexIrreflexive(a[1..]);
    }
  }

  lemma {:induction false} LexTransitive(a: Bytes, b: Bytes, c: Bytes)
    requires LexLess(a, b) && LexLess(b, c)
    ensures LexLess(a, c)
  {
    if a != [] && a[0] == b[0] == c[0] {
      LexTransitive(a[1..], b[1..], c[1..]);
    }
  }
}
