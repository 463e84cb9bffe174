/** The bech32 alphabet: the two character tables of `bech32.c`, and letter case. */
module Charset {
  import opened Bytes

  /** The character `1` between the human-readable part and the data. */
  const SEPARATOR: byte := 0x31

  /** What the reverse table holds for a character outside the alphabet. */
  const NO_SYMBOL: byte := 0xff

  /** `qpzry9x8gf2tvdw0s3jn54khce6mua7l`, by symbol. */
  function CharOf(v: byte): byte {
    match v
    case 0 => 0x71 case 1 => 0x70 case 2 => 0x7a case 3 => 0x72
    case 4 => 0x79 case 5 => 0x39 case 6 => 0x78 case 7 => 0x38
    case 8 => 0x67 case 9 => 0x66 case 10 => 0x32 case 11 => 0x74
    case 12 => 0x76 case 13 => 0x64 case 14 => 0x77 case 15 => 0x30
    case 16 => 0x73 case 17 => 0x33 case 18 => 0x6a case 19 => 0x6e
    case 20 => 0x35 case 21 => 0x34 case 22 => 0x6b case 23 => 0x68
    case 24 => 0x63 case 25 => 0x65 case 26 => 0x36 case 27 => 0x6d
    case 28 => 0x75 case 29 => 0x61 case 30 => 0x37 case _ => 0x6c
  }

  /** The reverse table's digits. */
  function DigitRev(c: byte): byte {
    match c
    case 0x30 => 15 case 0x32 => 10 case 0x33 => 17 case 0x34 => 21 case 0x35 => 20 case 0x36 => 26
    case 0x37 => 30 case 0x38 => 7 case 0x39 => 5 case _ => NO_SYMBOL
  }

  /** The reverse table's letters, by position in the alphabet: the row stands there twice. */
  function LetterRev(k: byte): byte {
    match k
    case 1 => 29 case 3 => 24 case 4 => 13 case 5 => 25 case 6 => 9 case 7 => 8 case 8 => 23
    case 10 => 18 case 11 => 22 case 12 => 31 case 13 => 27 case 14 => 19 case 16 => 1 case 17 => 0
    case 18 => 3 case 19 => 16 case 20 => 11 case 21 => 28 case 22 => 12 case 23 => 14 case 24 => 6
    case 25 => 4 case 26 => 2 case _ => NO_SYMBOL
  }

  function SymbolOf(c: byte): byte {
    if c < 0x40 then DigitRev(c)
    else if c < 0x80 then LetterRev(c & 0x1f)
    else NO_SYMBOL
  }

  predicate IsLower(c: byte) {
    0x61 <= c <= 0x7a
  }

  predicate IsUpper(c: byte) {
    0x41 <= c <= 0x5a
  }

  function ToLower(c: byte): byte {
    if IsUpper(c) then (c - 0x41) + 0x61 else c
  }

  predicate Printable(c: byte) {
    33 <= c <= 126
  }

  /** The two tables undo each other, up to the case of the character. */
  lemma CharOfRoundTrip(v: byte)
    requires v < 32
    ensures SymbolOf(CharOf(v)) == v
  {
  }

  lemma CharOfLower(v: byte)
    requires v < 32
    ensures ToLower(CharOf(v)) == CharOf(v) != SEPARATOR && !IsUpper(CharOf(v))
  {
  }

  lemma DigitRevRoundTrip(c: byte)
    ensures DigitRev(c) != NO_SYMBOL ==> DigitRev(c) < 32 && CharOf(DigitRev(c)) == c && c < 0x40
  {
  }

  lemma LetterRevRoundTrip(k: byte)
    ensures LetterRev(k) != NO_SYMBOL ==> LetterRev(k) < 32 && 0 < k <= 26 && CharOf(LetterRev(k)) == 0x60 | k
  {
  }

  lemma LetterLower(c: byte)
    requires 0x40 <= c < 0x80 && 0 < c & 0x1f <= 26
    ensures ToLower(c) == 0x60 | (c & 0x1f)
  {
  }

  lemma SymbolOfRoundTrip(c: byte)
    ensures SymbolOf(ToLower(c)) == SymbolOf(c)
    ensures SymbolOf(c) != NO_SYMBOL ==> SymbolOf(c) < 32 && CharOf(SymbolOf(c)) == ToLower(c)
  {
    hide DigitRev, LetterRev, CharOf;
    DigitRevRoundTrip(c);
    LetterRevRoundTrip(c & 0x1f);
    if 0x40 <= c < 0x80 && 0 < c & 0x1f <= 26 {
      LetterLower(c);
    }
    assert ToLower(c) & 0x1f == c & 0x1f;
  }

  lemma CaseFacts(c: byte)
    ensures ToLower(ToLower(c)) == ToLower(c)
    ensures Printable(ToLower(c)) <==> Printable(c)
    ensures ToLower(c) & 0x1f == c & 0x1f
    ensures !IsUpper(ToLower(c))
    ensures !IsUpper(c) ==> ToLower(c) == c
    ensures ToLower(c) == SEPARATOR <==> c == SEPARATOR
    ensures IsUpper(c) ==> IsLower(ToLower(c))
  {
  }
}
