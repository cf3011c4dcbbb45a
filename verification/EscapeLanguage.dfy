/** The languages EscapeString writes and UnescapeString reads (core/strings.cc), byte by byte. */
module EscapeLanguage {
  import opened Escaping

  /** The one-letter escapes: the byte that is escaped, and the letter that stands for it. */
  const LETTERS: seq<(octet, octet)> := [
    (0x22, 0x22), (0x5C, 0x5C), (0x08, 0x62), (0x0C, 0x66), (0x0A, 0x6E), (0x0D, 0x72), (0x09, 0x74)]

  /** The hexadecimal digits in both cases, and their values. */
  const DIGITS: seq<(octet, octet)> := [
    (0x30, 0), (0x31, 1), (0x32, 2), (0x33, 3), (0x34, 4), (0x35, 5), (0x36, 6), (0x37, 7),
    (0x38, 8), (0x39, 9), (0x61, 10), (0x62, 11), (0x63, 12), (0x64, 13), (0x65, 14), (0x66, 15),
    (0x41, 10), (0x42, 11), (0x43, 12), (0x44, 13), (0x45, 14), (0x46, 15)]

  lemma ItemThen(item: seq<octet>, rest: seq<octet>, b: octet)
    requires item != [] && FirstItem(item + rest) == Item(b, |item|)
    ensures Unescape(item + rest) == Cons(b, Unescape(rest))
  {
    assert (item + rest)[|item|..] == rest;
  }

  lemma EscapeOne(b: octet)
    ensures Escape([b]) == EscapeByte(b)
  {
    ValidatorIsStandard([b]);
    assert Multibyte([b]) == 0;
    assert Escape([b][1..]) == [];
  }

  /** A one-letter escape is what EscapeString writes for its byte, and UnescapeString reads it back anywhere. */
  lemma LettersEscaped(i: nat, rest: seq<octet>)
    requires i < |LETTERS|
    ensures Escape([LETTERS[i].0]) == [0x5C, LETTERS[i].1]
    ensures Unescape([0x5C, LETTERS[i].1] + rest) == Cons(LETTERS[i].0, Unescape(rest))
  {
    EscapeOne(LETTERS[i].0);
    ItemThen([0x5C, LETTERS[i].1], rest, LETTERS[i].0);
  }

  /** An escaped slash, which EscapeString never writes, is read as a slash. */
  lemma SlashUnescaped(rest: seq<octet>)
    ensures Unescape([0x5C, 0x2F] + rest) == Cons(0x2F, Unescape(rest))
  {
    ItemThen([0x5C, 0x2F], rest, 0x2F);
  }

  /** A hexadecimal digit of either case has the value of its place, and nothing else is one. */
  lemma HexDigits(i: nat)
    requires i < |DIGITS|
    ensures HexDigitValue(DIGITS[i].0) == Hex(DIGITS[i].1)
  {
  }

  lemma NoOtherDigits(c: octet)
    requires forall i :: 0 <= i < |DIGITS| ==> c != DIGITS[i].0
    ensures HexDigitValue(c).NotHex?
  {
    assert DIGITS[0].0 == 0x30 && DIGITS[1].0 == 0x31 && DIGITS[2].0 == 0x32 && DIGITS[3].0 == 0x33 && DIGITS[4].0 == 0x34 && DIGITS[5].0 == 0x35;
    assert DIGITS[6].0 == 0x36 && DIGITS[7].0 == 0x37 && DIGITS[8].0 == 0x38 && DIGITS[9].0 == 0x39 && DIGITS[10].0 == 0x61 && DIGITS[11].0 == 0x62;
    assert DIGITS[12].0 == 0x63 && DIGITS[13].0 == 0x64 && DIGITS[14].0 == 0x65 && DIGITS[15].0 == 0x66 && DIGITS[16].0 == 0x41 && DIGITS[17].0 == 0x42;
    assert DIGITS[18].0 == 0x43 && DIGITS[19].0 == 0x44 && DIGITS[20].0 == 0x45 && DIGITS[21].0 == 0x46;
  }

  /** A hexadecimal escape with digits of any case is read as the byte they denote. */
  lemma HexUnescaped(i: nat, j: nat, rest: seq<octet>)
    requires i < |DIGITS| && j < |DIGITS|
    ensures Unescape([0x5C, 0x78, DIGITS[i].0, DIGITS[j].0] + rest) == Cons(0x10 * DIGITS[i].1 + DIGITS[j].1, Unescape(rest))
  {
    HexDigits(i);
    HexDigits(j);
    NibblesJoined(DIGITS[i].1, DIGITS[j].1);
    hide HexDigitValue;
    ItemThen([0x5C, 0x78, DIGITS[i].0, DIGITS[j].0], rest, 0x10 * DIGITS[i].1 + DIGITS[j].1);
  }

  lemma NibblesJoined(h: octet, l: octet)
    requires h < 16 && l < 16
    ensures (h << 4) | l == 0x10 * h + l
  {
  }

  predicate LowerCase(c: octet) { 0x30 <= c <= 0x39 || 0x61 <= c <= 0x66 }

  /** Every other control byte, and every byte from 0x7F on that no character contains, is written as two lower-case digits. */
  lemma HexEscaped(b: octet)
    requires (b < 0x20 || b >= 0x7F) && b != 0x08 && b != 0x09 && b != 0x0A && b != 0x0C && b != 0x0D
    ensures |Escape([b])| == 4 && Escape([b])[..2] == [0x5C, 0x78]
    ensures LowerCase(Escape([b])[2]) && HexDigitValue(Escape([b])[2]) == Hex(b >> 4)
    ensures LowerCase(Escape([b])[3]) && HexDigitValue(Escape([b])[3]) == Hex(b & 0x0F)
  {
    EscapeOne(b);
  }

  /** Every other byte below 0x7F is written as itself. */
  lemma PlainEscaped(b: octet)
    requires 0x20 <= b < 0x7F && b != 0x22 && b != 0x5C
    ensures Escape([b]) == [b]
  {
    EscapeOne(b);
  }

  /** Bytes that begin no valid character are escaped one at a time; a valid multi-byte character is copied. */
  lemma EscapeSplits(s: seq<octet>)
    requires s != []
    ensures Utf8Char(s) <= 1 ==> Escape(s) == Escape([s[0]]) + Escape(s[1..])
    ensures Utf8Char(s) > 1 ==> Escape(s) == s[..Utf8Char(s)] + Escape(s[Utf8Char(s)..])
  {
    ValidatorIsStandard(s);
    EscapeOne(s[0]);
    hide EscapeByte;
  }

  /** Anything else after a backslash, or too little of it, is refused. */
  lemma NothingElseUnescaped(s: seq<octet>)
    requires s != [] && s[0] == 0x5C
    requires |s| >= 2 ==> s[1] != 0x2F && forall k :: 0 <= k < |LETTERS| ==> s[1] != LETTERS[k].1
    requires |s| >= 4 && s[1] == 0x78 ==> HexDigitValue(s[2]).NotHex? || HexDigitValue(s[3]).NotHex?
    ensures Unescape(s) == InvalidArgument
  {
    assert LETTERS[0].1 == 0x22 && LETTERS[1].1 == 0x5C && LETTERS[2].1 == 0x62 && LETTERS[3].1 == 0x66
      && LETTERS[4].1 == 0x6E && LETTERS[5].1 == 0x72 && LETTERS[6].1 == 0x74;
    hide HexDigitValue;
  }

  /** Anything but a backslash is read as itself. */
  lemma PlainUnescaped(b: octet, rest: seq<octet>)
    requires b != 0x5C
    ensures Unescape([b] + rest) == Cons(b, Unescape(rest))
  {
    ItemThen([b], rest, b);
  }
}
