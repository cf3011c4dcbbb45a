/** EscapeString and UnescapeString of core/strings.cc, over 8-bit characters. */
module Escaping {
  type octet = bv8

  datatype Result = Ok(out: seq<octet>) | InvalidArgument

  const BACKSLASH: octet := 0x5C
  const QUOTE: octet := 0x22

  // ---- UTF-8 ----

  function Utf8SequenceLength(lead: octet): nat {
    if lead & 0x80 == 0x00 then 1
    else if lead & 0xE0 == 0xC0 then 2
    else if lead & 0xF0 == 0xE0 then 3
    else if lead & 0xF8 == 0xF0 then 4
    else 0
  }

  predicate IsValidUtf8Sequence(u: seq<octet>, len: nat) {
    if |u| < len || len == 0 then false
    else if len == 1 then u[0] <= 0x7F
    else if len == 2 then u[0] >= 0xC2 && u[1] & 0xC0 == 0x80
    else if len == 3 then
      && u[1] & 0xC0 == 0x80 && u[2] & 0xC0 == 0x80
      && !(u[0] == 0xE0 && u[1] < 0xA0)
      && !(u[0] == 0xED && u[1] >= 0xA0)
    else if len == 4 then
      && u[1] & 0xC0 == 0x80 && u[2] & 0xC0 == 0x80 && u[3] & 0xC0 == 0x80
      && !(u[0] == 0xF0 && u[1] < 0x90)
      && !(u[0] == 0xF4 && u[1] >= 0x90)
      && u[0] <= 0xF4
    else false
  }

  predicate Tail(b: octet) { 0x80 <= b <= 0xBF }

  /** The length of the UTF8-char (section 4 of RFC 3629) that u begins with, or 0. */
  function Utf8Char(u: seq<octet>): (n: nat)
    ensures n <= |u|
  {
    if u == [] then 0
    else if u[0] <= 0x7F then 1
    else if 0xC2 <= u[0] <= 0xDF then if |u| >= 2 && Tail(u[1]) then 2 else 0
    else if 0xE0 <= u[0] <= 0xEF then
      if |u| >= 3 && Tail(u[2])
         && (if u[0] == 0xE0 then 0xA0 <= u[1] <= 0xBF else if u[0] == 0xED then 0x80 <= u[1] <= 0x9F else Tail(u[1]))
      then 3 else 0
    else if 0xF0 <= u[0] <= 0xF4 then
      if |u| >= 4 && Tail(u[2]) && Tail(u[3])
         && (if u[0] == 0xF0 then 0x90 <= u[1] <= 0xBF else if u[0] == 0xF4 then 0x80 <= u[1] <= 0x8F else Tail(u[1]))
      then 4 else 0
    else 0
  }

  /** UTF8-octets: a sequence of UTF8-char. */
  predicate WellFormed(u: seq<octet>)
    decreases |u|
  {
    u == [] || (Utf8Char(u) > 0 && WellFormed(u[Utf8Char(u)..]))
  }

  lemma TailBits(b: octet)
    ensures b & 0xC0 == 0x80 <==> Tail(b)
  {
  }

  lemma LeadBits(b: octet)
    ensures b & 0x80 == 0x00 <==> b <= 0x7F
    ensures b & 0xE0 == 0xC0 <==> 0xC0 <= b <= 0xDF
    ensures b & 0xF0 == 0xE0 <==> 0xE0 <= b <= 0xEF
    ensures b & 0xF8 == 0xF0 <==> 0xF0 <= b <= 0xF7
  {
  }

  /** The validator accepts exactly the characters of the standard. */
  lemma ValidatorIsStandard(u: seq<octet>)
    requires u != []
    ensures IsValidUtf8Sequence(u, Utf8SequenceLength(u[0])) <==> Utf8Char(u) > 0
    ensures Utf8Char(u) > 0 ==> Utf8Char(u) == Utf8SequenceLength(u[0])
  {
    LeadBits(u[0]);
    if |u| >= 2 {
      TailBits(u[1]);
    }
    if |u| >= 3 {
      TailBits(u[2]);
    }
    if |u| >= 4 {
      TailBits(u[3]);
    }
  }

  // ---- Escaping ----

  function HexDigit(n: octet): octet {
    if n < 10 then 0x30 + n else 0x57 + n
  }

  function EscapeByte(b: octet): seq<octet> {
    if b == QUOTE then [BACKSLASH, QUOTE]
    else if b == BACKSLASH then [BACKSLASH, BACKSLASH]
    else if b == 0x08 then [BACKSLASH, 0x62]
    else if b == 0x0C then [BACKSLASH, 0x66]
    else if b == 0x0A then [BACKSLASH, 0x6E]
    else if b == 0x0D then [BACKSLASH, 0x72]
    else if b == 0x09 then [BACKSLASH, 0x74]
    else if b < 0x20 || b >= 0x7F then [BACKSLASH, 0x78, HexDigit((b >> 4) & 0x0F), HexDigit(b & 0x0F)]
    else [b]
  }

  /** How many input bytes are copied through as one multi-byte character, or 0. */
  function Multibyte(s: seq<octet>): (n: nat)
    requires s != []
    ensures n <= |s| && n != 1
  {
    var len := Utf8SequenceLength(s[0]);
    if len > 1 && IsValidUtf8Sequence(s, len) then len else 0
  }

  function Escape(s: seq<octet>): seq<octet>
    decreases |s|
  {
    if s == [] then []
    else if Multibyte(s) > 0 then s[..Multibyte(s)] + Escape(s[Multibyte(s)..])
    else EscapeByte(s[0]) + Escape(s[1..])
  }

  method EscapeString(s: seq<octet>) returns (out: seq<octet>)
    ensures out == Escape(s)
  {
    assert Escape([]) == [];
    hide *;
    out := [];
    var i := 0;
    while i < |s|
      invariant 0 <= i <= |s|
      invariant out + Escape(s[i..]) == Escape(s)
    {
      var utf8Len := Multibyte(s[i..]);
      EscapeStep(s, i);
      if utf8Len > 0 {
        Regroup(out, s[i..i + utf8Len], Escape(s[i + utf8Len..]));
        out := out + s[i..i + utf8Len];
        i := i + utf8Len;
      } else {
        Regroup(out, EscapeByte(s[i]), Escape(s[i + 1..]));
        out := out + EscapeByte(s[i]);
        i := i + 1;
      }
    }
    assert s[i..] == [];
  }

  lemma Regroup(a: seq<octet>, b: seq<octet>, c: seq<octet>)
    ensures (a + b) + c == a + (b + c)
  {
  }

  lemma EscapeStep(s: seq<octet>, i: nat)
    requires i < |s|
    ensures var n := Multibyte(s[i..]);
            Escape(s[i..]) == if n > 0 then s[i..i + n] + Escape(s[i + n..]) else EscapeByte(s[i]) + Escape(s[i + 1..])
  {
    hide EscapeByte, Multibyte;
    var t := s[i..];
    var n := Multibyte(t);
    assert t[..n] == s[i..i + n] && t[n..] == s[i + n..] && t[1..] == s[i + 1..];
  }

  // ---- Unescaping ----

  datatype Digit = NotHex | Hex(value: octet)

  function HexDigitValue(c: octet): Digit {
    if 0x30 <= c <= 0x39 then Hex(c - 0x30)
    else if 0x61 <= c <= 0x66 then Hex(c - 0x61 + 10)
    else if 0x41 <= c <= 0x46 then Hex(c - 0x41 + 10)
    else NotHex
  }

  /** One escape or plain byte at the front of s: the byte it stands for and how much of s it takes. */
  datatype Item = Item(b: octet, taken: nat) | Bad

  function FirstItem(s: seq<octet>): (r: Item)
    requires s != []
    ensures r.Item? ==> 0 < r.taken <= |s|
  {
    if s[0] != BACKSLASH then Item(s[0], 1)
    else if |s| < 2 then Bad
    else if s[1] == QUOTE || s[1] == BACKSLASH || s[1] == 0x2F then Item(s[1], 2)
    else if s[1] == 0x62 then Item(0x08, 2)
    else if s[1] == 0x66 then Item(0x0C, 2)
    else if s[1] == 0x6E then Item(0x0A, 2)
    else if s[1] == 0x72 then Item(0x0D, 2)
    else if s[1] == 0x74 then Item(0x09, 2)
    else if s[1] == 0x78 then
      if |s| < 4 then Bad
      else
        var h1, h2 := HexDigitValue(s[2]), HexDigitValue(s[3]);
        if h1.NotHex? || h2.NotHex? then Bad else Item((h1.value << 4) | h2.value, 4)
    else Bad
  }

  function Unescape(s: seq<octet>): Result
    decreases |s|
  {
    if s == [] then Ok([])
    else
      match FirstItem(s)
      case Bad => InvalidArgument
      case Item(b, taken) => Cons(b, Unescape(s[taken..]))
  }

  function Cons(b: octet, rest: Result): Result {
    if rest.Ok? then Ok([b] + rest.out) else InvalidArgument
  }

  function Append(front: seq<octet>, rest: Result): Result {
    if rest.Ok? then Ok(front + rest.out) else InvalidArgument
  }

  method UnescapeString(s: seq<octet>) returns (r: Result)
    ensures r == Unescape(s)
  {
    hide FirstItem;
    var out, i := [], 0;
    while i < |s|
      invariant 0 <= i <= |s|
      invariant Unescape(s) == Append(out, Unescape(s[i..]))
    {
      var item := FirstItem(s[i..]);
      if item.Bad? {
        return InvalidArgument;
      }
      assert s[i..][item.taken..] == s[i + item.taken..];
      ghost var rest := Unescape(s[i + item.taken..]);
      assert rest.Ok? ==> out + ([item.b] + rest.out) == (out + [item.b]) + rest.out;
      out, i := out + [item.b], i + item.taken;
    }
    assert out + [] == out;
    r := Ok(out);
  }

  // ---- Undoing an escape ----

  lemma NibblesBack(b: octet)
    ensures HexDigitValue(HexDigit((b >> 4) & 0x0F)).Hex? && HexDigitValue(HexDigit(b & 0x0F)).Hex?
    ensures (HexDigitValue(HexDigit((b >> 4) & 0x0F)).value << 4) | HexDigitValue(HexDigit(b & 0x0F)).value == b
  {
  }

  lemma ItemBack(b: octet, rest: seq<octet>)
    ensures FirstItem(EscapeByte(b) + rest) == Item(b, |EscapeByte(b)|)
  {
    NibblesBack(b);
  }

  /** The bytes of a multi-byte character are all above ASCII. */
  lemma MultibyteHigh(s: seq<octet>)
    requires s != []
    ensures forall i :: 0 <= i < Multibyte(s) ==> s[i] >= 0x80
  {
    ValidatorIsStandard(s);
  }

  lemma {:induction false} UnescapePlain(p: seq<octet>, rest: seq<octet>)
    requires forall i :: 0 <= i < |p| ==> p[i] >= 0x80
    ensures Unescape(p + rest) == Append(p, Unescape(rest))
    decreases |p|
  {
    if p == [] {
      assert p + rest == rest;
      assert Unescape(rest).Ok? ==> [] + Unescape(rest).out == Unescape(rest).out;
    } else {
      assert (p + rest)[1..] == p[1..] + rest;
      UnescapePlain(p[1..], rest);
      var u := Unescape(rest);
      assert u.Ok? ==> [p[0]] + (p[1..] + u.out) == p + u.out;
    }
  }

  /** Unescaping undoes escaping, for every byte string. */
  lemma {:induction false} UnescapeOfEscape(s: seq<octet>)
    ensures Unescape(Escape(s)) == Ok(s)
    decreases |s|
  {
    hide EscapeByte, FirstItem, Multibyte;
    if s != [] {
      hide Unescape;
      var n := Multibyte(s);
      if n > 0 {
        UnescapeOfEscape(s[n..]);
        MultibyteHigh(s);
        UnescapePlain(s[..n], Escape(s[n..]));
        assert s == s[..n] + s[n..];
      } else {
        UnescapeOfEscape(s[1..]);
        UnescapeFirst(s[0], Escape(s[1..]));
        assert s == [s[0]] + s[1..];
      }
    }
  }

  lemma UnescapeFirst(b: octet, rest: seq<octet>)
    ensures Unescape(EscapeByte(b) + rest) == Cons(b, Unescape(rest))
  {
    var e := EscapeByte(b);
    ItemBack(b, rest);
    EscapeByteNonempty(b);
    hide EscapeByte, FirstItem;
    assert (e + rest)[|e|..] == rest;
  }

  lemma EscapeByteNonempty(b: octet)
    ensures EscapeByte(b) != []
  {
  }

  /** So escaping never maps two strings to the same text. */
  lemma EscapeInjective(s: seq<octet>, t: seq<octet>)
    requires Escape(s) == Escape(t)
    ensures s == t
  {
    UnescapeOfEscape(s);
    UnescapeOfEscape(t);
  }

  // ---- What the escaped text looks like ----

  predicate Printable(b: octet) { b >= 0x20 && b != 0x7F }

  lemma EscapeByteClean(b: octet)
    ensures forall i :: 0 <= i < |EscapeByte(b)| ==> 0x20 <= EscapeByte(b)[i] < 0x7F
  {
  }

  lemma {:induction false} WellFormedAscii(p: seq<octet>, rest: seq<octet>)
    requires forall i :: 0 <= i < |p| ==> p[i] <= 0x7F
    requires WellFormed(rest)
    ensures WellFormed(p + rest)
    decreases |p|
  {
    if p == [] {
      assert p + rest == rest;
    } else {
      assert (p + rest)[1..] == p[1..] + rest;
      WellFormedAscii(p[1..], rest);
    }
  }

  lemma WellFormedChar(p: seq<octet>, rest: seq<octet>)
    requires Utf8Char(p) == |p| > 0 && WellFormed(rest)
    ensures WellFormed(p + rest)
  {
    assert Utf8Char(p + rest) == |p|;
    assert (p + rest)[|p|..] == rest;
  }

  /** Whatever the input, the escaped text is well-formed UTF-8 without control bytes. */
  lemma {:induction false} EscapeIsCleanUtf8(s: seq<octet>)
    ensures WellFormed(Escape(s))
    ensures forall i :: 0 <= i < |Escape(s)| ==> Printable(Escape(s)[i])
    decreases |s|
  {
    hide EscapeByte, Multibyte, Utf8Char, WellFormed;
    EmptyWellFormed();
    if s != [] {
      var n := Multibyte(s);
      if n > 0 {
        EscapeIsCleanUtf8(s[n..]);
        MultibyteHigh(s);
        MultibyteIsChar(s);
        WellFormedChar(s[..n], Escape(s[n..]));
      } else {
        EscapeIsCleanUtf8(s[1..]);
        EscapeByteClean(s[0]);
        WellFormedAscii(EscapeByte(s[0]), Escape(s[1..]));
      }
    }
  }

  lemma EmptyWellFormed()
    ensures WellFormed([])
  {
  }

  lemma MultibyteIsChar(s: seq<octet>)
    requires s != [] && Multibyte(s) > 0
    ensures Utf8Char(s[..Multibyte(s)]) == Multibyte(s)
  {
    ValidatorIsStandard(s);
  }

  lemma {:induction false} CleanTextUnchanged(s: seq<octet>)
    requires WellFormed(s)
    requires forall i :: 0 <= i < |s| ==> Printable(s[i]) && s[i] != QUOTE && s[i] != BACKSLASH
    ensures Escape(s) == s
    decreases |s|
  {
    if s != [] {
      ValidatorIsStandard(s);
      LeadBits(s[0]);
      var n := Utf8Char(s);
      if n == 1 {
        PrintableAscii(s[0]);
      }
      hide WellFormed, IsValidUtf8Sequence, EscapeByte;
      CleanTextUnchanged(s[n..]);
      if n == 1 {
        assert Multibyte(s) == 0 && s == [s[0]] + s[1..];
      } else {
        assert Multibyte(s) == n && s == s[..n] + s[n..];
      }
    }
  }

  lemma PrintableAscii(b: octet)
    requires Printable(b) && b <= 0x7F && b != QUOTE && b != BACKSLASH
    ensures EscapeByte(b) == [b]
  {
  }

  predicate Clean(b: octet) { Printable(b) && b != QUOTE && b != BACKSLASH }

  lemma EscapeByteLength(b: octet)
    ensures |EscapeByte(b)| >= 1 && (b == QUOTE || b == BACKSLASH ==> |EscapeByte(b)| >= 2)
  {
  }

  lemma {:induction false} EscapeGrows(s: seq<octet>)
    ensures |Escape(s)| >= |s|
    ensures (exists i :: 0 <= i < |s| && (s[i] == QUOTE || s[i] == BACKSLASH)) ==> |Escape(s)| > |s|
    decreases |s|
  {
    hide EscapeByte, Multibyte;
    if s != [] {
      var n := Multibyte(s);
      if n > 0 {
        MultibyteHigh(s);
        EscapeGrows(s[n..]);
        forall i | 0 <= i < |s| && (s[i] == QUOTE || s[i] == BACKSLASH) ensures |Escape(s)| > |s| {
          assert i >= n && s[n..][i - n] == s[i];
        }
      } else {
        EscapeByteLength(s[0]);
        EscapeGrows(s[1..]);
        forall i | 0 <= i < |s| && (s[i] == QUOTE || s[i] == BACKSLASH) ensures |Escape(s)| > |s| {
          assert i > 0 ==> s[1..][i - 1] == s[i];
        }
      }
    }
  }

  /** Escaping leaves exactly the clean texts alone: well-formed UTF-8 without controls, quotes or backslashes. */
  lemma FixedTexts(s: seq<octet>)
    ensures Escape(s) == s <==> WellFormed(s) && forall i :: 0 <= i < |s| ==> Clean(s[i])
  {
    hide Escape, WellFormed;
    EscapeIsCleanUtf8(s);
    EscapeGrows(s);
    if WellFormed(s) && forall i :: 0 <= i < |s| ==> Clean(s[i]) {
      CleanTextUnchanged(s);
    }
  }
}
