/** HumanReadable of core/strings.cc: a duration in at most four units, rounded to the fourth. */
module HumanReadables {
  import opened Basics

  const UNITS: nat := 8

  function Nanos(i: nat): (n: nat)
    requires i < UNITS
    ensures n > 0
  {
    [31_536_000_000_000_000, 86_400_000_000_000, 3_600_000_000_000, 60_000_000_000,
     1_000_000_000, 1_000_000, 1_000, 1][i]
  }

  function Suffix(i: nat): string
    requires i < UNITS
  {
    ["y", "d", "h", "m", "s", "ms", "us", "ns"][i]
  }

  datatype ActiveUnit = ActiveUnit(index: nat, count: nat)

  predicate Known(units: seq<ActiveUnit>) {
    forall k :: 0 <= k < |units| ==> units[k].index < UNITS
  }

  function Quot(x: nat, d: nat): nat requires d > 0 { x / d }

  function Rem(x: nat, d: nat): (r: nat)
    requires d > 0
    ensures r < d
  {
    x % d
  }

  function Times(a: nat, b: nat): nat { a * b }

  /** The non-zero units of rem, from unit i down. */
  function NonZero(rem: nat, i: nat): (units: seq<ActiveUnit>)
    requires i <= UNITS
    ensures forall k :: 0 <= k < |units| ==> i <= units[k].index < UNITS && units[k].count > 0
    decreases UNITS - i
  {
    if i == UNITS then []
    else
      var count := Quot(rem, Nanos(i));
      if count > 0 then [ActiveUnit(i, count)] + NonZero(Rem(rem, Nanos(i)), i + 1) else NonZero(rem, i + 1)
  }

  method GetNonZeroUnits(ns: nat) returns (result: seq<ActiveUnit>)
    ensures result == NonZero(ns, 0)
  {
    hide Nanos, Quot, Rem, NonZero;
    result := [];
    var rem: nat := ns;
    for i := 0 to UNITS
      invariant rem >= 0
      invariant result + NonZero(rem, i) == NonZero(ns, 0)
    {
      NonZeroStep(rem, i);
      if i == 0 && rem < Nanos(i) {
        SmallQuot(rem, Nanos(i));
        continue;
      }
      var count := Quot(rem, Nanos(i));
      if count > 0 {
        Regroup(result, ActiveUnit(i, count), NonZero(Rem(rem, Nanos(i)), i + 1));
        result := result + [ActiveUnit(i, count)];
        rem := Rem(rem, Nanos(i));
      }
    }
    NoUnitsLeft(rem);
    assert result + [] == result;
  }

  lemma NoUnitsLeft(rem: nat)
    ensures NonZero(rem, UNITS) == []
  {
  }

  lemma NonZeroStep(rem: nat, i: nat)
    requires i < UNITS
    ensures NonZero(rem, i) ==
      var count := Quot(rem, Nanos(i));
      if count > 0 then [ActiveUnit(i, count)] + NonZero(Rem(rem, Nanos(i)), i + 1) else NonZero(rem, i + 1)
  {
    hide Nanos, Quot, Rem;
  }

  lemma Regroup(front: seq<ActiveUnit>, u: ActiveUnit, rest: seq<ActiveUnit>)
    ensures front + ([u] + rest) == (front + [u]) + rest
  {
  }

  lemma SmallQuot(x: nat, d: nat)
    requires x < d
    ensures Quot(x, d) == 0 && Rem(x, d) == x
  {
  }

  lemma QuotRem(x: nat, d: nat)
    requires d > 0
    ensures Times(Quot(x, d), d) + Rem(x, d) == x
  {
  }

  /** Quotient and remainder are the only way to write x as a multiple of d and something below d. */
  lemma QuotRemUnique(x: nat, d: nat, q: nat, r: nat)
    requires r < d && x == Times(q, d) + r
    ensures Quot(x, d) == q && Rem(x, d) == r
  {
    var gap := x / d - q;
    assert gap * d == r - x % d;
    WholeBlocks(gap, d);
  }

  lemma TimesAdds(a: nat, b: nat, d: nat)
    ensures Times(a + b, d) == Times(a, d) + Times(b, d)
  {
  }

  lemma TimesAssociates(a: nat, b: nat, d: nat)
    ensures Times(Times(a, b), d) == Times(a, Times(b, d))
  {
    assert a * b * d == a * (b * d);
  }

  // ---- The decomposition is exact ----

  function Total(units: seq<ActiveUnit>): nat
    requires Known(units)
  {
    if units == [] then 0 else Times(units[0].count, Nanos(units[0].index)) + Total(units[1..])
  }

  lemma {:induction false} TotalOfNonZero(rem: nat, i: nat)
    requires i <= UNITS && (i == UNITS ==> rem == 0)
    ensures Total(NonZero(rem, i)) == rem
    decreases UNITS - i
  {
    hide Nanos, Quot, Rem, Times;
    if i < UNITS {
      if i == UNITS - 1 {
        LastUnit(rem);
      }
      var count, rest := Quot(rem, Nanos(i)), Rem(rem, Nanos(i));
      QuotRem(rem, Nanos(i));
      if count > 0 {
        TotalOfNonZero(rest, i + 1);
        assert NonZero(rem, i)[1..] == NonZero(rest, i + 1);
      } else {
        TimesZero(Nanos(i));
        TotalOfNonZero(rem, i + 1);
      }
    }
  }

  lemma TimesZero(d: nat)
    ensures Times(0, d) == 0 && Times(1, d) == d
  {
  }

  lemma LastUnit(rem: nat)
    ensures Rem(rem, Nanos(UNITS - 1)) == 0 && Quot(rem, Nanos(UNITS - 1)) == rem
  {
  }

  lemma {:induction false} NonZeroOfZero(i: nat)
    requires i <= UNITS
    ensures NonZero(0, i) == []
    decreases UNITS - i
  {
    hide Nanos, Quot, Rem;
    if i < UNITS {
      SmallQuot(0, Nanos(i));
      NonZeroOfZero(i + 1);
    }
  }

  // ---- Rounding at a unit ----

  /** x with whatever lies below unit c dropped. */
  function Down(x: nat, c: nat): (r: nat)
    requires c < UNITS
    ensures r <= x
  {
    x - Below(x, c)
  }

  function Below(x: nat, c: nat): (r: nat)
    requires c < UNITS
    ensures r <= x
  {
    var r := x % Nanos(c);
    assert x / Nanos(c) * Nanos(c) >= 0;
    r
  }

  /** Each unit is a whole number of any smaller one. */
  lemma Divides(i: nat, c: nat) returns (m: nat)
    requires i <= c < UNITS
    ensures m > 0 && Nanos(i) == Times(m, Nanos(c))
    ensures i < c ==> m > 1
  {
    m := Nanos(i) / Nanos(c);
  }

  /** Dropping what lies below a smaller unit does not disturb the split at a larger one. */
  lemma SplitAtLarger(x: nat, i: nat, c: nat)
    requires i <= c < UNITS
    ensures Quot(Down(x, c), Nanos(i)) == Quot(x, Nanos(i))
    ensures Rem(Down(x, c), Nanos(i)) == Down(Rem(x, Nanos(i)), c)
  {
    var m := Divides(i, c);
    var u, large := Nanos(c), Nanos(i);
    hide Nanos, Quot, Rem, Times;
    var q, r := Quot(x, large), Rem(x, large);
    QuotRem(x, large);
    var a, low := Quot(r, u), Rem(r, u);
    QuotRem(r, u);
    TimesAssociates(q, m, u);
    TimesAdds(Times(q, m), a, u);
    QuotRemUnique(x, u, Times(q, m) + a, low);
    BelowIs(x, c);
    BelowIs(r, c);
    QuotRemUnique(x - low, large, q, r - low);
  }

  lemma BelowIs(x: nat, c: nat)
    requires c < UNITS
    ensures Below(x, c) == Rem(x, Nanos(c))
  {
  }

  lemma {:induction false} Strict(rem: nat, i: nat, k: nat)
    requires i <= UNITS && k < |NonZero(rem, i)|
    ensures NonZero(rem, i)[k].index >= i + k
    decreases UNITS - i
  {
    hide Nanos, Quot, Rem;
    if Quot(rem, Nanos(i)) > 0 {
      if k > 0 {
        Strict(Rem(rem, Nanos(i)), i + 1, k - 1);
      }
    } else {
      Strict(rem, i + 1, k);
    }
  }

  /** Dropping what lies below the k-th non-zero unit keeps exactly the units up to it. */
  lemma {:induction false} Truncated(rem: nat, i: nat, k: nat, c: nat)
    requires i <= UNITS && k < |NonZero(rem, i)| && c == NonZero(rem, i)[k].index
    ensures NonZero(Down(rem, c), i) == NonZero(rem, i)[..k + 1]
    decreases UNITS - i
  {
    assert i < UNITS;
    hide Nanos, Quot, Rem, Below, Down, NonZero;
    var q, rest := Quot(rem, Nanos(i)), Rem(rem, Nanos(i));
    NonZeroStep(rem, i);
    if q == 0 {
      SplitAtLarger(rem, i, c);
      NonZeroStep(Down(rem, c), i);
      Truncated(rem, i + 1, k, c);
    } else if k == 0 {
      TruncatedHere(rem, i);
    } else {
      SplitAtLarger(rem, i, c);
      NonZeroStep(Down(rem, c), i);
      Truncated(rest, i + 1, k - 1, c);
      FirstAnd(ActiveUnit(i, q), NonZero(rest, i + 1), k);
    }
  }

  lemma FirstAnd(u: ActiveUnit, tail: seq<ActiveUnit>, k: nat)
    requires k <= |tail|
    ensures ([u] + tail)[..k + 1] == [u] + tail[..k]
  {
  }

  lemma TruncatedHere(rem: nat, i: nat)
    requires i < UNITS && Quot(rem, Nanos(i)) > 0
    ensures NonZero(Down(rem, i), i) == [ActiveUnit(i, Quot(rem, Nanos(i)))]
  {
    hide Nanos, Quot, Rem, Below, Down, NonZero;
    NonZeroStep(Down(rem, i), i);
    SplitAtLarger(rem, i, i);
    var rest := Rem(rem, Nanos(i));
    DownIs(rest, i);
    BelowIs(rest, i);
    SmallQuot(rest, Nanos(i));
    NonZeroOfZero(i + 1);
  }

  /** Adding one of unit c to a multiple of it that has some of unit c never makes more units non-zero. */
  lemma {:induction false} CarryAddsNoUnit(rem: nat, i: nat, c: nat, k: nat)
    requires i <= c < UNITS && Below(rem, c) == 0
    requires k < |NonZero(rem, i)| && NonZero(rem, i)[k].index == c
    ensures 0 < |NonZero(rem + Nanos(c), i)| <= |NonZero(rem, i)|
    decreases UNITS - i
  {
    hide Nanos, Quot, Rem, Below, NonZero, Times;
    var u, large := Nanos(c), Nanos(i);
    var q, r := Quot(rem, large), Rem(rem, large);
    NonZeroStep(rem, i);
    NonZeroStep(rem + u, i);
    CarrySplit(rem, i, c);
    if r + u < large {
      RestIsMultiple(rem, i, c);
      if q > 0 {
        CarryAddsNoUnit(r, i + 1, c, k - 1);
      } else {
        CarryAddsNoUnit(rem, i + 1, c, k);
      }
    } else {
      NonZeroOfZero(i + 1);
    }
  }

  /** One more of unit c either stays below unit i or fills it up exactly. */
  lemma CarrySplit(rem: nat, i: nat, c: nat)
    requires i <= c < UNITS && Below(rem, c) == 0
    ensures var u, large := Nanos(c), Nanos(i);
            var q, r := Quot(rem, large), Rem(rem, large);
            && (r + u < large ==> i < c && Quot(rem + u, large) == q && Rem(rem + u, large) == r + u)
            && (r + u >= large ==> Quot(rem + u, large) == q + 1 && Rem(rem + u, large) == 0)
            && (q == 0 ==> r == rem)
  {
    hide Nanos, Quot, Rem, Below, Times;
    var u, large := Nanos(c), Nanos(i);
    var q, r := Quot(rem, large), Rem(rem, large);
    QuotRem(rem, large);
    RoomAbove(rem, i, c);
    TimesZero(large);
    if r + u < large {
      QuotRemUnique(rem + u, large, q, r + u);
    } else {
      TimesAdds(q, 1, large);
      QuotRemUnique(rem + u, large, q + 1, 0);
    }
  }

  lemma RestIsMultiple(rem: nat, i: nat, c: nat)
    requires i <= c < UNITS && Below(rem, c) == 0
    ensures Below(Rem(rem, Nanos(i)), c) == 0
  {
    SplitAtLarger(rem, i, c);
    hide Nanos, Quot, Rem, Below;
  }

  /** A multiple of u below the larger unit leaves room for one more u. */
  lemma RoomAbove(rem: nat, i: nat, c: nat)
    requires i <= c < UNITS && Below(rem, c) == 0
    ensures Rem(rem, Nanos(i)) + Nanos(c) <= Nanos(i)
  {
    RestIsMultiple(rem, i, c);
    var m := Divides(i, c);
    var r, u, large := Rem(rem, Nanos(i)), Nanos(c), Nanos(i);
    hide Nanos, Rem, Below;
    BelowIs(r, c);
    QuotRem(r, u);
    FewerBlocks(Quot(r, u), m, u);
  }

  lemma FewerBlocks(a: nat, m: nat, u: nat)
    requires Times(a, u) < Times(m, u)
    ensures Times(a, u) + u <= Times(m, u)
  {
    WholeBlocks(m - a, u);
  }

  // ---- What is printed ----

  const PRINTED: nat := 4

  /** The duration rounded half up to its fourth non-zero unit, if it has more than four. */
  function Rounded(ns: nat): nat {
    var units := NonZero(ns, 0);
    if |units| <= PRINTED then ns
    else
      var cutoff := Nanos(units[PRINTED - 1].index);
      Times(Quot(ns + cutoff / 2, cutoff), cutoff)
  }

  lemma RoundsDownOrUp(ns: nat, c: nat)
    requires c < UNITS - 1
    ensures var u := Nanos(c);
            Times(Quot(ns + u / 2, u), u) == if Below(ns, c) < u / 2 then Down(ns, c) else Down(ns, c) + u
  {
    var u := Nanos(c);
    EvenUnit(c);
    BelowIs(ns, c);
    var q, low := Quot(ns, u), Rem(ns, u);
    hide Nanos, Quot, Rem, Below, Times;
    QuotRem(ns, u);
    if low < u / 2 {
      QuotRemUnique(ns + u / 2, u, q, low + u / 2);
    } else {
      TimesAdds(q, 1, u);
      TimesZero(u);
      QuotRemUnique(ns + u / 2, u, q + 1, low - u / 2);
    }
  }

  lemma EvenUnit(c: nat)
    requires c < UNITS - 1
    ensures Nanos(c) % 2 == 0
  {
  }

  /**
   * The printed units are at most four and sum exactly to the rounded duration. With at most four non-zero units that
   * is the duration itself; with more it is a multiple of the fourth unit at most half of it away, ties going up.
   * Carries never make a fifth unit.
   */
  lemma PrintedUnits(ns: nat)
    requires ns > 0
    ensures 0 < |NonZero(Rounded(ns), 0)| <= PRINTED
    ensures Total(NonZero(Rounded(ns), 0)) == Rounded(ns)
    ensures |NonZero(ns, 0)| <= PRINTED ==> Rounded(ns) == ns
    ensures |NonZero(ns, 0)| > PRINTED ==>
              var c := NonZero(ns, 0)[PRINTED - 1].index;
              && Below(Rounded(ns), c) == 0
              && (ns as int) - Nanos(c) / 2 < Rounded(ns) <= ns + Nanos(c) / 2
  {
    assert Total([]) == 0;
    hide Nanos, Quot, Rem, Below, Times, NonZero, Down, Total;
    TotalOfNonZero(Rounded(ns), 0);
    TotalOfNonZero(ns, 0);
    var units := NonZero(ns, 0);
    if |units| > PRINTED {
      var c := units[PRINTED - 1].index;
      LaterUnit(ns, 0, PRINTED - 1);
      RoundedIs(ns, c);
      RoundedNear(ns, c);
      RoundedFew(ns, units, c);
    } else {
      assert Rounded(ns) == ns;
    }
  }

  lemma RoundedNear(ns: nat, c: nat)
    requires c < UNITS - 1
    ensures var r, u := Times(Quot(ns + Nanos(c) / 2, Nanos(c)), Nanos(c)), Nanos(c);
            Below(r, c) == 0 && (ns as int) - u / 2 < r <= ns + u / 2
  {
    hide Nanos, Quot, Rem, Below, Times, Down;
    EvenUnit(c);
    DownIs(ns, c);
    RoundsDownOrUp(ns, c);
    BelowDown(ns, c);
  }

  lemma RoundedFew(ns: nat, units: seq<ActiveUnit>, c: nat)
    requires units == NonZero(ns, 0) && |units| > PRINTED && c == units[PRINTED - 1].index < UNITS - 1
    ensures 0 < |NonZero(Times(Quot(ns + Nanos(c) / 2, Nanos(c)), Nanos(c)), 0)| <= PRINTED
  {
    hide Nanos, Quot, Rem, Below, Times, NonZero, Down;
    Truncated(ns, 0, PRINTED - 1, c);
    RoundsDownOrUp(ns, c);
    BelowDown(ns, c);
    var down := Down(ns, c);
    assert NonZero(down, 0) == units[..PRINTED];
    CarryAddsNoUnit(down, 0, c, PRINTED - 1);
  }

  lemma RoundedIs(ns: nat, c: nat)
    requires |NonZero(ns, 0)| > PRINTED && c == NonZero(ns, 0)[PRINTED - 1].index
    ensures Rounded(ns) == Times(Quot(ns + Nanos(c) / 2, Nanos(c)), Nanos(c))
  {
    hide Nanos, Quot, Times, NonZero;
  }

  lemma DownIs(x: nat, c: nat)
    requires c < UNITS
    ensures Down(x, c) == x - Below(x, c)
  {
  }

  lemma {:induction false} LaterUnit(rem: nat, i: nat, k: nat)
    requires i <= UNITS && k + 1 < |NonZero(rem, i)|
    ensures NonZero(rem, i)[k].index < UNITS - 1
    decreases UNITS - i
  {
    hide Nanos, Quot, Rem;
    if Quot(rem, Nanos(i)) > 0 {
      var rest := NonZero(Rem(rem, Nanos(i)), i + 1);
      if k > 0 {
        LaterUnit(Rem(rem, Nanos(i)), i + 1, k - 1);
      } else {
        assert rest[0] in rest;
      }
    } else {
      LaterUnit(rem, i + 1, k);
    }
  }

  lemma BelowDown(x: nat, c: nat)
    requires c < UNITS
    ensures Below(Down(x, c), c) == 0 && Below(Down(x, c) + Nanos(c), c) == 0 && Below(x, c) < Nanos(c)
  {
    var u := Nanos(c);
    BelowIs(x, c);
    BelowIs(Down(x, c), c);
    BelowIs(Down(x, c) + u, c);
    var q := Quot(x, u);
    hide Nanos, Quot, Rem, Below, Times;
    QuotRem(x, u);
    QuotRemUnique(Down(x, c), u, q, 0);
    TimesAdds(q, 1, u);
    TimesZero(u);
    QuotRemUnique(Down(x, c) + u, u, q + 1, 0);
  }

  // ---- The text ----

  function Decimal(n: nat): (s: string)
    ensures s != []
  {
    if n < 10 then [Digit(n)] else Decimal(n / 10) + [Digit(n % 10)]
  }

  function Digit(n: nat): char
    requires n < 10
  {
    "0123456789"[n]
  }

  function UnitText(u: ActiveUnit): string
    requires u.index < UNITS
  {
    Decimal(u.count) + Suffix(u.index)
  }

  /** What remains to be printed from the i-th unit on. */
  function TailText(units: seq<ActiveUnit>, i: nat): string
    requires i <= |units| && Known(units)
    decreases |units| - i
  {
    if i == |units| then ""
    else (if i > 0 then " " else "") + UnitText(units[i]) + TailText(units, i + 1)
  }

  const INT64_MAX: int := 0x7FFF_FFFF_FFFF_FFFF

  /** Durations whose negation and rounding stay within int64_t; the fourth unit is at most a minute. */
  method HumanReadable(d: int) returns (result: string)
    requires -INT64_MAX + 30_000_000_000 <= d <= INT64_MAX - 30_000_000_000
    ensures d == 0 ==> result == "0ns"
    ensures d != 0 ==>
      result == (if d < 0 then "-" else "") + TailText(NonZero(Rounded(if d < 0 then -d else d), 0), 0)
  {
    hide Nanos, Quot, Rem, Times, NonZero, TailText;
    if d == 0 {
      return "0ns";
    }
    var prefix, ns: nat := "", if d < 0 then -d else d;
    if d < 0 {
      prefix := "-";
    }
    PrintedUnits(ns);
    ghost var exact := ns;
    var nonZero := GetNonZeroUnits(ns);
    if |nonZero| > 4 {
      var cutoffNanos := Nanos(nonZero[3].index);
      ns := Times(Quot(ns + cutoffNanos / 2, cutoffNanos), cutoffNanos);
      nonZero := GetNonZeroUnits(ns);
    }
    assert nonZero == NonZero(Rounded(exact), 0);
    var countToPrint := if |nonZero| < 4 then |nonZero| else 4;
    result := PrintUnits(prefix, nonZero, countToPrint);
  }

  method PrintUnits(prefix: string, units: seq<ActiveUnit>, countToPrint: nat) returns (result: string)
    requires countToPrint == |units| && Known(units)
    ensures result == prefix + TailText(units, 0)
  {
    hide UnitText;
    result := prefix;
    for i := 0 to countToPrint
      invariant result + TailText(units, i) == prefix + TailText(units, 0)
    {
      var piece := (if i > 0 then " " else "") + UnitText(units[i]);
      assert TailText(units, i) == piece + TailText(units, i + 1);
      result := result + piece;
    }
    assert TailText(units, countToPrint) == "";
  }

  // ---- Reading the text back ----

  predicate IsDigit(c: char) { '0' <= c <= '9' }

  function DigitsLength(s: string): (n: nat)
    ensures n <= |s|
  {
    if s == "" || !IsDigit(s[0]) then 0 else 1 + DigitsLength(s[1..])
  }

  function Number(s: string): nat {
    if s == "" then 0
    else Number(s[..|s| - 1]) * 10 + if IsDigit(s[|s| - 1]) then (s[|s| - 1] - '0') as int else 0
  }

  function UnitOf(suffix: string): (r: Option<nat>)
    ensures r.Some? ==> r.value < UNITS
  {
    if suffix == "y" then Some(0) else if suffix == "d" then Some(1) else if suffix == "h" then Some(2)
    else if suffix == "m" then Some(3) else if suffix == "s" then Some(4) else if suffix == "ms" then Some(5)
    else if suffix == "us" then Some(6) else if suffix == "ns" then Some(7) else None
  }

  function ReadWord(s: string): Option<nat> {
    var k := DigitsLength(s);
    var unit := UnitOf(s[k..]);
    if k == 0 || unit.None? then None else Some(Times(Number(s[..k]), Nanos(unit.value)))
  }

  function WordLength(s: string): (n: nat)
    ensures n <= |s|
    ensures n < |s| ==> s[n] == ' '
  {
    if s == "" || s[0] == ' ' then 0 else 1 + WordLength(s[1..])
  }

  /** The number of nanoseconds a printed duration denotes. */
  function Read(s: string): Option<nat>
    decreases |s|
  {
    var w := WordLength(s);
    var first := ReadWord(s[..w]);
    if w == |s| || first.None? then first
    else
      var rest := Read(s[w + 1..]);
      if rest.None? then None else Some(first.value + rest.value)
  }

  lemma {:induction false} DecimalBack(n: nat)
    ensures Number(Decimal(n)) == n
    ensures forall c <- Decimal(n) :: IsDigit(c)
  {
    if n >= 10 {
      DecimalBack(n / 10);
      assert Decimal(n)[..|Decimal(n)| - 1] == Decimal(n / 10);
    }
  }

  lemma {:induction false} DigitsThen(d: string, rest: string)
    requires forall c <- d :: IsDigit(c)
    requires rest == "" || !IsDigit(rest[0])
    ensures DigitsLength(d + rest) == |d|
    decreases |d|
  {
    if d == "" {
      assert d + rest == rest;
    } else {
      assert (d + rest)[1..] == d[1..] + rest;
      assert forall c <- d[1..] :: c in d;
      assert d[0] in d;
      DigitsThen(d[1..], rest);
    }
  }

  lemma SuffixFacts(i: nat)
    requires i < UNITS
    ensures Suffix(i) != "" && !IsDigit(Suffix(i)[0]) && UnitOf(Suffix(i)) == Some(i)
    ensures forall c <- Suffix(i) :: c != ' '
  {
  }

  lemma WordBack(u: ActiveUnit)
    requires u.index < UNITS
    ensures ReadWord(UnitText(u)) == Some(Times(u.count, Nanos(u.index)))
    ensures forall c <- UnitText(u) :: c != ' '
  {
    hide Nanos, Times, UnitOf, Suffix, Decimal;
    var d, x := Decimal(u.count), Suffix(u.index);
    DecimalBack(u.count);
    SuffixFacts(u.index);
    DigitsThen(d, x);
    assert (d + x)[..|d|] == d && (d + x)[|d|..] == x;
  }

  lemma {:induction false} WordThen(w: string, rest: string)
    requires forall c <- w :: c != ' '
    requires rest == "" || rest[0] == ' '
    ensures WordLength(w + rest) == |w|
    decreases |w|
  {
    if w == "" {
      assert w + rest == rest;
    } else {
      assert (w + rest)[1..] == w[1..] + rest;
      assert forall c <- w[1..] :: c in w;
      assert w[0] in w;
      WordThen(w[1..], rest);
    }
  }

  lemma {:induction false} TailBack(units: seq<ActiveUnit>, i: nat)
    requires i < |units| && Known(units)
    ensures Read(UnitText(units[i]) + TailText(units, i + 1)) == Some(Total(units[i..]))
    decreases |units| - i
  {
    hide Nanos, Times, UnitText, ReadWord, WordLength, TailText;
    var w, rest := UnitText(units[i]), TailText(units, i + 1);
    WordBack(units[i]);
    TailTextStep(units, i + 1);
    WordThen(w, rest);
    assert (w + rest)[..|w|] == w;
    assert units[i..][1..] == units[i + 1..];
    if i + 1 < |units| {
      TailBack(units, i + 1);
      var next := UnitText(units[i + 1]) + TailText(units, i + 2);
      assert (w + rest)[|w| + 1..] == next;
    }
  }

  lemma TailTextStep(units: seq<ActiveUnit>, i: nat)
    requires 0 < i <= |units| && Known(units)
    ensures TailText(units, i) == if i == |units| then "" else " " + (UnitText(units[i]) + TailText(units, i + 1))
  {
    hide UnitText;
  }

  /** The text denotes exactly the rounded duration. */
  lemma TextIsExact(ns: nat)
    requires ns > 0
    ensures Read(TailText(NonZero(Rounded(ns), 0), 0)) == Some(Rounded(ns))
  {
    hide Nanos, Times, Quot, Rem, Rounded, UnitText, Read, NonZero;
    PrintedUnits(ns);
    var units := NonZero(Rounded(ns), 0);
    TailBack(units, 0);
    assert units[0..] == units;
    assert TailText(units, 0) == "" + UnitText(units[0]) + TailText(units, 1) == UnitText(units[0]) + TailText(units, 1);
  }

  // ---- The units and the text, written out ----

  /** A year is 365 days; everything else is what the clock says. */
  lemma UnitLengths()
    ensures Nanos(0) == 365 * Nanos(1) && Nanos(1) == 24 * Nanos(2) && Nanos(2) == 60 * Nanos(3) && Nanos(3) == 60 * Nanos(4)
    ensures Nanos(4) == 1000 * Nanos(5) && Nanos(5) == 1000 * Nanos(6) && Nanos(6) == 1000 * Nanos(7) && Nanos(7) == 1
    ensures Suffix(0) == "y" && Suffix(1) == "d" && Suffix(2) == "h" && Suffix(3) == "m"
    ensures Suffix(4) == "s" && Suffix(5) == "ms" && Suffix(6) == "us" && Suffix(7) == "ns"
  {
  }

  lemma UnitOut(rem: nat, i: nat, count: nat, rest: nat)
    requires i < UNITS && rem == Times(count, Nanos(i)) + rest && rest < Nanos(i)
    ensures NonZero(rem, i) == (if count > 0 then [ActiveUnit(i, count)] else []) + NonZero(rest, i + 1)
  {
    QuotRemUnique(rem, Nanos(i), count, rest);
    NonZeroStep(rem, i);
    TimesZero(Nanos(i));
    hide Nanos, Quot, Rem, Times;
  }

  lemma ExampleUnits(ms: nat, below: nat)
    requires 0 < ms < 1000 && below < 1_000_000
    ensures NonZero(3_661_000_000_000 + ms * 1_000_000 + below, 0)
         == [ActiveUnit(2, 1), ActiveUnit(3, 1), ActiveUnit(4, 1), ActiveUnit(5, ms)] + NonZero(below, 6)
  {
    hide NonZero, Quot, Rem;
    var x: nat := ms * 1_000_000 + below;
    UnitOut(3_661_000_000_000 + x, 0, 0, 3_661_000_000_000 + x);
    UnitOut(3_661_000_000_000 + x, 1, 0, 3_661_000_000_000 + x);
    UnitOut(3_661_000_000_000 + x, 2, 1, 61_000_000_000 + x);
    UnitOut(61_000_000_000 + x, 3, 1, 1_000_000_000 + x);
    UnitOut(1_000_000_000 + x, 4, 1, x);
    UnitOut(x, 5, ms, below);
  }

  lemma ExampleExact()
    ensures |NonZero(3_661_500_600_000, 0)| == 5 && NonZero(3_661_500_600_000, 0)[3] == ActiveUnit(5, 500)
    ensures NonZero(3_661_501_000_000, 0) == [ActiveUnit(2, 1), ActiveUnit(3, 1), ActiveUnit(4, 1), ActiveUnit(5, 501)]
  {
    hide NonZero, Quot, Rem;
    ExampleUnits(500, 600_000);
    ExampleUnits(501, 0);
    NonZeroOfZero(6);
    UnitOut(600_000, 6, 600, 0);
    NonZeroOfZero(7);
  }

  /** One hour, one minute, one second, 500 milliseconds and 600 microseconds round up to 501 milliseconds. */
  lemma ExampleRounded()
    ensures Rounded(3_661_500_600_000) == 3_661_501_000_000
    ensures NonZero(3_661_501_000_000, 0) == [ActiveUnit(2, 1), ActiveUnit(3, 1), ActiveUnit(4, 1), ActiveUnit(5, 501)]
  {
    hide NonZero, Rounded, Quot;
    ExampleExact();
    RoundedIs(3_661_500_600_000, 5);
    QuotRemUnique(3_661_500_600_000 + 500_000, 1_000_000, 3_661_501, 100_000);
  }

  lemma ExampleWord(index: nat, count: nat, digits: string, word: string)
    requires index < UNITS && Decimal(count) == digits && word == digits + Suffix(index)
    ensures UnitText(ActiveUnit(index, count)) == word
  {
  }

  lemma ExampleNumbers()
    ensures Decimal(1) == "1" && Decimal(501) == "501"
  {
    assert Decimal(5) == "5" && Decimal(50) == "50";
  }

  /** And this is how they are printed. */
  lemma ExampleText()
    ensures TailText([ActiveUnit(2, 1), ActiveUnit(3, 1), ActiveUnit(4, 1), ActiveUnit(5, 501)], 0) == "1h 1m 1s 501ms"
  {
    hide Decimal, UnitText, TailText;
    ExampleNumbers();
    ExampleWord(2, 1, "1", "1h");
    ExampleWord(3, 1, "1", "1m");
    ExampleWord(4, 1, "1", "1s");
    ExampleWord(5, 501, "501", "501ms");
    var units := [ActiveUnit(2, 1), ActiveUnit(3, 1), ActiveUnit(4, 1), ActiveUnit(5, 501)];
    TailStep(units, 3);
    TailStep(units, 2);
    TailStep(units, 1);
    TailStep(units, 0);
  }

  lemma TailStep(units: seq<ActiveUnit>, i: nat)
    requires i < |units| && Known(units)
    ensures TailText(units, |units|) == ""
    ensures TailText(units, i) == (if i > 0 then " " else "") + UnitText(units[i]) + TailText(units, i + 1)
  {
    hide UnitText;
  }
}
