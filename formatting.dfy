/**
 * The PHP text formatting the exporter relies on: `%d`, `%.2f`, `number_format($x, 2, ',', ' ')`
 * and `date('Y_m_d_H_i_s')`, all producing byte strings.
 */
module Formatting {
  import opened ByteStrings
  import opened Wrappers

  predicate IsDigit(b: byte) {
    Zero <= b <= Zero + 9
  }

  predicate AllDigits(s: Bytes) {
    forall i :: 0 <= i < |s| ==> IsDigit(s[i])
  }

  function DigitByte(d: nat): (b: byte)
    requires d < 10
    ensures IsDigit(b)
  {
    (48 + d) as byte
  }

  /** Decimal digits of `n`, most significant first, without leading zeros ("0" for zero). */
  function Digits(n: nat): (r: Bytes)
    ensures |r| >= 1 && AllDigits(r)
    ensures r[0] == Zero ==> n == 0 && |r| == 1
    decreases n
  {
    if n < 10 then [DigitByte(n)] else Digits(n / 10) + [DigitByte(n % 10)]
  }

  /** The number a run of decimal digits denotes (leading zeros allowed). */
  function DigitsValue(s: Bytes): nat
    requires AllDigits(s)
  {
    if s == [] then 0 else DigitsValue(s[..|s| - 1]) * 10 + (s[|s| - 1] - Zero) as int
  }

  lemma {:induction false} DigitsRoundTrip(n: nat)
    ensures DigitsValue(Digits(n)) == n
    decreases n
  {
    if n >= 10 {
      var d := Digits(n);
      assert d[..|d| - 1] == Digits(n / 10);
      DigitsRoundTrip(n / 10);
    }
  }

  /** A run of `k` zero digits. */
  function Zeros(k: nat): (r: Bytes)
    ensures |r| == k && AllDigits(r)
  {
    seq(k, _ => Zero)
  }

  lemma {:induction false} LeadingZerosValue(k: nat, s: Bytes)
    requires AllDigits(s)
    ensures AllDigits(Zeros(k) + s) && DigitsValue(Zeros(k) + s) == DigitsValue(s)
    decreases |s|
  {
    var t := Zeros(k) + s;
    if s == [] {
      assert t == Zeros(k);
      ZerosValue(k);
    } else {
      assert t[..|t| - 1] == Zeros(k) + s[..|s| - 1];
      LeadingZerosValue(k, s[..|s| - 1]);
    }
  }

  lemma {:induction false} ZerosValue(k: nat)
    ensures DigitsValue(Zeros(k)) == 0
    decreases k
  {
    if k > 0 {
      assert Zeros(k)[..k - 1] == Zeros(k - 1);
      ZerosValue(k - 1);
    }
  }

  /** `n` written with at least `width` digits, padded on the left with zeros (`%02d`, date's `Y`). */
  function PadLeft(n: nat, width: nat): (r: Bytes)
    ensures AllDigits(r)
    ensures |r| == if |Digits(n)| >= width then |Digits(n)| else width
    ensures DigitsValue(r) == n
  {
    var d := Digits(n);
    DigitsRoundTrip(n);
    if |d| >= width then d
    else
      LeadingZerosValue(width - |d|, d);
      Zeros(width - |d|) + d
  }

  /** Numbers below 10^k have at most k digits. */
  lemma {:induction false} DigitsLength(n: nat, k: nat, bound: nat)
    requires k >= 1 && bound == Pow10(k) && n < bound
    ensures |Digits(n)| <= k
    decreases k
  {
    if n >= 10 {
      DigitsLength(n / 10, k - 1, Pow10(k - 1));
    }
  }

  function Pow10(k: nat): (p: nat)
    ensures p >= 1
  {
    if k == 0 then 1 else 10 * Pow10(k - 1)
  }

  /** `sprintf('%d', n)`: a minus sign for a negative number, then the digits of its magnitude. */
  function IntText(n: int): (r: Bytes)
    ensures |r| >= 1
    ensures forall i :: 0 <= i < |r| ==> IsDigit(r[i]) || r[i] == Minus
    ensures (r[0] == Minus) == (n < 0)
    ensures var k := if n < 0 then 1 else 0;
            |r| > k && AllDigits(r[k..]) && DigitsValue(r[k..]) == Abs(n)
    ensures var k := if n < 0 then 1 else 0;
            r[k] == Zero ==> |r| == k + 1
  {
    DigitsRoundTrip(Abs(n));
    if n < 0 then
      assert ([Minus] + Digits(-n))[1..] == Digits(-n);
      [Minus] + Digits(-n)
    else
      assert Digits(n)[0..] == Digits(n);
      Digits(n)
  }

  /** Digits grouped by three from the right with `sep` between groups (thousands separator). */
  function GroupThousands(d: Bytes, sep: byte): (r: Bytes)
    requires |d| >= 1
    ensures |r| == |d| + (|d| - 1) / 3
    ensures r[0] == d[0]
    decreases |d|
  {
    if |d| <= 3 then d else GroupThousands(d[..|d| - 3], sep) + [sep] + d[|d| - 3..]
  }

  /** `sep` occurs in `r` exactly at the positions a multiple of four bytes from the end. */
  predicate SeparatorsEveryFourth(r: Bytes, sep: byte) {
    forall i :: 0 <= i < |r| ==> (r[i] == sep <==> (|r| - i) % 4 == 0)
  }

  /**
   * The separators of grouped digits sit exactly at the positions a multiple of four bytes from the
   * end: one before each full group of three digits, counting from the right.
   */
  lemma {:induction false} GroupThousandsSeparators(d: Bytes, sep: byte)
    requires |d| >= 1 && forall i :: 0 <= i < |d| ==> d[i] != sep
    ensures SeparatorsEveryFourth(GroupThousands(d, sep), sep)
    decreases |d|
  {
    if |d| > 3 {
      var hi, lo := d[..|d| - 3], d[|d| - 3..];
      GroupThousandsSeparators(hi, sep);
      SeparatorsGroupSnoc(GroupThousands(hi, sep), lo, sep);
    }
  }

  /** One more separator and group of three digits keep the separators every fourth byte from the end. */
  lemma SeparatorsGroupSnoc(g: Bytes, lo: Bytes, sep: byte)
    requires SeparatorsEveryFourth(g, sep)
    requires |lo| == 3 && lo[0] != sep && lo[1] != sep && lo[2] != sep
    ensures SeparatorsEveryFourth(g + [sep] + lo, sep)
  {
    var r := g + [sep] + lo;
    forall i | 0 <= i < |r|
      ensures r[i] == sep <==> (|r| - i) % 4 == 0
    {
      if i < |g| {
        assert r[i] == g[i];
        assert |r| - i == (|g| - i) + 4;
      } else if i == |g| {
        assert r[i] == sep && |r| - i == 4;
      } else {
        assert r[i] == lo[i - |g| - 1];
        assert 1 <= |r| - i <= 3;
      }
    }
  }

  /** `s` with every `sep` byte dropped. */
  function Drop(s: Bytes, sep: byte): Bytes
  {
    if s == [] then [] else Drop(s[..|s| - 1], sep) + (if s[|s| - 1] == sep then [] else [s[|s| - 1]])
  }

  lemma {:induction false} DropAppend(s: Bytes, t: Bytes, sep: byte)
    ensures Drop(s + t, sep) == Drop(s, sep) + Drop(t, sep)
    decreases |t|
  {
    if t == [] {
      assert s + t == s;
    } else {
      assert (s + t)[..|s + t| - 1] == s + t[..|t| - 1];
      DropAppend(s, t[..|t| - 1], sep);
    }
  }

  lemma {:induction false} DropAbsent(s: Bytes, sep: byte)
    requires forall i :: 0 <= i < |s| ==> s[i] != sep
    ensures Drop(s, sep) == s
    decreases |s|
  {
    if s != [] {
      DropAbsent(s[..|s| - 1], sep);
    }
  }

  /** Removing the separators from grouped digits gives back the digits. */
  lemma {:induction false} GroupThousandsRoundTrip(d: Bytes, sep: byte)
    requires |d| >= 1 && forall i :: 0 <= i < |d| ==> d[i] != sep
    ensures Drop(GroupThousands(d, sep), sep) == d
    decreases |d|
  {
    if |d| <= 3 {
      DropAbsent(d, sep);
    } else {
      var hi, lo := d[..|d| - 3], d[|d| - 3..];
      var g := GroupThousands(hi, sep);
      assert GroupThousands(d, sep) == g + [sep] + lo;
      GroupThousandsRoundTrip(hi, sep);
      DropAppend(g, [sep], sep);
      DropAppend(g + [sep], lo, sep);
      assert Drop([sep], sep) == [] by {
        assert [sep][..0] == [];
      }
      DropAbsent(lo, sep);
      assert Drop(g + [sep] + lo, sep) == hi + lo;
      assert hi + lo == d;
    }
  }

  /** PHP's `round()`: to the nearest integer, halves away from zero. */
  function RoundHalfAwayFromZero(x: real): (r: int)
    ensures x >= 0.0 ==> (r as real) - 0.5 <= x < (r as real) + 0.5
    ensures x < 0.0 ==> (r as real) - 0.5 < x <= (r as real) + 0.5
  {
    if x >= 0.0 then (x + 0.5).Floor else -((0.5 - x).Floor)
  }

  function Abs(n: int): nat {
    if n < 0 then -n else n
  }

  /**
   * `number_format($x, 2, ',', ' ')`: rounded to cents, a space between thousands, a comma before
   * the two decimals, and a minus sign exactly when the rounded amount is negative. The units with
   * the separators dropped and the two decimals read back as the rounded amount.
   */
  function NumberFormat2(x: real): (r: Bytes)
    ensures var cents := RoundHalfAwayFromZero(x * 100.0);
            var sign := if cents < 0 then 1 else 0;
            && |r| >= sign + 4
            && (cents < 0 <==> r[0] == Minus)
            && r[|r| - 3] == Comma
            && AllDigits(r[|r| - 2..])
            && AllDigits(Drop(r[sign..|r| - 3], Space))
            && DigitsValue(Drop(r[sign..|r| - 3], Space)) * 100 + DigitsValue(r[|r| - 2..]) == Abs(cents)
            && SeparatorsEveryFourth(r[sign..|r| - 3], Space)
            && IsDigit(r[sign])
            && (r[sign] == Zero ==> r[sign..|r| - 3] == [Zero])
  {
    var cents := RoundHalfAwayFromZero(x * 100.0);
    var a := Abs(cents);
    CentsSplit(a, a / 100, a % 100);
    GroupedAmount(cents < 0, a / 100, a % 100)
  }

  /**
   * `r` is `units` and `c` cents as `number_format($x, 2, ',', ' ')` writes them: a minus sign exactly
   * when `negative`, the units grouped by spaces every three digits from the right with no leading
   * zero group, a comma, and two decimals. Without the spaces the units read back as `units`.
   */
  ghost predicate GroupedText(r: Bytes, negative: bool, units: nat, c: nat) {
    var sign := if negative then 1 else 0;
    && |r| >= sign + 4
    && (negative <==> r[0] == Minus)
    && r[|r| - 3] == Comma
    && AllDigits(r[|r| - 2..])
    && AllDigits(Drop(r[sign..|r| - 3], Space))
    && DigitsValue(Drop(r[sign..|r| - 3], Space)) == units
    && DigitsValue(r[|r| - 2..]) == c
    && SeparatorsEveryFourth(r[sign..|r| - 3], Space)
    && IsDigit(r[sign])
    && (r[sign] == Zero ==> r[sign..|r| - 3] == [Zero])
  }

  /**
   * `number_format` of an amount split into a sign, whole units and cents: exactly the text
   * `GroupedText` describes.
   */
  function GroupedAmount(negative: bool, units: nat, c: nat): (r: Bytes)
    requires c < 100
    ensures GroupedText(r, negative, units, c)
  {
    var g := GroupThousands(Digits(units), Space);
    var f := PadLeft(c, 2);
    GroupedUnits(units, g);
    GroupedLeadingZero(units, g);
    TwoDecimals(c, f);
    var r := (if negative then [Minus] else []) + g + [Comma] + f;
    GroupedDigits(r, negative, g, f, units, c);
    r
  }

  /** An amount is its units times 100 plus its cents. */
  lemma CentsSplit(a: nat, units: nat, c: nat)
    requires units == a / 100 && c == a % 100
    ensures units * 100 + c == a
  {
  }

  /**
   * The digits of `units` grouped by spaces: a digit in front, the spaces every fourth byte from the
   * end, and without the spaces the digits read back as `units`.
   */
  lemma GroupedUnits(units: nat, g: Bytes)
    requires g == GroupThousands(Digits(units), Space)
    ensures |g| >= 1 && IsDigit(g[0]) && SeparatorsEveryFourth(g, Space)
    ensures AllDigits(Drop(g, Space)) && DigitsValue(Drop(g, Space)) == units
  {
    var d := Digits(units);
    assert forall i :: 0 <= i < |d| ==> d[i] != Space by {
      assert AllDigits(d);
    }
    DigitsRoundTrip(units);
    GroupThousandsRoundTrip(d, Space);
    GroupThousandsSeparators(d, Space);
    assert IsDigit(d[0]);
  }

  /** Grouped units never start with a zero, unless the units are zero and the zero is all there is. */
  lemma GroupedLeadingZero(units: nat, g: Bytes)
    requires g == GroupThousands(Digits(units), Space)
    ensures g[0] == Zero ==> g == [Zero]
  {
    var d := Digits(units);
    if g[0] == Zero {
      assert d[0] == Zero;
      assert units == 0;
      assert d == [DigitByte(0)];
      assert g == d;
    }
  }

  /** Cents padded to two digits read back as the cents. */
  lemma TwoDecimals(c: nat, f: Bytes)
    requires c < 100 && f == PadLeft(c, 2)
    ensures |f| == 2 && AllDigits(f) && DigitsValue(f) == c
  {
    DigitsLength(c, 2, 100);
  }

  /**
   * A sign, grouped units `g`, a comma and two digits `f`: where each part sits and what it reads
   * back as.
   */
  lemma GroupedDigits(r: Bytes, negative: bool, g: Bytes, f: Bytes, units: nat, c: nat)
    requires r == (if negative then [Minus] else []) + g + [Comma] + f
    requires |g| >= 1 && IsDigit(g[0]) && SeparatorsEveryFourth(g, Space) && (g[0] == Zero ==> g == [Zero])
    requires AllDigits(Drop(g, Space)) && DigitsValue(Drop(g, Space)) == units
    requires |f| == 2 && AllDigits(f) && DigitsValue(f) == c
    ensures GroupedText(r, negative, units, c)
  {
    var sign: Bytes := if negative then [Minus] else [];
    AmountParts(sign, g, f, Comma);
  }

  /** Where the parts of `sign + units + [point] + decimals` sit, for two decimals. */
  lemma AmountParts(sign: Bytes, units: Bytes, decimals: Bytes, point: byte)
    requires |decimals| == 2
    ensures var r := sign + units + [point] + decimals;
            && |r| == |sign| + |units| + 3
            && r[|r| - 3] == point
            && r[|sign|..|r| - 3] == units
            && r[|r| - 2..] == decimals
            && (|sign| > 0 ==> r[0] == sign[0])
            && (|sign| == 0 && |units| > 0 ==> r[0] == units[0])
  {
    var r := sign + units + [point] + decimals;
    assert r[|sign|..|r| - 3] == units;
    assert r[|r| - 2..] == decimals;
  }

  /**
   * Nearest integer, an exact half going to the even neighbour: how the correctly rounded,
   * fixed-precision conversion behind `sprintf("%.2f")` settles a value lying exactly halfway.
   */
  function RoundHalfEven(x: real): (r: int)
    ensures (r as real) - 0.5 <= x <= (r as real) + 0.5
    ensures (x == (r as real) - 0.5 || x == (r as real) + 0.5) ==> r % 2 == 0
  {
    var f := (x + 0.5).Floor;
    if (f as real) == x + 0.5 && f % 2 != 0 then f - 1 else f
  }

  /** `sprintf('%.2f', $x)`: a minus sign for a negative value, the units, a dot, the two decimals. */
  function FixedTwo(x: real): (r: Bytes)
    ensures forall i :: 0 <= i < |r| ==> IsDigit(r[i]) || r[i] == Minus || r[i] == Dot
    ensures var cents := RoundHalfEven(x * 100.0);
            var sign := if x < 0.0 then 1 else 0;
            && |r| >= sign + 4
            && (x < 0.0 <==> r[0] == Minus)
            && r[|r| - 3] == Dot
            && AllDigits(r[sign..|r| - 3]) && AllDigits(r[|r| - 2..])
            && DigitsValue(r[sign..|r| - 3]) * 100 + DigitsValue(r[|r| - 2..]) == Abs(cents)
            && (r[sign] == Zero ==> |r| == sign + 4)
  {
    FixedAmount(x < 0.0, Abs(RoundHalfEven(x * 100.0)))
  }

  /**
   * An amount of cents as `%.2f` writes it: a sign, the units without grouping, a dot and two
   * decimals; the units read back as `cents / 100`, the decimals as `cents % 100`.
   */
  function FixedAmount(negative: bool, cents: nat): (r: Bytes)
    ensures forall i :: 0 <= i < |r| ==> IsDigit(r[i]) || r[i] == Minus || r[i] == Dot
    ensures var sign := if negative then 1 else 0;
            && |r| >= sign + 4
            && (negative <==> r[0] == Minus)
            && r[|r| - 3] == Dot
            && AllDigits(r[sign..|r| - 3]) && AllDigits(r[|r| - 2..])
            && DigitsValue(r[sign..|r| - 3]) == cents / 100
            && DigitsValue(r[|r| - 2..]) == cents % 100
            && DigitsValue(r[sign..|r| - 3]) * 100 + DigitsValue(r[|r| - 2..]) == cents
            && (r[sign] == Zero ==> |r| == sign + 4)
  {
    var units, c := cents / 100, cents % 100;
    CentsSplit(cents, units, c);
    var d := Digits(units);
    var f := PadLeft(c, 2);
    DigitsLength(c, 2, 100);
    DigitsRoundTrip(units);
    var r := (if negative then [Minus] else []) + d + [Dot] + f;
    FixedDigits(r, negative, d, f, units, c);
    r
  }

  /** A sign, the digits `d`, a dot and two digits `f`: where each part sits and what it reads back as. */
  lemma FixedDigits(r: Bytes, negative: bool, d: Bytes, f: Bytes, units: nat, c: nat)
    requires r == (if negative then [Minus] else []) + d + [Dot] + f
    requires |d| >= 1 && AllDigits(d) && |f| == 2 && AllDigits(f)
    requires DigitsValue(d) == units && DigitsValue(f) == c
    requires d[0] == Zero ==> |d| == 1
    ensures forall i :: 0 <= i < |r| ==> IsDigit(r[i]) || r[i] == Minus || r[i] == Dot
    ensures var sign := if negative then 1 else 0;
            && |r| >= sign + 4
            && (negative <==> r[0] == Minus)
            && r[|r| - 3] == Dot
            && AllDigits(r[sign..|r| - 3]) && AllDigits(r[|r| - 2..])
            && DigitsValue(r[sign..|r| - 3]) == units
            && DigitsValue(r[|r| - 2..]) == c
            && (r[sign] == Zero ==> |r| == sign + 4)
  {
    var sign: Bytes := if negative then [Minus] else [];
    FixedBytes(sign, d, f);
    AmountParts(sign, d, f, Dot);
    assert IsDigit(d[0]);
  }

  /** A sign, digits, a dot and digits hold nothing but digits, the minus sign and the dot. */
  lemma FixedBytes(sign: Bytes, d: Bytes, f: Bytes)
    requires |sign| <= 1 && (|sign| == 1 ==> sign[0] == Minus)
    requires AllDigits(d) && AllDigits(f)
    ensures var r := sign + d + [Dot] + f;
            forall i :: 0 <= i < |r| ==> IsDigit(r[i]) || r[i] == Minus || r[i] == Dot
  {
    var r := sign + d + [Dot] + f;
    forall i | 0 <= i < |r|
      ensures IsDigit(r[i]) || r[i] == Minus || r[i] == Dot
    {
      if i < |sign| {
        assert r[i] == sign[i];
      } else if i < |sign| + |d| {
        assert r[i] == d[i - |sign|];
      } else if i > |sign| + |d| {
        assert r[i] == f[i - |sign| - |d| - 1];
      }
    }
  }

  /** A calendar date and wall-clock time, as PHP's `date()` reads it from the clock. */
  datatype DateTime = DateTime(year: nat, month: nat, day: nat, hour: nat, minute: nat, second: nat)

  predicate ValidDateTime(t: DateTime) {
    1 <= t.month <= 12 && 1 <= t.day <= 31 && t.hour < 24 && t.minute < 60 && t.second < 60
  }

  /** The fields joined with `sep` between consecutive ones. */
  function Join(fields: seq<Bytes>, sep: byte): Bytes
    requires |fields| >= 1
    decreases |fields|
  {
    if |fields| == 1 then fields[0] else fields[0] + [sep] + Join(fields[1..], sep)
  }

  /** Five fields joined by `sep`. */
  lemma JoinFive(a: Bytes, b: Bytes, c: Bytes, d: Bytes, e: Bytes, sep: byte)
    ensures Join([a, b, c, d, e], sep) == a + [sep] + b + [sep] + c + [sep] + d + [sep] + e
  {
    assert [a, b, c, d, e][1..] == [b, c, d, e];
    assert [b, c, d, e][1..] == [c, d, e];
    assert [c, d, e][1..] == [d, e];
    assert [d, e][1..] == [e];
    assert Join([d, e], sep) == d + [sep] + e;
    assert Join([c, d, e], sep) == c + [sep] + d + [sep] + e;
    assert Join([b, c, d, e], sep) == b + [sep] + c + [sep] + d + [sep] + e;
  }

  /** Occurrences of `b` over all the fields. */
  function CountInFields(fields: seq<Bytes>, b: byte): nat
    decreases |fields|
  {
    if fields == [] then 0 else CountByte(fields[0], b) + CountInFields(fields[1..], b)
  }

  /** Joining adds only separators, so a byte other than the separator occurs as often as in the fields. */
  lemma {:induction false} CountByteJoin(fields: seq<Bytes>, sep: byte, b: byte)
    requires |fields| >= 1 && sep != b
    ensures CountByte(Join(fields, sep), b) == CountInFields(fields, b)
    decreases |fields|
  {
    if |fields| > 1 {
      CountByteJoin(fields[1..], sep, b);
      CountByteAppend(fields[0], [sep], b);
      CountByteAbsent([sep], b);
      CountByteAppend(fields[0] + [sep], Join(fields[1..], sep), b);
    } else {
      assert fields[1..] == [];
    }
  }

  /**
   * Reads digit fields of the given widths separated by `sep`; None when `s` has another shape.
   */
  function ParseFields(s: Bytes, widths: seq<nat>, sep: byte): Option<seq<nat>>
    requires |widths| >= 1
    decreases |widths|
  {
    var w := widths[0];
    if |widths| == 1 then
      if |s| == w && AllDigits(s) then Some([DigitsValue(s)]) else None
    else if |s| > w && AllDigits(s[..w]) && s[w] == sep then
      match ParseFields(s[w + 1..], widths[1..], sep)
      case Some(rest) => Some([DigitsValue(s[..w])] + rest)
      case None => None
    else None
  }

  /** The values of a list of digit fields. */
  function FieldValues(fields: seq<Bytes>): (v: seq<nat>)
    requires forall i :: 0 <= i < |fields| ==> AllDigits(fields[i])
    ensures |v| == |fields|
    ensures forall i :: 0 <= i < |fields| ==> v[i] == DigitsValue(fields[i])
    decreases |fields|
  {
    if fields == [] then [] else [DigitsValue(fields[0])] + FieldValues(fields[1..])
  }

  /** Joining digit fields of the expected widths and reading them back gives their values. */
  lemma {:induction false} ParseJoinRoundTrip(fields: seq<Bytes>, widths: seq<nat>, sep: byte)
    requires |fields| == |widths| >= 1
    requires forall i :: 0 <= i < |fields| ==> |fields[i]| == widths[i] && AllDigits(fields[i])
    requires !IsDigit(sep)
    ensures ParseFields(Join(fields, sep), widths, sep) == Some(FieldValues(fields))
    decreases |fields|
  {
    var s := Join(fields, sep);
    var w := widths[0];
    if |fields| == 1 {
      assert FieldValues(fields) == [DigitsValue(fields[0])];
    } else {
      assert s[..w] == fields[0];
      assert s[w] == sep;
      assert s[w + 1..] == Join(fields[1..], sep);
      ParseJoinRoundTrip(fields[1..], widths[1..], sep);
    }
  }

  /** Total width of joined fields: the field widths plus one separator between consecutive fields. */
  function JoinedWidth(widths: seq<nat>): nat
    decreases |widths|
  {
    if |widths| <= 1 then (if widths == [] then 0 else widths[0]) else widths[0] + 1 + JoinedWidth(widths[1..])
  }

  /** Joining fields of the given widths gives `JoinedWidth(widths)` bytes. */
  lemma {:induction false} JoinLength(fields: seq<Bytes>, widths: seq<nat>, sep: byte)
    requires |fields| == |widths| >= 1
    requires forall i :: 0 <= i < |fields| ==> |fields[i]| == widths[i]
    ensures |Join(fields, sep)| == JoinedWidth(widths)
    decreases |fields|
  {
    if |fields| > 1 {
      JoinLength(fields[1..], widths[1..], sep);
    }
  }

  /** A number below 10^k is padded to exactly k digits. */
  lemma PadLeftWidth(n: nat, k: nat, bound: nat)
    requires k >= 1 && bound == Pow10(k) && n < bound
    ensures |PadLeft(n, k)| == k
  {
    DigitsLength(n, k, bound);
  }

  /** The six fields of `date('Y_m_d_H_i_s')`: a year of at least four digits, the others on two. */
  function StampFields(t: DateTime): seq<Bytes> {
    [PadLeft(t.year, 4), PadLeft(t.month, 2), PadLeft(t.day, 2),
     PadLeft(t.hour, 2), PadLeft(t.minute, 2), PadLeft(t.second, 2)]
  }

  const StampWidths: seq<nat> := [4, 2, 2, 2, 2, 2]

  /**
   * `date('Y_m_d_H_i_s')`: the six fields joined by underscores. For a valid time with a
   * four-digit year the stamp has 19 bytes and reads back as that time.
   */
  function DateStamp(t: DateTime): (stamp: Bytes)
    ensures ValidDateTime(t) && t.year <= 9999 ==> |stamp| == 19 && ParseDateStamp(stamp) == Some(t)
  {
    var stamp := Join(StampFields(t), Underscore);
    StampReadsBack(t, stamp);
    stamp
  }

  /** For a valid time with a four-digit year, the joined fields have 19 bytes and parse back as the time. */
  lemma StampReadsBack(t: DateTime, stamp: Bytes)
    requires stamp == Join(StampFields(t), Underscore)
    ensures ValidDateTime(t) && t.year <= 9999 ==> |stamp| == 19 && ParseDateStamp(stamp) == Some(t)
  {
    if ValidDateTime(t) && t.year <= 9999 {
      StampFieldsWidths(t);
      JoinLength(StampFields(t), StampWidths, Underscore);
      ParseJoinRoundTrip(StampFields(t), StampWidths, Underscore);
    }
  }

  /** Reads a `YYYY_MM_DD_HH_II_SS` stamp back; None for anything of another shape. */
  function ParseDateStamp(s: Bytes): Option<DateTime>
  {
    match ParseFields(s, StampWidths, Underscore)
    case Some(v) =>
      if |v| == 6 then Some(DateTime(v[0], v[1], v[2], v[3], v[4], v[5])) else None
    case None => None
  }

  /** For a four-digit year every field of the stamp has exactly its width. */
  lemma StampFieldsWidths(t: DateTime)
    requires ValidDateTime(t) && t.year <= 9999
    ensures |StampFields(t)| == |StampWidths|
    ensures forall i :: 0 <= i < |StampWidths| ==> |StampFields(t)[i]| == StampWidths[i] && AllDigits(StampFields(t)[i])
  {
    PadLeftWidth(t.year, 4, 10000);
    PadLeftWidth(t.month, 2, 100);
    PadLeftWidth(t.day, 2, 100);
    PadLeftWidth(t.hour, 2, 100);
    PadLeftWidth(t.minute, 2, 100);
    PadLeftWidth(t.second, 2, 100);
  }
}
