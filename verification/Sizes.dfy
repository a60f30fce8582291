/**
 * The size printer of `du` and the size parser of the quota flag, over exact rationals: what the
 * parser makes of what the printer prints.
 */
module Sizes {
  import opened Bytes
  import opened Wrappers

  const KIB := 0x400
  const MIB := 0x10_0000
  const GIB := 0x4000_0000
  const TIB := 0x100_0000_0000
  const MAX_U64 := 0xFFFF_FFFF_FFFF_FFFF

  type u64 = x: int | 0 <= x < 0x1_0000_0000_0000_0000

  datatype Fault = NoNumber | BadNumber | UnknownSuffix

  // ---------------------------------------------------------------------------------------------
  // Printing
  // ---------------------------------------------------------------------------------------------

  function Digit(d: nat): (c: char)
    requires d < 10
    ensures IsDigit(c) && DigitValue(c) == d
  {
    (d + '0' as int) as char
  }

  predicate IsDigit(c: char) {
    '0' <= c <= '9'
  }

  function DigitValue(c: char): nat
    requires IsDigit(c)
  {
    c as int - '0' as int
  }

  function Decimal(n: nat): (s: string)
    ensures s != [] && forall c | c in s :: IsDigit(c)
  {
    if n < 10 then [Digit(n)] else Decimal(n / 10) + [Digit(n % 10)]
  }

  /** `a / b` rounded to the nearest integer, ties to the even one: how a fixed number of decimals is printed. */
  function HalfEven(a: nat, b: nat): nat
    requires b > 0
  {
    var q, r := a / b, a % b;
    if 2 * r < b || (2 * r == b && q % 2 == 0) then q else q + 1
  }

  /** A number of tenths with one decimal. */
  function OneDecimal(tenths: nat): string {
    Decimal(tenths / 10) + "." + [Digit(tenths % 10)]
  }

  function UnitOf(n: nat): (u: nat)
    ensures u > 0
  {
    if n >= TIB then TIB else if n >= GIB then GIB else if n >= MIB then MIB else if n >= KIB then KIB else 1
  }

  function Label(n: nat): string {
    if n >= TIB then "TiB" else if n >= GIB then "GiB" else if n >= MIB then "MiB" else if n >= KIB then "KiB" else "B"
  }

  function Tenths(n: nat): nat {
    HalfEven(10 * n, UnitOf(n))
  }

  function FormatBytes(n: nat): string {
    if n >= KIB then OneDecimal(Tenths(n)) + " " + Label(n) else Decimal(n) + " B"
  }

  // ---------------------------------------------------------------------------------------------
  // Parsing
  // ---------------------------------------------------------------------------------------------

  /** The characters with the Unicode White_Space property. */
  predicate IsSpace(c: char) {
    var u := c as int;
    || 0x9 <= u <= 0xD || u == 0x20 || u == 0x85 || u == 0xA0 || u == 0x1680
    || 0x2000 <= u <= 0x200A || u == 0x2028 || u == 0x2029 || u == 0x202F || u == 0x205F || u == 0x3000
  }

  function TrimStart(s: string): string {
    if s != [] && IsSpace(s[0]) then TrimStart(s[1..]) else s
  }

  function TrimEnd(s: string): string {
    if s != [] && IsSpace(s[|s| - 1]) then TrimEnd(s[..|s| - 1]) else s
  }

  function Trim(s: string): string {
    TrimEnd(TrimStart(s))
  }

  predicate InNumber(c: char) {
    IsDigit(c) || c == '.'
  }

  /** How many leading characters belong to the number. */
  function NumberLength(s: string): (k: nat)
    ensures k <= |s|
    ensures forall i | 0 <= i < k :: InNumber(s[i])
    ensures k < |s| ==> !InNumber(s[k])
  {
    if s == [] || !InNumber(s[0]) then 0 else 1 + NumberLength(s[1..])
  }

  /** A non-negative decimal, `mantissa / 10^scale`. */
  datatype Number = Number(mantissa: nat, scale: nat)

  function PointAt(s: string): (k: nat)
    ensures k <= |s|
    ensures forall i | 0 <= i < k :: s[i] != '.'
    ensures k < |s| ==> s[k] == '.'
  {
    if s == [] || s[0] == '.' then 0 else 1 + PointAt(s[1..])
  }

  /** The digits before the point and those after it: at most one point, at least one digit. */
  function ReadNumber(s: string): Result<Number, Fault> {
    var k := PointAt(s);
    var whole, fraction := s[..k], if k < |s| then s[k + 1..] else "";
    if whole + fraction == "" || !AllDigits(whole) || !AllDigits(fraction) then Err(BadNumber)
    else Ok(Number(DigitsValue(whole + fraction), |fraction|))
  }

  predicate AllDigits(s: string) {
    forall c | c in s :: IsDigit(c)
  }

  function DigitsValue(s: string): nat
    requires AllDigits(s)
  {
    if s == [] then 0 else 10 * DigitsValue(s[..|s| - 1]) + DigitValue(s[|s| - 1])
  }

  function Upper(s: string): (r: string)
    ensures |r| == |s|
    ensures forall i | 0 <= i < |s| :: r[i] == if 'a' <= s[i] <= 'z' then (s[i] as int - 32) as char else s[i]
  {
    seq(|s|, i requires 0 <= i < |s| => if 'a' <= s[i] <= 'z' then (s[i] as int - 32) as char else s[i])
  }

  function Multiplier(suffix: string): Option<nat> {
    if suffix == "" || suffix == "B" then Some(1)
    else if suffix == "K" || suffix == "KIB" || suffix == "KB" then Some(KIB)
    else if suffix == "M" || suffix == "MIB" || suffix == "MB" then Some(MIB)
    else if suffix == "G" || suffix == "GIB" || suffix == "GB" then Some(GIB)
    else if suffix == "T" || suffix == "TIB" || suffix == "TB" then Some(TIB)
    else None
  }

  function Pow10(k: nat): (p: nat)
    ensures p > 0
  {
    if k == 0 then 1 else 10 * Pow10(k - 1)
  }

  /** `a / b` rounded to the nearest integer, ties away from zero. */
  function HalfUp(a: nat, b: nat): nat
    requires b > 0
  {
    (2 * a + b) / (2 * b)
  }

  /** The cast to an unsigned 64-bit integer: it saturates. */
  function Saturate(n: nat): u64 {
    if n > MAX_U64 then MAX_U64 else n
  }

  function InBytes(value: Number, unit: Option<nat>): Result<u64, Fault> {
    match unit
    case None => Err(UnknownSuffix)
    case Some(u) => Ok(Saturate(HalfUp(value.mantissa * u, Pow10(value.scale))))
  }

  function ParseQuotaSize(text: string): Result<u64, Fault> {
    var s := Trim(text);
    var k := NumberLength(s);
    if k == 0 then Err(NoNumber)
    else
      match ReadNumber(s[..k])
      case Err(e) => Err(e)
      case Ok(value) => InBytes(value, Multiplier(Upper(Trim(s[k..]))))
  }

  // ---------------------------------------------------------------------------------------------
  // Reading back what was printed
  // ---------------------------------------------------------------------------------------------

  lemma {:induction false} DecimalValue(n: nat)
    ensures AllDigits(Decimal(n)) && DigitsValue(Decimal(n)) == n
  {
    if n >= 10 {
      DecimalValue(n / 10);
      assert Decimal(n)[..|Decimal(n)| - 1] == Decimal(n / 10);
    }
  }

  lemma {:induction false} NumberEnds(number: string, rest: string)
    requires forall c | c in number :: InNumber(c)
    requires rest != [] && !InNumber(rest[0])
    ensures NumberLength(number + rest) == |number|
  {
    if number != [] {
      assert (number + rest)[1..] == number[1..] + rest;
      assert number[0] in number;
      NumberEnds(number[1..], rest);
    } else {
      assert number + rest == rest;
    }
  }

  lemma NothingToTrim(s: string)
    requires s != [] && !IsSpace(s[0]) && !IsSpace(s[|s| - 1])
    ensures Trim(s) == s
  {
  }

  /** A printed size parses as its number times its unit. */
  lemma ParsePrinted(number: string, name: string, value: Number, unit: nat)
    requires number != [] && forall c | c in number :: InNumber(c)
    requires ReadNumber(number) == Ok(value)
    requires name != "" && !IsSpace(name[0]) && !IsSpace(name[|name| - 1])
    requires Multiplier(Upper(name)) == Some(unit)
    ensures ParseQuotaSize(number + " " + name) == Ok(Saturate(HalfUp(value.mantissa * unit, Pow10(value.scale))))
  {
    hide ReadNumber, Multiplier, Upper, HalfUp, Saturate, TrimStart, TrimEnd;
    var s := number + " " + name;
    assert number[0] in number;
    NothingToTrim(s);
    NumberEnds(number, " " + name);
    assert s == number + (" " + name);
    assert s[..|number|] == number && s[|number|..] == [' '] + name;
    TrimOneSpace(name);
  }

  lemma TrimOneSpace(name: string)
    requires name != "" && !IsSpace(name[0]) && !IsSpace(name[|name| - 1])
    ensures Trim([' '] + name) == name
  {
    assert ([' '] + name)[1..] == name;
    NothingToTrim(name);
  }

  lemma WholeNumber(n: nat)
    ensures ReadNumber(Decimal(n)) == Ok(Number(n, 0))
  {
    DecimalValue(n);
    var s := Decimal(n);
    var k := PointAt(s);
    assert forall i | 0 <= i < |s| :: s[i] in s;
    assert s[..|s|] + "" == s;
  }

  lemma DecimalNumber(tenths: nat)
    ensures ReadNumber(OneDecimal(tenths)) == Ok(Number(tenths, 1))
  {
    var whole, last := Decimal(tenths / 10), [Digit(tenths % 10)];
    var s := OneDecimal(tenths);
    DecimalValue(tenths / 10);
    PointAfter(whole, last);
    assert s[..|whole|] == whole && s[|whole| + 1..] == last;
    assert (whole + last)[..|whole|] == whole;
  }

  lemma PointAfter(whole: string, rest: string)
    requires AllDigits(whole)
    ensures PointAt(whole + "." + rest) == |whole|
  {
    var s := whole + "." + rest;
    assert s[|whole|] == '.';
    assert forall i | 0 <= i < |whole| :: s[i] == whole[i] && whole[i] in whole;
  }

  lemma Labels(n: nat)
    requires n >= KIB
    ensures Label(n) != "" && !IsSpace(Label(n)[0]) && !IsSpace(Label(n)[|Label(n)| - 1])
    ensures Multiplier(Upper(Label(n))) == Some(UnitOf(n))
  {
    assert Upper("KiB") == "KIB" && Upper("MiB") == "MIB" && Upper("GiB") == "GIB" && Upper("TiB") == "TIB";
  }

  /** What the parser makes of the printed size. */
  function ReadBack(n: nat): u64 {
    if n >= KIB then Saturate(HalfUp(Tenths(n) * UnitOf(n), 10)) else n
  }

  lemma PrintedParses(n: nat)
    ensures ParseQuotaSize(FormatBytes(n)) == Ok(ReadBack(n))
  {
    hide ReadNumber, ParseQuotaSize, Multiplier, Upper, Label, Tenths;
    if n >= KIB {
      DecimalNumber(Tenths(n));
      Labels(n);
      assert forall c | c in OneDecimal(Tenths(n)) :: InNumber(c);
      ParsePrinted(OneDecimal(Tenths(n)), Label(n), Number(Tenths(n), 1), UnitOf(n));
      assert Pow10(1) == 10;
    } else {
      WholeNumber(n);
      UpperB();
      ParsePrinted(Decimal(n), "B", Number(n, 0), 1);
      assert Decimal(n) + " " + "B" == Decimal(n) + " B";
    }
  }

  lemma UpperB()
    ensures Multiplier(Upper("B")) == Some(1)
  {
    assert Upper("B") == "B";
  }

  // ---------------------------------------------------------------------------------------------
  // How close it is
  // ---------------------------------------------------------------------------------------------

  lemma HalfEvenIsNear(a: nat, b: nat)
    requires b > 0
    ensures 2 * (HalfEven(a, b) * b - a) <= b && 2 * (a - HalfEven(a, b) * b) <= b
  {
    var q, r := a / b, a % b;
    assert a == q * b + r;
    assert (q + 1) * b == q * b + b;
  }

  lemma HalfUpIsNear(a: nat)
    ensures -5 <= 10 * HalfUp(a, 10) - a <= 5
  {
  }

  lemma SaturateIsNear(m: nat, n: u64, slack: int)
    requires slack >= 0 && -slack <= 20 * m - 20 * n <= slack
    ensures -slack <= 20 * Saturate(m) - 20 * n <= slack
  {
  }

  /** From one KiB up, what is read back is within a twentieth of the printed unit, plus one half, of the size. */
  lemma ReadBackIsNear(n: u64)
    requires n >= KIB
    ensures -(UnitOf(n) + 10) <= 20 * ReadBack(n) - 20 * n <= UnitOf(n) + 10
  {
    hide HalfEven, HalfUp, UnitOf, Saturate;
    var unit, tenths := UnitOf(n), Tenths(n);
    HalfEvenIsNear(10 * n, unit);
    HalfUpIsNear(tenths * unit);
    SaturateIsNear(HalfUp(tenths * unit, 10), n, unit + 10);
  }

  /**
   * Printing a byte count and parsing the text gives the count back below 1024, and otherwise a
   * count off by at most one twentieth of the printed unit plus one half.
   */
  lemma PrintThenParse(n: u64)
    ensures ParseQuotaSize(FormatBytes(n)).Ok?
    ensures n < KIB ==> ParseQuotaSize(FormatBytes(n)).value == n
    ensures n >= KIB ==>
      -(UnitOf(n) + 10) <= 20 * ParseQuotaSize(FormatBytes(n)).value - 20 * n <= UnitOf(n) + 10
  {
    hide ParseQuotaSize, FormatBytes, UnitOf;
    PrintedParses(n);
    if n >= KIB {
      ReadBackIsNear(n);
    }
  }

  // ---------------------------------------------------------------------------------------------
  // Order is kept
  // ---------------------------------------------------------------------------------------------

  lemma DivMonotone(a: nat, a': nat, b: nat)
    requires b > 0 && a <= a'
    ensures a / b <= a' / b
  {
    var q, q' := a / b, a' / b;
    assert a == q * b + a % b && a' == q' * b + a' % b;
    Multiple(q - q', b);
    assert (q - q') * b == q * b - q' * b;
  }

  lemma Multiple(d: int, b: nat)
    ensures d >= 1 ==> d * b >= b
  {
  }

  lemma HalfEvenMonotone(a: nat, a': nat, b: nat)
    requires b > 0 && a <= a'
    ensures HalfEven(a, b) <= HalfEven(a', b)
  {
    DivMonotone(a, a', b);
    assert a == (a / b) * b + a % b && a' == (a' / b) * b + a' % b;
  }

  lemma HalfEvenExact(q: nat, b: nat)
    requires b > 0
    ensures HalfEven(q * b, b) == q
  {
    HalfEvenIsNear(q * b, b);
    var h := HalfEven(q * b, b);
    assert h * b - q * b == (h - q) * b;
    Multiple(h - q, b);
    Multiple(q - h, b);
    assert (q - h) * b == -((h - q) * b);
  }

  /** What is read back stays between its own unit and the next one. */
  lemma StaysInUnit(n: u64)
    requires n >= KIB
    ensures UnitOf(n) <= ReadBack(n)
    ensures UnitOf(n) < TIB ==> ReadBack(n) <= 1024 * UnitOf(n)
  {
    hide HalfEven;
    var unit := UnitOf(n);
    HalfEvenExact(10, unit);
    HalfEvenMonotone(10 * unit, 10 * n, unit);
    if unit < TIB {
      HalfEvenExact(10240, unit);
      HalfEvenMonotone(10 * n, 10240 * unit, unit);
    }
  }

  lemma SameUnit(n: u64, n': u64)
    requires KIB <= n <= n' && UnitOf(n) == UnitOf(n')
    ensures ReadBack(n) <= ReadBack(n')
  {
    hide HalfEven, UnitOf, HalfUp, Saturate;
    var unit := UnitOf(n);
    HalfEvenMonotone(10 * n, 10 * n', unit);
    MulMonotone(Tenths(n), Tenths(n'), unit);
    RoundsMonotone(Tenths(n) * unit, Tenths(n') * unit);
  }

  lemma RoundsMonotone(a: nat, b: nat)
    requires a <= b
    ensures Saturate(HalfUp(a, 10)) <= Saturate(HalfUp(b, 10))
  {
  }

  /** Printing and parsing never swaps two sizes, not even across a change of unit. */
  lemma OrderKept(n: u64, n': u64)
    requires n <= n'
    ensures ParseQuotaSize(FormatBytes(n)).Ok? && ParseQuotaSize(FormatBytes(n')).Ok?
    ensures ParseQuotaSize(FormatBytes(n)).value <= ParseQuotaSize(FormatBytes(n')).value
  {
    hide ParseQuotaSize, FormatBytes, HalfEven, HalfUp, Tenths;
    PrintedParses(n);
    PrintedParses(n');
    if n >= KIB {
      StaysInUnit(n);
      if UnitOf(n) == UnitOf(n') {
        SameUnit(n, n');
      } else {
        StaysInUnit(n');
      }
    } else if n' >= KIB {
      StaysInUnit(n');
    }
  }

  // ---------------------------------------------------------------------------------------------
  // Known sizes
  // ---------------------------------------------------------------------------------------------

  lemma WholeTenths(k: nat, unit: nat)
    requires unit > 0
    ensures HalfEven(10 * (k * unit), unit) == 10 * k
  {
    var a := 10 * (k * unit);
    assert a == (10 * k) * unit;
    DivModUnique(a, unit, 10 * k, 0);
  }

  lemma NoTenths(k: nat)
    ensures OneDecimal(10 * k) == Decimal(k) + ".0"
  {
    hide Decimal;
    assert (10 * k) / 10 == k && (10 * k) % 10 == 0;
    assert [Digit(0)] == "0";
    assert Decimal(k) + "." + "0" == Decimal(k) + ".0";
  }

  /** How whole numbers of bytes and of each unit are printed. */
  lemma WholeUnitsPrinted(k: nat)
    ensures k < 1024 ==> FormatBytes(k) == Decimal(k) + " B"
    ensures 0 < k < 1024 ==> FormatBytes(k * 1024) == Decimal(k) + ".0" + " KiB"
    ensures 0 < k < 1024 ==> FormatBytes(k * 1048576) == Decimal(k) + ".0" + " MiB"
    ensures 0 < k < 1024 ==> FormatBytes(k * 1073741824) == Decimal(k) + ".0" + " GiB"
    ensures 0 < k ==> FormatBytes(k * 1099511627776) == Decimal(k) + ".0" + " TiB"
  {
    hide HalfEven, OneDecimal, Decimal;
    NoTenths(k);
    WholeTenths(k, 1024);
    WholeTenths(k, 1048576);
    WholeTenths(k, 1073741824);
    WholeTenths(k, 1099511627776);
    assert " " + "KiB" == " KiB" && " " + "MiB" == " MiB" && " " + "GiB" == " GiB" && " " + "TiB" == " TiB";
  }

  /** Half a unit is printed as such, and ties between two tenths go to the even one. */
  lemma FractionsPrinted()
    ensures FormatBytes(1536) == "1.5 KiB" && FormatBytes(1572864) == "1.5 MiB"
    ensures FormatBytes(1280) == "1.2 KiB" && FormatBytes(1792) == "1.8 KiB"
  {
    assert HalfEven(15360, 1024) == 15 && HalfEven(15728640, 1048576) == 15;
    assert HalfEven(12800, 1024) == 12 && HalfEven(17920, 1024) == 18;
    OnePointPrinted(2);
    OnePointPrinted(5);
    OnePointPrinted(8);
    hide HalfEven, OneDecimal, Decimal;
  }

  lemma OnePointPrinted(d: nat)
    requires d < 10
    ensures OneDecimal(10 + d) == "1." + [Digit(d)]
    ensures Digit(2) == '2' && Digit(5) == '5' && Digit(8) == '8'
  {
    assert (10 + d) / 10 == 1 && (10 + d) % 10 == d;
    assert Decimal(1) == [Digit(1)] && Digit(1) == '1';
    assert "1" + "." + [Digit(d)] == "1." + [Digit(d)];
  }

  /** The multipliers, by suffix in upper case. */
  lemma SuffixesAre(suffix: string)
    ensures Multiplier(suffix) ==
            if suffix in {"", "B"} then Some(1)
            else if suffix in {"K", "KB", "KIB"} then Some(1024)
            else if suffix in {"M", "MB", "MIB"} then Some(1048576)
            else if suffix in {"G", "GB", "GIB"} then Some(1073741824)
            else if suffix in {"T", "TB", "TIB"} then Some(1099511627776)
            else None
  {
  }

  ghost predicate OnlyPoints(s: string) {
    forall i | 0 <= i < |s| :: s[i] == '.'
  }

  ghost predicate TwoPoints(s: string) {
    exists i, j | 0 <= i < j < |s| :: s[i] == '.' && s[j] == '.'
  }

  lemma BadNumbers(s: string)
    requires forall i | 0 <= i < |s| :: InNumber(s[i])
    ensures ReadNumber(s).Err? <==> OnlyPoints(s) || TwoPoints(s)
    ensures ReadNumber(s).Err? ==> ReadNumber(s).error == BadNumber
  {
    hide DigitsValue;
    var k := PointAt(s);
    var whole, fraction := s[..k], if k < |s| then s[k + 1..] else "";
    assert forall i | 0 <= i < k :: whole[i] == s[i] && IsDigit(s[i]);
    assert AllDigits(whole);
    assert forall i | 0 <= i < |fraction| :: fraction[i] == s[k + 1 + i];
    if j :| k < j < |s| && s[j] == '.' {
      assert s[k] == '.' && TwoPoints(s);
      assert fraction[j - k - 1] == '.' && '.' in fraction;
      assert !AllDigits(fraction);
    } else {
      assert forall i | 0 <= i < |fraction| :: IsDigit(fraction[i]);
      assert AllDigits(fraction);
      assert !TwoPoints(s);
      if whole + fraction == "" {
        assert |s| <= 1;
      } else {
        assert if whole != "" then s[0] != '.' else s[k + 1] != '.';
      }
    }
  }

  /** Which sizes are refused, and how: without a digit or point at the start there is no number;
      with nothing but points or more than one it is a bad one; what follows must be a known suffix. */
  lemma ParseFaultsExactly(text: string)
    ensures var s := Trim(text);
            var number, suffix := s[..NumberLength(s)], Trim(s[NumberLength(s)..]);
            && (ParseQuotaSize(text) == Err(NoNumber) <==> number == "")
            && (ParseQuotaSize(text) == Err(BadNumber) <==> number != "" && (OnlyPoints(number) || TwoPoints(number)))
            && (ParseQuotaSize(text) == Err(UnknownSuffix) <==>
                  number != "" && !OnlyPoints(number) && !TwoPoints(number) && Multiplier(Upper(suffix)).None?)
  {
    var s := Trim(text);
    BadNumbers(s[..NumberLength(s)]);
    hide Trim, Upper, Multiplier, ReadNumber, OnlyPoints, TwoPoints, InNumber;
  }

  lemma {:induction false} TrimStartStops(s: string, c: char)
    ensures TrimStart(s + [c]) == if TrimStart(s) == "" && IsSpace(c) then "" else TrimStart(s) + [c]
    decreases |s|
  {
    if s == "" {
      assert s + [c] == [c];
    } else {
      assert (s + [c])[1..] == s[1..] + [c];
      if IsSpace(s[0]) {
        TrimStartStops(s[1..], c);
      }
    }
  }

  /** White space around a size makes no difference. */
  lemma BlanksIgnored(text: string, c: char)
    requires IsSpace(c)
    ensures ParseQuotaSize([c] + text) == ParseQuotaSize(text) == ParseQuotaSize(text + [c])
  {
    assert ([c] + text)[1..] == text;
    TrimStartStops(text, c);
    var s := TrimStart(text);
    assert (s + [c])[..|s|] == s;
    assert Trim([c] + text) == Trim(text) == Trim(text + [c]);
  }
}
