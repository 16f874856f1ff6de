/** Parsing and normalizing the configured cache size (src/config.rs). */
module CacheSize {
  import opened Common
  import opened Decimal

  // ---------------------------------------------------------------------------
  // Values
  // ---------------------------------------------------------------------------

  const U128_MAX: int := 0xFFFF_FFFF_FFFF_FFFF_FFFF_FFFF_FFFF_FFFF
  const BYTES_PER_KIB: nat := 1024
  const BYTES_PER_MIB: nat := 1024 * 1024
  const BYTES_PER_GIB: nat := 1024 * 1024 * 1024

  datatype SizeError =
    | EmptyText
    | NumberAndUnitNeeded
    | UnsupportedUnit(unit: string)
    | InvalidQuantity(number: string)
    | TooLarge

  datatype Result<+T> = Ok(value: T) | Err(error: SizeError)

  /** `bytes` is absent for no limit. */
  datatype ParsedCacheSize = ParsedCacheSize(bytes: Option<nat>, normalized: string)

  // ---------------------------------------------------------------------------
  // Text
  // ---------------------------------------------------------------------------

  /** The Unicode White_Space characters. */
  predicate IsWhitespace(c: char) {
    var code := c as int;
    || 9 <= code <= 13 || code == 0x20 || code == 0x85 || code == 0xA0 || code == 0x1680
    || 0x2000 <= code <= 0x200A || code == 0x2028 || code == 0x2029 || code == 0x202F || code == 0x205F
    || code == 0x3000
  }

  function TrimStart(text: string): string {
    if text != [] && IsWhitespace(text[0]) then TrimStart(text[1..]) else text
  }

  function TrimEnd(text: string): string {
    if text != [] && IsWhitespace(text[|text| - 1]) then TrimEnd(text[..|text| - 1]) else text
  }

  function Trim(text: string): string {
    TrimEnd(TrimStart(text))
  }

  function LowerChar(c: char): char {
    if 'A' <= c <= 'Z' then (c as int + 32) as char else c
  }

  function Lower(text: string): string {
    if text == [] then [] else [LowerChar(text[0])] + Lower(text[1..])
  }

  /** Without its leading zeros. */
  function TrimZerosStart(digits: string): string {
    if digits != [] && digits[0] == '0' then TrimZerosStart(digits[1..]) else digits
  }

  /** Without its trailing zeros. */
  function TrimZerosEnd(digits: string): string {
    if digits != [] && digits[|digits| - 1] == '0' then TrimZerosEnd(digits[..|digits| - 1]) else digits
  }

  /** What stands before and after the first point. */
  function SplitPoint(number: string): Option<(string, string)> {
    if number == [] then None
    else if number[0] == '.' then Some(([], number[1..]))
    else
      match SplitPoint(number[1..])
      case None => None
      case Some((whole, fraction)) => Some(([number[0]] + whole, fraction))
  }

  /** How many leading characters are digits or points. */
  function NumberLength(text: string): nat {
    if text != [] && (IsDigit(text[0]) || text[0] == '.') then 1 + NumberLength(text[1..]) else 0
  }

  lemma {:induction false} NumberLengthBound(text: string)
    ensures NumberLength(text) <= |text|
    ensures forall c <- text[..NumberLength(text)] :: IsDigit(c) || c == '.'
  {
    if text != [] && (IsDigit(text[0]) || text[0] == '.') {
      NumberLengthBound(text[1..]);
      assert text[..NumberLength(text)] == [text[0]] + text[1..][..NumberLength(text[1..])];
    }
  }

  // ---------------------------------------------------------------------------
  // Numbers
  // ---------------------------------------------------------------------------

  function DivCeil(a: nat, b: nat): nat
    requires b > 0
  {
    (a + b - 1) / b
  }

  function ParseU128(digits: string): Option<nat> {
    if digits != [] && AllDigits(digits) && Value(digits) <= U128_MAX then Some(Value(digits)) else None
  }

  // ---------------------------------------------------------------------------
  // The parser
  // ---------------------------------------------------------------------------

  function NormalizeWhole(whole: string): string {
    if TrimZerosStart(whole) == [] then "0" else TrimZerosStart(whole)
  }

  function NormalizeNumber(number: string): Result<string> {
    match SplitPoint(number)
    case None =>
      if number == [] || !AllDigits(number) then Err(InvalidQuantity(number)) else Ok(NormalizeWhole(number))
    case Some((whole, fraction)) =>
      if !AllDigits(whole) || !AllDigits(fraction) then Err(InvalidQuantity(number))
      else if TrimZerosEnd(fraction) == [] then Ok(NormalizeWhole(whole))
      else Ok(NormalizeWhole(whole) + "." + TrimZerosEnd(fraction))
  }

  function Narrow(bytes: nat): Result<Option<nat>> {
    if bytes <= U64_MAX then Ok(Some(bytes)) else Err(TooLarge)
  }

  function ParseFraction(number: string, wholeBytes: nat, fraction: string, multiplier: nat): Result<Option<nat>> {
    if !AllDigits(fraction) then Err(InvalidQuantity(number))
    else if fraction == [] then Narrow(wholeBytes)
    else if ParseU128(fraction).None? then Err(InvalidQuantity(number))
    else if Power10(|fraction|) > U128_MAX then Err(TooLarge)
    else if Value(fraction) * multiplier > U128_MAX then Err(TooLarge)
    else
      PowerPositive(|fraction|);
      var total := wholeBytes + DivCeil(Value(fraction) * multiplier, Power10(|fraction|));
      if total > U128_MAX then Err(TooLarge)
      else if total == 0 then Ok(None)
      else Narrow(total)
  }

  function ParseBytes(number: string, multiplier: nat): Result<Option<nat>> {
    var split := SplitPoint(number);
    var whole := if split.Some? then split.value.0 else number;
    if whole == [] && split.None? then Err(InvalidQuantity(number))
    else if whole != [] && ParseU128(whole).None? then Err(InvalidQuantity(number))
    else if Value(whole) * multiplier > U128_MAX then Err(TooLarge)
    else if split.None? then Narrow(Value(whole) * multiplier)
    else ParseFraction(number, Value(whole) * multiplier, split.value.1, multiplier)
  }

  function CanonicalUnit(unit: string): Option<(string, nat)> {
    var lower := Lower(Trim(unit));
    if lower == "b" || lower == "byte" || lower == "bytes" then Some(("B", 1))
    else if lower == "kib" || lower == "kb" then Some(("KiB", BYTES_PER_KIB))
    else if lower == "mib" || lower == "mb" then Some(("MiB", BYTES_PER_MIB))
    else if lower == "gib" || lower == "gb" then Some(("GiB", BYTES_PER_GIB))
    else None
  }

  function ParseQuantity(number: string, unit: string): Result<ParsedCacheSize> {
    match CanonicalUnit(unit)
    case None => Err(UnsupportedUnit(unit))
    case Some((name, multiplier)) =>
      match NormalizeNumber(number)
      case Err(error) => Err(error)
      case Ok(normalized) =>
        match ParseBytes(number, multiplier)
        case Err(error) => Err(error)
        case Ok(bytes) => Ok(ParsedCacheSize(bytes, normalized + " " + name))
  }

  function NumberOf(trimmed: string): string {
    NumberLengthBound(trimmed);
    trimmed[..NumberLength(trimmed)]
  }

  function UnitOf(trimmed: string): string {
    NumberLengthBound(trimmed);
    Trim(trimmed[NumberLength(trimmed)..])
  }

  function ParseCacheSize(text: string): Result<ParsedCacheSize> {
    var trimmed := Trim(text);
    if trimmed == [] then Err(EmptyText)
    else if Lower(trimmed) == "unlimited" then Ok(ParsedCacheSize(None, "unlimited"))
    else if trimmed == "0" then Ok(ParsedCacheSize(None, "0"))
    else if NumberOf(trimmed) == [] || UnitOf(trimmed) == [] then Err(NumberAndUnitNeeded)
    else ParseQuantity(NumberOf(trimmed), UnitOf(trimmed))
  }

  // ---------------------------------------------------------------------------
  // Arithmetic
  // ---------------------------------------------------------------------------

  /** `c` is the least whole number with `c * b >= a`. */
  predicate IsCeiling(c: int, a: int, b: int) {
    (c - 1) * b < a <= c * b
  }

  lemma DivCeilIsCeiling(a: nat, b: nat)
    requires b > 0
    ensures IsCeiling(DivCeil(a, b), a, b)
  {
    var c := DivCeil(a, b);
    assert (a + b - 1) == c * b + (a + b - 1) % b;
    assert (c - 1) * b == c * b - b;
  }

  lemma CeilingIsUnique(c: int, d: int, a: int, b: int)
    requires b > 0 && IsCeiling(c, a, b) && IsCeiling(d, a, b)
    ensures c == d
  {
    assert c <= d - 1 ==> c * b <= (d - 1) * b;
    assert d <= c - 1 ==> d * b <= (c - 1) * b;
  }

  /** Scaling both sides keeps a ceiling. */
  lemma CeilingScales(a: nat, b: nat, scale: nat)
    requires b > 0 && scale > 0
    ensures b * scale > 0 && DivCeil(a * scale, b * scale) == DivCeil(a, b)
  {
    var c := DivCeil(a, b);
    DivCeilIsCeiling(a, b);
    assert b * scale > 0;
    DivCeilIsCeiling(a * scale, b * scale);
    ScaledCeiling(c, a, b, scale);
    CeilingIsUnique(DivCeil(a * scale, b * scale), c, a * scale, b * scale);
  }

  lemma ScaledCeiling(c: int, a: int, b: int, scale: int)
    requires scale > 0 && IsCeiling(c, a, b)
    ensures IsCeiling(c, a * scale, b * scale)
  {
    var below, above := (c - 1) * b, c * b;
    assert below * scale < a * scale <= above * scale;
    assert (c - 1) * (b * scale) == below * scale;
    assert c * (b * scale) == above * scale;
  }

  lemma {:induction false} LeadingZerosDoNotCount(digits: string)
    ensures Value(TrimZerosStart(digits)) == Value(digits)
    ensures |TrimZerosStart(digits)| <= |digits|
    ensures AllDigits(digits) ==> AllDigits(TrimZerosStart(digits))
    ensures TrimZerosStart(digits) != [] ==> TrimZerosStart(digits)[0] != '0'
  {
    if digits != [] && digits[0] == '0' {
      LeadingZerosDoNotCount(digits[1..]);
      ValueConcat([digits[0]], digits[1..]);
      assert digits == [digits[0]] + digits[1..];
      assert Value([digits[0]]) == 0;
    }
  }

  lemma {:induction false} TrailingZeros(digits: string) returns (zeros: nat)
    ensures digits == TrimZerosEnd(digits) + Zeros(zeros)
    ensures AllDigits(digits) ==> AllDigits(TrimZerosEnd(digits))
    ensures TrimZerosEnd(digits) != [] ==> TrimZerosEnd(digits)[|TrimZerosEnd(digits)| - 1] != '0'
  {
    if digits != [] && digits[|digits| - 1] == '0' {
      var fewer := digits[..|digits| - 1];
      zeros := TrailingZeros(fewer);
      zeros := zeros + 1;
      assert digits == fewer + "0";
    } else {
      zeros := 0;
    }
  }

  /** Trailing zeros scale a fraction and its denominator alike. */
  lemma TrailingZerosScale(digits: string) returns (scale: nat)
    ensures scale > 0
    ensures Value(digits) == Value(TrimZerosEnd(digits)) * scale
    ensures Power10(|digits|) == Power10(|TrimZerosEnd(digits)|) * scale
  {
    var zeros := TrailingZeros(digits);
    scale := Power10(zeros);
    PowerPositive(zeros);
    ZerosScale(TrimZerosEnd(digits), zeros);
  }

  lemma ZerosScale(digits: string, zeros: nat)
    ensures Value(digits + Zeros(zeros)) == Value(digits) * Power10(zeros)
    ensures Power10(|digits + Zeros(zeros)|) == Power10(|digits|) * Power10(zeros)
  {
    ZerosAreZero(zeros);
    ValueConcat(digits, Zeros(zeros));
    PowerAdds(|digits|, zeros);
  }
}
