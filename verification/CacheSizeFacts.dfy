/** The normal form of a cache size is stable, and its byte count is exact. */
module CacheSizeFacts {
  import opened Common
  import opened Decimal
  import opened CacheSize

  // ---------------------------------------------------------------------------
  // The byte count
  // ---------------------------------------------------------------------------

  function WholeOf(number: string): string {
    if SplitPoint(number).Some? then SplitPoint(number).value.0 else number
  }

  function FractionOf(number: string): string {
    if SplitPoint(number).Some? then SplitPoint(number).value.1 else []
  }

  /** The quantity a number denotes, over ten to the number of its fraction digits. */
  function Numerator(number: string): nat {
    Value(WholeOf(number)) * Power10(|FractionOf(number)|) + Value(FractionOf(number))
  }

  function Denominator(number: string): (d: nat)
    ensures d > 0
  {
    PowerPositive(|FractionOf(number)|);
    Power10(|FractionOf(number)|)
  }

  lemma SumIsCeiling(whole: nat, fraction: nat, multiplier: nat, scale: nat)
    requires scale > 0
    ensures IsCeiling(whole * multiplier + DivCeil(fraction * multiplier, scale),
                      (whole * scale + fraction) * multiplier, scale)
  {
    var c := DivCeil(fraction * multiplier, scale);
    DivCeilIsCeiling(fraction * multiplier, scale);
    var bytes := whole * multiplier;
    assert (whole * scale + fraction) * multiplier == bytes * scale + fraction * multiplier by {
      assert (whole * scale) * multiplier == (whole * multiplier) * scale;
    }
    assert (bytes + c) * scale == bytes * scale + c * scale;
    assert (bytes + c - 1) * scale == bytes * scale + (c - 1) * scale;
  }

  /** The exact ceiling of quantity times unit. */
  function ExactBytes(number: string, multiplier: nat): nat {
    DivCeil(Numerator(number) * multiplier, Denominator(number))
  }

  lemma CeilingIsDivCeil(c: int, a: nat, b: nat)
    requires b > 0 && IsCeiling(c, a, b)
    ensures c == DivCeil(a, b)
  {
    DivCeilIsCeiling(a, b);
    CeilingIsUnique(c, DivCeil(a, b), a, b);
  }

  /** The count both ways round: rounded up once, or whole bytes plus a rounded fraction. */
  lemma CeilingOfSum(number: string, multiplier: nat)
    ensures ExactBytes(number, multiplier)
         == Value(WholeOf(number)) * multiplier + DivCeil(Value(FractionOf(number)) * multiplier, Denominator(number))
  {
    var whole, fraction, scale := Value(WholeOf(number)), Value(FractionOf(number)), Denominator(number);
    SumIsCeiling(whole, fraction, multiplier, scale);
    CeilingIsDivCeil(whole * multiplier + DivCeil(fraction * multiplier, scale), Numerator(number) * multiplier, scale);
  }

  /** The bytes of a parsed quantity, no limit standing for a zero. */
  function ByteCount(bytes: Option<nat>): nat {
    if bytes.Some? then bytes.value else 0
  }

  lemma BytesAreDivCeil(number: string, multiplier: nat)
    requires ParseBytes(number, multiplier).Ok?
    ensures var bytes := ParseBytes(number, multiplier).value;
            ByteCount(bytes) == ExactBytes(number, multiplier)
  {
    CeilingOfSum(number, multiplier);
    if FractionOf(number) == [] {
      assert DivCeil(0, 1) == 0;
    }
  }

  /** A parsed byte count is the exact ceiling of quantity times unit and fits 64 bits; no
      limit comes out only for a zero written with a fraction. */
  lemma BytesAreExact(number: string, multiplier: nat)
    requires ParseBytes(number, multiplier).Ok?
    ensures var bytes := ParseBytes(number, multiplier).value;
            && IsCeiling(ByteCount(bytes), Numerator(number) * multiplier, Denominator(number))
            && (bytes.Some? ==> bytes.value <= U64_MAX)
            && (bytes.None? ==> FractionOf(number) != [])
  {
    BytesAreDivCeil(number, multiplier);
    DivCeilIsCeiling(Numerator(number) * multiplier, Denominator(number));
  }

  lemma AtLeast(a: nat, multiplier: nat)
    requires multiplier > 0
    ensures a <= a * multiplier
  {
  }

  /** Which numbers a unit accepts: digits on both sides of the point, some of them, small
      enough for the 128-bit intermediate steps, and a ceiling that fits 64 bits. */
  lemma AcceptedNumbers(number: string, multiplier: nat)
    requires multiplier > 0
    ensures ParseBytes(number, multiplier).Ok? <==>
              && number != []
              && AllDigits(WholeOf(number)) && AllDigits(FractionOf(number))
              && Value(FractionOf(number)) * multiplier <= U128_MAX
              && Denominator(number) <= U128_MAX
              && ExactBytes(number, multiplier) <= U64_MAX
  {
    CeilingOfSum(number, multiplier);
    AtLeast(Value(WholeOf(number)), multiplier);
    AtLeast(Value(FractionOf(number)), multiplier);
    AcceptedByParts(number, multiplier, ExactBytes(number, multiplier));
  }

  lemma AcceptedByParts(number: string, multiplier: nat, exact: nat)
    requires 0 < multiplier
    requires exact
         == Value(WholeOf(number)) * multiplier + DivCeil(Value(FractionOf(number)) * multiplier, Denominator(number))
    requires Value(WholeOf(number)) <= Value(WholeOf(number)) * multiplier
    requires Value(FractionOf(number)) <= Value(FractionOf(number)) * multiplier
    ensures ParseBytes(number, multiplier).Ok? <==>
              && number != []
              && AllDigits(WholeOf(number)) && AllDigits(FractionOf(number))
              && Value(FractionOf(number)) * multiplier <= U128_MAX
              && Denominator(number) <= U128_MAX
              && exact <= U64_MAX
  {
    if FractionOf(number) == [] {
      assert DivCeil(0, 1) == 0;
      assert exact == Value(WholeOf(number)) * multiplier;
    }
  }

  // ---------------------------------------------------------------------------
  // The normal form of a number
  // ---------------------------------------------------------------------------

  lemma {:induction false} SplitPointIs(whole: string, fraction: string)
    requires AllDigits(whole)
    ensures SplitPoint(whole + "." + fraction) == Some((whole, fraction))
    ensures SplitPoint(whole) == None
  {
    var number := whole + "." + fraction;
    if whole == [] {
      assert number == "." + fraction;
    } else {
      assert IsDigit(whole[0]);
      SplitPointIs(whole[1..], fraction);
      assert number[1..] == whole[1..] + "." + fraction;
      assert [whole[0]] + whole[1..] == whole;
    }
  }

  /** A whole part without needless zeros, and a fraction without them. */
  predicate IsNormalWhole(whole: string) {
    whole != [] && AllDigits(whole) && (whole == "0" || whole[0] != '0')
  }

  predicate IsNormalFraction(fraction: string) {
    fraction != [] && AllDigits(fraction) && fraction[|fraction| - 1] != '0'
  }

  lemma NormalWhole(whole: string)
    requires AllDigits(whole)
    ensures IsNormalWhole(NormalizeWhole(whole))
    ensures Value(NormalizeWhole(whole)) == Value(whole)
  {
    LeadingZerosDoNotCount(whole);
  }

  lemma NormalWholeIsFixed(whole: string)
    requires IsNormalWhole(whole)
    ensures NormalizeWhole(whole) == whole
  {
    if whole == "0" {
      assert whole[1..] == [];
      assert TrimZerosStart(whole) == TrimZerosStart(whole[1..]) == [];
    }
  }

  /** How a normalized number is made up. */
  lemma NormalizedParts(number: string)
    requires NormalizeNumber(number).Ok?
    ensures var normalized := NormalizeNumber(number).value;
            var whole, fraction := NormalizeWhole(WholeOf(number)), TrimZerosEnd(FractionOf(number));
            && IsNormalWhole(whole) && Value(whole) == Value(WholeOf(number))
            && (fraction == [] ==> normalized == whole)
            && (fraction != [] ==> IsNormalFraction(fraction) && normalized == whole + "." + fraction)
            && WholeOf(normalized) == whole && FractionOf(normalized) == fraction
            && (SplitPoint(normalized).None? <==> fraction == [])
  {
    NormalWhole(WholeOf(number));
    var zeros := TrailingZeros(FractionOf(number));
    var whole, fraction := NormalizeWhole(WholeOf(number)), TrimZerosEnd(FractionOf(number));
    SplitPointIs(whole, fraction);
  }

  lemma NormalizedNumberIsFixed(number: string)
    requires NormalizeNumber(number).Ok?
    ensures NormalizeNumber(NormalizeNumber(number).value) == NormalizeNumber(number)
  {
    NormalizedParts(number);
    NormalWholeIsFixed(NormalizeWhole(WholeOf(number)));
  }

  lemma NormalizedNumberText(number: string)
    requires NormalizeNumber(number).Ok?
    ensures var normalized := NormalizeNumber(number).value;
            && normalized != [] && IsDigit(normalized[0])
            && forall c <- normalized :: IsDigit(c) || c == '.'
  {
    NormalizedParts(number);
    var whole := NormalizeWhole(WholeOf(number));
    assert whole[0] in whole;
  }

  lemma NormalizedIsAccepted(number: string, multiplier: nat)
    requires multiplier > 0 && NormalizeNumber(number).Ok? && ParseBytes(number, multiplier).Ok?
    ensures ParseBytes(NormalizeNumber(number).value, multiplier).Ok?
    ensures ExactBytes(number, multiplier) == ExactBytes(NormalizeNumber(number).value, multiplier)
  {
    var normalized := NormalizeNumber(number).value;
    NormalizedParts(number);
    var scale := TrailingZerosScale(FractionOf(number));
    SameQuantity(number, normalized, multiplier, scale);
    AcceptedNumbers(number, multiplier);
    AcceptedNumbers(normalized, multiplier);
    SmallerSteps(Value(FractionOf(normalized)), Denominator(normalized), multiplier, scale);
  }

  /** The normalized number parses to the same bytes, but never to no limit. */
  lemma NormalizedBytes(number: string, multiplier: nat)
    requires multiplier > 0 && NormalizeNumber(number).Ok? && ParseBytes(number, multiplier).Ok?
    ensures var bytes := ParseBytes(number, multiplier).value;
            ParseBytes(NormalizeNumber(number).value, multiplier) == Ok(if bytes.None? then Some(0) else bytes)
  {
    var normalized := NormalizeNumber(number).value;
    NormalizedParts(number);
    NormalizedIsAccepted(number, multiplier);
    BytesAreDivCeil(number, multiplier);
    BytesAreDivCeil(normalized, multiplier);
    if ParseBytes(normalized, multiplier).value.None? {
      NoLimitNeedsZeros(normalized, multiplier);
      NormalFractionIsPositive(FractionOf(normalized));
    }
  }

  lemma NormalFractionIsPositive(fraction: string)
    requires IsNormalFraction(fraction)
    ensures Value(fraction) > 0
  {
    assert fraction[|fraction| - 1] in fraction;
  }

  lemma SmallerSteps(fraction: nat, scale: nat, multiplier: nat, zeros: nat)
    requires zeros > 0
    ensures fraction * multiplier <= (fraction * zeros) * multiplier && scale <= scale * zeros
  {
    assert (fraction * zeros) * multiplier == (fraction * multiplier) * zeros;
  }

  /** Dropping needless zeros changes neither the quantity nor the ceiling. */
  lemma SameQuantity(number: string, normalized: string, multiplier: nat, scale: nat)
    requires scale > 0
    requires Value(WholeOf(normalized)) == Value(WholeOf(number))
    requires Value(FractionOf(number)) == Value(FractionOf(normalized)) * scale
    requires Power10(|FractionOf(number)|) == Power10(|FractionOf(normalized)|) * scale
    ensures ExactBytes(number, multiplier) == ExactBytes(normalized, multiplier)
  {
    var w, f, d := Value(WholeOf(number)), Value(FractionOf(normalized)), Denominator(normalized);
    var wider, longer := d * scale, f * scale;
    assert Denominator(number) == wider && Value(FractionOf(number)) == longer;
    SameCeiling(w, d, f, scale, multiplier, wider, longer);
  }

  lemma SameCeiling(w: nat, d: nat, f: nat, scale: nat, multiplier: nat, wider: nat, longer: nat)
    requires d > 0 && scale > 0 && wider == d * scale && longer == f * scale
    ensures wider > 0 && DivCeil((w * wider + longer) * multiplier, wider) == DivCeil((w * d + f) * multiplier, d)
  {
    Distributes(w, d, f, scale, multiplier);
    CeilingScales((w * d + f) * multiplier, d, scale);
  }

  lemma Distributes(w: nat, d: nat, f: nat, scale: nat, multiplier: nat)
    ensures (w * (d * scale) + f * scale) * multiplier == ((w * d + f) * multiplier) * scale
  {
    var n := w * d;
    assert w * (d * scale) == n * scale;
    assert n * scale + f * scale == (n + f) * scale;
    var q := n + f;
    assert (q * scale) * multiplier == (q * multiplier) * scale;
  }

  /** No limit needs a fraction that is all zeros, which a normalized number never has. */
  lemma NoLimitNeedsZeros(number: string, multiplier: nat)
    requires multiplier > 0 && ParseBytes(number, multiplier) == Ok(None)
    ensures FractionOf(number) != [] && Value(WholeOf(number)) == 0 && Value(FractionOf(number)) == 0
  {
    BytesAreExact(number, multiplier);
    var n, d := Numerator(number), Denominator(number);
    assert n * multiplier <= 0;
    assert n == 0;
    assert Value(WholeOf(number)) * d == 0;
  }

  // ---------------------------------------------------------------------------
  // The normal form of a text
  // ---------------------------------------------------------------------------

  /** The canonical unit names and their sizes. */
  predicate IsUnit(name: string, multiplier: nat) {
    || (name == "B" && multiplier == 1)
    || (name == "KiB" && multiplier == BYTES_PER_KIB)
    || (name == "MiB" && multiplier == BYTES_PER_MIB)
    || (name == "GiB" && multiplier == BYTES_PER_GIB)
  }

  lemma {:induction false} NumberLengthOf(number: string, rest: string)
    requires forall c <- number :: IsDigit(c) || c == '.'
    requires rest != [] && !IsDigit(rest[0]) && rest[0] != '.'
    ensures NumberLength(number + rest) == |number|
  {
    if number == [] {
      assert number + rest == rest;
    } else {
      assert number[0] in number;
      NumberLengthOf(number[1..], rest);
      assert (number + rest)[1..] == number[1..] + rest;
    }
  }

  lemma TrimNothing(text: string)
    requires text != [] ==> !IsWhitespace(text[0]) && !IsWhitespace(text[|text| - 1])
    ensures Trim(text) == text
  {
  }

  lemma UnitIsCanonical(name: string, multiplier: nat)
    requires IsUnit(name, multiplier)
    ensures name != [] && !IsWhitespace(name[0]) && !IsWhitespace(name[|name| - 1])
    ensures Trim(" " + name) == name && CanonicalUnit(name) == Some((name, multiplier))
  {
    var spaced := " " + name;
    assert spaced[1..] == name;
    assert TrimStart(spaced) == TrimStart(name) == name;
    TrimNothing(name);
    LowerUnit(name, multiplier);
  }

  lemma LowerUnit(name: string, multiplier: nat)
    requires IsUnit(name, multiplier)
    ensures name == "B" ==> Lower(name) == "b"
    ensures name == "KiB" ==> Lower(name) == "kib"
    ensures name == "MiB" ==> Lower(name) == "mib"
    ensures name == "GiB" ==> Lower(name) == "gib"
  {
    if name == "B" {
      assert name[1..] == [];
    } else {
      assert Lower(name) == [LowerChar(name[0])] + Lower(name[1..]);
      assert Lower(name[1..]) == [LowerChar(name[1])] + Lower(name[1..][1..]);
      assert name[1..][1..] == "B";
      assert Lower("B") == ['b'] + Lower([]);
    }
  }

  /** A normalized quantity is parsed as the quantity it is. */
  lemma QuantityTextParses(number: string, name: string, multiplier: nat)
    requires number != [] && IsDigit(number[0]) && (forall c <- number :: IsDigit(c) || c == '.')
    requires IsUnit(name, multiplier)
    ensures ParseCacheSize(number + " " + name) == ParseQuantity(number, name)
  {
    var text := number + " " + name;
    UnitIsCanonical(name, multiplier);
    assert text == number + (" " + name);
    assert text[0] == number[0] && text[|text| - 1] == name[|name| - 1];
    TrimNothing(text);
    assert Lower(text)[0] == LowerChar(number[0]);
    NumberLengthOf(number, " " + name);
    assert text[..|number|] == number && text[|number|..] == " " + name;
  }

  lemma CanonicalUnitIsUnit(unit: string)
    requires CanonicalUnit(unit).Some?
    ensures IsUnit(CanonicalUnit(unit).value.0, CanonicalUnit(unit).value.1)
  {
  }

  /** A text that is a quantity rather than one of the two words for no limit. */
  predicate IsQuantity(text: string) {
    Lower(Trim(text)) != "unlimited" && Trim(text) != "0"
  }

  /** A zero written with a fraction, such as `0.0 GiB`. */
  predicate IsZeroWithFraction(text: string) {
    var number := NumberOf(Trim(text));
    && IsQuantity(text)
    && FractionOf(number) != [] && Value(WholeOf(number)) == 0 && Value(FractionOf(number)) == 0
  }

  lemma NoLimitMeansZeroWithFraction(number: string, multiplier: nat)
    requires multiplier > 0 && ParseBytes(number, multiplier).Ok?
    ensures ParseBytes(number, multiplier).value.None? <==>
              FractionOf(number) != [] && Value(WholeOf(number)) == 0 && Value(FractionOf(number)) == 0
  {
    if ParseBytes(number, multiplier).value.None? {
      NoLimitNeedsZeros(number, multiplier);
    }
    if FractionOf(number) != [] && Value(WholeOf(number)) == 0 && Value(FractionOf(number)) == 0 {
      ZeroCeiling(Denominator(number));
    }
  }

  lemma ZeroCeiling(scale: nat)
    requires scale > 0
    ensures DivCeil(0, scale) == 0
  {
    DivCeilIsCeiling(0, scale);
    CeilingIsUnique(DivCeil(0, scale), 0, 0, scale);
  }

  lemma WordsAreFixed()
    ensures ParseCacheSize("unlimited") == Ok(ParsedCacheSize(None, "unlimited"))
    ensures ParseCacheSize("0") == Ok(ParsedCacheSize(None, "0"))
  {
    TrimNothing("unlimited");
    TrimNothing("0");
    LowerIsFixed("unlimited");
    assert |Lower("0")| != |"unlimited"| by {
      assert "0"[1..] == [];
      assert Lower("0") == [LowerChar('0')] + Lower([]);
    }
  }

  lemma {:induction false} LowerIsFixed(text: string)
    requires forall i :: 0 <= i < |text| ==> !('A' <= text[i] <= 'Z')
    ensures Lower(text) == text
  {
    if text != [] {
      LowerIsFixed(text[1..]);
    }
  }

  /** The normal form of every accepted text is a fixed point of parsing. It keeps the byte
      count exactly unless the text is a zero written with a fraction: that means no limit,
      while its normal form means a limit of no bytes. */
  lemma NormalFormIsFixed(text: string)
    requires ParseCacheSize(text).Ok?
    ensures var parsed := ParseCacheSize(text).value;
            && ParseCacheSize(parsed.normalized).Ok?
            && var again := ParseCacheSize(parsed.normalized).value;
               && again.normalized == parsed.normalized
               && (again.bytes == parsed.bytes <==> !IsZeroWithFraction(text))
               && (IsZeroWithFraction(text) ==> parsed.bytes == None && again.bytes == Some(0))
  {
    WordsAreFixed();
    if IsQuantity(text) {
      var number, unit := NumberOf(Trim(text)), UnitOf(Trim(text));
      var name, multiplier := CanonicalUnit(unit).value.0, CanonicalUnit(unit).value.1;
      var normalized := NormalizeNumber(number).value;
      CanonicalUnitIsUnit(unit);
      UnitIsCanonical(name, multiplier);
      NormalizedNumberText(number);
      QuantityTextParses(normalized, name, multiplier);
      NormalizedNumberIsFixed(number);
      NormalizedBytes(number, multiplier);
      NoLimitMeansZeroWithFraction(number, multiplier);
    }
  }

  lemma ZeroQuantities()
    ensures ParseQuantity("0.0", "GiB") == Ok(ParsedCacheSize(None, "0 GiB"))
    ensures ParseQuantity("0", "GiB") == Ok(ParsedCacheSize(Some(0), "0 GiB"))
  {
    UnitIsCanonical("GiB", BYTES_PER_GIB);
    assert "0.0" == "0" + "." + "0";
    SplitPointIs("0", "0");
    assert "0"[1..] == [] && "0"[..0] == [];
    assert Value("0") == 0 && Power10(1) == 10;
    assert TrimZerosStart("0") == [] && TrimZerosEnd("0") == [];
    assert "0" + " " + "GiB" == "0 GiB";
  }

  lemma ZeroIsText()
    ensures ParseCacheSize("0 GiB") == ParseQuantity("0", "GiB")
  {
    QuantityTextParses("0", "GiB", BYTES_PER_GIB);
    assert "0" + " " + "GiB" == "0 GiB";
  }

  lemma ZeroWithFractionIsText()
    ensures ParseCacheSize("0.0 GiB") == ParseQuantity("0.0", "GiB")
  {
    QuantityTextParses("0.0", "GiB", BYTES_PER_GIB);
    assert "0.0" + " " + "GiB" == "0.0 GiB";
  }

  /** A text that means no limit, and its normal form that means a limit of no bytes. */
  lemma ZeroWithFractionExample()
    ensures ParseCacheSize("0.0 GiB") == Ok(ParsedCacheSize(None, "0 GiB"))
    ensures ParseCacheSize("0 GiB") == Ok(ParsedCacheSize(Some(0), "0 GiB"))
  {
    ZeroQuantities();
    ZeroIsText();
    ZeroWithFractionIsText();
  }

  /** The byte count of every accepted quantity is the least number of whole bytes that holds
      quantity times unit, and an absent count means a quantity of zero. */
  lemma ParsedBytesAreExact(text: string)
    requires ParseCacheSize(text).Ok? && IsQuantity(text)
    ensures var number := NumberOf(Trim(text));
            var unit := CanonicalUnit(UnitOf(Trim(text)));
            var bytes := ParseCacheSize(text).value.bytes;
            && unit.Some?
            && IsCeiling(ByteCount(bytes), Numerator(number) * unit.value.1, Denominator(number))
            && (bytes.Some? ==> bytes.value <= U64_MAX)
            && (bytes.None? ==> Numerator(number) == 0)
  {
    var number := NumberOf(Trim(text));
    var multiplier := CanonicalUnit(UnitOf(Trim(text))).value.1;
    BytesAreExact(number, multiplier);
    if ParseCacheSize(text).value.bytes.None? {
      NoLimitNeedsZeros(number, multiplier);
    }
  }
}
