/** Which texts mean which cache size, spelling by spelling (src/config.rs:629-681). */
module CacheSizeTexts {
  import opened Common
  import opened Decimal
  import opened CacheSize
  import opened CacheSizeFacts

  // ---------------------------------------------------------------------------
  // Spaces and case
  // ---------------------------------------------------------------------------

  predicate AllSpaces(text: string) {
    forall c <- text :: IsWhitespace(c)
  }

  /** Nothing to trim at either end. */
  predicate IsTrimmed(text: string) {
    text != [] ==> !IsWhitespace(text[0]) && !IsWhitespace(text[|text| - 1])
  }

  lemma {:induction false} TrimStartSkips(spaces: string, text: string)
    requires AllSpaces(spaces)
    ensures TrimStart(spaces + text) == TrimStart(text)
  {
    if spaces == [] {
      assert spaces + text == text;
    } else {
      assert (spaces + text)[0] in spaces && (spaces + text)[1..] == spaces[1..] + text;
      TrimStartSkips(spaces[1..], text);
    }
  }

  lemma {:induction false} TrimEndSkips(text: string, spaces: string)
    requires AllSpaces(spaces)
    ensures TrimEnd(text + spaces) == TrimEnd(text)
  {
    if spaces == [] {
      assert text + spaces == text;
    } else {
      var fewer := spaces[..|spaces| - 1];
      assert (text + spaces)[|text + spaces| - 1] in spaces;
      assert (text + spaces)[..|text + spaces| - 1] == text + fewer;
      TrimEndSkips(text, fewer);
    }
  }

  /** Trimming takes off the spaces around a text, and nothing else. */
  lemma TrimSkips(before: string, text: string, after: string)
    requires AllSpaces(before) && AllSpaces(after) && IsTrimmed(text)
    ensures Trim(before + text + after) == text
  {
    assert before + text + after == before + (text + after);
    TrimStartSkips(before, text + after);
    if text == [] {
      assert text + after == after + [];
      TrimStartSkips(after, []);
    } else {
      assert (text + after)[0] == text[0];
      TrimEndSkips(text, after);
    }
  }

  /** Lowering a text lowers its letters, one by one. */
  lemma {:induction false} LowerMeans(text: string, i: nat)
    ensures |Lower(text)| == |text|
    ensures i < |text| ==> Lower(text)[i] == if 'A' <= text[i] <= 'Z' then 'a' + (text[i] - 'A') else text[i]
  {
    if text != [] {
      LowerMeans(text[1..], if i > 0 then i - 1 else 0);
    }
  }

  // ---------------------------------------------------------------------------
  // Units
  // ---------------------------------------------------------------------------

  /** The spellings of a unit in lower case, its name, and its size in bytes. */
  predicate Spells(lower: string, name: string, size: nat) {
    || (lower in {"b", "byte", "bytes"} && name == "B" && size == 1)
    || (lower in {"kb", "kib"} && name == "KiB" && size == 1_024)
    || (lower in {"mb", "mib"} && name == "MiB" && size == 1_048_576)
    || (lower in {"gb", "gib"} && name == "GiB" && size == 1_073_741_824)
  }

  lemma UnitsMean(unit: string, name: string, size: nat)
    requires IsTrimmed(unit)
    ensures CanonicalUnit(unit) == Some((name, size)) <==> Spells(Lower(unit), name, size)
  {
    TrimNothing(unit);
  }

  const TWO_TO_THE_128: int := 0x1_0000_0000_0000_0000_0000_0000_0000_0000

  // ---------------------------------------------------------------------------
  // Quantities
  // ---------------------------------------------------------------------------

  /** A number, a unit, and any spaces around and between them. */
  predicate IsText(text: string, before: string, number: string, gap: string, unit: string, after: string) {
    && text == before + number + gap + unit + after
    && AllSpaces(before) && AllSpaces(gap) && AllSpaces(after)
    && number != [] && (forall c <- number :: IsDigit(c) || c == '.')
    && unit != [] && IsTrimmed(unit) && !IsDigit(unit[0]) && unit[0] != '.'
  }

  lemma SpacesAreNoNumber(spaces: string, unit: string)
    requires AllSpaces(spaces) && unit != [] && !IsDigit(unit[0]) && unit[0] != '.'
    ensures spaces + unit != [] && !IsDigit((spaces + unit)[0]) && (spaces + unit)[0] != '.'
  {
    if spaces != [] {
      assert spaces[0] in spaces;
    }
  }

  /** Spaces around a quantity and between its parts do not matter. */
  lemma QuantityIsParsed(text: string, before: string, number: string, gap: string, unit: string, after: string)
    requires IsText(text, before, number, gap, unit, after)
    ensures ParseCacheSize(text) == ParseQuantity(number, unit)
  {
    var core := number + (gap + unit);
    assert number[0] in number;
    assert core[0] == number[0] && core[|core| - 1] == unit[|unit| - 1];
    assert text == before + core + after;
    TrimSkips(before, core, after);
    SpacesAreNoNumber(gap, unit);
    NumberLengthOf(number, gap + unit);
    assert core[..|number|] == number && core[|number|..] == gap + unit;
    assert gap + unit + [] == gap + unit;
    TrimSkips(gap, unit, []);
    LowerMeans(core, 0);
  }

  /** A number is split at its first point, if it has one. */
  lemma {:induction false} SplitMeans(number: string)
    ensures SplitPoint(number).None? <==> '.' !in number
    ensures SplitPoint(number).Some? ==> '.' !in WholeOf(number) && number == WholeOf(number) + "." + FractionOf(number)
  {
    if number != [] && number[0] != '.' {
      SplitMeans(number[1..]);
      assert number == [number[0]] + number[1..];
    } else if number != [] {
      assert number == "." + number[1..];
    }
  }

  /** Digits on both sides of the point, and some of them or the point itself. */
  predicate IsNumber(number: string) {
    number != [] && AllDigits(WholeOf(number)) && AllDigits(FractionOf(number))
  }

  lemma NormalizesNumbers(number: string)
    ensures NormalizeNumber(number).Ok? <==> IsNumber(number)
    ensures !IsNumber(number) ==> NormalizeNumber(number) == Err(InvalidQuantity(number))
  {
    SplitMeans(number);
  }

  /** A quantity of a known unit is accepted exactly when its number is one, the intermediate
      steps fit 128 bits and the bytes fit 64. The bytes are the ceiling of the quantity times
      the size of the unit, and the normal form names that unit. */
  lemma SizeMeans(text: string, before: string, number: string, gap: string, unit: string, after: string, name: string,
                  size: nat)
    requires IsText(text, before, number, gap, unit, after) && Spells(Lower(unit), name, size)
    ensures ParseCacheSize(text).Ok? <==>
              && IsNumber(number)
              && Value(FractionOf(number)) * size < TWO_TO_THE_128 && Denominator(number) < TWO_TO_THE_128
              && ExactBytes(number, size) <= U64_MAX
    ensures ParseCacheSize(text).Ok? ==>
              var parsed := ParseCacheSize(text).value;
              && IsCeiling(ByteCount(parsed.bytes), Numerator(number) * size, Denominator(number))
              && NormalizeNumber(number).Ok? && parsed.normalized == NormalizeNumber(number).value + " " + name
  {
    QuantityIsParsed(text, before, number, gap, unit, after);
    UnitsMean(unit, name, size);
    NormalizesNumbers(number);
    AcceptedNumbers(number, size);
    if ParseBytes(number, size).Ok? {
      BytesAreExact(number, size);
    }
  }

  /** The normalized number is the same quantity without needless zeros. */
  lemma NormalNumberMeans(number: string) returns (scale: nat)
    requires NormalizeNumber(number).Ok?
    ensures var normal := NormalizeNumber(number).value;
            && IsNormalWhole(WholeOf(normal))
            && (if FractionOf(normal) == [] then normal == WholeOf(normal)
                else IsNormalFraction(FractionOf(normal)) && normal == WholeOf(normal) + "." + FractionOf(normal))
            && scale > 0 && Denominator(number) == Denominator(normal) * scale
            && Value(WholeOf(number)) == Value(WholeOf(normal))
            && Value(FractionOf(number)) == Value(FractionOf(normal)) * scale
  {
    NormalizedParts(number);
    scale := TrailingZerosScale(FractionOf(number));
  }

  /** Any other unit is refused. */
  lemma OtherUnitsAreRefused(text: string, before: string, number: string, gap: string, unit: string, after: string)
    requires IsText(text, before, number, gap, unit, after)
    requires Lower(unit) !in {"b", "byte", "bytes", "kb", "kib", "mb", "mib", "gb", "gib"}
    ensures ParseCacheSize(text) == Err(UnsupportedUnit(unit))
  {
    QuantityIsParsed(text, before, number, gap, unit, after);
    if CanonicalUnit(unit).Some? {
      UnitsMean(unit, CanonicalUnit(unit).value.0, CanonicalUnit(unit).value.1);
    }
  }

  lemma RefusedBytes(number: string, size: nat)
    requires IsNumber(number) && ParseBytes(number, size).Err?
    ensures ParseBytes(number, size) == Err(TooLarge) || ParseBytes(number, size) == Err(InvalidQuantity(number))
    ensures ParseBytes(number, size) == Err(InvalidQuantity(number)) <==>
              || Value(WholeOf(number)) >= TWO_TO_THE_128
              || (Value(WholeOf(number)) * size < TWO_TO_THE_128 && Value(FractionOf(number)) >= TWO_TO_THE_128)
  {
    SplitMeans(number);
  }

  /** A quantity of a known unit is refused as no number when it is none or when one of its
      parts does not fit 128 bits, and else as too large. */
  lemma QuantityErrors(text: string, before: string, number: string, gap: string, unit: string, after: string,
                       name: string, size: nat)
    requires IsText(text, before, number, gap, unit, after) && Spells(Lower(unit), name, size)
    requires ParseCacheSize(text).Err?
    ensures ParseCacheSize(text) == Err(TooLarge) || ParseCacheSize(text) == Err(InvalidQuantity(number))
    ensures ParseCacheSize(text) == Err(InvalidQuantity(number)) <==>
              || !IsNumber(number) || Value(WholeOf(number)) >= TWO_TO_THE_128
              || (Value(WholeOf(number)) * size < TWO_TO_THE_128 && Value(FractionOf(number)) >= TWO_TO_THE_128)
  {
    QuantityIsParsed(text, before, number, gap, unit, after);
    UnitsMean(unit, name, size);
    NormalizesNumbers(number);
    if IsNumber(number) {
      RefusedBytes(number, size);
    }
  }

  // ---------------------------------------------------------------------------
  // Other texts
  // ---------------------------------------------------------------------------

  /** The word for no limit in any case, and a bare zero. */
  lemma NoLimitTexts(before: string, word: string, after: string)
    requires AllSpaces(before) && AllSpaces(after)
    ensures Lower(word) == "unlimited" ==>
              ParseCacheSize(before + word + after) == Ok(ParsedCacheSize(None, "unlimited"))
    ensures word == "0" ==> ParseCacheSize(before + word + after) == Ok(ParsedCacheSize(None, "0"))
  {
    if Lower(word) == "unlimited" {
      LowerMeans(word, 0);
      LowerMeans(word, |word| - 1);
      TrimSkips(before, word, after);
    }
    if word == "0" {
      TrimSkips(before, word, after);
      LowerMeans(word, 0);
    }
  }

  /** Nothing but spaces is no size at all. */
  lemma EmptyTexts(spaces: string)
    requires AllSpaces(spaces)
    ensures ParseCacheSize(spaces) == Err(EmptyText)
  {
    assert spaces + [] + [] == spaces;
    TrimSkips(spaces, [], []);
  }

  /** A text that starts with no number needs one, unless it is the word for no limit. */
  lemma NumberlessTexts(before: string, rest: string, after: string)
    requires AllSpaces(before) && AllSpaces(after) && IsTrimmed(rest)
    requires rest != [] && Lower(rest) != "unlimited" && !IsDigit(rest[0]) && rest[0] != '.'
    ensures ParseCacheSize(before + rest + after) == Err(NumberAndUnitNeeded)
  {
    TrimSkips(before, rest, after);
    assert NumberLength(rest) == 0;
  }

  /** A text with nothing after its number needs a unit, unless it is a bare zero. */
  lemma UnitlessTexts(before: string, number: string, after: string)
    requires AllSpaces(before) && AllSpaces(after) && number != [] && number != "0"
    requires forall c <- number :: IsDigit(c) || c == '.'
    ensures ParseCacheSize(before + number + after) == Err(NumberAndUnitNeeded)
  {
    assert number[0] in number && number[|number| - 1] in number;
    TrimSkips(before, number, after);
    AllNumber(number);
    LowerMeans(number, 0);
    assert number[|number|..] == [];
  }

  lemma {:induction false} AllNumber(text: string)
    requires forall c <- text :: IsDigit(c) || c == '.'
    ensures NumberLength(text) == |text|
  {
    if text != [] {
      assert text[0] in text;
      AllNumber(text[1..]);
    }
  }
}
