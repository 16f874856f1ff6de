/** Reading timestamps into Unix seconds and writing them (src/ci.rs,
    src/project/git/repo/history.rs), in the date-time form of section 5.6 of RFC 3339. */
module Timestamps {
  import opened Common
  import opened Decimal
  import opened CivilTime

  // ---------------------------------------------------------------------------
  // Reading
  // ---------------------------------------------------------------------------

  function TrimEndZ(text: string): string {
    if text != [] && text[|text| - 1] == 'Z' then TrimEndZ(text[..|text| - 1]) else text
  }

  function SplitOnce(text: string, separator: char): Option<(string, string)> {
    if text == [] then None
    else if text[0] == separator then Some(([], text[1..]))
    else
      match SplitOnce(text[1..], separator)
      case None => None
      case Some((before, after)) => Some(([text[0]] + before, after))
  }

  function Split(text: string, separator: char): (parts: seq<string>)
    ensures parts != []
  {
    if text == [] then [[]]
    else
      var rest := Split(text[1..], separator);
      if text[0] == separator then [[]] + rest
      else [[text[0]] + rest[0]] + rest[1..]
  }

  /** An optional plus sign and digits. */
  function ParseU64(text: string): Option<nat> {
    var digits := if text != [] && text[0] == '+' then text[1..] else text;
    if digits != [] && AllDigits(digits) && Value(digits) <= U64_MAX then Some(Value(digits)) else None
  }

  function Seconds(days: nat, hour: nat, minute: nat, second: nat): nat {
    Wrap(Wrap(Wrap(Wrap(days * 86_400) + Wrap(hour * 3_600)) + Wrap(minute * 60)) + second)
  }

  function ParseParts(date: seq<string>, time: seq<string>): Option<nat> {
    if |date| != 3 || |time| != 3 then None
    else
      var year, month, day := ParseU64(date[0]), ParseU64(date[1]), ParseU64(date[2]);
      var hour, minute, second := ParseU64(time[0]), ParseU64(time[1]), ParseU64(time[2]);
      if year.None? || month.None? || day.None? || hour.None? || minute.None? || second.None? then None
      else Some(Seconds(DaysFromCivil(year.value, month.value, day.value), hour.value, minute.value, second.value))
  }

  function ParseTimestamp(text: string): Option<nat> {
    match SplitOnce(TrimEndZ(text), 'T')
    case None => None
    case Some((date, time)) => ParseParts(Split(date, '-'), Split(time, ':'))
  }

  // ---------------------------------------------------------------------------
  // Writing
  // ---------------------------------------------------------------------------

  datatype Timestamp = Timestamp(date: Date, hour: nat, minute: nat, second: nat)

  function TextOf(t: Timestamp): string {
    Padded(t.date.year, 4) + "-" + Padded(t.date.month, 2) + "-" + Padded(t.date.day, 2) + "T"
    + Padded(t.hour, 2) + ":" + Padded(t.minute, 2) + ":" + Padded(t.second, 2) + "Z"
  }

  /** The text of a number of seconds since the epoch. */
  function FormatSeconds(seconds: nat): string {
    var days, timeOfDay := seconds / 86_400, seconds % 86_400;
    var (year, month, day) := CivilFromDays(days);
    if year < 0 || month < 0 || day < 0 then ""
    else TextOf(Timestamp(Date(year, month, day), timeOfDay / 3_600, timeOfDay % 3_600 / 60, timeOfDay % 60))
  }

  /** A date from the epoch on and a time of day, leap second included, whose number of
      seconds fits 64 bits. */
  predicate IsTimestamp(t: Timestamp) {
    IsCountable(t.date) && t.hour < 24 && t.minute < 60 && t.second <= 60 && SecondsOf(t) <= U64_MAX
  }

  function SecondsOf(t: Timestamp): nat {
    DaysFromCivil(t.date.year, t.date.month, t.date.day) * 86_400 + t.hour * 3_600 + t.minute * 60 + t.second
  }

  // ---------------------------------------------------------------------------
  // Splitting
  // ---------------------------------------------------------------------------

  lemma {:induction false} SplitOnceAt(before: string, separator: char, after: string)
    requires separator !in before
    ensures SplitOnce(before + [separator] + after, separator) == Some((before, after))
  {
    var text := before + [separator] + after;
    if before == [] {
      assert text == [separator] + after;
    } else {
      assert text[1..] == before[1..] + [separator] + after;
      SplitOnceAt(before[1..], separator, after);
      assert [before[0]] + before[1..] == before;
    }
  }

  lemma {:induction false} SplitAlone(text: string, separator: char)
    requires separator !in text
    ensures Split(text, separator) == [text]
  {
    if text != [] {
      SplitAlone(text[1..], separator);
      assert [text[0]] + text[1..] == text;
    }
  }

  lemma {:induction false} SplitAt(before: string, separator: char, after: string)
    requires separator !in before
    ensures Split(before + [separator] + after, separator) == [before] + Split(after, separator)
  {
    var text := before + [separator] + after;
    if before == [] {
      assert text == [separator] + after;
    } else {
      assert text[1..] == before[1..] + [separator] + after;
      SplitAt(before[1..], separator, after);
      assert [before[0]] + before[1..] == before;
    }
  }

  lemma SplitThree(a: string, b: string, c: string, separator: char)
    requires AllDigits(a) && AllDigits(b) && AllDigits(c) && !IsDigit(separator)
    ensures Split(a + [separator] + b + [separator] + c, separator) == [a, b, c]
  {
    NotAmongDigits(a, separator);
    NotAmongDigits(b, separator);
    NotAmongDigits(c, separator);
    assert a + [separator] + b + [separator] + c == a + [separator] + (b + [separator] + c);
    SplitAt(a, separator, b + [separator] + c);
    SplitAt(b, separator, c);
    SplitAlone(c, separator);
  }

  lemma NotAmongDigits(digits: string, separator: char)
    requires AllDigits(digits) && !IsDigit(separator)
    ensures separator !in digits
  {
  }

  lemma PaddedParses(n: nat, width: nat)
    requires n <= U64_MAX
    ensures AllDigits(Padded(n, width)) && Padded(n, width) != [] && ParseU64(Padded(n, width)) == Some(n)
  {
    ValueOfPadded(n, width);
    assert Padded(n, width)[0] in Padded(n, width);
  }

  // ---------------------------------------------------------------------------
  // Round trips
  // ---------------------------------------------------------------------------

  function DateText(date: Date): string {
    Padded(date.year, 4) + "-" + Padded(date.month, 2) + "-" + Padded(date.day, 2)
  }

  function TimeText(t: Timestamp): string {
    Padded(t.hour, 2) + ":" + Padded(t.minute, 2) + ":" + Padded(t.second, 2)
  }

  lemma {:induction false} NotInConcat(left: string, right: string, c: char)
    requires c !in left && c !in right
    ensures c !in left + right
  {
  }

  lemma DatePartHasNoT(year: string, month: string, day: string)
    requires AllDigits(year) && AllDigits(month) && AllDigits(day)
    ensures 'T' !in year + "-" + month + "-" + day
  {
    NotInConcat(year, "-", 'T');
    NotInConcat(year + "-", month, 'T');
    NotInConcat(year + "-" + month, "-", 'T');
    NotInConcat(year + "-" + month + "-", day, 'T');
  }

  lemma TrimmedBody(body: string)
    requires body != [] && body[|body| - 1] != 'Z'
    ensures TrimEndZ(body + "Z") == body
  {
    assert (body + "Z")[..|body + "Z"| - 1] == body;
  }

  lemma TextParts(t: Timestamp)
    ensures SplitOnce(TrimEndZ(TextOf(t)), 'T') == Some((DateText(t.date), TimeText(t)))
  {
    ValueOfPadded(t.date.year, 4);
    ValueOfPadded(t.date.month, 2);
    ValueOfPadded(t.date.day, 2);
    ValueOfPadded(t.second, 2);
    var date, time := DateText(t.date), TimeText(t);
    DatePartHasNoT(Padded(t.date.year, 4), Padded(t.date.month, 2), Padded(t.date.day, 2));
    LastIsDigit(Padded(t.hour, 2) + ":" + Padded(t.minute, 2) + ":", Padded(t.second, 2));
    assert time[|time| - 1] != 'Z' && time != [];
    BodyParts(date, time);
    TextIsBody(t);
  }

  lemma LastIsDigit(before: string, digits: string)
    requires AllDigits(digits) && digits != []
    ensures before + digits != [] && IsDigit((before + digits)[|before + digits| - 1])
  {
    assert (before + digits)[|before + digits| - 1] == digits[|digits| - 1];
    assert digits[|digits| - 1] in digits;
  }

  lemma BodyParts(date: string, time: string)
    requires 'T' !in date && time != [] && time[|time| - 1] != 'Z'
    ensures SplitOnce(TrimEndZ(date + "T" + time + "Z"), 'T') == Some((date, time))
  {
    var body := date + "T" + time;
    assert body[|body| - 1] == time[|time| - 1];
    TrimmedBody(body);
    SplitOnceAt(date, 'T', time);
  }

  lemma TextIsBody(t: Timestamp)
    ensures TextOf(t) == DateText(t.date) + "T" + TimeText(t) + "Z"
  {
    var before := DateText(t.date) + "T";
    var h, m, s := Padded(t.hour, 2), Padded(t.minute, 2), Padded(t.second, 2);
    assert before + h + ":" + m + ":" + s == before + (h + ":" + m + ":" + s);
  }

  lemma NoSecondsWrap(days: nat, hour: nat, minute: nat, second: nat)
    requires hour < 24 && minute < 60 && second <= 60
    requires days * 86_400 + hour * 3_600 + minute * 60 + second <= U64_MAX
    ensures Seconds(days, hour, minute, second) == days * 86_400 + hour * 3_600 + minute * 60 + second
  {
    WrapSmall(days * 86_400);
    WrapSmall(hour * 3_600);
    WrapSmall(days * 86_400 + hour * 3_600);
    WrapSmall(minute * 60);
    WrapSmall(days * 86_400 + hour * 3_600 + minute * 60);
  }

  lemma FieldsFit(t: Timestamp)
    requires IsTimestamp(t)
    ensures t.date.year <= U64_MAX && t.date.month <= 12 && t.date.day <= 31
  {
    YearBelowDays(t.date);
  }

  lemma DateIsRead(date: Date)
    requires date.year <= U64_MAX && date.month <= U64_MAX && date.day <= U64_MAX
    ensures var parts := Split(DateText(date), '-');
            && |parts| == 3
            && ParseU64(parts[0]) == Some(date.year) && ParseU64(parts[1]) == Some(date.month)
            && ParseU64(parts[2]) == Some(date.day)
  {
    PaddedParses(date.year, 4);
    PaddedParses(date.month, 2);
    PaddedParses(date.day, 2);
    SplitThree(Padded(date.year, 4), Padded(date.month, 2), Padded(date.day, 2), '-');
  }

  lemma TimeIsRead(t: Timestamp)
    requires t.hour <= U64_MAX && t.minute <= U64_MAX && t.second <= U64_MAX
    ensures var parts := Split(TimeText(t), ':');
            && |parts| == 3
            && ParseU64(parts[0]) == Some(t.hour) && ParseU64(parts[1]) == Some(t.minute)
            && ParseU64(parts[2]) == Some(t.second)
  {
    PaddedParses(t.hour, 2);
    PaddedParses(t.minute, 2);
    PaddedParses(t.second, 2);
    SplitThree(Padded(t.hour, 2), Padded(t.minute, 2), Padded(t.second, 2), ':');
  }

  lemma PartsAreRead(date: seq<string>, time: seq<string>, t: Timestamp, days: nat)
    requires |date| == 3 && |time| == 3
    requires ParseU64(date[0]) == Some(t.date.year) && ParseU64(date[1]) == Some(t.date.month)
    requires ParseU64(date[2]) == Some(t.date.day)
    requires ParseU64(time[0]) == Some(t.hour) && ParseU64(time[1]) == Some(t.minute)
    requires ParseU64(time[2]) == Some(t.second)
    requires days == DaysFromCivil(t.date.year, t.date.month, t.date.day)
    ensures ParseParts(date, time) == Some(Seconds(days, t.hour, t.minute, t.second))
  {
  }

  lemma SecondsAreExact(t: Timestamp)
    requires IsTimestamp(t)
    ensures Seconds(DaysFromCivil(t.date.year, t.date.month, t.date.day), t.hour, t.minute, t.second) == SecondsOf(t)
  {
    NoSecondsWrap(DaysFromCivil(t.date.year, t.date.month, t.date.day), t.hour, t.minute, t.second);
  }

  lemma TimestampPartsAreRead(t: Timestamp)
    requires IsTimestamp(t)
    ensures ParseParts(Split(DateText(t.date), '-'), Split(TimeText(t), ':')) == Some(SecondsOf(t))
  {
    FieldsFit(t);
    DateIsRead(t.date);
    TimeIsRead(t);
    SecondsAreExact(t);
    var date, time := Split(DateText(t.date), '-'), Split(TimeText(t), ':');
    PartsAreRead(date, time, t, DaysFromCivil(t.date.year, t.date.month, t.date.day));
  }

  lemma ReadByParts(text: string, date: string, time: string)
    requires SplitOnce(TrimEndZ(text), 'T') == Some((date, time))
    ensures ParseTimestamp(text) == ParseParts(Split(date, '-'), Split(time, ':'))
  {
  }

  /** Every well-formed timestamp from the epoch on is read as its number of seconds. */
  lemma TextIsRead(t: Timestamp)
    requires IsTimestamp(t)
    ensures ParseTimestamp(TextOf(t)) == Some(SecondsOf(t))
  {
    TextParts(t);
    ReadByParts(TextOf(t), DateText(t.date), TimeText(t));
    TimestampPartsAreRead(t);
  }

  /** The timestamp a number of seconds after the epoch. */
  function TimestampAfter(seconds: nat): Timestamp {
    var timeOfDay := seconds % 86_400;
    Timestamp(DateAfter(seconds / 86_400), timeOfDay / 3_600, timeOfDay % 3_600 / 60, timeOfDay % 60)
  }

  lemma FormatIsText(seconds: nat)
    ensures FormatSeconds(seconds) == TextOf(TimestampAfter(seconds))
  {
    CivilIsDateAfter(seconds / 86_400);
  }

  lemma TimeOfDayAdds(timeOfDay: nat)
    requires timeOfDay < 86_400
    ensures timeOfDay / 3_600 < 24 && timeOfDay % 3_600 / 60 < 60
    ensures timeOfDay == timeOfDay / 3_600 * 3_600 + timeOfDay % 3_600 / 60 * 60 + timeOfDay % 60
  {
  }

  lemma SecondsOfTimestampAfter(seconds: nat)
    requires seconds <= U64_MAX
    ensures IsTimestamp(TimestampAfter(seconds)) && SecondsOf(TimestampAfter(seconds)) == seconds
  {
    var days := seconds / 86_400;
    CountsDays(days);
    DaysFromCivilOfDateAfter(days);
    TimeOfDayAdds(seconds % 86_400);
  }

  /** Writing a number of seconds and reading it back gives the number, for every number of
      seconds a signed 64-bit clock can hold. */
  lemma FormattedSecondsAreRead(seconds: nat)
    requires seconds <= I64_MAX
    ensures ParseTimestamp(FormatSeconds(seconds)) == Some(seconds)
  {
    FormatIsText(seconds);
    SecondsOfTimestampAfter(seconds);
    TextIsRead(TimestampAfter(seconds));
  }

  // ---------------------------------------------------------------------------
  // What is read
  // ---------------------------------------------------------------------------

  lemma {:induction false} SplitOnceMeans(text: string, separator: char)
    ensures SplitOnce(text, separator).None? <==> separator !in text
    ensures SplitOnce(text, separator).Some? ==>
              var (before, after) := SplitOnce(text, separator).value;
              separator !in before && text == before + [separator] + after
  {
    if text != [] && text[0] != separator {
      SplitOnceMeans(text[1..], separator);
      assert text == [text[0]] + text[1..];
    } else if text != [] {
      assert text == [] + [separator] + text[1..];
    }
  }

  function Joined(parts: seq<string>, separator: char): string {
    if parts == [] then [] else if |parts| == 1 then parts[0]
    else parts[0] + [separator] + Joined(parts[1..], separator)
  }

  lemma {:induction false} SplitMeans(text: string, separator: char)
    ensures Joined(Split(text, separator), separator) == text
    ensures forall part <- Split(text, separator) :: separator !in part
  {
    if text != [] {
      SplitMeans(text[1..], separator);
      var parts, rest := Split(text, separator), Split(text[1..], separator);
      assert text == [text[0]] + text[1..];
      if text[0] == separator {
        assert parts[1..] == rest;
      } else {
        assert parts[1..] == rest[1..];
        assert rest[0] in rest;
        forall part | part in parts ensures separator !in part {
          if part != parts[0] {
            assert part in rest;
          }
        }
      }
    }
  }

  /** A number may have a plus sign in front; it needs a digit and has to fit 64 bits. */
  lemma NumeralMeans(text: string, value: nat)
    ensures ParseU64(text) == Some(value) <==>
              var digits := if text != [] && text[0] == '+' then text[1..] else text;
              digits != [] && AllDigits(digits) && Value(digits) == value && value <= 0xFFFF_FFFF_FFFF_FFFF
  {
  }

  /** Three numerals of a date, and three of a time of day. */
  predicate AreNumerals(date: seq<string>, time: seq<string>) {
    && |date| == 3 && |time| == 3
    && (forall part <- date :: ParseU64(part).Some?) && forall part <- time :: ParseU64(part).Some?
  }

  lemma PartsMean(date: seq<string>, time: seq<string>)
    ensures ParseParts(date, time).Some? <==> AreNumerals(date, time)
  {
    if |date| == 3 && |time| == 3 {
      assert date == [date[0], date[1], date[2]] && time == [time[0], time[1], time[2]];
    }
  }

  /** Anything read as a timestamp is three numerals joined by dashes, a `T`, and three joined
      by colons, apart from the `Z`s at its end. */
  lemma OnlyTimestampsAreRead(text: string) returns (date: seq<string>, time: seq<string>)
    requires ParseTimestamp(text).Some?
    ensures AreNumerals(date, time) && TrimEndZ(text) == Joined(date, '-') + "T" + Joined(time, ':')
  {
    SplitOnceMeans(TrimEndZ(text), 'T');
    var (before, after) := SplitOnce(TrimEndZ(text), 'T').value;
    date, time := Split(before, '-'), Split(after, ':');
    SplitMeans(before, '-');
    SplitMeans(after, ':');
    PartsMean(date, time);
  }

  // ---------------------------------------------------------------------------
  // Order
  // ---------------------------------------------------------------------------

  predicate TimeBefore(left: Timestamp, right: Timestamp) {
    || left.hour < right.hour
    || (left.hour == right.hour
        && (left.minute < right.minute || (left.minute == right.minute && left.second < right.second)))
  }

  predicate TimestampBefore(left: Timestamp, right: Timestamp) {
    DateBefore(left.date, right.date) || (left.date == right.date && TimeBefore(left, right))
  }

  /** Timestamps without a leap second read in chronological order; a leap second reads as
      the first second of the next minute. */
  lemma SecondsKeepOrder(left: Timestamp, right: Timestamp)
    requires IsTimestamp(left) && IsTimestamp(right)
    ensures left.second <= 59 && right.second <= 59
          ==> (TimestampBefore(left, right) <==> SecondsOf(left) < SecondsOf(right))
    ensures TimestampBefore(left, right) ==> SecondsOf(left) <= SecondsOf(right)
    ensures left.second == 60 ==> SecondsOf(left) == SecondsOf(left.(second := 59)) + 1
  {
    var l := DaysFromCivil(left.date.year, left.date.month, left.date.day);
    var r := DaysFromCivil(right.date.year, right.date.month, right.date.day);
    DaysKeepOrder(left.date, right.date);
    DaysKeepOrder(right.date, left.date);
    assert l == r ==> left.date == right.date;
    var leftTime := left.hour * 3_600 + left.minute * 60 + left.second;
    var rightTime := right.hour * 3_600 + right.minute * 60 + right.second;
    assert leftTime <= 86_400 && rightTime <= 86_400;
    assert left.second <= 59 ==> leftTime < 86_400;
    assert right.second <= 59 ==> rightTime < 86_400;
    assert l < r ==> l * 86_400 + 86_400 <= r * 86_400;
    assert r < l ==> r * 86_400 + 86_400 <= l * 86_400;
  }
}
