/**
 * Publication dates of feed entries: the structured time tuples the feed
 * parser provides, the free-text dates it leaves as strings, and the
 * first-success fallback chain that turns an entry into a time-zone-aware
 * instant (`parse_dt`).
 */
module Dates {
  import opened Basics

  const SecondsPerDay := 86400

  /** The first six fields of a `time.struct_time` (year, month, day, hour, minute, second). */
  datatype StructTime = StructTime(year: int, month: int, day: int, hour: int, minute: int, second: int)

  /**
   * An aware `datetime`: the wall-clock reading in its own zone, as seconds
   * since 1970-01-01 00:00 of that zone, and the zone's offset east of UTC.
   */
  datatype DateTime = DateTime(wall: int, offset: int)
  {
    /** The UTC instant, which is what aware datetimes are compared and sorted by. */
    function Instant(): int
    {
      wall - offset
    }
  }

  /** What the lenient free-text date parser returns: a wall-clock reading and, if the text named one, a zone offset. */
  datatype TextDate = TextDate(wall: int, tz: Option<int>)

  predicate IsLeap(y: int)
  {
    y % 4 == 0 && (y % 100 != 0 || y % 400 == 0)
  }

  function DaysInMonth(y: int, m: int): (n: int)
    requires 1 <= m <= 12
    ensures 28 <= n <= 31
    ensures m == 2 ==> (n == 29 <==> IsLeap(y))
  {
    if m == 2 then (if IsLeap(y) then 29 else 28)
    else if m == 4 || m == 6 || m == 9 || m == 11 then 30
    else 31
  }

  /** The fields `datetime(year, month, day, hour, minute, second)` accepts without raising. */
  predicate IsValid(t: StructTime)
    ensures IsValid(t) && t.month == 2 && t.day == 29 ==> IsLeap(t.year)
    ensures IsValid(t) ==> 1 <= t.day <= 31 && t.second != 60
    ensures (1 <= t.year <= 9999 && 1 <= t.month <= 12 && 1 <= t.day <= 28
             && 0 <= t.hour < 24 && 0 <= t.minute < 60 && 0 <= t.second < 60) ==> IsValid(t)
  {
    1 <= t.year <= 9999 && 1 <= t.month <= 12 && 1 <= t.day <= DaysInMonth(t.year, t.month)
    && 0 <= t.hour < 24 && 0 <= t.minute < 60 && 0 <= t.second < 60
  }

  /**
   * Days from 0000-03-01 to March 1 of year `y`, counted in 400-year eras of
   * 146097 days (years run from March, so a leap day ends its year).
   */
  function MarchStart(y: int): int
    requires 0 <= y
  {
    var era := y / 400;
    var yoe := y - era * 400;
    era * 146097 + yoe * 365 + yoe / 4 - yoe / 100
  }

  /** Days from March 1 to the first of month `m` of the same March-based year. */
  function MonthOffset(m: int): int
    requires 1 <= m <= 12
  {
    (153 * (if m > 2 then m - 3 else m + 9) + 2) / 5
  }

  /** Days from 1970-01-01 to the given proleptic Gregorian date. */
  function DaysFromCivil(y: int, m: int, d: int): int
    requires 1 <= y && 1 <= m <= 12 && 1 <= d <= 31
  {
    var y' := if m <= 2 then y - 1 else y;
    MarchStart(y') + MonthOffset(m) + d - 1 - 719468
  }

  /** Inside a March-based year, the next month starts a month length later. */
  lemma MonthOffsetStep(y: int, m: int)
    requires 1 <= m < 12 && m != 2
    ensures MonthOffset(m + 1) == MonthOffset(m) + DaysInMonth(y, m)
  {
    if m == 1 {
    } else if m <= 6 {
    } else {
    }
  }

  /** Splitting a year into its era and its year of era. */
  lemma EraSplit(y: int, era: int, yoe: int)
    requires 0 <= yoe < 400 && y == era * 400 + yoe
    ensures y / 400 == era && y % 400 == yoe
    ensures y % 4 == yoe % 4 && y % 100 == yoe % 100
  {
    RemainderShift(y, era * 100, yoe, 4);
    RemainderShift(y, era * 4, yoe, 100);
    RemainderShift(y, era, yoe, 400);
  }

  /** Adding `q` multiples of `n` keeps the remainder by `n` and adds `q` to the quotient. */
  lemma RemainderShift(y: int, q: int, r: int, n: int)
    requires n == 4 || n == 100 || n == 400
    requires 0 <= r < 400 && y == q * n + r
    ensures y % n == r % n && y / n == q + r / n
  {
    if n == 4 {
      assert y == (q + r / 4) * 4 + r % 4;
    } else if n == 100 {
      assert y == (q + r / 100) * 100 + r % 100;
    } else {
      assert y == (q + r / 400) * 400 + r % 400;
    }
  }

  /** Within an era, the year after year of era `yoe` is 365 days long plus its leap day. */
  lemma YearOfEraLength(yoe: int)
    requires 0 <= yoe < 399
    ensures (yoe + 1) * 365 + (yoe + 1) / 4 - (yoe + 1) / 100 - (yoe * 365 + yoe / 4 - yoe / 100)
         == if IsLeap(yoe + 1) then 366 else 365
  {
  }

  /** The year from March of `y` to the end of February of `y + 1` has a leap day exactly when `y + 1` is a leap year. */
  lemma MarchYearLength(y: int)
    requires 0 <= y
    ensures MarchStart(y + 1) - MarchStart(y) == if IsLeap(y + 1) then 366 else 365
  {
    var era := y / 400;
    var yoe := y - era * 400;
    EraSplit(y, era, yoe);
    if yoe < 399 {
      EraSplit(y + 1, era, yoe + 1);
      YearOfEraLength(yoe);
    } else {
      EraSplit(y + 1, era + 1, 0);
    }
  }

  /** The calendar day after a valid date. */
  function Tomorrow(y: int, m: int, d: int): (int, int, int)
    requires 1 <= m <= 12 && 1 <= d <= DaysInMonth(y, m)
  {
    if d < DaysInMonth(y, m) then (y, m, d + 1)
    else if m < 12 then (y, m + 1, 1)
    else (y + 1, 1, 1)
  }

  /**
   * Consecutive calendar days are consecutive day numbers, across month and
   * year ends and leap days alike. With `EpochOrigin` this fixes the day
   * number of every date as its distance from 1970-01-01.
   */
  lemma NextDay(y: int, m: int, d: int)
    requires 1 <= y && 1 <= m <= 12 && 1 <= d <= DaysInMonth(y, m)
    ensures var (y2, m2, d2) := Tomorrow(y, m, d);
      DaysFromCivil(y2, m2, d2) == DaysFromCivil(y, m, d) + 1
  {
    if d < DaysInMonth(y, m) {
    } else if m == 2 {
      MarchYearLength(y - 1);
      assert MonthOffset(2) == 337 && MonthOffset(3) == 0;
    } else if m < 12 {
      MonthOffsetStep(y, m);
    } else {
      assert MonthOffset(12) == 275 && MonthOffset(1) == 306;
    }
  }

  /** The instant `datetime(*t[:6], tzinfo=timezone.utc)` denotes, in seconds since the epoch. */
  function EpochSeconds(t: StructTime): (r: int)
    requires IsValid(t)
    ensures r / SecondsPerDay == DaysFromCivil(t.year, t.month, t.day)
    ensures r % SecondsPerDay == t.hour * 3600 + t.minute * 60 + t.second
  {
    DaysFromCivil(t.year, t.month, t.day) * SecondsPerDay + t.hour * 3600 + t.minute * 60 + t.second
  }

  /** Midnight of 1970-01-01 is instant zero. */
  lemma EpochOrigin()
    ensures DaysFromCivil(1970, 1, 1) == 0
    ensures EpochSeconds(StructTime(1970, 1, 1, 0, 0, 0)) == 0
  {
  }

  /**
   * One structured field: present (a time tuple is never falsy) and accepted
   * by `datetime(...)`, it yields that time in UTC; otherwise the chain moves on.
   */
  function FromStruct(field: Option<StructTime>): (r: Option<DateTime>)
    ensures r.Some? <==> field.Some? && IsValid(field.value)
    ensures r.Some? ==> r.value.offset == 0 && r.value.Instant() == EpochSeconds(field.value)
  {
    match field
    case Some(t) => if IsValid(t) then Some(DateTime(EpochSeconds(t), 0)) else None
    case None => None
  }

  /**
   * One free-text field: present, non-empty and accepted by the parser, it
   * yields the parsed time, tagged UTC when the text named no zone.
   */
  function FromText(field: Option<string>, parse: string -> Option<TextDate>): (r: Option<DateTime>)
    ensures r.Some? <==> field.Some? && field.value != "" && parse(field.value).Some?
    ensures r.Some? ==> r.value.wall == parse(field.value).value.wall
    ensures r.Some? && parse(field.value).value.tz.None? ==> r.value.offset == 0
    ensures r.Some? && parse(field.value).value.tz.Some? ==> r.value.offset == parse(field.value).value.tz.value
  {
    match field
    case Some(s) =>
      if s == "" then None
      else (match parse(s)
            case Some(p) => Some(DateTime(p.wall, match p.tz case Some(z) => z case None => 0))
            case None => None)
    case None => None
  }

  /** The date fields of a feed entry, as the feed parser exposes them. */
  datatype DateFields = DateFields(
    publishedParsed: Option<StructTime>,
    updatedParsed: Option<StructTime>,
    published: Option<string>,
    updated: Option<string>)

  /**
   * `parse_dt`: the first of structured published, structured updated,
   * free-text published and free-text updated that yields a time; none if
   * all four fail.
   */
  function ParseDate(f: DateFields, parse: string -> Option<TextDate>): (r: Option<DateTime>)
    ensures r.None? <==>
      FromStruct(f.publishedParsed).None? && FromStruct(f.updatedParsed).None?
      && FromText(f.published, parse).None? && FromText(f.updated, parse).None?
    ensures FromStruct(f.publishedParsed).Some? ==> r == FromStruct(f.publishedParsed)
    ensures FromStruct(f.publishedParsed).None? && FromStruct(f.updatedParsed).Some? ==> r == FromStruct(f.updatedParsed)
    ensures (FromStruct(f.publishedParsed).None? && FromStruct(f.updatedParsed).None?
             && FromText(f.published, parse).Some?) ==> r == FromText(f.published, parse)
    ensures r.Some? ==> r == FromStruct(f.publishedParsed) || r == FromStruct(f.updatedParsed)
                        || r == FromText(f.published, parse) || r == FromText(f.updated, parse)
  {
    var p := FromStruct(f.publishedParsed);
    if p.Some? then p
    else
      var u := FromStruct(f.updatedParsed);
      if u.Some? then u
      else
        var tp := FromText(f.published, parse);
        if tp.Some? then tp else FromText(f.updated, parse)
  }

  /**
   * A usable structured time decides the result on its own: the free-text
   * fields are not looked at, and the result is in UTC.
   */
  lemma StructuredBeatsText(f: DateFields, parse: string -> Option<TextDate>, published: Option<string>, updated: Option<string>)
    requires FromStruct(f.publishedParsed).Some? || FromStruct(f.updatedParsed).Some?
    ensures ParseDate(f, parse) == ParseDate(f.(published := published, updated := updated), parse)
    ensures ParseDate(f, parse).Some? && ParseDate(f, parse).value.offset == 0
  {
  }

  /** The structured published time takes precedence over the structured updated time. */
  lemma PublishedBeatsUpdated(f: DateFields, parse: string -> Option<TextDate>, t: StructTime)
    requires IsValid(t) && f.publishedParsed == Some(t)
    ensures ParseDate(f, parse) == Some(DateTime(EpochSeconds(t), 0))
  {
  }

  /**
   * With no usable structured time, a free-text date without a zone is read
   * as UTC and one with a zone keeps it.
   */
  lemma TextDateZone(f: DateFields, parse: string -> Option<TextDate>, p: TextDate)
    requires FromStruct(f.publishedParsed).None? && FromStruct(f.updatedParsed).None?
    requires f.published.Some? && f.published.value != "" && parse(f.published.value) == Some(p)
    ensures ParseDate(f, parse) == Some(DateTime(p.wall, if p.tz.Some? then p.tz.value else 0))
  {
  }
}
