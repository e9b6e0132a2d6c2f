/** What the core needs of JavaScript's `Date`: reading an instant from a
    date-time string (`new Date(s).getTime()`, `NaN` modelled as `None`),
    writing an instant with `toISOString`, and breaking an instant into
    calendar fields at a fixed offset from UTC. Instants are integer
    milliseconds since 1970-01-01T00:00:00Z. Strings are read by the
    date-time grammar of section 5.6 of RFC 3339 (upper-case `T` and `Z`,
    seconds required, an optional fraction of any length of which the first
    three digits count, as JavaScript engines read it). */
module JsDate {
  import opened Wrappers
  import opened Text
  import opened Civil

  const MsPerSecond: int := 1000
  const MsPerMinute: int := 60000
  const MsPerHour: int := 3600000
  const MsPerDay: int := 86400000

  /** The time zone designator of a date-time string. */
  datatype Zone = Utc | Offset(negative: bool, hours: nat, minutes: nat)

  /** A date-time string split into its fields, before any range check. */
  datatype DateTime = DateTime(
    year: nat, month: nat, day: nat,
    hour: nat, minute: nat, second: nat,
    fraction: string,
    zone: Zone)

  // ---------------------------------------------------------------- writing

  function DateText(year: nat, month: nat, day: nat): (s: string)
    ensures |s| == 10
  {
    PadNum(year, 4) + "-" + PadNum(month, 2) + "-" + PadNum(day, 2)
  }

  function TimeText(hour: nat, minute: nat, second: nat): (s: string)
    ensures |s| == 8
  {
    PadNum(hour, 2) + ":" + PadNum(minute, 2) + ":" + PadNum(second, 2)
  }

  function ZoneText(z: Zone): string {
    match z
    case Utc => "Z"
    case Offset(neg, h, m) => (if neg then "-" else "+") + PadNum(h, 2) + ":" + PadNum(m, 2)
  }

  function FractionText(f: string): string {
    if f == [] then [] else "." + f
  }

  /** The text of a date-time: `YYYY-MM-DDTHH:MM:SS[.F]Z` or with `±HH:MM`. */
  function Show(dt: DateTime): string {
    DateText(dt.year, dt.month, dt.day) + "T" + TimeText(dt.hour, dt.minute, dt.second)
      + FractionText(dt.fraction) + ZoneText(dt.zone)
  }

  /** Every field fits the number of digits the text gives it. */
  predicate Printable(dt: DateTime) {
    && dt.year < 10000 && dt.month < 100 && dt.day < 100
    && dt.hour < 100 && dt.minute < 100 && dt.second < 100
    && AllDigits(dt.fraction)
    && (dt.zone.Offset? ==> dt.zone.hours < 100 && dt.zone.minutes < 100)
  }

  // ---------------------------------------------------------------- reading

  function ParseDate(s: string): Option<(nat, nat, nat)>
    requires |s| == 10
  {
    if AllDigits(s[..4]) && s[4] == '-' && AllDigits(s[5..7]) && s[7] == '-' && AllDigits(s[8..])
    then Some((DigitsValue(s[..4]), DigitsValue(s[5..7]), DigitsValue(s[8..])))
    else None
  }

  function ParseTime(s: string): Option<(nat, nat, nat)>
    requires |s| == 8
  {
    if AllDigits(s[..2]) && s[2] == ':' && AllDigits(s[3..5]) && s[5] == ':' && AllDigits(s[6..])
    then Some((DigitsValue(s[..2]), DigitsValue(s[3..5]), DigitsValue(s[6..])))
    else None
  }

  function ParseZone(s: string): Option<Zone> {
    if s == "Z" then Some(Utc)
    else if |s| == 6 && (s[0] == '+' || s[0] == '-') && AllDigits(s[1..3]) && s[3] == ':' && AllDigits(s[4..])
    then Some(Offset(s[0] == '-', DigitsValue(s[1..3]), DigitsValue(s[4..])))
    else None
  }

  /** The index just past the run of digits that starts at `i`. */
  function DigitRun(s: string, i: nat): (j: nat)
    requires i <= |s|
    ensures i <= j <= |s| && AllDigits(s[i..j])
    ensures j < |s| ==> !IsDigit(s[j])
    decreases |s| - i
  {
    if i < |s| && IsDigit(s[i]) then
      var j := DigitRun(s, i + 1);
      assert s[i..j] == [s[i]] + s[i + 1..j];
      j
    else i
  }

  lemma {:induction false} DigitRunStops(s: string, i: nat, j: nat)
    requires i <= j <= |s| && AllDigits(s[i..j])
    requires j < |s| ==> !IsDigit(s[j])
    ensures DigitRun(s, i) == j
    decreases j - i
  {
    if i < j {
      assert IsDigit(s[i..j][0]);
      assert s[i + 1..j] == s[i..j][1..];
      DigitRunStops(s, i + 1, j);
    }
  }

  /** The optional fraction and the zone that end a date-time string. */
  function ParseTail(s: string): Option<(string, Zone)> {
    if |s| > 0 && s[0] == '.' then
      var j := DigitRun(s, 1);
      if j == 1 then None
      else match ParseZone(s[j..])
        case None => None
        case Some(z) => Some((s[1..j], z))
    else match ParseZone(s)
      case None => None
      case Some(z) => Some(([], z))
  }

  /** The fields of a date-time string, or `None` when it does not follow
      the grammar. */
  function ParseDateTime(s: string): Option<DateTime> {
    if |s| < 20 || s[10] != 'T' then None
    else match (ParseDate(s[..10]), ParseTime(s[11..19]), ParseTail(s[19..]))
      case (Some((y, mo, d)), Some((h, mi, sec)), Some((f, z))) => Some(DateTime(y, mo, d, h, mi, sec, f, z))
      case _ => None
  }

  // ----------------------------------------------------- fields and instants

  /** The ranges RFC 3339 gives the fields (leap seconds excepted, as in
      JavaScript). */
  predicate InRange(dt: DateTime) {
    && ValidDate(dt.year, dt.month, dt.day)
    && dt.hour <= 23 && dt.minute <= 59 && dt.second <= 59
    && (dt.zone.Offset? ==> dt.zone.hours <= 23 && dt.zone.minutes <= 59)
  }

  /** The milliseconds a fraction of a second denotes: its first three
      digits, padded with zeros on the right. */
  function Millis(f: string): (ms: nat)
    requires AllDigits(f)
    ensures ms < 1000
  {
    var three := if |f| >= 3 then f[..3] else f + seq(3 - |f|, _ => '0');
    assert AllDigits(three);
    DigitsValue(three)
  }

  /** Minutes east of UTC. */
  function OffsetMinutes(z: Zone): int {
    match z
    case Utc => 0
    case Offset(neg, h, m) => if neg then -(60 * h + m) else 60 * h + m
  }

  function InstantOf(dt: DateTime): int
    requires InRange(dt) && AllDigits(dt.fraction)
  {
    DaysFromCivil(dt.year, dt.month, dt.day) * MsPerDay
      + dt.hour * MsPerHour + dt.minute * MsPerMinute + dt.second * MsPerSecond + Millis(dt.fraction)
      - OffsetMinutes(dt.zone) * MsPerMinute
  }

  /** `s` is the text of a date-time whose fields are in range. */
  ghost predicate DateTimeText(s: string) {
    exists dt {:trigger Show(dt)} :: Printable(dt) && InRange(dt) && Show(dt) == s
  }

  /** `new Date(s).getTime()` for a string `s`; `None` stands for `NaN`.
      A string is read exactly when it is the text of a date-time whose
      fields are in range, and it is read as that date-time's instant. */
  function ParseInstant(s: string): (r: Option<int>)
    ensures r.Some? <==> DateTimeText(s)
  {
    ShowIsRead();
    match ParseDateTime(s)
    case None => None
    case Some(dt) =>
      ShowParse(s);
      if InRange(dt) then Some(InstantOf(dt)) else None
  }

  /** The calendar fields of an instant, read on the UTC clock. */
  datatype Fields = Fields(date: Date, hour: int, minute: int, second: int, millis: int)

  function Breakdown(t: int): (f: Fields)
    ensures Valid(f.date)
    ensures 0 <= f.hour < 24 && 0 <= f.minute < 60 && 0 <= f.second < 60 && 0 <= f.millis < 1000
    ensures DaysFromCivil(f.date.year, f.date.month, f.date.day) * MsPerDay
              + f.hour * MsPerHour + f.minute * MsPerMinute + f.second * MsPerSecond + f.millis == t
  {
    var n := t / MsPerDay;
    var ms := t % MsPerDay;
    SplitDay(ms);
    Fields(CivilFromDays(n), ms / MsPerHour, ms % MsPerHour / MsPerMinute,
           ms % MsPerMinute / MsPerSecond, ms % MsPerSecond)
  }

  /** A millisecond of the day is its hours, minutes, seconds and milliseconds. */
  lemma SplitDay(ms: int)
    requires 0 <= ms < MsPerDay
    ensures 0 <= ms / MsPerHour < 24 && 0 <= ms % MsPerHour / MsPerMinute < 60
    ensures 0 <= ms % MsPerMinute / MsPerSecond < 60
    ensures ms == ms / MsPerHour * MsPerHour + ms % MsPerHour / MsPerMinute * MsPerMinute
                  + ms % MsPerMinute / MsPerSecond * MsPerSecond + ms % MsPerSecond
  {
    var h, rh := ms / MsPerHour, ms % MsPerHour;
    assert ms == h * MsPerHour + rh;
    var m, rm := rh / MsPerMinute, rh % MsPerMinute;
    assert rh == m * MsPerMinute + rm;
    assert ms % MsPerMinute == rm by {
      assert ms == (h * 60 + m) * MsPerMinute + rm;
    }
    var sec, rs := rm / MsPerSecond, rm % MsPerSecond;
    assert rm == sec * MsPerSecond + rs;
    assert ms % MsPerSecond == rs by {
      assert ms == ((h * 60 + m) * 60 + sec) * MsPerSecond + rs;
    }
  }

  /** Two field sets that denote the same instant are the same. */
  lemma BreakdownUnique(f: Fields, t: int)
    requires Valid(f.date)
    requires 0 <= f.hour < 24 && 0 <= f.minute < 60 && 0 <= f.second < 60 && 0 <= f.millis < 1000
    requires DaysFromCivil(f.date.year, f.date.month, f.date.day) * MsPerDay
               + f.hour * MsPerHour + f.minute * MsPerMinute + f.second * MsPerSecond + f.millis == t
    ensures f == Breakdown(t)
  {
    var g := Breakdown(t);
    DayUnique(DaysFromCivil(f.date.year, f.date.month, f.date.day),
              f.hour * MsPerHour + f.minute * MsPerMinute + f.second * MsPerSecond + f.millis,
              DaysFromCivil(g.date.year, g.date.month, g.date.day),
              g.hour * MsPerHour + g.minute * MsPerMinute + g.second * MsPerSecond + g.millis);
    DaysFromCivilInjective(f.date, g.date);
    TimeOfDayUnique(f.hour, f.minute, f.second, f.millis, g.hour, g.minute, g.second, g.millis);
  }

  /** An instant has one day number and one millisecond of the day. */
  lemma DayUnique(n1: int, ms1: int, n2: int, ms2: int)
    requires 0 <= ms1 < 86400000 && 0 <= ms2 < 86400000
    requires n1 * 86400000 + ms1 == n2 * 86400000 + ms2
    ensures n1 == n2 && ms1 == ms2
  {
  }

  /** A millisecond of the day has one hour, minute, second and millisecond. */
  lemma TimeOfDayUnique(h1: int, m1: int, s1: int, ms1: int, h2: int, m2: int, s2: int, ms2: int)
    requires 0 <= m1 < 60 && 0 <= s1 < 60 && 0 <= ms1 < 1000
    requires 0 <= m2 < 60 && 0 <= s2 < 60 && 0 <= ms2 < 1000
    requires h1 * 3600000 + m1 * 60000 + s1 * 1000 + ms1 == h2 * 3600000 + m2 * 60000 + s2 * 1000 + ms2
    ensures h1 == h2 && m1 == m2 && s1 == s2 && ms1 == ms2
  {
  }

  /** The year `toISOString` writes: four digits in 0000..9999, otherwise a
      sign and six digits. */
  function IsoYearText(y: int): string {
    if 0 <= y <= 9999 then PadNum(y, 4)
    else (if y < 0 then "-" else "+") + PadNum(if y < 0 then -y else y, 6)
  }

  /** `new Date(t).toISOString()`: `YYYY-MM-DDTHH:MM:SS.sssZ`. For an
      instant with a four-digit UTC year the string has 24 characters and
      is read back as the same instant. */
  function ToIsoString(t: int): (s: string)
    ensures |s| > 0 && s[|s| - 1] == 'Z'
    ensures FourDigitUtcYear(t) ==> |s| == 24 && ParseInstant(s) == Some(t)
  {
    var s := IsoText(Breakdown(t));
    if FourDigitUtcYear(t) then
      IsoTextShows(t);
      ShownInstantIsRead(UtcDateTime(t));
      UtcDateTimeInstant(t);
      s
    else s
  }

  /** The text `toISOString` writes for a set of UTC fields. */
  function IsoText(f: Fields): (s: string)
    requires Valid(f.date)
    requires 0 <= f.hour < 24 && 0 <= f.minute < 60 && 0 <= f.second < 60 && 0 <= f.millis < 1000
    ensures |s| > 0 && s[|s| - 1] == 'Z'
  {
    IsoYearText(f.date.year) + "-" + PadNum(f.date.month, 2) + "-" + PadNum(f.date.day, 2)
      + "T" + TimeText(f.hour, f.minute, f.second) + "." + PadNum(f.millis, 3) + "Z"
  }

  /** With a four-digit year, that text is the 24-character text of the
      UTC date-time of the instant. */
  lemma IsoTextShows(t: int)
    requires FourDigitUtcYear(t)
    ensures IsoText(Breakdown(t)) == Show(UtcDateTime(t)) && |IsoText(Breakdown(t))| == 24
  {
    var f := Breakdown(t);
    assert |PadNum(f.millis, 3)| == 3;
    assert IsoYearText(f.date.year) == PadNum(f.date.year, 4);
  }

  /** An instant whose UTC year has four digits. */
  predicate FourDigitUtcYear(t: int) {
    0 <= Breakdown(t).date.year <= 9999
  }

  /** The instant truncated to the whole minute. */
  function TruncMinute(t: int): (r: int)
    ensures r <= t < r + MsPerMinute && r % MsPerMinute == 0
  {
    t - t % MsPerMinute
  }

  // ------------------------------------------------------------ round trips

  lemma ParseDateText(y: nat, m: nat, d: nat)
    requires y < 10000 && m < 100 && d < 100
    ensures ParseDate(DateText(y, m, d)) == Some((y, m, d))
  {
    var s := DateText(y, m, d);
    assert s[..4] == PadNum(y, 4);
    assert s[5..7] == PadNum(m, 2);
    assert s[8..] == PadNum(d, 2);
    PadNumValue(y, 4);
    PadNumValue(m, 2);
    PadNumValue(d, 2);
  }

  lemma ParseTimeText(h: nat, m: nat, sec: nat)
    requires h < 100 && m < 100 && sec < 100
    ensures ParseTime(TimeText(h, m, sec)) == Some((h, m, sec))
  {
    var s := TimeText(h, m, sec);
    assert s[..2] == PadNum(h, 2);
    assert s[3..5] == PadNum(m, 2);
    assert s[6..] == PadNum(sec, 2);
    PadNumValue(h, 2);
    PadNumValue(m, 2);
    PadNumValue(sec, 2);
  }

  lemma ParseZoneText(z: Zone)
    requires z.Offset? ==> z.hours < 100 && z.minutes < 100
    ensures ParseZone(ZoneText(z)) == Some(z)
  {
    if z.Offset? {
      var s := ZoneText(z);
      var hh, mm := PadNum(z.hours, 2), PadNum(z.minutes, 2);
      assert s == (if z.negative then "-" else "+") + hh + ":" + mm;
      assert |s| == 6 && s[3] == ':' && (s[0] == '-' <==> z.negative);
      assert s[1..3] == hh && s[4..] == mm;
      assert Pow10(2) == 100;
      PadNumValue(z.hours, 2);
      PadNumValue(z.minutes, 2);
    }
  }

  lemma ParseTailText(f: string, z: Zone)
    requires AllDigits(f)
    requires z.Offset? ==> z.hours < 100 && z.minutes < 100
    ensures ParseTail(FractionText(f) + ZoneText(z)) == Some((f, z))
  {
    ParseZoneText(z);
    var s := FractionText(f) + ZoneText(z);
    var zt := ZoneText(z);
    assert zt[0] == 'Z' || zt[0] == '+' || zt[0] == '-';
    if f != [] {
      assert s == "." + f + zt;
      assert s[1..1 + |f|] == f;
      assert s[1 + |f|] == zt[0];
      DigitRunStops(s, 1, 1 + |f|);
      assert s[1 + |f|..] == zt;
    } else {
      assert s == zt;
    }
  }

  /** Reading the text of printable fields gives back the fields. */
  lemma ParseShow(dt: DateTime)
    requires Printable(dt)
    ensures ParseDateTime(Show(dt)) == Some(dt)
  {
    var s := Show(dt);
    var d := DateText(dt.year, dt.month, dt.day);
    var tm := TimeText(dt.hour, dt.minute, dt.second);
    var tail := FractionText(dt.fraction) + ZoneText(dt.zone);
    assert s == d + "T" + tm + tail;
    assert s[..10] == d;
    assert s[11..19] == tm;
    assert s[19..] == tail;
    assert |ZoneText(dt.zone)| >= 1;
    ParseDateText(dt.year, dt.month, dt.day);
    ParseTimeText(dt.hour, dt.minute, dt.second);
    ParseTailText(dt.fraction, dt.zone);
  }

  /** Every printable date-time is read back from its text. */
  lemma ShowIsRead()
    ensures forall dt | Printable(dt) :: ParseDateTime(Show(dt)) == Some(dt)
  {
    forall dt | Printable(dt)
      ensures ParseDateTime(Show(dt)) == Some(dt)
    {
      ParseShow(dt);
    }
  }

  /** The text of a date-time whose fields are in range is read as that
      date-time's instant. */
  lemma ShownInstantIsRead(dt: DateTime)
    requires Printable(dt) && InRange(dt)
    ensures ParseInstant(Show(dt)) == Some(InstantOf(dt))
  {
    ParseShow(dt);
  }

  /** A zone designator that is read is the text of the zone read. */
  lemma ZoneShow(s: string)
    requires ParseZone(s).Some?
    ensures var z := ParseZone(s).value;
            && ZoneText(z) == s && (z.Offset? ==> z.hours < 100 && z.minutes < 100)
  {
    if s != "Z" {
      DigitsPadded(s[1..3]);
      DigitsPadded(s[4..]);
      assert Pow10(2) == 100;
      assert s == [s[0]] + s[1..3] + ":" + s[4..];
    }
  }

  /** A fraction and zone that are read are the text of what was read. */
  lemma TailShow(s: string)
    requires ParseTail(s).Some?
    ensures var (f, z) := ParseTail(s).value;
            && AllDigits(f) && FractionText(f) + ZoneText(z) == s
            && (z.Offset? ==> z.hours < 100 && z.minutes < 100)
  {
    if |s| > 0 && s[0] == '.' {
      var j := DigitRun(s, 1);
      ZoneShow(s[j..]);
      assert s == "." + s[1..j] + s[j..];
    } else {
      ZoneShow(s);
    }
  }

  /** A date that is read is the text of the date read. */
  lemma DateShow(d: string)
    requires |d| == 10 && ParseDate(d).Some?
    ensures var (y, mo, dd) := ParseDate(d).value;
            y < 10000 && mo < 100 && dd < 100 && DateText(y, mo, dd) == d
  {
    DigitsPadded(d[..4]);
    DigitsPadded(d[5..7]);
    DigitsPadded(d[8..]);
    assert Pow10(2) == 100 && Pow10(4) == 10000;
    assert d == d[..4] + "-" + d[5..7] + "-" + d[8..];
  }

  /** A time that is read is the text of the time read. */
  lemma TimeShow(tm: string)
    requires |tm| == 8 && ParseTime(tm).Some?
    ensures var (h, mi, sec) := ParseTime(tm).value;
            h < 100 && mi < 100 && sec < 100 && TimeText(h, mi, sec) == tm
  {
    DigitsPadded(tm[..2]);
    DigitsPadded(tm[3..5]);
    DigitsPadded(tm[6..]);
    assert Pow10(2) == 100;
    assert tm == tm[..2] + ":" + tm[3..5] + ":" + tm[6..];
  }

  /** A string that is read is the text of the fields read from it. */
  lemma ShowParse(s: string)
    requires ParseDateTime(s).Some?
    ensures Printable(ParseDateTime(s).value) && Show(ParseDateTime(s).value) == s
  {
    var d, tm, tail := s[..10], s[11..19], s[19..];
    var dt := ParseDateTime(s).value;
    assert ParseDate(d).value == (dt.year, dt.month, dt.day);
    assert ParseTime(tm).value == (dt.hour, dt.minute, dt.second);
    assert ParseTail(tail).value == (dt.fraction, dt.zone);
    DateShow(d);
    TimeShow(tm);
    TailShow(tail);
    assert s == d + "T" + tm + tail;
  }

  /** The fields `toISOString` writes for an instant with a four-digit UTC year. */
  function UtcDateTime(t: int): (dt: DateTime)
    requires FourDigitUtcYear(t)
    ensures Printable(dt) && InRange(dt)
  {
    var f := Breakdown(t);
    DateTime(f.date.year, f.date.month, f.date.day, f.hour, f.minute, f.second, PadNum(f.millis, 3), Utc)
  }

  lemma UtcDateTimeInstant(t: int)
    requires FourDigitUtcYear(t)
    ensures InstantOf(UtcDateTime(t)) == t
  {
    var f := Breakdown(t);
    PadNumValue(f.millis, 3);
    assert PadNum(f.millis, 3)[..3] == PadNum(f.millis, 3);
    assert Millis(UtcDateTime(t).fraction) == f.millis;
  }

  /** An instant between the first of January of year 0 and that of year
      10000 has a four-digit UTC year. */
  lemma FourDigitUtcYearWhen(t: int)
    requires YearStart(0) - EpochDay <= t / MsPerDay < YearStart(10000) - EpochDay
    ensures FourDigitUtcYear(t)
  {
    var f := Breakdown(t);
    assert DaysFromCivil(f.date.year, f.date.month, f.date.day) == t / MsPerDay;
    YearBetween(f.date, 0, 10000);
  }
}
