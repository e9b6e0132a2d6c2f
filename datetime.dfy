/** The deadline normaliser of lib/datetime.ts: deadlines are instants;
    they are shown and edited as a date and a time on the Asia/Taipei wall
    clock, modelled as the fixed offset UTC+8. */
module Datetime {
  import opened Wrappers
  import opened Text
  import opened Civil
  import opened JsDate

  /** Asia/Taipei, as a fixed offset of eight hours east of UTC. */
  const TaipeiOffset: int := 8 * MsPerHour
  const DefaultTime: string := "23:59"
  const NoDeadline: string := "No Deadline"

  /** `pad`: a field padded on the left with zeros to two characters
      (`padStart(2, '0')`). */
  function Pad(value: string): (r: string)
    ensures |r| == if |value| >= 2 then |value| else 2
    ensures r[|r| - |value|..] == value
    ensures forall i | 0 <= i < |r| - |value| :: r[i] == '0'
  {
    if |value| >= 2 then value else seq(2 - |value|, _ => '0') + value
  }

  /** The wall-clock fields of instant `t` in Taipei: the calendar date,
      hour and minute of `t + 8h`, with the seconds cut off. */
  function TaipeiFields(t: int): (f: Fields)
    ensures Valid(f.date) && 0 <= f.hour < 24 && 0 <= f.minute < 60
    ensures var wall := DaysFromCivil(f.date.year, f.date.month, f.date.day) * MsPerDay
                          + f.hour * MsPerHour + f.minute * MsPerMinute;
            wall <= t + TaipeiOffset < wall + MsPerMinute
  {
    Breakdown(t + TaipeiOffset)
  }

  /** The part types `Intl.DateTimeFormat.prototype.formatToParts` uses
      for this formatter. */
  datatype PartKind = Year | Month | Day | Hour | Minute | Literal

  /** One entry of `formatToParts`. */
  datatype Part = Part(kind: PartKind, value: string)

  /** What `formatToParts` gives for the `en-CA` formatter of lines 12-21:
      a numeric year, two-digit month, day, hour (00-23) and minute, with the
      literals of `2025-01-10, 23:59` between them. */
  function FormatToParts(t: int): seq<Part> {
    var f := TaipeiFields(t);
    [ Part(Year, IntText(f.date.year)), Part(Literal, "-"),
      Part(Month, PadNum(f.date.month, 2)), Part(Literal, "-"),
      Part(Day, PadNum(f.date.day, 2)), Part(Literal, ", "),
      Part(Hour, PadNum(f.hour, 2)), Part(Literal, ":"),
      Part(Minute, PadNum(f.minute, 2)) ]
  }

  /** The record the `forEach` of `formatParts` builds from a list of parts:
      each kind maps to the value of its last part. */
  function CollectParts(ps: seq<Part>): map<PartKind, string> {
    if ps == [] then map[] else CollectParts(ps[..|ps| - 1])[ps[|ps| - 1].kind := ps[|ps| - 1].value]
  }

  /** The record built from a year, month, day, hour and minute part with
      literals between them. */
  lemma CollectDateParts(y: string, mo: string, d: string, h: string, mi: string, l1: string, l2: string, l3: string, l4: string)
    ensures var parts := CollectParts([Part(Year, y), Part(Literal, l1), Part(Month, mo), Part(Literal, l2),
                                       Part(Day, d), Part(Literal, l3), Part(Hour, h), Part(Literal, l4), Part(Minute, mi)]);
            && parts.Keys == {Year, Month, Day, Hour, Minute, Literal}
            && parts[Year] == y && parts[Month] == mo && parts[Day] == d && parts[Hour] == h && parts[Minute] == mi
  {
    var ps := [Part(Year, y), Part(Literal, l1), Part(Month, mo), Part(Literal, l2),
               Part(Day, d), Part(Literal, l3), Part(Hour, h), Part(Literal, l4), Part(Minute, mi)];
    var m1 := CollectParts(ps[..1]);
    assert ps[..1][..0] == [] && ps[..1][0] == Part(Year, y);
    assert CollectParts([]) == map[];
    assert m1 == map[][Year := y];
    var m2 := CollectParts(ps[..2]);
    assert ps[..2][..1] == ps[..1];
    assert m2 == m1[Literal := l1];
    var m3 := CollectParts(ps[..3]);
    assert ps[..3][..2] == ps[..2];
    assert m3 == m2[Month := mo];
    var m4 := CollectParts(ps[..4]);
    assert ps[..4][..3] == ps[..3];
    assert m4 == m3[Literal := l2];
    var m5 := CollectParts(ps[..5]);
    assert ps[..5][..4] == ps[..4];
    assert m5 == m4[Day := d];
    var m6 := CollectParts(ps[..6]);
    assert ps[..6][..5] == ps[..5];
    assert m6 == m5[Literal := l3];
    var m7 := CollectParts(ps[..7]);
    assert ps[..7][..6] == ps[..6];
    assert m7 == m6[Hour := h];
    var m8 := CollectParts(ps[..8]);
    assert ps[..8][..7] == ps[..7];
    assert m8 == m7[Literal := l4];
    assert ps[..|ps| - 1] == ps[..8];
    assert CollectParts(ps) == m8[Minute := mi];
  }

  /** Which kinds the Taipei parts record holds, and their values. */
  lemma TaipeiPartsRecord(t: int)
    ensures var f := TaipeiFields(t);
            var parts := CollectParts(FormatToParts(t));
            && parts.Keys == {Year, Month, Day, Hour, Minute, Literal}
            && parts[Year] == IntText(f.date.year)
            && parts[Month] == PadNum(f.date.month, 2)
            && parts[Day] == PadNum(f.date.day, 2)
            && parts[Hour] == PadNum(f.hour, 2)
            && parts[Minute] == PadNum(f.minute, 2)
  {
    var f := TaipeiFields(t);
    CollectDateParts(IntText(f.date.year), PadNum(f.date.month, 2), PadNum(f.date.day, 2),
                     PadNum(f.hour, 2), PadNum(f.minute, 2), "-", "-", ", ", ":");
  }

  /** `formatParts`: the record of the Taipei wall-clock parts of `t`. */
  method FormatParts(t: int) returns (parts: map<PartKind, string>)
    ensures var f := TaipeiFields(t);
            && parts.Keys == {Year, Month, Day, Hour, Minute, Literal}
            && parts[Year] == IntText(f.date.year)
            && parts[Month] == PadNum(f.date.month, 2)
            && parts[Day] == PadNum(f.date.day, 2)
            && parts[Hour] == PadNum(f.hour, 2)
            && parts[Minute] == PadNum(f.minute, 2)
  {
    var ps := FormatToParts(t);
    parts := map[];
    var i := 0;
    while i < |ps|
      invariant 0 <= i <= |ps|
      invariant parts == CollectParts(ps[..i])
    {
      parts := parts[ps[i].kind := ps[i].value];
      assert ps[..i + 1][..i] == ps[..i];
      i := i + 1;
    }
    assert ps[..|ps|] == ps;
    TaipeiPartsRecord(t);
  }

  /** `parts.key` in a template literal: the text `undefined` when absent. */
  function Lookup(parts: map<PartKind, string>, key: PartKind): string {
    if key in parts then parts[key] else "undefined"
  }

  /** The instant a deadline denotes, or `None` for `null`, the empty string
      and a string `Date` cannot read (lines 29-30, 38-39). */
  function DeadlineInstant(deadline: Option<string>): (r: Option<int>)
    ensures r.Some? <==> deadline.Some? && DateTimeText(deadline.value)
  {
    if deadline == None then None
    else if deadline.value == "" then
      assert !DateTimeText(deadline.value) by {
        forall dt | Printable(dt) && InRange(dt) ensures Show(dt) != "" {
          assert |DateText(dt.year, dt.month, dt.day)| == 10;
        }
      }
      None
    else ParseInstant(deadline.value)
  }

  /** `formatDeadline`: `YYYY-MM-DD HH:MM (TPE)` on the Taipei clock, or
      `No Deadline`. */
  function FormatDeadline(deadline: Option<string>): (r: string)
    ensures r == NoDeadline <==> DeadlineInstant(deadline) == None
  {
    match DeadlineInstant(deadline)
    case None => NoDeadline
    case Some(t) =>
      var parts := CollectParts(FormatToParts(t));
      var r := Lookup(parts, Year) + "-" + Lookup(parts, Month) + "-" + Lookup(parts, Day) + " "
               + Lookup(parts, Hour) + ":" + Lookup(parts, Minute) + " (TPE)";
      assert r[|r| - 1] == ')';
      r
  }

  /** A valid deadline is shown as its Taipei date, then its 24-hour Taipei
      time to the minute, then the zone label. */
  lemma FormatDeadlineShows(deadline: Option<string>)
    requires DeadlineInstant(deadline).Some?
    ensures var f := TaipeiFields(DeadlineInstant(deadline).value);
            FormatDeadline(deadline)
              == IntText(f.date.year) + "-" + PadNum(f.date.month, 2) + "-" + PadNum(f.date.day, 2)
                 + " " + PadNum(f.hour, 2) + ":" + PadNum(f.minute, 2) + " (TPE)"
  {
    TaipeiPartsRecord(DeadlineInstant(deadline).value);
  }

  /** The contents of a date and a time input. */
  datatype InputParts = InputParts(date: string, time: string)

  /** `deadlineToInputParts`: the Taipei date `YYYY-MM-DD` and time `HH:MM`
      of a deadline, or two empty strings. */
  function DeadlineToInputParts(deadline: Option<string>): (r: InputParts)
    ensures r.date == "" <==> DeadlineInstant(deadline) == None
    ensures DeadlineInstant(deadline) == None ==> r.time == ""
  {
    match DeadlineInstant(deadline)
    case None => InputParts("", "")
    case Some(t) =>
      var parts := CollectParts(FormatToParts(t));
      InputParts(Lookup(parts, Year) + "-" + Lookup(parts, Month) + "-" + Lookup(parts, Day),
                 Pad(Lookup(parts, Hour)) + ":" + Pad(Lookup(parts, Minute)))
  }

  /** For a valid deadline the inputs hold its Taipei date and its
      zero-padded 24-hour Taipei time; with a four-digit year the date is
      the ten characters `YYYY-MM-DD`. */
  lemma InputPartsShow(deadline: Option<string>)
    requires DeadlineInstant(deadline).Some?
    ensures var f := TaipeiFields(DeadlineInstant(deadline).value);
            var p := DeadlineToInputParts(deadline);
            && p.date == IntText(f.date.year) + "-" + PadNum(f.date.month, 2) + "-" + PadNum(f.date.day, 2)
            && p.time == PadNum(f.hour, 2) + ":" + PadNum(f.minute, 2)
            && (1000 <= f.date.year <= 9999 ==> p.date == DateText(f.date.year, f.date.month, f.date.day))
  {
    var f := TaipeiFields(DeadlineInstant(deadline).value);
    TaipeiPartsRecord(DeadlineInstant(deadline).value);
    if 1000 <= f.date.year <= 9999 {
      NatTextIsPadded(f.date.year, 4);
    }
  }

  /** The time `buildUtcIsoFromParts` reads: the given time, or `23:59` when
      it is missing or empty, trimmed, with `:00` added when it has exactly
      two `:`-separated pieces. */
  function TimeWithSeconds(timePart: Option<string>): (r: string)
    ensures var trimmed := Trim(TimeInput(timePart));
            && |trimmed| <= |r| <= |trimmed| + 3 && r[..|trimmed|] == trimmed
            && SplitLength(r, ':') != 2
            && (SplitLength(trimmed, ':') == 2 ==> SplitLength(r, ':') == 3)
  {
    var trimmed := Trim(TimeInput(timePart));
    if SplitLength(trimmed, ':') == 2 then
      OccurrencesConcat(trimmed, ":00", ':');
      assert Occurrences(":00", ':') == 1 by {
        assert ":00"[..2] == ":0" && ":0"[..1] == ":" && ":"[..0] == [];
      }
      assert (trimmed + ":00")[..|trimmed|] == trimmed;
      trimmed + ":00"
    else trimmed
  }

  /** The time as given, or `23:59` when it is missing or empty. */
  function TimeInput(timePart: Option<string>): string {
    if timePart == None || timePart.value == "" then DefaultTime else timePart.value
  }

  /** A missing or empty time stands for 23:59:00 on the Taipei clock. */
  lemma DefaultTimeApplies(timePart: Option<string>)
    requires timePart == None || timePart == Some("")
    ensures TimeWithSeconds(timePart) == "23:59:00"
  {
    DefaultTimeHasMinutes();
    assert DefaultTime + ":00" == "23:59:00";
  }

  /** A given time is trimmed; it gains `:00` exactly when it then has two
      `:`-separated pieces and is otherwise left as it is. */
  lemma GivenTimeApplies(time: string)
    requires time != ""
    ensures SplitLength(Trim(time), ':') == 2 ==> TimeWithSeconds(Some(time)) == Trim(time) + ":00"
    ensures SplitLength(Trim(time), ':') != 2 ==> TimeWithSeconds(Some(time)) == Trim(time)
  {
  }

  /** The default time is already trimmed and has two pieces. */
  lemma DefaultTimeHasMinutes()
    ensures Trim(DefaultTime) == DefaultTime && SplitLength(DefaultTime, ':') == 2
  {
    TrimUnchanged(DefaultTime);
    assert DefaultTime == "23" + (":" + "59");
    OccurrencesConcat("23", ":" + "59", ':');
    OccurrencesConcat(":", "59", ':');
  }

  /** The text handed to `new Date` on line 54. */
  function CandidateText(datePart: string, timePart: Option<string>): string {
    datePart + "T" + TimeWithSeconds(timePart) + "+08:00"
  }

  /** `buildUtcIsoFromParts`: `Ok(None)` for an empty date; otherwise the
      ISO string of the instant the parts denote at +08:00, or `Err` for the
      `Invalid deadline` exception. */
  function BuildUtcIsoFromParts(datePart: string, timePart: Option<string>): (r: Result<Option<string>>)
    ensures r == Ok(None) <==> datePart == ""
    ensures r.Err? <==> datePart != "" && ParseInstant(CandidateText(datePart, timePart)) == None
    ensures r.Ok? && r.value.Some? ==>
              exists t :: ParseInstant(CandidateText(datePart, timePart)) == Some(t) && r.value.value == ToIsoString(t)
  {
    if datePart == "" then Ok(None)
    else match ParseInstant(CandidateText(datePart, timePart))
      case None => Err("Invalid deadline")
      case Some(t) => Ok(Some(ToIsoString(t)))
  }

  // ------------------------------------------------------------ round trip

  /** A time `HH:MM` is already trimmed and has two pieces. */
  lemma HourMinuteText(h: nat, mi: nat)
    ensures var time := PadNum(h, 2) + ":" + PadNum(mi, 2);
            Trim(time) == time && SplitLength(time, ':') == 2
  {
    var hh, mm := PadNum(h, 2), PadNum(mi, 2);
    var time := hh + ":" + mm;
    assert IsDigit(time[0]) && IsDigit(time[|time| - 1]);
    TrimUnchanged(time);
    assert ':' !in hh && ':' !in mm by {
      assert forall i | 0 <= i < 2 :: IsDigit(hh[i]) && IsDigit(mm[i]);
    }
    assert time == hh + (":" + mm);
    OccurrencesConcat(hh, ":" + mm, ':');
    OccurrencesConcat(":", mm, ':');
  }

  /** The instant a Taipei wall-clock date and minute denote. */
  function TaipeiInstant(y: int, m: int, d: int, h: int, mi: int): int
    requires ValidDate(y, m, d)
  {
    DaysFromCivil(y, m, d) * MsPerDay + h * MsPerHour + mi * MsPerMinute - TaipeiOffset
  }

  /** A wall-clock date in years 1-9999 lies in an instant with a four-digit UTC year. */
  lemma TaipeiInstantFourDigit(y: int, m: int, d: int, h: int, mi: int)
    requires ValidDate(y, m, d) && 1 <= y <= 9999 && 0 <= h <= 23 && 0 <= mi <= 59
    ensures FourDigitUtcYear(TaipeiInstant(y, m, d, h, mi))
  {
    var n := DaysFromCivil(y, m, d);
    var t := TaipeiInstant(y, m, d, h, mi);
    assert n - 1 <= t / MsPerDay <= n;
    DayNumberInYear(Date(y, m, d));
    YearStartIncreasing(0, y);
    YearStartStep(0);
    YearStartIncreasing(y, 10000);
    FourDigitUtcYearWhen(t);
  }

  /** The date-time a date and an `HH:MM` time denote at +08:00. */
  function TaipeiDateTime(y: nat, m: nat, d: nat, h: nat, mi: nat): DateTime {
    DateTime(y, m, d, h, mi, 0, [], Offset(false, 8, 0))
  }

  /** An `HH:MM` time is read as `HH:MM:00`. */
  lemma HourMinuteGainsSeconds(h: nat, mi: nat)
    ensures TimeWithSeconds(Some(PadNum(h, 2) + ":" + PadNum(mi, 2))) == TimeText(h, mi, 0)
  {
    var time := PadNum(h, 2) + ":" + PadNum(mi, 2);
    HourMinuteText(h, mi);
    assert TimeInput(Some(time)) == time;
    assert PadNum(0, 2) == "00";
    assert time + ":00" == TimeText(h, mi, 0);
  }

  /** With an `HH:MM` time, the text handed to the parser is that date-time. */
  lemma CandidateShowsTaipeiDateTime(y: nat, m: nat, d: nat, h: nat, mi: nat)
    ensures CandidateText(DateText(y, m, d), Some(PadNum(h, 2) + ":" + PadNum(mi, 2)))
              == Show(TaipeiDateTime(y, m, d, h, mi))
  {
    HourMinuteGainsSeconds(h, mi);
    TaipeiDateTimeText(y, m, d, h, mi);
  }

  /** The text of a Taipei date-time with no seconds and no fraction. */
  lemma TaipeiDateTimeText(y: nat, m: nat, d: nat, h: nat, mi: nat)
    ensures Show(TaipeiDateTime(y, m, d, h, mi)) == DateText(y, m, d) + "T" + TimeText(h, mi, 0) + "+08:00"
  {
    assert PadNum(0, 2) == "00" && PadNum(8, 2) == "08";
    assert ZoneText(Offset(false, 8, 0)) == "+08:00";
    assert FractionText([]) == [];
  }

  /** An empty fraction adds no milliseconds. */
  lemma NoFractionNoMillis()
    ensures Millis([]) == 0
  {
    assert [] + seq(3, _ => '0') == "000" == PadNum(0, 3);
    PadNumValue(0, 3);
  }

  /** That date-time parses to the instant of the Taipei wall clock. */
  lemma ParseTaipeiDateTime(y: nat, m: nat, d: nat, h: nat, mi: nat)
    requires ValidDate(y, m, d) && 1 <= y <= 9999 && h <= 23 && mi <= 59
    ensures ParseInstant(Show(TaipeiDateTime(y, m, d, h, mi))) == Some(TaipeiInstant(y, m, d, h, mi))
  {
    var dt := TaipeiDateTime(y, m, d, h, mi);
    ParseShow(dt);
    NoFractionNoMillis();
    assert OffsetMinutes(dt.zone) * MsPerMinute == TaipeiOffset;
    assert InRange(dt) && InstantOf(dt) == TaipeiInstant(y, m, d, h, mi);
    assert ParseDateTime(Show(dt)) == Some(dt);
  }

  /** A date and an `HH:MM` time are read on the Taipei clock: the result
      is the ISO string of the instant they denote at +08:00, and that
      string denotes the same instant. */
  lemma BuildReadsTaipeiTime(y: nat, m: nat, d: nat, h: nat, mi: nat)
    requires ValidDate(y, m, d) && 1 <= y <= 9999 && h <= 23 && mi <= 59
    ensures var t := TaipeiInstant(y, m, d, h, mi);
            && BuildUtcIsoFromParts(DateText(y, m, d), Some(PadNum(h, 2) + ":" + PadNum(mi, 2)))
                 == Ok(Some(ToIsoString(t)))
            && ParseInstant(ToIsoString(t)) == Some(t)
  {
    CandidateShowsTaipeiDateTime(y, m, d, h, mi);
    ParseTaipeiDateTime(y, m, d, h, mi);
    TaipeiInstantFourDigit(y, m, d, h, mi);
  }

  /** Truncation to the minute finds the whole minute an instant lies in. */
  lemma TruncMinuteOf(t: int, k: int)
    requires k * MsPerMinute <= t < k * MsPerMinute + MsPerMinute
    ensures TruncMinute(t) == k * MsPerMinute
  {
    var r := t - k * MsPerMinute;
    assert t == k * MsPerMinute + r && 0 <= r < MsPerMinute;
    assert t % MsPerMinute == r;
  }

  /** The Taipei wall-clock minute of an instant denotes that instant
      truncated to the minute. */
  lemma TaipeiMinuteIsTruncation(t: int)
    ensures var f := TaipeiFields(t);
            TaipeiInstant(f.date.year, f.date.month, f.date.day, f.hour, f.minute) == TruncMinute(t)
  {
    var f := TaipeiFields(t);
    var n := DaysFromCivil(f.date.year, f.date.month, f.date.day);
    var k := n * 1440 + f.hour * 60 + f.minute - 480;
    assert TaipeiInstant(f.date.year, f.date.month, f.date.day, f.hour, f.minute) == k * MsPerMinute;
    TruncMinuteOf(t, k);
  }

  /** Showing a deadline in the date and time inputs and saving the inputs
      unchanged gives an ISO string that denotes the deadline truncated to
      the minute (for Taipei years with four digits). */
  lemma InputPartsRoundTrip(deadline: Option<string>)
    requires DeadlineInstant(deadline).Some?
    requires 1000 <= TaipeiFields(DeadlineInstant(deadline).value).date.year <= 9999
    ensures var p := DeadlineToInputParts(deadline);
            var r := BuildUtcIsoFromParts(p.date, Some(p.time));
            && r.Ok? && r.value.Some?
            && ParseInstant(r.value.value) == Some(TruncMinute(DeadlineInstant(deadline).value))
  {
    var t := DeadlineInstant(deadline).value;
    var f := TaipeiFields(t);
    InputPartsShow(deadline);
    BuildReadsTaipeiTime(f.date.year, f.date.month, f.date.day, f.hour, f.minute);
    TaipeiMinuteIsTruncation(t);
  }
}
