/** The two capture-time estimates of `app.py`: the date and time read from
    the OCR text (12-hour suffix conversion, three patterns tried in order),
    and the capture time read from the image's EXIF tags (tag 36867 before
    tag 306, layout "YYYY:MM:DD HH:MM:SS"). */
module Datetimes {
  import opened Common
  import opened Numerals

  /** A naive Python `datetime`. */
  datatype DateTime = DateTime(year: int, month: int, day: int, hour: int, minute: int, second: int)

  predicate IsLeap(y: int)
  {
    y % 4 == 0 && (y % 100 != 0 || y % 400 == 0)
  }

  function DaysInMonth(y: int, m: int): int
  {
    if m == 2 then (if IsLeap(y) then 29 else 28)
    else if m == 4 || m == 6 || m == 9 || m == 11 then 30
    else 31
  }

  /** The field ranges outside which Python's `datetime(...)` and
      `strptime` raise `ValueError`. */
  predicate ValidDateTime(d: DateTime)
  {
    && 1 <= d.year <= 9999
    && 1 <= d.month <= 12
    && 1 <= d.day <= DaysInMonth(d.year, d.month)
    && 0 <= d.hour <= 23
    && 0 <= d.minute <= 59
    && 0 <= d.second <= 59
  }

  /** The billing period of a point in time: `strftime('%Y-%m')`. */
  function MonthOf(d: DateTime): YearMonth
  {
    YearMonth(d.year, d.month)
  }

  // ---------------------------------------------------------------------
  // 12-hour clock

  datatype Meridiem = AM | PM

  /** The hour adjustment of `extract_datetime_from_ocr`: PM adds twelve
      unless the hour is 12, 12 AM is midnight, and without a suffix the
      hour stands. */
  function ConvertHour(hour: int, suffix: Option<Meridiem>): (h: int)
    ensures suffix.None? ==> h == hour
    ensures 1 <= hour <= 12 && suffix == Some(AM) ==> 0 <= h <= 11
    ensures 1 <= hour <= 12 && suffix == Some(PM) ==> 12 <= h <= 23
  {
    match suffix
    case Some(PM) => if hour != 12 then hour + 12 else hour
    case Some(AM) => if hour == 12 then 0 else hour
    case None => hour
  }

  /** The 12-hour reading of a 24-hour hour, as a clock shows it. */
  function To12Hour(h: int): (int, Meridiem)
  {
    if h == 0 then (12, AM)
    else if h < 12 then (h, AM)
    else if h == 12 then (12, PM)
    else (h - 12, PM)
  }

  /** On the hours a 12-hour clock shows, the conversion is a bijection onto
      the 24 hours of the day: AM hours land in 0..11, PM hours in 12..23,
      and reading the result back on a 12-hour clock gives the input. */
  lemma ConvertHourRoundTrip(h: int, s: Meridiem)
    requires 1 <= h <= 12
    ensures s == AM ==> 0 <= ConvertHour(h, Some(s)) <= 11
    ensures s == PM ==> 12 <= ConvertHour(h, Some(s)) <= 23
    ensures To12Hour(ConvertHour(h, Some(s))) == (h, s)
  {
  }

  lemma To12HourRoundTrip(h: int)
    requires 0 <= h <= 23
    ensures 1 <= To12Hour(h).0 <= 12
    ensures ConvertHour(To12Hour(h).0, Some(To12Hour(h).1)) == h
  {
  }

  // ---------------------------------------------------------------------
  // Date and time in the OCR text

  /** The groups of one leftmost regex match: month, day, year, hour,
      minute, and the optional AM/PM group that only the first pattern has. */
  datatype DateMatch = DateMatch(month: int, day: int, year: int, hour: int, minute: int,
                                 suffix: Option<Meridiem>)

  /** `datetime(year, month, day, hour, minute)` from the groups, the hour
      converted first; the seconds are zero. */
  function FromMatch(m: DateMatch): (d: DateTime)
    ensures d.second == 0
    ensures 1 <= m.hour <= 12 && m.suffix.Some? ==> 0 <= d.hour <= 23
    ensures (d.year, d.month, d.day, d.minute) == (m.year, m.month, m.day, m.minute)
  {
    DateTime(m.year, m.month, m.day, ConvertHour(m.hour, m.suffix), m.minute, 0)
  }

  /** A match read without an AM/PM group. The third pattern is the first
      without its optional suffix group, so its leftmost match is the first
      pattern's, minus the suffix. */
  function WithoutSuffix(m: Option<DateMatch>): Option<DateMatch>
  {
    match m
    case Some(d) => Some(d.(suffix := None))
    case None => None
  }

  /** The candidates `extract_datetime_from_ocr` tries, in order, given the
      leftmost matches of the slash pattern with suffix and of the dash
      pattern. The dash pattern has no AM/PM group, so its hour is never
      converted, whatever suffix its match carries. */
  function OcrCandidates(slash: Option<DateMatch>, dash: Option<DateMatch>): seq<Option<DateMatch>>
  {
    [slash, WithoutSuffix(dash), WithoutSuffix(slash)]
  }

  predicate Usable(c: Option<DateMatch>)
  {
    c.Some? && ValidDateTime(FromMatch(c.value))
  }

  /** The first candidate that matched and makes a valid datetime; a match
      whose fields `datetime(...)` rejects is skipped. */
  function FirstValid(cands: seq<Option<DateMatch>>): (r: Option<DateTime>)
    ensures r.Some? ==> ValidDateTime(r.value)
  {
    if cands == [] then None
    else if Usable(cands[0]) then Some(FromMatch(cands[0].value))
    else FirstValid(cands[1..])
  }

  /** `FirstValid` picks the earliest usable candidate and is None exactly
      when no candidate is usable. */
  lemma {:induction false} FirstValidSpec(cands: seq<Option<DateMatch>>)
    ensures FirstValid(cands).None? <==> forall k :: 0 <= k < |cands| ==> !Usable(cands[k])
    ensures FirstValid(cands).Some? ==>
              exists k :: 0 <= k < |cands| && Usable(cands[k])
                          && FirstValid(cands) == Some(FromMatch(cands[k].value))
                          && forall j :: 0 <= j < k ==> !Usable(cands[j])
  {
    if cands != [] && !Usable(cands[0]) {
      FirstValidSpec(cands[1..]);
      if FirstValid(cands).Some? {
        var k :| 0 <= k < |cands[1..]| && Usable(cands[1..][k])
                 && FirstValid(cands[1..]) == Some(FromMatch(cands[1..][k].value))
                 && forall j :: 0 <= j < k ==> !Usable(cands[1..][j]);
        assert Usable(cands[k + 1]);
      }
    }
  }

  /** `extract_datetime_from_ocr`: try the patterns in order and return the
      first valid datetime, or None. */
  method ExtractDatetimeFromOcr(slash: Option<DateMatch>, dash: Option<DateMatch>) returns (r: Option<DateTime>)
    ensures r == FirstValid(OcrCandidates(slash, dash))
  {
    var cands := OcrCandidates(slash, dash);
    var i := 0;
    while i < |cands|
      invariant 0 <= i <= |cands|
      invariant FirstValid(cands) == FirstValid(cands[i..])
    {
      assert cands[i..][1..] == cands[i + 1..];
      var c := cands[i];
      if c.Some? && ValidDateTime(FromMatch(c.value)) {
        return Some(FromMatch(c.value));
      }
      i := i + 1;
    }
    return None;
  }

  /** A usable slash match wins, whatever the dash pattern finds. */
  lemma SlashFirst(slash: Option<DateMatch>, dash: Option<DateMatch>)
    requires Usable(slash)
    ensures FirstValid(OcrCandidates(slash, dash)) == Some(FromMatch(slash.value))
  {
  }

  /** "01/15/2024 3:45 PM" reads as 15:45 on 15 January 2024. */
  lemma AfternoonExample()
    ensures FirstValid(OcrCandidates(Some(DateMatch(1, 15, 2024, 3, 45, Some(PM))), None))
            == Some(DateTime(2024, 1, 15, 15, 45, 0))
  {
  }

  /** A suffix that pushes the hour out of range ("13:45 PM") makes the
      first pattern fail; the third pattern then reads the same text as
      13:45 without the suffix. */
  lemma OutOfRangePmFallsBack(m: DateMatch)
    requires m.suffix == Some(PM) && 13 <= m.hour <= 23
    requires ValidDateTime(DateTime(m.year, m.month, m.day, m.hour, m.minute, 0))
    ensures FirstValid(OcrCandidates(Some(m), None)) == Some(DateTime(m.year, m.month, m.day, m.hour, m.minute, 0))
  {
    var c := OcrCandidates(Some(m), None);
    assert !Usable(c[0]) && !Usable(c[1]) && Usable(c[2]);
    assert c[1..][1..] == [c[2]];
    calc {
      FirstValid(c);
      FirstValid(c[1..]);
      FirstValid(c[1..][1..]);
      Some(FromMatch(c[2].value));
    }
  }

  // ---------------------------------------------------------------------
  // Fixed-width timestamps: "%Y:%m:%d %H:%M:%S" (EXIF) and
  // "%Y-%m-%d %H:%M:%S" (the strings stored with each amount)

  function FormatStamp(d: DateTime, sep: char): (s: string)
    requires ValidDateTime(d)
    ensures |s| == 19
  {
    Pad(d.year, 4) + [sep] + Pad(d.month, 2) + [sep] + Pad(d.day, 2) + " "
    + Pad(d.hour, 2) + ":" + Pad(d.minute, 2) + ":" + Pad(d.second, 2)
  }

  /** `strptime` with a fixed-width "Y?m?d H:M:S" layout, `?` being `sep`:
      None for a string of the wrong shape or a field out of range. */
  function ParseStamp(s: string, sep: char): (r: Option<DateTime>)
    ensures r.Some? ==> ValidDateTime(r.value)
  {
    if |s| == 19 && s[4] == sep && s[7] == sep && s[10] == ' ' && s[13] == ':' && s[16] == ':'
       && AllDigits(s[0..4]) && AllDigits(s[5..7]) && AllDigits(s[8..10])
       && AllDigits(s[11..13]) && AllDigits(s[14..16]) && AllDigits(s[17..19])
    then
      var d := DateTime(NatOf(s[0..4]), NatOf(s[5..7]), NatOf(s[8..10]),
                        NatOf(s[11..13]), NatOf(s[14..16]), NatOf(s[17..19]));
      if ValidDateTime(d) then Some(d) else None
    else None
  }

  /** Parsing a formatted valid datetime gives it back. */
  lemma FormatThenParse(d: DateTime, sep: char)
    requires ValidDateTime(d)
    ensures ParseStamp(FormatStamp(d, sep), sep) == Some(d)
  {
    var s := FormatStamp(d, sep);
    assert s[0..4] == Pad(d.year, 4);
    assert s[5..7] == Pad(d.month, 2);
    assert s[8..10] == Pad(d.day, 2);
    assert s[11..13] == Pad(d.hour, 2);
    assert s[14..16] == Pad(d.minute, 2);
    assert s[17..19] == Pad(d.second, 2);
    NatOfPad(d.year, 4);
    NatOfPad(d.month, 2);
    NatOfPad(d.day, 2);
    NatOfPad(d.hour, 2);
    NatOfPad(d.minute, 2);
    NatOfPad(d.second, 2);
  }

  /** The layout is strict: a string that parses is exactly the formatting of
      what it parses to. */
  lemma ParseThenFormat(s: string, sep: char)
    requires ParseStamp(s, sep).Some?
    ensures FormatStamp(ParseStamp(s, sep).value, sep) == s
  {
    PadNatOf(s[0..4]);
    PadNatOf(s[5..7]);
    PadNatOf(s[8..10]);
    PadNatOf(s[11..13]);
    PadNatOf(s[14..16]);
    PadNatOf(s[17..19]);
    assert s == s[0..4] + [s[4]] + s[5..7] + [s[7]] + s[8..10] + [s[10]]
                + s[11..13] + [s[13]] + s[14..16] + [s[16]] + s[17..19];
  }

  // ---------------------------------------------------------------------
  // EXIF capture time

  const DateTimeOriginal: int := 36867
  const DateTimeTag: int := 306

  /** The value of the first of `tags` present in `exif`, parsed; None when
      none is present. A tag whose value does not parse gives None and the
      later tags are not looked at. */
  function FirstTagTime(tags: seq<int>, exif: map<int, string>): (r: Option<DateTime>)
    ensures r.Some? ==> ValidDateTime(r.value)
  {
    if tags == [] then None
    else if tags[0] in exif then ParseStamp(exif[tags[0]], ':')
    else FirstTagTime(tags[1..], exif)
  }

  /** The EXIF capture time: tag 36867 (DateTimeOriginal) before tag 306
      (DateTime). */
  function ExifTime(exif: map<int, string>): (r: Option<DateTime>)
    ensures r.Some? ==> ValidDateTime(r.value)
  {
    FirstTagTime([DateTimeOriginal, DateTimeTag], exif)
  }

  /** `extract_datetime_from_exif`: the loop over the two tags. */
  method ExtractDatetimeFromExif(exif: map<int, string>) returns (r: Option<DateTime>)
    ensures r == ExifTime(exif)
  {
    var tags := [DateTimeOriginal, DateTimeTag];
    var i := 0;
    while i < |tags|
      invariant 0 <= i <= |tags|
      invariant FirstTagTime(tags, exif) == FirstTagTime(tags[i..], exif)
    {
      assert tags[i..][1..] == tags[i + 1..];
      if tags[i] in exif {
        return ParseStamp(exif[tags[i]], ':');
      }
      i := i + 1;
    }
    return None;
  }

  /** The tag priority: tag 36867 decides whenever it is present, tag 306
      only in its absence, and with neither tag there is no EXIF time. */
  lemma ExifTimePriority(exif: map<int, string>)
    ensures DateTimeOriginal in exif ==> ExifTime(exif) == ParseStamp(exif[DateTimeOriginal], ':')
    ensures DateTimeOriginal !in exif && DateTimeTag in exif ==> ExifTime(exif) == ParseStamp(exif[DateTimeTag], ':')
    ensures DateTimeOriginal !in exif && DateTimeTag !in exif ==> ExifTime(exif) == None
  {
    var tags := [DateTimeOriginal, DateTimeTag];
    if DateTimeOriginal !in exif {
      assert tags[1..] == [DateTimeTag];
      assert ExifTime(exif) == FirstTagTime([DateTimeTag], exif);
      assert [DateTimeTag][1..] == [];
      if DateTimeTag !in exif {
        assert FirstTagTime([DateTimeTag], exif) == FirstTagTime([], exif);
      }
    }
  }

  /** A well-formed original-capture tag decides the EXIF time whatever tag
      306 holds. */
  lemma OriginalTagWins(d: DateTime, other: string)
    requires ValidDateTime(d)
    ensures ExifTime(map[DateTimeOriginal := FormatStamp(d, ':'), DateTimeTag := other]) == Some(d)
  {
    FormatThenParse(d, ':');
  }

  /** An original-capture tag that does not parse gives no EXIF time, even
      when tag 306 holds a well-formed time: there is no fallback. */
  lemma UnparsableOriginalNoFallback(bad: string, d: DateTime)
    requires ParseStamp(bad, ':') == None && ValidDateTime(d)
    ensures ExifTime(map[DateTimeOriginal := bad, DateTimeTag := FormatStamp(d, ':')]) == None
  {
  }

  /** Without an original-capture tag, a well-formed tag 306 is the EXIF time. */
  lemma ModifyTimeFallback(d: DateTime)
    requires ValidDateTime(d)
    ensures ExifTime(map[DateTimeTag := FormatStamp(d, ':')]) == Some(d)
  {
    FormatThenParse(d, ':');
    ExifTimePriority(map[DateTimeTag := FormatStamp(d, ':')]);
  }
}
