/** Calendar instants as `DateTime.Parse` produces them, and the sortable
    `"s"` format (`yyyy-MM-ddTHH:mm:ss`, the extended complete date and time
    representation of ISO 8601:2004, section 4.3.2) the condition builder
    writes them in. Fractions of a second and time zones are not modelled. */
module Timestamps {
  import opened Wrappers
  import opened Text

  datatype Stamp = Stamp(year: int, month: int, day: int, hour: int, minute: int, second: int)
  {
    /** The range of a .NET `DateTime`: years 1 to 9999 of the proleptic
        Gregorian calendar. */
    predicate Valid()
    {
      && 1 <= year <= 9999
      && 1 <= month <= 12
      && 1 <= day <= DaysInMonth(year, month)
      && 0 <= hour < 24
      && 0 <= minute < 60
      && 0 <= second < 60
    }
  }

  type DateTime = t: Stamp | t.Valid() witness Stamp(1, 1, 1, 0, 0, 0)

  predicate IsLeapYear(y: int)
  {
    y % 4 == 0 && (y % 100 != 0 || y % 400 == 0)
  }

  function DaysInMonth(y: int, m: int): int
  {
    if m == 2 then (if IsLeapYear(y) then 29 else 28)
    else if m == 4 || m == 6 || m == 9 || m == 11 then 30
    else 31
  }

  /** `dateTime.Date`: the same day at midnight. */
  function Midnight(d: DateTime): DateTime
  {
    Stamp(d.year, d.month, d.day, 0, 0, 0)
  }

  /** `d.ToString("s", en-US)`. */
  function Sortable(d: DateTime): (r: string)
    ensures |r| == 19
    ensures r[4] == '-' && r[7] == '-' && r[10] == 'T' && r[13] == ':' && r[16] == ':'
  {
    Digits(d.year, 4) + "-" + Digits(d.month, 2) + "-" + Digits(d.day, 2) + "T"
      + Digits(d.hour, 2) + ":" + Digits(d.minute, 2) + ":" + Digits(d.second, 2)
  }

  /** Reads the sortable format back: the reference the writer is checked
      against. */
  function ParseSortable(s: string): Option<DateTime>
  {
    if && |s| == 19
       && s[4] == '-' && s[7] == '-' && s[10] == 'T' && s[13] == ':' && s[16] == ':'
       && AllDigits(s[0..4]) && AllDigits(s[5..7]) && AllDigits(s[8..10])
       && AllDigits(s[11..13]) && AllDigits(s[14..16]) && AllDigits(s[17..19])
    then
      var t := Stamp(Value(s[0..4]), Value(s[5..7]), Value(s[8..10]),
                     Value(s[11..13]), Value(s[14..16]), Value(s[17..19]));
      if t.Valid() then Some(t) else None
    else None
  }

  /** The text written for an instant denotes exactly that instant: nothing
      is lost or truncated, to the second. */
  lemma SortableRoundTrip(d: DateTime)
    ensures ParseSortable(Sortable(d)) == Some(d)
  {
    var s := Sortable(d);
    assert s[0..4] == Digits(d.year, 4);
    assert s[5..7] == Digits(d.month, 2);
    assert s[8..10] == Digits(d.day, 2);
    assert s[11..13] == Digits(d.hour, 2);
    assert s[14..16] == Digits(d.minute, 2);
    assert s[17..19] == Digits(d.second, 2);
    assert Pow10(2) == 100 && Pow10(4) == 10000;
    DigitsValue(d.year, 4);
    DigitsValue(d.month, 2);
    DigitsValue(d.day, 2);
    DigitsValue(d.hour, 2);
    DigitsValue(d.minute, 2);
    DigitsValue(d.second, 2);
  }

  /** A date written through `.Date` keeps the day and shows midnight. */
  lemma MidnightFormat(d: DateTime)
    ensures Sortable(Midnight(d))[..10] == Sortable(d)[..10]
    ensures Sortable(Midnight(d))[10..] == "T00:00:00"
  {
    var s, m := Sortable(d), Sortable(Midnight(d));
    assert s[..10] == Digits(d.year, 4) + "-" + Digits(d.month, 2) + "-" + Digits(d.day, 2);
    assert m[..10] == Digits(d.year, 4) + "-" + Digits(d.month, 2) + "-" + Digits(d.day, 2);
    assert Digits(0, 2) == "00";
  }
}
