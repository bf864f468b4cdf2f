/**
 * Times of day as the booking table holds them: whole minutes since midnight
 * and their "HH:MM" text. Formatting follows `strftime("%H:%M")` (always two
 * zero-padded digits per field); parsing follows `strptime(s, "%H:%M")`, which
 * also accepts a one-digit hour or minute. Adding minutes wraps at midnight,
 * because the parsed time carries a dummy date that is dropped again when it
 * is formatted.
 */
module TimeOfDay {
  import opened Basics

  const MinutesPerDay: nat := 1440

  /** A minute of the day, 00:00 to 23:59. */
  type Minute = m: nat | m < 1440

  predicate IsDigit(c: char) {
    '0' <= c <= '9'
  }

  function DigitValue(c: char): (d: nat)
    requires IsDigit(c)
    ensures d < 10
  {
    (c as int) - ('0' as int)
  }

  function DigitChar(d: nat): (c: char)
    requires d < 10
    ensures IsDigit(c) && DigitValue(c) == d
  {
    (('0' as int) + d) as char
  }

  /** `strftime("%H:%M")` of a minute of the day. */
  function Format(m: Minute): (s: string)
    ensures |s| == 5 && s[2] == ':'
    ensures forall k :: 0 <= k < 5 && k != 2 ==> IsDigit(s[k])
  {
    var h, mm := m / 60, m % 60;
    [DigitChar(h / 10), DigitChar(h % 10), ':', DigitChar(mm / 10), DigitChar(mm % 10)]
  }

  /** The hour field `%H` accepts: one digit, `0`/`1` and a digit, or `2` and `0`..`3`. */
  predicate HourField(f: string) {
    (|f| == 1 && IsDigit(f[0])) ||
    (|f| == 2 && IsDigit(f[0]) && IsDigit(f[1]) && (f[0] <= '1' || (f[0] == '2' && f[1] <= '3')))
  }

  /** The minute field `%M` accepts: one digit, or `0`..`5` and a digit. */
  predicate MinuteField(f: string) {
    (|f| == 1 && IsDigit(f[0])) ||
    (|f| == 2 && '0' <= f[0] <= '5' && IsDigit(f[1]))
  }

  /** The decimal value of a one- or two-digit field. */
  function FieldValue(f: string): nat
    requires 1 <= |f| <= 2 && IsDigit(f[0]) && (|f| == 2 ==> IsDigit(f[1]))
  {
    if |f| == 1 then DigitValue(f[0]) else 10 * DigitValue(f[0]) + DigitValue(f[1])
  }

  /** `s` is an hour field, a colon and a minute field, with nothing left over. */
  ghost predicate Accepted(s: string) {
    exists k :: 0 <= k < |s| && s[k] == ':' && HourField(s[..k]) && MinuteField(s[k + 1..])
  }

  function Fields(h: string, mm: string): Option<Minute> {
    if HourField(h) && MinuteField(mm) then Some(FieldValue(h) * 60 + FieldValue(mm)) else None
  }

  /** Fields are digits only, so an accepted text has its colon at index 1 or 2. */
  lemma AcceptedColon(s: string)
    ensures Accepted(s) ==>
              ((|s| >= 2 && s[1] == ':' && HourField(s[..1]) && MinuteField(s[2..])) ||
               (|s| >= 3 && s[2] == ':' && HourField(s[..2]) && MinuteField(s[3..])))
  {
    if Accepted(s) {
      var k :| 0 <= k < |s| && s[k] == ':' && HourField(s[..k]) && MinuteField(s[k + 1..]);
      assert k == 1 || k == 2;
    }
  }

  /**
   * `strptime(s, "%H:%M")` reduced to the minute of the day; `None` where
   * Python raises `ValueError`. Neither field can hold a colon, so the colon
   * sits at index 1 or 2.
   */
  function Parse(s: string): (r: Option<Minute>)
    ensures r.Some? <==> Accepted(s)
    ensures r.Some? ==> exists k :: 0 <= k < |s| && s[k] == ':' && HourField(s[..k]) && MinuteField(s[k + 1..])
                                    && r.value == FieldValue(s[..k]) * 60 + FieldValue(s[k + 1..])
  {
    AcceptedColon(s);
    if |s| >= 2 && s[1] == ':' then Fields(s[..1], s[2..])
    else if |s| >= 3 && s[2] == ':' then Fields(s[..2], s[3..])
    else None
  }

  /** Reading back what `Format` wrote gives the same minute. */
  lemma ParseFormat(m: Minute)
    ensures Parse(Format(m)) == Some(m)
  {
    var s := Format(m);
    var h, mm := m / 60, m % 60;
    assert s[..2] == [DigitChar(h / 10), DigitChar(h % 10)];
    assert s[3..] == [DigitChar(mm / 10), DigitChar(mm % 10)];
    assert HourField(s[..2]);
    assert MinuteField(s[3..]);
    assert FieldValue(s[..2]) == h;
    assert FieldValue(s[3..]) == mm;
  }

  /** `Format` never maps two minutes to one text. */
  lemma FormatInjective(m1: Minute, m2: Minute)
    ensures Format(m1) == Format(m2) ==> m1 == m2
  {
    ParseFormat(m1);
    ParseFormat(m2);
  }

  /** A five-character text that parses is exactly the formatted form of its minute. */
  lemma FormatParse(s: string)
    requires |s| == 5 && Parse(s).Some?
    ensures Format(Parse(s).value) == s
  {
    var m := Parse(s).value;
    assert s[2] == ':';
    assert s[..2] == [s[0], s[1]];
    assert s[3..] == [s[3], s[4]];
    assert m / 60 == 10 * DigitValue(s[0]) + DigitValue(s[1]);
    assert m % 60 == 10 * DigitValue(s[3]) + DigitValue(s[4]);
  }

  /**
   * `strptime` then `+ timedelta(minutes=d)` then `strftime("%H:%M")`: the
   * end of a break that starts at `start` and lasts `d` minutes.
   */
  function EndTime(start: string, d: nat): (r: Option<string>)
    ensures r.Some? <==> Parse(start).Some?
    ensures r.Some? ==> Parse(r.value) == Some((Parse(start).value + d) % MinutesPerDay)
    ensures r.Some? ==> |r.value| == 5
  {
    match Parse(start)
    case None => None
    case Some(m) =>
      ParseFormat((m + d) % MinutesPerDay);
      Some(Format((m + d) % MinutesPerDay))
  }
}
