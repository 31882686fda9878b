/**
 * UTC date-times as Python's `datetime.isoformat()` writes them for an aware
 * datetime in timezone.utc: `YYYY-MM-DDTHH:MM:SS+00:00`, with `.ffffff`
 * (six digits of microseconds) before the offset when the microsecond is not 0.
 */
module IsoFormat {
  import opened Wrappers
  import Civil
  import Decimal

  const MS_PER_DAY := 86400000
  /** The last millisecond a datetime can hold: 9999-12-31T23:59:59.999 UTC. */
  const MAX_MILLIS := 253402300799999
  const UTC_OFFSET := "+00:00"

  datatype DateTime = DateTime(date: Civil.Date, hour: int, minute: int, second: int, micro: int)

  predicate Valid(t: DateTime) {
    && Civil.ValidDate(t.date)
    && 0 <= t.hour < 24 && 0 <= t.minute < 60 && 0 <= t.second < 60
    && 0 <= t.micro < 1000000
  }

  /** The instant t denotes, in microseconds after 1970-01-01T00:00:00Z. */
  function Micros(t: DateTime): int
    requires Valid(t)
  {
    (((Civil.DaysFromCivil(t.date) * 24 + t.hour) * 60 + t.minute) * 60 + t.second) * 1000000 + t.micro
  }

  /** Splitting ms into whole days, hours, minutes, seconds and milliseconds loses nothing. */
  lemma SplitMillis(ms: nat)
    ensures var rem := ms % MS_PER_DAY;
      var r1 := rem % 3600000;
      var r2 := r1 % 60000;
      && rem / 3600000 < 24
      && ((ms / MS_PER_DAY * 24 + rem / 3600000) * 60 + r1 / 60000) * 60 + r2 / 1000 == ms / 1000
      && r2 % 1000 == ms % 1000
  {
    var days, rem := ms / MS_PER_DAY, ms % MS_PER_DAY;
    var h, r1 := rem / 3600000, rem % 3600000;
    var m, r2 := r1 / 60000, r1 % 60000;
    var sec, r3 := r2 / 1000, r2 % 1000;
    assert ms == days * MS_PER_DAY + rem;
    assert rem == h * 3600000 + r1;
    assert r1 == m * 60000 + r2;
    assert r2 == sec * 1000 + r3;
    var whole := ((days * 24 + h) * 60 + m) * 60 + sec;
    assert ms == whole * 1000 + r3 && 0 <= r3 < 1000;
  }

  /** The UTC date-time ms milliseconds after the epoch. */
  function FromMillis(ms: nat): (t: DateTime)
    ensures Valid(t) && t.date.year >= Civil.EPOCH_YEAR
    ensures Micros(t) == ms * 1000
    ensures t.micro == 0 <==> ms % 1000 == 0
    ensures t.date.year <= 9999 <==> ms <= MAX_MILLIS
  {
    var rem := ms % MS_PER_DAY;
    var r1 := rem % 3600000;
    var r2 := r1 % 60000;
    Civil.FromDaysYearBound(ms / MS_PER_DAY);
    SplitMillis(ms);
    assert ms == ms / 1000 * 1000 + ms % 1000;
    DateTime(Civil.FromDays(ms / MS_PER_DAY), rem / 3600000, r1 / 60000, r2 / 1000, ms % 1000 * 1000)
  }

  function DatePart(d: Civil.Date): (s: string)
    requires 0 <= d.year <= 9999 && 0 <= d.month && 0 <= d.day
  {
    Decimal.Pad(d.year, 4) + "-" + Decimal.Pad(d.month, 2) + "-" + Decimal.Pad(d.day, 2)
  }

  function TimePart(t: DateTime): (s: string)
    requires Valid(t)
  {
    Decimal.Pad(t.hour, 2) + ":" + Decimal.Pad(t.minute, 2) + ":" + Decimal.Pad(t.second, 2)
  }

  function Fraction(t: DateTime): (s: string)
    requires Valid(t)
  {
    if t.micro == 0 then "" else "." + Decimal.Pad(t.micro, 6)
  }

  /** The isoformat() text of a valid date-time whose year has at most four digits. */
  function Render(t: DateTime): (s: string)
    requires Valid(t) && t.date.year <= 9999
    ensures |s| == (if t.micro == 0 then 25 else 32)
    ensures s[10] == 'T' && s[|s| - 6..] == UTC_OFFSET
  {
    DatePart(t.date) + "T" + TimePart(t) + Fraction(t) + UTC_OFFSET
  }

  /** Digits s[lo..hi] read as a number. */
  function Field(s: string, lo: nat, hi: nat): nat
    requires lo <= hi <= |s| && Decimal.AllDigits(s[lo..hi])
  {
    Decimal.Value(s[lo..hi])
  }

  /** The layout `YYYY-MM-DDTHH:MM:SS[.ffffff]+00:00`, digits where digits go. */
  predicate WellShaped(s: string) {
    && (|s| == 25 || |s| == 32)
    && s[4] == '-' && s[7] == '-' && s[10] == 'T' && s[13] == ':' && s[16] == ':'
    && s[|s| - 6..] == UTC_OFFSET
    && Decimal.AllDigits(s[0..4]) && Decimal.AllDigits(s[5..7]) && Decimal.AllDigits(s[8..10])
    && Decimal.AllDigits(s[11..13]) && Decimal.AllDigits(s[14..16]) && Decimal.AllDigits(s[17..19])
    && (|s| == 32 ==> s[19] == '.' && Decimal.AllDigits(s[20..26]))
  }

  /** Reads a well-shaped text back into its fields; None for any other text. */
  function Parse(s: string): Option<DateTime> {
    if WellShaped(s) then
      Some(DateTime(Civil.Date(Field(s, 0, 4), Field(s, 5, 7), Field(s, 8, 10)),
                    Field(s, 11, 13), Field(s, 14, 16), Field(s, 17, 19),
                    if |s| == 32 then Field(s, 20, 26) else 0))
    else None
  }

  /** The instant an isoformat() UTC text denotes, in microseconds after the epoch. */
  function Instant(s: string): Option<int> {
    match Parse(s)
    case Some(t) => if Valid(t) then Some(Micros(t)) else None
    case None => None
  }

  lemma DatePartFields(d: Civil.Date)
    requires 0 <= d.year <= 9999 && 0 <= d.month && 0 <= d.day
    ensures var s := DatePart(d);
      && |s| == 10 && s[4] == '-' && s[7] == '-'
      && s[0..4] == Decimal.Pad(d.year, 4) && s[5..7] == Decimal.Pad(d.month, 2)
      && s[8..10] == Decimal.Pad(d.day, 2)
  {
  }

  lemma TimePartFields(t: DateTime)
    requires Valid(t)
    ensures var s := TimePart(t);
      && |s| == 8 && s[2] == ':' && s[5] == ':'
      && s[0..2] == Decimal.Pad(t.hour, 2) && s[3..5] == Decimal.Pad(t.minute, 2)
      && s[6..8] == Decimal.Pad(t.second, 2)
  {
  }

  lemma RenderParts(t: DateTime)
    requires Valid(t) && t.date.year <= 9999
    ensures var s := Render(t);
      && |s| == 25 + |Fraction(t)| && s[10] == 'T'
      && s[0..10] == DatePart(t.date) && s[11..19] == TimePart(t)
      && s[19..19 + |Fraction(t)|] == Fraction(t) && s[|s| - 6..] == UTC_OFFSET
  {
  }

  lemma RenderDateFields(t: DateTime)
    requires Valid(t) && t.date.year <= 9999
    ensures var s := Render(t);
      && |s| >= 25 && s[4] == '-' && s[7] == '-' && s[10] == 'T'
      && s[0..4] == Decimal.Pad(t.date.year, 4) && s[5..7] == Decimal.Pad(t.date.month, 2)
      && s[8..10] == Decimal.Pad(t.date.day, 2)
  {
    var s := Render(t);
    RenderParts(t);
    DatePartFields(t.date);
    assert s[0..4] == s[0..10][0..4] && s[5..7] == s[0..10][5..7] && s[8..10] == s[0..10][8..10];
  }

  lemma RenderTimeFields(t: DateTime)
    requires Valid(t) && t.date.year <= 9999
    ensures var s := Render(t);
      && |s| >= 25 && s[13] == ':' && s[16] == ':'
      && s[11..13] == Decimal.Pad(t.hour, 2) && s[14..16] == Decimal.Pad(t.minute, 2)
      && s[17..19] == Decimal.Pad(t.second, 2)
  {
    var s := Render(t);
    RenderParts(t);
    TimePartFields(t);
    assert s[11..13] == s[11..19][0..2] && s[14..16] == s[11..19][3..5] && s[17..19] == s[11..19][6..8];
  }

  lemma RenderFractionField(t: DateTime)
    requires Valid(t) && t.date.year <= 9999
    ensures var s := Render(t);
      && (|s| == 25 <==> t.micro == 0) && (|s| == 25 || |s| == 32)
      && (|s| == 32 ==> s[19] == '.' && s[20..26] == Decimal.Pad(t.micro, 6))
  {
    var s := Render(t);
    RenderParts(t);
    if t.micro != 0 {
      assert s[20..26] == s[19..26][1..7];
    }
  }

  /** Parsing what Render writes gives back the same date-time. */
  lemma ParseRender(t: DateTime)
    requires Valid(t) && t.date.year <= 9999
    ensures Parse(Render(t)) == Some(t)
  {
    var s := Render(t);
    RenderParts(t);
    RenderDateFields(t);
    RenderTimeFields(t);
    RenderFractionField(t);
    assert WellShaped(s);
    Decimal.ValueOfPad(t.date.year, 4);
    Decimal.ValueOfPad(t.date.month, 2);
    Decimal.ValueOfPad(t.date.day, 2);
    Decimal.ValueOfPad(t.hour, 2);
    Decimal.ValueOfPad(t.minute, 2);
    Decimal.ValueOfPad(t.second, 2);
    if t.micro != 0 {
      Decimal.ValueOfPad(t.micro, 6);
    }
  }

  /**
   * `datetime.fromtimestamp(ms / 1000, tz=timezone.utc).isoformat()` for a
   * timestamp a datetime can hold: the text denotes exactly ms milliseconds
   * after the epoch, and carries a fraction exactly when ms is not a whole second.
   */
  function FromTimestamp(ms: nat): (s: string)
    requires ms <= MAX_MILLIS
    ensures Instant(s) == Some(ms * 1000)
    ensures |s| == (if ms % 1000 == 0 then 25 else 32)
  {
    var t := FromMillis(ms);
    ParseRender(t);
    Render(t)
  }
}
