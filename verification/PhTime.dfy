/**
  Philippine-local time (src/common/utils/ph-time.util.ts). A calendar date 'YYYY-MM-DD' is
  its day number since 1970-01-01; an instant is a count of milliseconds.
 */
module PhTime {
  import opened Wrappers

  const MINUTES_PER_DAY := 1440
  const MS_PER_MINUTE := 60_000
  const MS_PER_DAY := 86_400_000
  const PH_OFFSET_MS := 28_800_000

  predicate IsDigit(c: char) { '0' <= c <= '9' }

  function DigitValue(c: char): (d: int)
    requires IsDigit(c)
    ensures 0 <= d <= 9
  {
    c as int - '0' as int
  }

  function DigitChar(d: int): (c: char)
    requires 0 <= d <= 9
    ensures IsDigit(c) && DigitValue(c) == d
  {
    ('0' as int + d) as char
  }

  /** 'H:MM' or 'HH:MM' to minutes since midnight; None is the source's NaN. */
  function ParseHHMM(s: string): (r: Option<int>)
    ensures r.Some? ==> 0 <= r.value < MINUTES_PER_DAY
  {
    if |s| == 5 && IsDigit(s[0]) && IsDigit(s[1]) && s[2] == ':' && IsDigit(s[3]) && IsDigit(s[4]) then
      Clock(10 * DigitValue(s[0]) + DigitValue(s[1]), 10 * DigitValue(s[3]) + DigitValue(s[4]))
    else if |s| == 4 && IsDigit(s[0]) && s[1] == ':' && IsDigit(s[2]) && IsDigit(s[3]) then
      Clock(DigitValue(s[0]), 10 * DigitValue(s[2]) + DigitValue(s[3]))
    else None
  }

  function Clock(h: int, m: int): (r: Option<int>)
    requires 0 <= h && 0 <= m
    ensures r.Some? ==> 0 <= r.value < MINUTES_PER_DAY
  {
    if h > 23 || m > 59 then None else Some(h * 60 + m)
  }

  /** Minutes to zero-padded 'HH:MM', wrapping into one day. */
  function FormatHHMM(minutes: int): string {
    var m := minutes % MINUTES_PER_DAY;
    [DigitChar(m / 60 / 10), DigitChar(m / 60 % 10), ':', DigitChar(m % 60 / 10), DigitChar(m % 60 % 10)]
  }

  /** Decoding an encoded minute gives it back, modulo one day. */
  lemma ParseOfFormat(minutes: int)
    ensures ParseHHMM(FormatHHMM(minutes)) == Some(minutes % MINUTES_PER_DAY)
  {
    var m := minutes % MINUTES_PER_DAY;
    var h := m / 60;
    assert h == 10 * (h / 10) + h % 10;
    assert m % 60 == 10 * (m % 60 / 10) + m % 60 % 10;
  }

  /** Encoding a decoded text gives its two-digit spelling: the codec's only slack is one leading zero. */
  lemma FormatOfParse(s: string)
    requires ParseHHMM(s).Some?
    ensures FormatHHMM(ParseHHMM(s).value) == (if |s| == 5 then s else "0" + s)
  {
    if |s| == 5 {
      DigitsOf(DigitValue(s[0]), DigitValue(s[1]), DigitValue(s[3]), DigitValue(s[4]));
    } else {
      DigitsOf(0, DigitValue(s[0]), DigitValue(s[2]), DigitValue(s[3]));
    }
  }

  lemma DigitsOf(a: int, b: int, c: int, d: int)
    requires 0 <= a <= 9 && 0 <= b <= 9 && 0 <= c <= 5 && 0 <= d <= 9 && 10 * a + b <= 23
    ensures FormatHHMM((10 * a + b) * 60 + 10 * c + d)
         == [DigitChar(a), DigitChar(b), ':', DigitChar(c), DigitChar(d)]
  {
    var m := (10 * a + b) * 60 + 10 * c + d;
    assert m % MINUTES_PER_DAY == m;
    assert m / 60 == 10 * a + b && m % 60 == 10 * c + d;
  }

  /** The Manila calendar day an instant falls in. */
  function PhDay(now: int): int { (now + PH_OFFSET_MS) / MS_PER_DAY }

  /** Whole minutes since Manila midnight. */
  function PhMinutesOfDay(now: int): (m: int)
    ensures 0 <= m < MINUTES_PER_DAY
  {
    (now + PH_OFFSET_MS) % MS_PER_DAY / MS_PER_MINUTE
  }

  datatype DayKey = Sunday | Monday | Tuesday | Wednesday | Thursday | Friday | Saturday

  const DAY_KEYS: seq<DayKey> := [Sunday, Monday, Tuesday, Wednesday, Thursday, Friday, Saturday]

  /** Day 0 was a Thursday. */
  function DayKeyOf(date: int): DayKey { DAY_KEYS[(date + 4) % 7] }

  /** Monday-first ISO weeks, numbered consecutively. */
  function PhWeek(now: int): int { (PhDay(now) + 3) / 7 }
}
