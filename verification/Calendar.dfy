/** Dates and clock times as the messages and the stored snapshot spell them. */
module Calendar {
  import opened Common

  datatype Day = Day(year: int, month: int, day: int)

  type Date = d: Day | 1 <= d.year <= 9999 && 1 <= d.month <= 12 && 1 <= d.day <= 31
    witness Day(1, 1, 1)

  /** Seconds since midnight: the service reports seconds, nothing prints them. */
  type Clock = t: int | 0 <= t < 86400

  function ToMinute(t: Clock): Clock { t - t % 60 }

  predicate WholeMinute(t: Clock) { t % 60 == 0 }

  /** Grows with the calendar. */
  function Ordinal(d: Date): int { (d.year * 100 + d.month) * 100 + d.day }

  lemma OrdinalIdentifies(a: Date, b: Date)
    ensures Ordinal(a) == Ordinal(b) ==> a == b
  {
  }

  // ---------------------------------------------------------------------------
  // Printing
  // ---------------------------------------------------------------------------

  function Digit(n: int): char
    requires 0 <= n <= 9
  {
    ('0' as int + n) as char
  }

  function TwoDigits(n: int): string
    requires 0 <= n <= 99
  {
    [Digit(n / 10), Digit(n % 10)]
  }

  function FourDigits(n: int): string
    requires 0 <= n <= 9999
  {
    TwoDigits(n / 100) + TwoDigits(n % 100)
  }

  /** `%H:%M` */
  function FormatClock(t: Clock): string {
    TwoDigits(t / 3600) + ":" + TwoDigits(t / 60 % 60)
  }

  /** `%d.%m.%Y` */
  function FormatDate(d: Date): string {
    TwoDigits(d.day) + "." + TwoDigits(d.month) + "." + FourDigits(d.year)
  }

  /** `YYYY-MM-DD` */
  function IsoDate(d: Date): string {
    FourDigits(d.year) + "-" + TwoDigits(d.month) + "-" + TwoDigits(d.day)
  }

  // ---------------------------------------------------------------------------
  // Reading back
  // ---------------------------------------------------------------------------

  predicate IsDigit(c: char) { '0' <= c <= '9' }

  function DigitValue(c: char): int
    requires IsDigit(c)
  {
    c as int - '0' as int
  }

  function Number(s: string): Option<int> {
    if s == [] then Some(0)
    else match Number(s[..|s| - 1])
      case None => None
      case Some(n) => if IsDigit(s[|s| - 1]) then Some(10 * n + DigitValue(s[|s| - 1])) else None
  }

  function ReadClock(s: string): Option<Clock> {
    if |s| == 5 && s[2] == ':' then
      match (Number(s[..2]), Number(s[3..]))
      case (Some(h), Some(m)) => if 0 <= h < 24 && 0 <= m < 60 then Some(h * 3600 + m * 60) else None
      case _ => None
    else None
  }

  function DateOf(year: Option<int>, month: Option<int>, day: Option<int>): Option<Date> {
    match (year, month, day)
    case (Some(y), Some(m), Some(d)) =>
      if 1 <= y <= 9999 && 1 <= m <= 12 && 1 <= d <= 31 then Some(Day(y, m, d)) else None
    case _ => None
  }

  function ReadDate(s: string): Option<Date> {
    if |s| == 10 && s[2] == '.' && s[5] == '.' then DateOf(Number(s[6..]), Number(s[3..5]), Number(s[..2]))
    else None
  }

  function ReadIsoDate(s: string): Option<Date> {
    if |s| == 10 && s[4] == '-' && s[7] == '-' then DateOf(Number(s[..4]), Number(s[5..7]), Number(s[8..]))
    else None
  }

  lemma NumberTwo(n: int)
    requires 0 <= n <= 99
    ensures Number(TwoDigits(n)) == Some(n)
  {
    var s := TwoDigits(n);
    assert s[..1] == [s[0]] && s[..1][..0] == [];
    assert Number(s[..1]) == Some(n / 10);
  }

  lemma NumberFour(n: int)
    requires 0 <= n <= 9999
    ensures Number(FourDigits(n)) == Some(n)
  {
    var s := FourDigits(n);
    NumberTwo(n / 100);
    assert s[..3][..2] == TwoDigits(n / 100);
    assert s[..3][2] == Digit(n % 100 / 10);
    assert Number(s[..3]) == Some(10 * (n / 100) + n % 100 / 10);
  }

  lemma ClockReadsBack(t: Clock)
    ensures |FormatClock(t)| == 5 && ReadClock(FormatClock(t)) == Some(ToMinute(t))
  {
    var s := FormatClock(t);
    assert s[..2] == TwoDigits(t / 3600) && s[3..] == TwoDigits(t / 60 % 60);
    NumberTwo(t / 3600);
    NumberTwo(t / 60 % 60);
    assert t / 3600 * 3600 + t / 60 % 60 * 60 == t - t % 60 by {
      assert t / 60 / 60 == t / 3600;
    }
  }

  lemma DateReadsBack(d: Date)
    ensures |FormatDate(d)| == 10 && ReadDate(FormatDate(d)) == Some(d)
  {
    var s := FormatDate(d);
    assert s[..2] == TwoDigits(d.day) && s[3..5] == TwoDigits(d.month) && s[6..] == FourDigits(d.year);
    NumberTwo(d.day);
    NumberTwo(d.month);
    NumberFour(d.year);
  }

  lemma IsoDateReadsBack(d: Date)
    ensures |IsoDate(d)| == 10 && ReadIsoDate(IsoDate(d)) == Some(d)
  {
    var s := IsoDate(d);
    assert s[..4] == FourDigits(d.year) && s[5..7] == TwoDigits(d.month) && s[8..] == TwoDigits(d.day);
    NumberTwo(d.day);
    NumberTwo(d.month);
    NumberFour(d.year);
  }
}
