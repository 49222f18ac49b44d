/** Dates and datetimes as text: what is printed reads back, on exactly the years that four digits
    can spell. */
module DateText {
  import opened Values
  import opened Decimal
  import opened Calendar

  const I32_MAX: int := 0x7FFF_FFFF
  const U32_MAX: int := 0xFFFF_FFFF
  const I64_MAX: int := 0x7FFF_FFFF_FFFF_FFFF

  // ---------------------------------------------------------------- splitting and numbers

  function Split(s: string, c: char): (parts: seq<string>)
    ensures |parts| >= 1
  {
    if s == [] then [[]]
    else
      var rest := Split(s[1..], c);
      if s[0] == c then [[]] + rest else [[s[0]] + rest[0]] + rest[1..]
  }

  function SplitOnce(s: string, c: char): Option<(string, string)> {
    if s == [] then None
    else if s[0] == c then Some(([], s[1..]))
    else match SplitOnce(s[1..], c) case Some(p) => Some(([s[0]] + p.0, p.1)) case None => None
  }

  /** An unsigned number as the standard library reads it: a plus sign may lead. */
  function ParseUnsigned(s: string, max: int): Option<nat> {
    var digits := if s != [] && s[0] == '+' then s[1..] else s;
    if digits == [] || !AllDigits(digits) || ReadDigits(digits) > max then None else Some(ReadDigits(digits))
  }

  function Zeros(k: nat): string {
    if k == 0 then "" else Zeros(k - 1) + "0"
  }

  /** Left-padded with zeros to at least `w` characters. */
  function Pad(n: nat, w: nat): string {
    var digits := Digits(n);
    (if |digits| < w then Zeros(w - |digits|) else "") + digits
  }

  // ---------------------------------------------------------------- dates

  function FormatYear(y: int): string {
    if y >= 0 then Pad(y, 4) else "-" + Pad(-y, 3)
  }

  function FormatDate(days: int): string {
    var c := CivilFromDays(days);
    FormatYear(c.y) + ("-" + (Pad(c.m, 2) + ("-" + Pad(c.d, 2))))
  }

  /** The day number, when the date exists and fits 32 bits. */
  function DayNumber(y: nat, m: nat, d: nat): Option<int> {
    if !ValidCivil(y, m, d) then None
    else
      var days := DaysFromCivil(y, m, d);
      if -I32_MAX - 1 <= days <= I32_MAX then Some(days) else None
  }

  function ParseDate(s: string): Option<int> {
    DateOf(Split(s, '-'))
  }

  /** Year, month and day, of four, two and two characters. */
  function DateOf(parts: seq<string>): Option<int> {
    if |parts| != 3 || |parts[0]| != 4 || |parts[1]| != 2 || |parts[2]| != 2 then None
    else
      match (ParseUnsigned(parts[0], I64_MAX), ParseUnsigned(parts[1], U32_MAX), ParseUnsigned(parts[2], U32_MAX))
      case (Some(y), Some(m), Some(d)) => DayNumber(y, m, d)
      case _ => None
  }

  // ---------------------------------------------------------------- times of day

  function FormatTime(rem: int): string
    requires 0 <= rem < 86_400_000
  {
    Clock(rem / 3_600_000, rem % 3_600_000 / 60_000, rem % 60_000 / 1000, rem % 1000)
  }

  function Clock(h: nat, mi: nat, sec: nat, ms: nat): string {
    Pad(h, 2) + (":" + (Pad(mi, 2) + (":" + (Pad(sec, 2) + Fraction(ms)))))
  }

  /** The milliseconds, unless there are none. */
  function Fraction(ms: nat): string {
    if ms == 0 then "" else "." + Pad(ms, 3)
  }

  function Scale(len: nat): nat
    requires 1 <= len <= 3
  {
    if len == 1 then 100 else if len == 2 then 10 else 1
  }

  /** Seconds and milliseconds of a seconds field. */
  function ParseSeconds(s: string): Option<(nat, nat)> {
    match SplitOnce(s, '.')
    case None => (match ParseUnsigned(s, U32_MAX) case Some(sec) => Some((sec, 0)) case None => None)
    case Some(p) =>
      if p.1 == [] || |p.1| > 3 || !AllDigits(p.1) then None
      else match ParseUnsigned(p.0, U32_MAX)
        case Some(sec) => Some((sec, ReadDigits(p.1) * Scale(|p.1|)))
        case None => None
  }

  function ParseTime(s: string): Option<int> {
    ParseFields(Split(s, ':'))
  }

  /** Hours, minutes and, if there is a third field, seconds. */
  function ParseFields(parts: seq<string>): Option<int> {
    if |parts| < 2 || |parts| > 3 then None
    else
      var tail := if |parts| == 2 then Some((0, 0)) else ParseSeconds(parts[2]);
      match (ParseUnsigned(parts[0], U32_MAX), ParseUnsigned(parts[1], U32_MAX), tail)
      case (Some(h), Some(mi), Some(t)) =>
        if h > 23 || mi > 59 || t.0 > 59 then None
        else Some(h * 3_600_000 + mi * 60_000 + t.0 * 1000 + t.1)
      case _ => None
  }

  function FormatDatetime(millis: int): string {
    FormatDate(millis / 86_400_000) + ("T" + FormatTime(millis % 86_400_000))
  }

  function ParseDatetime(s: string): Option<int> {
    match SplitOnce(s, 'T')
    case None => None
    case Some(p) =>
      Combine(ParseDate(p.0), ParseTime(p.1))
  }

  function Combine(days: Option<int>, time: Option<int>): Option<int> {
    if days.Some? && time.Some? then Some(days.value * 86_400_000 + time.value) else None
  }

  // ---------------------------------------------------------------- splitting what was joined

  lemma {:induction false} SplitPlain(a: string, c: char)
    requires c !in a
    ensures Split(a, c) == [a]
  {
    if a != [] {
      assert a[0] in a && a == [a[0]] + a[1..];
      SplitPlain(a[1..], c);
    }
  }

  lemma {:induction false} SplitJoined(a: string, c: char, rest: string)
    requires c !in a
    ensures Split(a + ([c] + rest), c) == [a] + Split(rest, c)
  {
    var s := a + ([c] + rest);
    if a == [] {
      assert s == [c] + rest && s[1..] == rest;
    } else {
      assert a[0] in a && a == [a[0]] + a[1..];
      assert s[1..] == a[1..] + ([c] + rest);
      SplitJoined(a[1..], c, rest);
    }
  }

  lemma {:induction false} SplitOncePlain(a: string, c: char)
    requires c !in a
    ensures SplitOnce(a, c) == None
  {
    if a != [] {
      assert a[0] in a;
      SplitOncePlain(a[1..], c);
    }
  }

  lemma {:induction false} SplitOnceJoined(a: string, c: char, rest: string)
    requires c !in a
    ensures SplitOnce(a + ([c] + rest), c) == Some((a, rest))
  {
    var s := a + ([c] + rest);
    if a == [] {
      assert s == [c] + rest && s[1..] == rest;
    } else {
      assert a[0] in a && a == [a[0]] + a[1..];
      assert s[1..] == a[1..] + ([c] + rest);
      SplitOnceJoined(a[1..], c, rest);
    }
  }

  lemma NotInJoined(a: string, b: string, c: char)
    requires c !in a && c !in b
    ensures c !in a + b
  {
  }

  // ---------------------------------------------------------------- padded numbers

  lemma {:induction false} ZerosRead(k: nat, s: string)
    requires AllDigits(s)
    ensures |Zeros(k)| == k && AllDigits(Zeros(k) + s) && ReadDigits(Zeros(k) + s) == ReadDigits(s)
    decreases k, |s|
  {
    if k > 0 && s == [] {
      ZerosRead(k - 1, []);
      assert Zeros(k - 1) + [] == Zeros(k - 1) && Zeros(k) + [] == Zeros(k - 1) + "0";
      ReadSnoc(Zeros(k - 1), '0');
    } else if s != [] {
      var n := |s| - 1;
      ZerosRead(k, s[..n]);
      assert Zeros(k) + s == (Zeros(k) + s[..n]) + [s[n]];
      ReadSnoc(Zeros(k) + s[..n], s[n]);
      assert s == s[..n] + [s[n]];
    }
  }

  lemma {:induction false} DigitsLength(n: nat)
    ensures |Digits(n)| >= 1
    ensures |Digits(n)| <= 2 <==> n < 100
    ensures |Digits(n)| <= 3 <==> n < 1000
    ensures |Digits(n)| <= 4 <==> n < 10000
  {
    if n >= 10 {
      DigitsLength(n / 10);
      if n < 100 {
        assert n / 10 < 10;
      }
      assert |Digits(n)| == |Digits(n / 10)| + 1;
      assert |Digits(n / 10)| <= 1 <==> n / 10 < 10;
    }
  }

  /** A padded number: all digits, read back as itself, exactly `w` wide when it fits. */
  lemma PadReads(n: nat, w: nat)
    ensures AllDigits(Pad(n, w)) && Pad(n, w) != [] && ReadDigits(Pad(n, w)) == n
    ensures |Pad(n, w)| == if |Digits(n)| < w then w else |Digits(n)|
  {
    DigitsRoundTrip(n);
    if |Digits(n)| < w {
      ZerosRead(w - |Digits(n)|, Digits(n));
    } else {
      assert "" + Digits(n) == Digits(n);
    }
  }

  lemma DigitsExclude(s: string, c: char)
    requires AllDigits(s) && !IsDigit(c)
    ensures c !in s
  {
  }

  /** Printing and parsing a number that fits. */
  lemma PadParses(n: nat, w: nat, max: int)
    requires n <= max
    ensures ParseUnsigned(Pad(n, w), max) == Some(n)
    ensures forall c :: !IsDigit(c) ==> c !in Pad(n, w)
  {
    PadReads(n, w);
    assert IsDigit(Pad(n, w)[0]);
    forall c | !IsDigit(c) ensures c !in Pad(n, w) {
      DigitsExclude(Pad(n, w), c);
    }
  }

  // ---------------------------------------------------------------- dates read back

  lemma DateParts(y: nat, m: nat, d: nat)
    ensures Split(Pad(y, 4) + ("-" + (Pad(m, 2) + ("-" + Pad(d, 2)))), '-') == [Pad(y, 4), Pad(m, 2), Pad(d, 2)]
  {
    PadParses(y, 4, y);
    PadParses(m, 2, m);
    PadParses(d, 2, d);
    SplitJoined(Pad(y, 4), '-', Pad(m, 2) + ("-" + Pad(d, 2)));
    SplitJoined(Pad(m, 2), '-', Pad(d, 2));
    SplitPlain(Pad(d, 2), '-');
  }

  lemma DateFields(a: string, b: string, c: string, y: nat, m: nat, d: nat)
    requires |a| == 4 && |b| == 2 && |c| == 2
    requires ParseUnsigned(a, I64_MAX) == Some(y) && ParseUnsigned(b, U32_MAX) == Some(m)
      && ParseUnsigned(c, U32_MAX) == Some(d)
    ensures DateOf([a, b, c]) == DayNumber(y, m, d)
  {
  }

  lemma FourDigitDate(y: nat, m: nat, d: nat)
    requires y <= 9999 && m < 100 && d < 100
    ensures ParseDate(Pad(y, 4) + ("-" + (Pad(m, 2) + ("-" + Pad(d, 2))))) == DayNumber(y, m, d)
  {
    DateParts(y, m, d);
    DigitsLength(y);
    DigitsLength(m);
    DigitsLength(d);
    PadReads(y, 4);
    PadReads(m, 2);
    PadReads(d, 2);
    PadParses(y, 4, I64_MAX);
    PadParses(m, 2, U32_MAX);
    PadParses(d, 2, U32_MAX);
    DateFields(Pad(y, 4), Pad(m, 2), Pad(d, 2), y, m, d);
  }

  /** A year that four digits cannot spell does not read back at all. */
  lemma OtherYears(y: int, m: nat, d: nat)
    requires !(0 <= y <= 9999)
    ensures ParseDate(FormatYear(y) + ("-" + (Pad(m, 2) + ("-" + Pad(d, 2))))) == None
  {
    if y >= 0 { LongYear(y, m, d); } else { NegativeYear(y, "-" + (Pad(m, 2) + ("-" + Pad(d, 2)))); }
  }

  lemma WrongWidth(parts: seq<string>)
    requires |parts| > 0 && |parts[0]| != 4
    ensures DateOf(parts) == None
  {
  }

  lemma LongYear(y: nat, m: nat, d: nat)
    requires y > 9999
    ensures ParseDate(Pad(y, 4) + ("-" + (Pad(m, 2) + ("-" + Pad(d, 2))))) == None
  {
    DateParts(y, m, d);
    DigitsLength(y);
    PadReads(y, 4);
    WrongWidth([Pad(y, 4), Pad(m, 2), Pad(d, 2)]);
  }

  lemma NegativeYear(y: int, rest: string)
    requires y < 0
    ensures ParseDate(FormatYear(y) + rest) == None
  {
    var s := FormatYear(y) + rest;
    assert s == [] + ("-" + (Pad(-y, 3) + rest));
    SplitJoined([], '-', Pad(-y, 3) + rest);
    WrongWidth(Split(s, '-'));
  }

  predicate FourDigits(y: int) {
    0 <= y <= 9999
  }

  /** `parse_date_str` inverts `format_date` if and only if the year has four digits; otherwise it
      rejects what was printed. */
  lemma DateRoundTrip(days: int)
    requires -I32_MAX - 1 <= days <= I32_MAX
    ensures ParseDate(FormatDate(days)) == if FourDigits(CivilFromDays(days).y) then Some(days) else None
  {
    CivilFromDaysInverts(days);
    var c := CivilFromDays(days);
    if FourDigits(c.y) {
      FourDigitDate(c.y, c.m, c.d);
    } else {
      OtherYears(c.y, c.m, c.d);
    }
  }

  /** Dates of four-digit years fit the 32-bit day number. */
  lemma FourDigitDaysFit(days: int)
    requires FourDigits(CivilFromDays(days).y)
    ensures -I32_MAX - 1 <= days <= I32_MAX
  {
    CivilFromDaysInverts(days);
    var c := CivilFromDays(days);
    var first, last := Civil(-1, 12, 31), Civil(10000, 1, 1);
    EarlierIsSmaller(first, c);
    EarlierIsSmaller(c, last);
    FirstDay();
    LastDay();
  }

  lemma FirstDay()
    ensures DaysFromCivil(-1, 12, 31) == -719529
  {
  }

  lemma LastDay()
    ensures DaysFromCivil(10000, 1, 1) == 2932897
  {
  }

  // ---------------------------------------------------------------- datetimes read back

  lemma WholeSeconds(sec: nat)
    requires sec < 60
    ensures ParseSeconds(Pad(sec, 2)) == Some((sec, 0)) && ':' !in Pad(sec, 2)
  {
    PadParses(sec, 2, U32_MAX);
    SplitOncePlain(Pad(sec, 2), '.');
  }

  lemma ThreeDigits(ms: nat)
    requires ms < 1000
    ensures |Pad(ms, 3)| == 3 && AllDigits(Pad(ms, 3)) && ReadDigits(Pad(ms, 3)) == ms
  {
    PadReads(ms, 3);
    DigitsLength(ms);
  }

  lemma FractionParts(sec: nat, ms: nat)
    requires 1 <= ms < 1000
    ensures SplitOnce(Pad(sec, 2) + Fraction(ms), '.') == Some((Pad(sec, 2), Pad(ms, 3)))
    ensures ':' !in Pad(sec, 2) + Fraction(ms)
    ensures |Pad(ms, 3)| == 3 && AllDigits(Pad(ms, 3)) && ReadDigits(Pad(ms, 3)) == ms
  {
    PadParses(sec, 2, sec);
    PadParses(ms, 3, ms);
    NotInJoined(".", Pad(ms, 3), ':');
    NotInJoined(Pad(sec, 2), Fraction(ms), ':');
    ThreeDigits(ms);
    SplitOnceJoined(Pad(sec, 2), '.', Pad(ms, 3));
  }

  lemma SplitSeconds(s: string, a: string, frac: string, sec: nat)
    requires SplitOnce(s, '.') == Some((a, frac)) && ParseUnsigned(a, U32_MAX) == Some(sec)
    requires |frac| == 3 && AllDigits(frac)
    ensures ParseSeconds(s) == Some((sec, ReadDigits(frac)))
  {
  }

  lemma SecondsRead(sec: nat, ms: nat)
    requires sec < 60 && ms < 1000
    ensures ParseSeconds(Pad(sec, 2) + Fraction(ms)) == Some((sec, ms)) && ':' !in Pad(sec, 2) + Fraction(ms)
  {
    if ms == 0 {
      WholeSeconds(sec);
      assert Pad(sec, 2) + "" == Pad(sec, 2);
    } else {
      FractionParts(sec, ms);
      PadParses(sec, 2, U32_MAX);
      SplitSeconds(Pad(sec, 2) + Fraction(ms), Pad(sec, 2), Pad(ms, 3), sec);
    }
  }

  lemma ClockRead(h: nat, mi: nat, sec: nat, ms: nat)
    requires h <= 23 && mi <= 59 && sec <= 59 && ms <= 999
    ensures ParseTime(Clock(h, mi, sec, ms)) == Some(h * 3_600_000 + mi * 60_000 + sec * 1000 + ms)
  {
    var tail := Pad(sec, 2) + Fraction(ms);
    SecondsRead(sec, ms);
    PadParses(h, 2, U32_MAX);
    PadParses(mi, 2, U32_MAX);
    ThreeFields(Pad(h, 2), Pad(mi, 2), tail, h, mi, sec, ms);
  }

  lemma ThreeFields(a: string, b: string, tail: string, h: nat, mi: nat, sec: nat, ms: nat)
    requires ':' !in a && ':' !in b && ':' !in tail && h <= 23 && mi <= 59 && sec <= 59
    requires ParseUnsigned(a, U32_MAX) == Some(h) && ParseUnsigned(b, U32_MAX) == Some(mi)
    requires ParseSeconds(tail) == Some((sec, ms))
    ensures ParseTime(a + (":" + (b + (":" + tail)))) == Some(h * 3_600_000 + mi * 60_000 + sec * 1000 + ms)
  {
    SplitJoined(a, ':', b + (":" + tail));
    SplitJoined(b, ':', tail);
    SplitPlain(tail, ':');
    assert Split(a + (":" + (b + (":" + tail))), ':') == [a, b, tail];
    FieldsRead(a, b, tail, h, mi, sec, ms);
  }

  lemma FieldsRead(a: string, b: string, tail: string, h: nat, mi: nat, sec: nat, ms: nat)
    requires h <= 23 && mi <= 59 && sec <= 59
    requires ParseUnsigned(a, U32_MAX) == Some(h) && ParseUnsigned(b, U32_MAX) == Some(mi)
    requires ParseSeconds(tail) == Some((sec, ms))
    ensures ParseFields([a, b, tail]) == Some(h * 3_600_000 + mi * 60_000 + sec * 1000 + ms)
  {
  }

  lemma TimeRoundTrip(rem: int)
    requires 0 <= rem < 86_400_000
    ensures ParseTime(FormatTime(rem)) == Some(rem)
  {
    var h, mi, sec, ms := rem / 3_600_000, rem % 3_600_000 / 60_000, rem % 60_000 / 1000, rem % 1000;
    ClockPieces(rem);
    ClockRead(h, mi, sec, ms);
  }

  lemma ClockPieces(rem: int)
    requires 0 <= rem < 86_400_000
    ensures var h, mi, sec, ms := rem / 3_600_000, rem % 3_600_000 / 60_000, rem % 60_000 / 1000, rem % 1000;
      0 <= h <= 23 && 0 <= mi <= 59 && 0 <= sec <= 59 && 0 <= ms <= 999
      && h * 3_600_000 + mi * 60_000 + sec * 1000 + ms == rem
  {
    var h, r1 := rem / 3_600_000, rem % 3_600_000;
    var mi, r2 := r1 / 60_000, r1 % 60_000;
    assert rem == 60_000 * (60 * h + mi) + r2;
    assert rem % 60_000 == r2;
    var sec, r3 := r2 / 1000, r2 % 1000;
    assert rem == 1000 * (60 * (60 * h + mi) + sec) + r3;
    assert rem % 1000 == r3;
  }

  lemma NoMarkInYear(y: int)
    ensures 'T' !in FormatYear(y)
  {
    if y >= 0 {
      PadParses(y, 4, y);
    } else {
      PadParses(-y, 3, -y);
      NotInJoined("-", Pad(-y, 3), 'T');
    }
  }

  lemma NoMarkInParts(year: string, m: nat, d: nat)
    requires 'T' !in year
    ensures 'T' !in year + ("-" + (Pad(m, 2) + ("-" + Pad(d, 2))))
  {
    PadParses(m, 2, m);
    PadParses(d, 2, d);
    NotInJoined("-", Pad(d, 2), 'T');
    NotInJoined(Pad(m, 2), "-" + Pad(d, 2), 'T');
    NotInJoined("-", Pad(m, 2) + ("-" + Pad(d, 2)), 'T');
    NotInJoined(year, "-" + (Pad(m, 2) + ("-" + Pad(d, 2))), 'T');
  }

  lemma NoMarkInDate(days: int)
    ensures 'T' !in FormatDate(days)
  {
    var c := CivilFromDays(days);
    NoMarkInYear(c.y);
    NoMarkInParts(FormatYear(c.y), c.m, c.d);
  }

  /** `parse_datetime_str` inverts `format_datetime` if and only if the year has four digits; this
      covers instants before 1970 and the form without milliseconds. */
  lemma DatetimeRoundTrip(millis: int)
    ensures ParseDatetime(FormatDatetime(millis))
         == if FourDigits(CivilFromDays(millis / 86_400_000).y) then Some(millis) else None
  {
    DatetimeReads(millis);
    DateOfAnyDay(millis / 86_400_000);
    Recombined(millis, FourDigits(CivilFromDays(millis / 86_400_000).y));
  }

  lemma DatetimeReads(millis: int)
    ensures ParseDatetime(FormatDatetime(millis))
         == Combine(ParseDate(FormatDate(millis / 86_400_000)), Some(millis % 86_400_000))
  {
    var days, rem := millis / 86_400_000, millis % 86_400_000;
    NoMarkInDate(days);
    TimeRoundTrip(rem);
    SplitOnceJoined(FormatDate(days), 'T', FormatTime(rem));
    JoinedParts(FormatDatetime(millis), FormatDate(days), FormatTime(rem));
  }

  lemma Recombined(millis: int, whole: bool)
    ensures Combine(if whole then Some(millis / 86_400_000) else None, Some(millis % 86_400_000))
         == if whole then Some(millis) else None
  {
  }

  lemma JoinedParts(s: string, date: string, time: string)
    requires SplitOnce(s, 'T') == Some((date, time))
    ensures ParseDatetime(s) == Combine(ParseDate(date), ParseTime(time))
  {
  }

  lemma DateOfAnyDay(days: int)
    ensures ParseDate(FormatDate(days)) == if FourDigits(CivilFromDays(days).y) then Some(days) else None
  {
    if FourDigits(CivilFromDays(days).y) {
      FourDigitDaysFit(days);
      DateRoundTrip(days);
    } else {
      CivilFromDaysInverts(days);
      var c := CivilFromDays(days);
      OtherYears(c.y, c.m, c.d);
    }
  }
}
