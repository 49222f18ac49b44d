/** Which texts are dates and datetimes: for every text, what the parsers answer is read off its
    characters. */
module DateGrammar {
  import opened Values
  import opened Decimal
  import opened Calendar
  import opened DateText

  // ---------------------------------------------------------------- the grammar

  /** A number: digits, which a plus sign may precede. */
  predicate Spells(a: string, n: nat) {
    var digits := if a != [] && a[0] == '+' then a[1..] else a;
    digits != [] && AllDigits(digits) && ReadDigits(digits) == n
  }

  /** Ten characters: year, month and day between hyphens. */
  predicate DateWritten(s: string, y: nat, m: nat, d: nat) {
    |s| == 10 && s[4] == '-' && s[7] == '-' && Spells(s[..4], y) && Spells(s[5..7], m) && Spells(s[8..], d)
  }

  /** Seconds, with up to three digits of a fraction; the digits left out are zeros. */
  ghost predicate SecondsWritten(s: string, sec: nat, ms: nat) {
    || (Spells(s, sec) && ms == 0)
    || exists a: string, f: string :: s == a + ("." + f) && Spells(a, sec) && Thousandths(f, ms)
  }

  predicate Thousandths(f: string, ms: nat) {
    1 <= |f| <= 3 && AllDigits(f) && AllDigits(f + Zeros(3 - |f|)) && ReadDigits(f + Zeros(3 - |f|)) == ms
  }

  /** Hours and minutes; and seconds, or none. */
  ghost predicate TimeWritten(s: string, h: nat, mi: nat, sec: nat, ms: nat) {
    exists a: string, b: string ::
      Spells(a, h) && Spells(b, mi) && (ShortTime(s, a, b, sec, ms) || LongTime(s, a, b, sec, ms))
  }

  predicate ShortTime(s: string, a: string, b: string, sec: nat, ms: nat) {
    s == a + (":" + b) && sec == 0 && ms == 0
  }

  ghost predicate LongTime(s: string, a: string, b: string, sec: nat, ms: nat) {
    exists c: string :: s == a + (":" + (b + (":" + c))) && SecondsWritten(c, sec, ms)
  }

  predicate OnTheClock(h: nat, mi: nat, sec: nat) {
    h <= 23 && mi <= 59 && sec <= 59
  }

  // ---------------------------------------------------------------- splitting loses nothing

  function Joined(parts: seq<string>, c: char): string
    requires parts != []
  {
    if |parts| == 1 then parts[0] else parts[0] + ([c] + Joined(parts[1..], c))
  }

  lemma {:induction false} SplitBack(s: string, c: char)
    ensures Joined(Split(s, c), c) == s
    ensures forall i :: 0 <= i < |Split(s, c)| ==> c !in Split(s, c)[i]
  {
    if s != [] {
      SplitBack(s[1..], c);
      var rest := Split(s[1..], c);
      assert s == [s[0]] + s[1..];
      if s[0] == c {
        assert ([[]] + rest)[1..] == rest;
        assert [] + ([c] + Joined(rest, c)) == s;
      } else {
        var parts := [[s[0]] + rest[0]] + rest[1..];
        assert parts[1..] == rest[1..];
        if |rest| > 1 {
          assert parts[0] + ([c] + Joined(rest[1..], c)) == [s[0]] + (rest[0] + ([c] + Joined(rest[1..], c)));
        }
      }
    }
  }

  lemma {:induction false} SplitOnceBack(s: string, c: char)
    ensures SplitOnce(s, c).None? <==> c !in s
    ensures SplitOnce(s, c).Some? ==> var p := SplitOnce(s, c).value; c !in p.0 && s == p.0 + ([c] + p.1)
  {
    if s != [] {
      assert s == [s[0]] + s[1..];
      SplitOnceBack(s[1..], c);
      if s[0] == c {
        assert [] + ([c] + s[1..]) == s;
      } else if SplitOnce(s[1..], c).Some? {
        var p := SplitOnce(s[1..], c).value;
        assert ([s[0]] + p.0) + ([c] + p.1) == [s[0]] + (p.0 + ([c] + p.1));
      }
    }
  }

  lemma TwoParts(s: string, c: char)
    requires |Split(s, c)| == 2
    ensures var p := Split(s, c); s == p[0] + ([c] + p[1])
  {
    SplitBack(s, c);
    var p := Split(s, c);
    assert p[1..] == [p[1]];
  }

  lemma ThreeParts(s: string, c: char)
    requires |Split(s, c)| == 3
    ensures var p := Split(s, c); s == p[0] + ([c] + (p[1] + ([c] + p[2])))
  {
    SplitBack(s, c);
    var p := Split(s, c);
    var rest := p[1..];
    assert rest[1..] == [p[2]] && rest[0] == p[1];
    assert Joined(rest, c) == p[1] + ([c] + p[2]);
  }

  // ---------------------------------------------------------------- numbers

  lemma ParsedSpells(a: string, max: int, n: nat)
    ensures ParseUnsigned(a, max) == Some(n) <==> Spells(a, n) && n <= max
  {
  }

  lemma SpellsExclude(a: string, n: nat, c: char)
    requires Spells(a, n) && !IsDigit(c) && c != '+'
    ensures c !in a
  {
    var digits := if a[0] == '+' then a[1..] else a;
    DigitsExclude(digits, c);
    assert a[0] == '+' ==> a == ['+'] + a[1..];
  }

  lemma {:induction false} ReadBound(s: string)
    requires AllDigits(s)
    ensures ReadDigits(s) < Power(|s|)
  {
    if s != [] {
      ReadBound(s[..|s| - 1]);
    }
  }

  function Power(k: nat): nat {
    if k == 0 then 1 else 10 * Power(k - 1)
  }

  lemma ShortNumber(a: string, n: nat)
    requires Spells(a, n)
    ensures |a| <= 2 ==> n < 100
    ensures |a| <= 4 ==> n < 10_000
  {
    var digits := if a[0] == '+' then a[1..] else a;
    ReadBound(digits);
    assert Power(0) == 1 && Power(1) == 10 && Power(2) == 100 && Power(3) == 1000 && Power(4) == 10_000;
  }

  // ---------------------------------------------------------------- dates

  /** The three fields of a text that is written as a date. */
  lemma WrittenSplits(s: string, y: nat, m: nat, d: nat)
    requires DateWritten(s, y, m, d)
    ensures Split(s, '-') == [s[..4], s[5..7], s[8..]]
  {
    var a, b, c := s[..4], s[5..7], s[8..];
    SpellsExclude(a, y, '-');
    SpellsExclude(b, m, '-');
    SpellsExclude(c, d, '-');
    assert s == a + (['-'] + (b + (['-'] + c)));
    SplitJoined(a, '-', b + (['-'] + c));
    SplitJoined(b, '-', c);
    SplitPlain(c, '-');
  }

  lemma FieldsWritten(s: string, y: nat, m: nat, d: nat)
    requires |Split(s, '-')| == 3
    requires var p := Split(s, '-');
      |p[0]| == 4 && |p[1]| == 2 && |p[2]| == 2 && Spells(p[0], y) && Spells(p[1], m) && Spells(p[2], d)
    ensures DateWritten(s, y, m, d)
  {
    ThreeParts(s, '-');
    var p := Split(s, '-');
    FieldsAt(s, p[0], p[1], p[2]);
  }

  lemma FieldsAt(s: string, a: string, b: string, c: string)
    requires s == a + (['-'] + (b + (['-'] + c))) && |a| == 4 && |b| == 2 && |c| == 2
    ensures |s| == 10 && s[4] == '-' && s[7] == '-' && s[..4] == a && s[5..7] == b && s[8..] == c
  {
  }

  /** Every date so written is within 32 bits. */
  lemma WrittenFits(s: string, y: nat, m: nat, d: nat)
    requires DateWritten(s, y, m, d) && ValidCivil(y, m, d)
    ensures -I32_MAX - 1 <= DaysFromCivil(y, m, d) <= I32_MAX
  {
    ShortNumber(s[..4], y);
    DaysFromCivilInverts(y, m, d);
    FourDigitDaysFit(DaysFromCivil(y, m, d));
  }

  lemma WrittenParses(s: string, y: nat, m: nat, d: nat)
    requires DateWritten(s, y, m, d)
    ensures ParseDate(s) == if ValidCivil(y, m, d) then Some(DaysFromCivil(y, m, d)) else None
  {
    WrittenSplits(s, y, m, d);
    ShortNumber(s[..4], y);
    ShortNumber(s[5..7], m);
    ShortNumber(s[8..], d);
    ParsedSpells(s[..4], I64_MAX, y);
    ParsedSpells(s[5..7], U32_MAX, m);
    ParsedSpells(s[8..], U32_MAX, d);
    DateFields(s[..4], s[5..7], s[8..], y, m, d);
    if ValidCivil(y, m, d) {
      WrittenFits(s, y, m, d);
    }
  }

  lemma ParsedIsWritten(s: string) returns (y: nat, m: nat, d: nat)
    requires ParseDate(s).Some?
    ensures DateWritten(s, y, m, d)
  {
    var p := Split(s, '-');
    y, m, d := ParseUnsigned(p[0], I64_MAX).value, ParseUnsigned(p[1], U32_MAX).value, ParseUnsigned(p[2],
                                                                                                     U32_MAX).value;
    ParsedSpells(p[0], I64_MAX, y);
    ParsedSpells(p[1], U32_MAX, m);
    ParsedSpells(p[2], U32_MAX, d);
    FieldsWritten(s, y, m, d);
  }

  /** The text writes a date that exists, and `days` is its day. */
  ghost predicate WritesDate(s: string, days: int) {
    exists y: nat, m: nat, d: nat :: DateWritten(s, y, m, d) && ValidCivil(y, m, d) && days == DaysFromCivil(y, m, d)
  }

  /** `parse_date_str`, for every text: a number if and only if the text writes a date that exists, and
      then it is the day of that date. */
  lemma ParseDateExact(s: string, n: int)
    ensures ParseDate(s) == Some(n) <==> WritesDate(s, n)
  {
    if ParseDate(s) == Some(n) {
      var y, m, d := ParsedIsWritten(s);
      WrittenParses(s, y, m, d);
    }
    if WritesDate(s, n) {
      var y: nat, m: nat, d: nat :| DateWritten(s, y, m, d) && ValidCivil(y, m, d) && n == DaysFromCivil(y, m, d);
      WrittenParses(s, y, m, d);
    }
  }

  // ---------------------------------------------------------------- times of day

  lemma {:induction false} ZerosScale(f: string, k: nat)
    requires AllDigits(f)
    ensures AllDigits(f + Zeros(k)) && ReadDigits(f + Zeros(k)) == ReadDigits(f) * Power(k)
  {
    if k == 0 {
      assert f + Zeros(0) == f;
    } else {
      ZerosScale(f, k - 1);
      ReadSnoc(f + Zeros(k - 1), '0');
      assert f + Zeros(k) == (f + Zeros(k - 1)) + ['0'];
      TenTimes(ReadDigits(f), Power(k - 1));
    }
  }

  lemma TenTimes(a: nat, b: nat)
    ensures (a * b) * 10 == a * (10 * b)
  {
  }

  lemma ScaleIsPower(len: nat)
    requires 1 <= len <= 3
    ensures Scale(len) == Power(3 - len)
  {
    assert Power(0) == 1 && Power(1) == 10 && Power(2) == 100;
  }

  /** Digits left out on the right are zeros. */
  lemma FractionScaled(f: string, ms: nat)
    requires 1 <= |f| <= 3 && AllDigits(f)
    ensures Thousandths(f, ms) <==> ms == ReadDigits(f) * Scale(|f|)
  {
    ZerosScale(f, 3 - |f|);
    ScaleIsPower(|f|);
  }

  lemma InJoined(a: string, c: char, rest: string)
    ensures c in a + ([c] + rest)
  {
    assert (a + ([c] + rest))[|a|] == c;
  }

  lemma SecondsExact(s: string, sec: nat, ms: nat)
    requires sec <= U32_MAX
    ensures ParseSeconds(s) == Some((sec, ms)) <==> SecondsWritten(s, sec, ms)
  {
    SplitOnceBack(s, '.');
    ParsedSpells(s, U32_MAX, sec);
    match SplitOnce(s, '.')
    case None =>
      forall a: string, f: string ensures s != a + ("." + f) {
        InJoined(a, '.', f);
      }
    case Some(p) =>
      if Spells(s, sec) {
        SpellsExclude(s, sec, '.');
      }
      ParsedSpells(p.0, U32_MAX, sec);
      if 1 <= |p.1| <= 3 && AllDigits(p.1) {
        FractionScaled(p.1, ms);
      }
      PointOnce(s, p.0, p.1, sec, ms);
  }

  lemma PointOnce(s: string, left: string, right: string, sec: nat, ms: nat)
    requires '.' !in left && s == left + ("." + right)
    ensures SecondsWritten(s, sec, ms) <==> Spells(left, sec) && Thousandths(right, ms)
  {
    if Spells(s, sec) {
      SpellsExclude(s, sec, '.');
      InJoined(left, '.', right);
    }
    forall a: string, f: string | s == a + ("." + f) && Spells(a, sec) ensures a == left && f == right {
      SpellsExclude(a, sec, '.');
      SplitOnceJoined(a, '.', f);
      SplitOnceJoined(left, '.', right);
    }
  }

  lemma SecondsExclude(s: string, sec: nat, ms: nat)
    requires SecondsWritten(s, sec, ms)
    ensures ':' !in s
  {
    if Spells(s, sec) && ms == 0 {
      SpellsExclude(s, sec, ':');
    } else {
      var a: string, f: string :| s == a + ("." + f) && Spells(a, sec) && Thousandths(f, ms);
      SpellsExclude(a, sec, ':');
      DigitsExclude(f, ':');
      NotInJoined(".", f, ':');
      NotInJoined(a, "." + f, ':');
    }
  }

  function Millis(h: nat, mi: nat, sec: nat, ms: nat): nat {
    h * 3_600_000 + mi * 60_000 + sec * 1000 + ms
  }

  lemma SpelledParses(a: string, n: nat)
    requires Spells(a, n) && n <= 59
    ensures ParseUnsigned(a, U32_MAX) == Some(n)
  {
    ParsedSpells(a, U32_MAX, n);
  }

  lemma SecondsParse(c: string, sec: nat, ms: nat)
    requires SecondsWritten(c, sec, ms) && sec <= 59
    ensures ParseSeconds(c) == Some((sec, ms))
  {
    SecondsExact(c, sec, ms);
  }

  /** Two or three fields, read as they are written. */
  lemma TwoFields(a: string, b: string, h: nat, mi: nat)
    requires Spells(a, h) && Spells(b, mi)
    ensures ParseFields([a, b]) == if OnTheClock(h, mi, 0) then Some(Millis(h, mi, 0, 0)) else None
  {
    ParsedSpells(a, U32_MAX, h);
    ParsedSpells(b, U32_MAX, mi);
  }

  lemma AllFields(a: string, b: string, c: string, h: nat, mi: nat, sec: nat, ms: nat)
    requires Spells(a, h) && Spells(b, mi) && SecondsWritten(c, sec, ms)
    ensures OnTheClock(h, mi, sec) ==> ParseFields([a, b, c]) == Some(Millis(h, mi, sec, ms))
  {
    if OnTheClock(h, mi, sec) {
      SpelledParses(a, h);
      SpelledParses(b, mi);
      SecondsParse(c, sec, ms);
      FieldsRead(a, b, c, h, mi, sec, ms);
    }
  }

  lemma WrittenTimeParses(s: string, h: nat, mi: nat, sec: nat, ms: nat)
    requires TimeWritten(s, h, mi, sec, ms) && OnTheClock(h, mi, sec)
    ensures ParseTime(s) == Some(Millis(h, mi, sec, ms))
  {
    var a: string, b: string :| Spells(a, h) && Spells(b, mi)
      && (ShortTime(s, a, b, sec, ms) || LongTime(s, a, b, sec, ms));
    SpellsExclude(a, h, ':');
    SpellsExclude(b, mi, ':');
    if ShortTime(s, a, b, sec, ms) {
      SplitJoined(a, ':', b);
      SplitPlain(b, ':');
      assert Split(s, ':') == [a, b];
      TwoFields(a, b, h, mi);
    } else {
      var c: string :| s == a + (":" + (b + (":" + c))) && SecondsWritten(c, sec, ms);
      SecondsExclude(c, sec, ms);
      SplitJoined(a, ':', b + (":" + c));
      SplitJoined(b, ':', c);
      SplitPlain(c, ':');
      assert Split(s, ':') == [a, b, c];
      AllFields(a, b, c, h, mi, sec, ms);
    }
  }

  lemma ParsedTimeWritten(s: string) returns (h: nat, mi: nat, sec: nat, ms: nat)
    requires ParseTime(s).Some?
    ensures TimeWritten(s, h, mi, sec, ms) && OnTheClock(h, mi, sec)
  {
    var p := Split(s, ':');
    if |p| == 2 {
      h, mi := ParsedTwo(p);
      sec, ms := 0, 0;
      TwoParts(s, ':');
      assert ShortTime(s, p[0], p[1], sec, ms);
    } else {
      h, mi, sec, ms := ParsedThree(p);
      ThreeParts(s, ':');
      assert LongTime(s, p[0], p[1], sec, ms);
    }
  }

  lemma ParsedTwo(p: seq<string>) returns (h: nat, mi: nat)
    requires |p| == 2 && ParseFields(p).Some?
    ensures Spells(p[0], h) && Spells(p[1], mi) && OnTheClock(h, mi, 0)
  {
    h, mi := ParseUnsigned(p[0], U32_MAX).value, ParseUnsigned(p[1], U32_MAX).value;
    ParsedSpells(p[0], U32_MAX, h);
    ParsedSpells(p[1], U32_MAX, mi);
  }

  lemma ParsedThree(p: seq<string>) returns (h: nat, mi: nat, sec: nat, ms: nat)
    requires |p| != 2 && ParseFields(p).Some?
    ensures |p| == 3 && Spells(p[0], h) && Spells(p[1], mi) && SecondsWritten(p[2], sec, ms) && OnTheClock(h, mi, sec)
  {
    var tail := ParseSeconds(p[2]).value;
    h, mi, sec, ms := ParseUnsigned(p[0], U32_MAX).value, ParseUnsigned(p[1], U32_MAX).value, tail.0, tail.1;
    ParsedSpells(p[0], U32_MAX, h);
    ParsedSpells(p[1], U32_MAX, mi);
    SecondsExact(p[2], sec, ms);
  }

  /** The text writes a time on the clock, and `n` are its milliseconds. */
  ghost predicate WritesTime(s: string, n: int) {
    exists h: nat, mi: nat, sec: nat, ms: nat ::
      TimeWritten(s, h, mi, sec, ms) && OnTheClock(h, mi, sec) && n == Millis(h, mi, sec, ms)
  }

  /** Times of day, for every text. */
  lemma ParseTimeExact(s: string, n: int)
    ensures ParseTime(s) == Some(n) <==> WritesTime(s, n)
  {
    if ParseTime(s) == Some(n) {
      var h, mi, sec, ms := ParsedTimeWritten(s);
      WrittenTimeParses(s, h, mi, sec, ms);
    }
    if WritesTime(s, n) {
      var h: nat, mi: nat, sec: nat, ms: nat :|
        TimeWritten(s, h, mi, sec, ms) && OnTheClock(h, mi, sec) && n == Millis(h, mi, sec, ms);
      WrittenTimeParses(s, h, mi, sec, ms);
    }
  }

  // ---------------------------------------------------------------- datetimes

  /** A date, the letter T, and a time of day. */
  ghost predicate WritesDatetime(s: string, days: int, millis: int) {
    |s| > 10 && s[10] == 'T' && WritesDate(s[..10], days) && WritesTime(s[11..], millis)
  }

  lemma DateHasNoMark(s: string, days: int)
    requires WritesDate(s, days)
    ensures |s| == 10 && 'T' !in s
  {
    var y: nat, m: nat, d: nat :| DateWritten(s, y, m, d) && ValidCivil(y, m, d) && days == DaysFromCivil(y, m, d);
    SpellsExclude(s[..4], y, 'T');
    SpellsExclude(s[5..7], m, 'T');
    SpellsExclude(s[8..], d, 'T');
    assert s == s[..4] + ['-'] + s[5..7] + ['-'] + s[8..];
  }

  /** A text whose first half has no mark is split at the mark. */
  lemma SplitAtMark(s: string, date: string, time: string)
    requires s == date + (['T'] + time) && 'T' !in date
    ensures ParseDatetime(s) == Combine(ParseDate(date), ParseTime(time))
  {
    SplitOnceJoined(date, 'T', time);
    JoinedParts(s, date, time);
  }

  lemma HalvesOf(s: string, date: string, time: string)
    requires |date| == 10
    ensures s == date + (['T'] + time) <==> |s| > 10 && s[10] == 'T' && s[..10] == date && s[11..] == time
  {
    if |s| > 10 && s[10] == 'T' && s[..10] == date && s[11..] == time {
      assert s == s[..10] + ([s[10]] + s[11..]);
    }
  }

  lemma Combined(date: Option<int>, clock: Option<int>, n: int, t: int)
    requires date == Some(n) && clock == Some(t)
    ensures Combine(date, clock) == Some(n * 86_400_000 + t)
  {
  }

  lemma WrittenDatetimeParses(s: string, days: int, millis: int)
    requires WritesDatetime(s, days, millis)
    ensures ParseDatetime(s) == Some(days * 86_400_000 + millis)
  {
    var date, time := s[..10], s[11..];
    DateHasNoMark(date, days);
    ParseDateExact(date, days);
    ParseTimeExact(time, millis);
    HalvesOf(s, date, time);
    SplitAtMark(s, date, time);
    Combined(ParseDate(date), ParseTime(time), days, millis);
  }

  lemma ParsedDatetimeWritten(s: string) returns (days: int, millis: int)
    requires ParseDatetime(s).Some?
    ensures WritesDatetime(s, days, millis)
  {
    var date, time;
    date, time, days, millis := ParsedHalves(s);
    ParseDateExact(date, days);
    ParseTimeExact(time, millis);
    DateHasNoMark(date, days);
    HalvesOf(s, date, time);
  }

  lemma ParsedHalves(s: string) returns (date: string, time: string, days: int, millis: int)
    requires ParseDatetime(s).Some?
    ensures s == date + (['T'] + time) && ParseDate(date) == Some(days) && ParseTime(time) == Some(millis)
  {
    SplitOnceBack(s, 'T');
    var p := SplitOnce(s, 'T').value;
    date, time := p.0, p.1;
    JoinedParts(s, date, time);
    days, millis := ParseDate(date).value, ParseTime(time).value;
  }

  ghost predicate WritesInstant(s: string, n: int) {
    exists days: int, millis: int :: WritesDatetime(s, days, millis) && n == days * 86_400_000 + millis
  }

  lemma InstantParses(s: string, n: int)
    requires WritesInstant(s, n)
    ensures ParseDatetime(s) == Some(n)
  {
    var days: int, millis: int :| WritesDatetime(s, days, millis) && n == days * 86_400_000 + millis;
    WrittenDatetimeParses(s, days, millis);
  }

  lemma ParsedWrites(s: string, n: int)
    requires ParseDatetime(s) == Some(n)
    ensures WritesInstant(s, n)
  {
    var days, millis := ParsedDatetimeWritten(s);
    WrittenDatetimeParses(s, days, millis);
  }

  /** `parse_datetime_str`, for every text: an instant if and only if the text writes a date that exists
      and a time on the clock, and then it is that instant. */
  lemma ParseDatetimeExact(s: string, n: int)
    ensures ParseDatetime(s) == Some(n) <==> WritesInstant(s, n)
  {
    if WritesInstant(s, n) {
      InstantParses(s, n);
    } else if ParseDatetime(s) == Some(n) {
      ParsedWrites(s, n);
    }
  }
}
