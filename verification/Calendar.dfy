/** Proleptic Gregorian dates and day numbers: two pieces of integer arithmetic that invert each
    other on every day and every valid date, negative years included. */
module Calendar {

  datatype Civil = Civil(y: int, m: nat, d: nat)

  /** Integer division as the machine does it: towards zero. */
  function TruncDiv(a: int, b: int): int
    requires b > 0
  {
    if a >= 0 then a / b else -((-a) / b)
  }

  // ---------------------------------------------------------------- the two functions

  function DaysFromCivil(y: int, m: nat, d: nat): int
    requires d >= 1
  {
    var y' := if m <= 2 then y - 1 else y;
    var era := TruncDiv(if y' >= 0 then y' else y' - 399, 400);
    EraIsFloor(y');
    var yoe: nat := y' - era * 400;
    var mp := (m + 9) % 12;
    var doy := (153 * mp + 2) / 5 + (d - 1);
    var doe: nat := yoe * 365 + yoe / 4 - yoe / 100 + doy;
    era * 146097 + doe - 719468
  }

  function CivilFromDays(z: int): Civil {
    var z' := z + 719468;
    var era := TruncDiv(if z' >= 0 then z' else z' - 146096, 146097);
    EpochIsFloor(z');
    CivilOfEra(era, z' - era * 146097)
  }

  /** The date of day `doe` of an era. */
  function CivilOfEra(era: int, doe: nat): Civil
    requires doe < 146097
  {
    YearWithinEra(doe);
    var yoe: nat := (doe - doe / 1460 + doe / 36524 - doe / 146096) / 365;
    CivilOfYear(yoe + era * 400, doe - (365 * yoe + yoe / 4 - yoe / 100))
  }

  /** The date of day `doy` of the year that starts in March of `y`. */
  function CivilOfYear(y: int, doy: nat): Civil
    requires doy <= 365
  {
    var mp := (5 * doy + 2) / 153;
    MonthWithinYear(doy);
    var d: nat := doy - (153 * mp + 2) / 5 + 1;
    var m: nat := if mp < 10 then mp + 3 else mp - 9;
    Civil(if m <= 2 then y + 1 else y, m, d)
  }

  predicate Leap(y: int) {
    y % 4 == 0 && (y % 100 != 0 || y % 400 == 0)
  }

  function MonthLength(y: int, m: nat): nat
    requires 1 <= m <= 12
  {
    if m == 4 || m == 6 || m == 9 || m == 11 then 30
    else if m == 2 then (if Leap(y) then 29 else 28)
    else 31
  }

  predicate ValidCivil(y: int, m: nat, d: nat) {
    1 <= m <= 12 && d != 0 && d <= MonthLength(y, m)
  }

  // ---------------------------------------------------------------- eras

  /** The shifted truncating division is the floor. */
  lemma EraIsFloor(y: int)
    ensures TruncDiv(if y >= 0 then y else y - 399, 400) == y / 400
    ensures 0 <= y - (y / 400) * 400 < 400
  {
    if y < 0 {
      var q := (399 - y) / 400;
      assert 400 * q <= 399 - y < 400 * q + 400;
    }
  }

  lemma EpochIsFloor(z: int)
    ensures TruncDiv(if z >= 0 then z else z - 146096, 146097) == z / 146097
    ensures 0 <= z - (z / 146097) * 146097 < 146097
  {
    if z < 0 {
      var q := (146096 - z) / 146097;
      assert 146097 * q <= 146096 - z < 146097 * q + 146097;
    }
  }

  // ---------------------------------------------------------------- years within an era

  /** Days of an era before its `yoe`-th March-based year. */
  function YearStart(yoe: nat): nat {
    365 * yoe + yoe / 4 - yoe / 100
  }

  /** Length of the March-based year `yoe`: it ends with the February of the next civil year. */
  function YearLength(yoe: nat): nat {
    if Leap(yoe + 1) then 366 else 365
  }

  lemma YearStartSplit(c: nat, q: nat, j: nat)
    requires c < 4 && q < 25 && j < 4
    ensures YearStart(100 * c + 4 * q + j) == 36524 * c + 1461 * q + 365 * j
  {
    var k := 100 * c + 4 * q + j;
    assert k / 4 == 25 * c + q;
    assert k / 100 == c;
  }

  function YearFormula(doe: nat): nat {
    (doe - doe / 1460 + doe / 36524 - doe / 146096) / 365
  }

  /** The correction terms count the centuries. */
  lemma CenturyTerm(c: nat, u: nat)
    requires c < 4 && u <= (if c == 3 then 36524 else 36523)
    ensures (36524 * c + u) / 36524 - (36524 * c + u) / 146096 == c
  {
    var doe := 36524 * c + u;
    if doe == 146096 {
      assert doe / 36524 == 4 && doe / 146096 == 1;
    } else {
      assert doe / 36524 == c && doe / 146096 == 0;
    }
  }

  lemma QuadTerm(c: nat, q: nat, w: nat)
    requires c < 4 && q < 25 && w <= 1460
    ensures (36524 * c + 1461 * q + w) / 1460 == 25 * c + q + (if 24 * c + q + w >= 1460 then 1 else 0)
  {
    var doe := 36524 * c + 1461 * q + w;
    assert doe == 1460 * (25 * c + q) + (24 * c + q + w);
  }

  /** On the r-th day of year `100c + 4q + j` of an era, the formula finds that year. */
  lemma YearFormulaExact(c: nat, q: nat, j: nat, r: nat)
    requires c < 4 && q < 25 && j < 4
    requires r <= 364 || (r == 365 && j == 3 && (q < 24 || c == 3))
    ensures YearFormula(36524 * c + 1461 * q + 365 * j + r) == 100 * c + 4 * q + j
  {
    var w := 365 * j + r;
    CenturyTerm(c, 1461 * q + w);
    QuadTerm(c, q, w);
    var e := if 24 * c + q + w >= 1460 then 1 else 0;
    var doe := 36524 * c + 1461 * q + w;
    assert doe - doe / 1460 + doe / 36524 - doe / 146096 == 365 * (100 * c + 4 * q + j) + (r - e);
    assert 0 <= r - e <= 364;
  }

  /** The year of an era a day falls in. */
  lemma YearWithinEra(doe: nat)
    requires doe < 146097
    ensures 0 <= doe - doe / 1460 + doe / 36524 - doe / 146096
    ensures YearFormula(doe) < 400
      && YearStart(YearFormula(doe)) <= doe < YearStart(YearFormula(doe)) + YearLength(YearFormula(doe))
  {
    var c := if doe == 146096 then 3 else doe / 36524;
    var u := doe - 36524 * c;
    var q := if u == 36524 then 24 else u / 1461;
    var w := u - 1461 * q;
    var j := if w == 1460 then 3 else w / 365;
    var r := w - 365 * j;
    YearFormulaExact(c, q, j, r);
    YearStartSplit(c, q, j);
    LastDay(c, q, j, r);
  }

  lemma LastDay(c: nat, q: nat, j: nat, r: nat)
    requires c < 4 && q < 25 && j < 4
    requires r <= 364 || (r == 365 && j == 3 && (q < 24 || c == 3))
    ensures r < YearLength(100 * c + 4 * q + j)
  {
    if r == 365 {
      var k := 100 * c + 4 * q + 4;
      assert k % 4 == 0;
      if q < 24 {
        assert k % 100 == 4 * q + 4;
      } else {
        assert k == 400;
      }
    }
  }

  // ---------------------------------------------------------------- months within a year

  function MonthStart(mp: nat): nat {
    (153 * mp + 2) / 5
  }

  /** The months of a March-based year, with February last. */
  lemma MonthWithinYear(doy: nat)
    requires doy <= 365
    ensures var mp := (5 * doy + 2) / 153;
      mp < 12 && MonthStart(mp) <= doy < MonthStart(mp + 1)
  {
    var mp := (5 * doy + 2) / 153;
    assert 153 * mp <= 5 * doy + 2 < 153 * mp + 153;
    MonthStarts(mp);
    MonthStarts(mp + 1);
  }

  lemma MonthStarts(mp: nat)
    ensures 153 * mp + 2 - 4 <= 5 * MonthStart(mp) <= 153 * mp + 2
  {
  }

  /** How the civil month of a March-based month is numbered. */
  function CivilMonth(mp: nat): nat
    requires mp < 12
  {
    if mp < 10 then mp + 3 else mp - 9
  }

  /** Month lengths agree with the calendar's, February's with the leap rule. */
  lemma MonthLengths(y: int, mp: nat)
    requires mp < 12
    ensures 1 <= CivilMonth(mp) <= 12 && (CivilMonth(mp) + 9) % 12 == mp
    ensures mp < 11 ==> MonthLength(y, CivilMonth(mp)) == MonthStart(mp + 1) - MonthStart(mp)
    ensures mp == 11 ==> MonthLength(y, CivilMonth(mp)) == (if Leap(y) then 366 else 365) - MonthStart(11)
    ensures MonthStart(12) == 367
  {
    assert MonthStart(0) == 0 && MonthStart(1) == 31 && MonthStart(2) == 61 && MonthStart(3) == 92;
    assert MonthStart(4) == 122 && MonthStart(5) == 153 && MonthStart(6) == 184 && MonthStart(7) == 214;
    assert MonthStart(8) == 245 && MonthStart(9) == 275 && MonthStart(10) == 306 && MonthStart(11) == 337;
  }

  // ---------------------------------------------------------------- March-based coordinates

  /** A date as March-based year and month. */
  function MarchYear(y: int, m: nat): int {
    if m <= 2 then y - 1 else y
  }

  function DayOfYear(m: nat, d: nat): nat
    requires d >= 1
  {
    MonthStart((m + 9) % 12) + d - 1
  }

  /** Days before the March-based year `y`, counted from year 0. */
  function DaysBefore(y: int): int {
    (y / 400) * 146097 + YearStart(y % 400)
  }

  lemma DaysFromMarch(y: int, m: nat, d: nat)
    requires d >= 1
    ensures DaysFromCivil(y, m, d) == DaysBefore(MarchYear(y, m)) + DayOfYear(m, d) - 719468
  {
    EraIsFloor(MarchYear(y, m));
  }

  lemma LeapShift(y: int)
    ensures Leap(y + 1) <==> Leap(y % 400 + 1)
  {
    var era, yoe := y / 400, y % 400;
    assert y + 1 == 400 * era + (yoe + 1);
    EraMod4(era, yoe + 1);
    EraMod100(era, yoe + 1);
    EraMod400(era, yoe + 1);
  }

  lemma EraMod4(era: int, k: int)
    ensures (400 * era + k) % 4 == k % 4
  {
    var q, r := k / 4, k % 4;
    assert 400 * era + k == 4 * (100 * era + q) + r;
  }

  lemma EraMod100(era: int, k: int)
    ensures (400 * era + k) % 100 == k % 100
  {
    var q, r := k / 100, k % 100;
    assert 400 * era + k == 100 * (4 * era + q) + r;
  }

  lemma EraMod400(era: int, k: int)
    ensures (400 * era + k) % 400 == k % 400
  {
    var q, r := k / 400, k % 400;
    assert 400 * era + k == 400 * (era + q) + r;
  }

  /** A valid date's day lies within its March-based year. */
  lemma ValidWithinYear(y: int, m: nat, d: nat)
    requires ValidCivil(y, m, d)
    ensures var mp := (m + 9) % 12;
      mp < 12 && CivilMonth(mp) == m && MonthStart(mp) + d - 1 < MonthStart(mp + 1)
    ensures DayOfYear(m, d) < YearLength(MarchYear(y, m) % 400)
  {
    var mp := (m + 9) % 12;
    MonthLengths(y, mp);
    LeapShift(MarchYear(y, m));
    MonthMonotone(mp + 1, 11);
  }

  lemma {:induction false} MonthMonotone(a: nat, b: nat)
    ensures a <= b ==> MonthStart(a) <= MonthStart(b)
  {
  }

  // ---------------------------------------------------------------- mutual inverses

  /** The pieces the inverse computes from a day number. */
  lemma DayPieces(z: int) returns (y: int, doy: nat, mp: nat)
    ensures mp < 12 && MonthStart(mp) <= doy < MonthStart(mp + 1) && doy < YearLength(y % 400)
    ensures z == DaysBefore(y) + doy - 719468
    ensures CivilFromDays(z) == Civil(if mp < 10 then y else y + 1, CivilMonth(mp), doy - MonthStart(mp) + 1)
  {
    var era, doe := EraPieces(z);
    y, doy := EraYear(era, doe);
    mp := MonthPieces(y, doy);
  }

  lemma EraYear(era: int, doe: nat) returns (y: int, doy: nat)
    requires doe < 146097
    ensures doy < YearLength(y % 400) && doy <= 365 && era * 146097 + doe == DaysBefore(y) + doy
    ensures CivilOfEra(era, doe) == CivilOfYear(y, doy)
  {
    YearWithinEra(doe);
    YearPieces(era, doe);
    var yoe := YearFormula(doe);
    SplitDays(era, yoe);
    y, doy := yoe + era * 400, doe - YearStart(yoe);
  }

  lemma SplitDays(era: int, yoe: nat)
    requires yoe < 400
    ensures DaysBefore(yoe + era * 400) == era * 146097 + YearStart(yoe) && (yoe + era * 400) % 400 == yoe
  {
    SplitYear(era, yoe);
  }

  lemma EraPieces(z: int) returns (era: int, doe: nat)
    ensures doe < 146097 && z == era * 146097 + doe - 719468
    ensures CivilFromDays(z) == CivilOfEra(era, doe)
  {
    var z' := z + 719468;
    EpochIsFloor(z');
    era, doe := z' / 146097, z' - (z' / 146097) * 146097;
  }

  lemma YearPieces(era: int, doe: nat)
    requires doe < 146097
    ensures YearFormula(doe) < 400 && YearStart(YearFormula(doe)) <= doe <= YearStart(YearFormula(doe)) + 365
    ensures CivilOfEra(era, doe) == CivilOfYear(YearFormula(doe) + era * 400, doe - YearStart(YearFormula(doe)))
  {
    YearWithinEra(doe);
  }

  lemma MonthPieces(y: int, doy: nat) returns (mp: nat)
    requires doy <= 365
    ensures mp < 12 && MonthStart(mp) <= doy < MonthStart(mp + 1)
    ensures CivilOfYear(y, doy) == Civil(if mp < 10 then y else y + 1, CivilMonth(mp), doy - MonthStart(mp) + 1)
  {
    MonthWithinYear(doy);
    mp := (5 * doy + 2) / 153;
  }

  lemma SplitYear(era: int, yoe: nat)
    requires yoe < 400
    ensures (yoe + era * 400) / 400 == era && (yoe + era * 400) % 400 == yoe
  {
  }

  /** Every day number names a valid date that has this day number. */
  lemma CivilFromDaysInverts(z: int)
    ensures var c := CivilFromDays(z);
      ValidCivil(c.y, c.m, c.d) && DaysFromCivil(c.y, c.m, c.d) == z
  {
    var y, doy, mp := DayPieces(z);
    MarchDate(y, doy, mp);
  }

  /** The date of a day of the March-based year. */
  lemma MarchDate(y: int, doy: nat, mp: nat)
    requires mp < 12 && MonthStart(mp) <= doy < MonthStart(mp + 1) && doy < YearLength(y % 400)
    ensures var c := Civil(if mp < 10 then y else y + 1, CivilMonth(mp), doy - MonthStart(mp) + 1);
      ValidCivil(c.y, c.m, c.d) && DaysFromCivil(c.y, c.m, c.d) == DaysBefore(y) + doy - 719468
  {
    var c := Civil(if mp < 10 then y else y + 1, CivilMonth(mp), doy - MonthStart(mp) + 1);
    MonthLengths(c.y, mp);
    LeapShift(y);
    DaysFromMarch(c.y, c.m, c.d);
    assert MarchYear(c.y, c.m) == y;
  }

  lemma YearsApart(y: int, doy: nat, y': int, doy': nat)
    requires doy < YearLength(y % 400) && doy' < YearLength(y' % 400) && y < y'
    ensures DaysBefore(y) + doy < DaysBefore(y') + doy'
  {
    DaysBeforeMonotone(y + 1, y');
    NextYear(y);
  }

  /** Consecutive years abut. */
  lemma NextYear(y: int)
    ensures DaysBefore(y + 1) == DaysBefore(y) + YearLength(y % 400)
  {
    var era, yoe := y / 400, y % 400;
    if yoe == 399 {
      assert (y + 1) / 400 == era + 1 && (y + 1) % 400 == 0;
      assert YearStart(399) == 145731 && YearStart(0) == 0 && Leap(400);
    } else {
      assert (y + 1) / 400 == era && (y + 1) % 400 == yoe + 1;
      YearStartNext(yoe);
    }
  }

  lemma YearStartNext(yoe: nat)
    requires yoe < 399
    ensures YearStart(yoe + 1) == YearStart(yoe) + YearLength(yoe)
  {
    var k := yoe + 1;
    assert k / 4 == yoe / 4 + (if k % 4 == 0 then 1 else 0);
    assert k / 100 == yoe / 100 + (if k % 100 == 0 then 1 else 0);
    assert k % 100 == 0 ==> k % 4 == 0;
    assert k % 400 != 0;
  }

  lemma {:induction false} DaysBeforeMonotone(y: int, y': int)
    requires y <= y'
    ensures DaysBefore(y) <= DaysBefore(y')
    decreases y' - y
  {
    if y < y' {
      NextYear(y' - 1);
      DaysBeforeMonotone(y, y' - 1);
    }
  }

  ghost predicate Before(a: Civil, b: Civil) {
    a.y < b.y || (a.y == b.y && (a.m < b.m || (a.m == b.m && a.d < b.d)))
  }

  /** Earlier dates have smaller day numbers. */
  lemma EarlierIsSmaller(a: Civil, b: Civil)
    requires ValidCivil(a.y, a.m, a.d) && ValidCivil(b.y, b.m, b.d) && Before(a, b)
    ensures DaysFromCivil(a.y, a.m, a.d) < DaysFromCivil(b.y, b.m, b.d)
  {
    DaysFromMarch(a.y, a.m, a.d);
    DaysFromMarch(b.y, b.m, b.d);
    ValidWithinYear(a.y, a.m, a.d);
    ValidWithinYear(b.y, b.m, b.d);
    WithinYears(a, b);
    var ya, yb := MarchYear(a.y, a.m), MarchYear(b.y, b.m);
    if ya < yb {
      YearsApart(ya, DayOfYear(a.m, a.d), yb, DayOfYear(b.m, b.d));
    }
  }

  /** Earlier dates lie in an earlier March-based year, or earlier in the same one. */
  lemma WithinYears(a: Civil, b: Civil)
    requires ValidCivil(a.y, a.m, a.d) && ValidCivil(b.y, b.m, b.d) && Before(a, b)
    ensures MarchYear(a.y, a.m) <= MarchYear(b.y, b.m)
    ensures MarchYear(a.y, a.m) == MarchYear(b.y, b.m) ==> DayOfYear(a.m, a.d) < DayOfYear(b.m, b.d)
  {
    var ma, mb := MarchMonth(a.m), MarchMonth(b.m);
    if MarchYear(a.y, a.m) == MarchYear(b.y, b.m) {
      assert ma <= mb;
      if ma < mb {
        ValidWithinYear(a.y, a.m, a.d);
        MonthMonotone(ma + 1, mb);
      }
    }
  }

  function MarchMonth(m: nat): (mp: nat)
    requires 1 <= m <= 12
    ensures mp == (m + 9) % 12 && mp < 12
  {
    if m >= 3 then m - 3 else m + 9
  }

  /** Lexicographic order of valid dates is the order of their day numbers. */
  lemma OrderAgrees(a: Civil, b: Civil)
    requires ValidCivil(a.y, a.m, a.d) && ValidCivil(b.y, b.m, b.d)
    ensures Before(a, b) <==> DaysFromCivil(a.y, a.m, a.d) < DaysFromCivil(b.y, b.m, b.d)
  {
    if Before(a, b) {
      EarlierIsSmaller(a, b);
    } else if a != b {
      EarlierIsSmaller(b, a);
    }
  }

  /** Every valid date is recovered from its day number. */
  lemma DaysFromCivilInverts(y: int, m: nat, d: nat)
    requires ValidCivil(y, m, d)
    ensures CivilFromDays(DaysFromCivil(y, m, d)) == Civil(y, m, d)
  {
    var z := DaysFromCivil(y, m, d);
    CivilFromDaysInverts(z);
    var c := CivilFromDays(z);
    if c != Civil(y, m, d) {
      if Before(c, Civil(y, m, d)) {
        EarlierIsSmaller(c, Civil(y, m, d));
      } else {
        EarlierIsSmaller(Civil(y, m, d), c);
      }
    }
  }

  // ---------------------------------------------------------------- counting days

  function Tomorrow(c: Civil): Civil
    requires ValidCivil(c.y, c.m, c.d)
  {
    if c.d < MonthLength(c.y, c.m) then Civil(c.y, c.m, c.d + 1)
    else if c.m < 12 then Civil(c.y, c.m + 1, 1)
    else Civil(c.y + 1, 1, 1)
  }

  /** No date lies between a date and the next. */
  lemma NothingBetween(c: Civil, other: Civil)
    requires ValidCivil(c.y, c.m, c.d) && ValidCivil(other.y, other.m, other.d) && Before(c, other)
    ensures ValidCivil(Tomorrow(c).y, Tomorrow(c).m, Tomorrow(c).d) && Before(c, Tomorrow(c))
    ensures !Before(other, Tomorrow(c))
  {
  }

  lemma TomorrowValid(c: Civil)
    requires ValidCivil(c.y, c.m, c.d)
    ensures var t := Tomorrow(c); ValidCivil(t.y, t.m, t.d) && Before(c, t)
  {
  }

  lemma Epoch()
    ensures DaysFromCivil(1970, 1, 1) == 0
  {
  }

  function DayOf(c: Civil): int
    requires ValidCivil(c.y, c.m, c.d)
  {
    DaysFromCivil(c.y, c.m, c.d)
  }

  lemma DayAfter(c: Civil) returns (next: Civil)
    requires ValidCivil(c.y, c.m, c.d)
    ensures ValidCivil(next.y, next.m, next.d) && DayOf(next) == DayOf(c) + 1
  {
    CivilFromDaysInverts(DayOf(c) + 1);
    next := CivilFromDays(DayOf(c) + 1);
  }

  lemma DaysInOrder(a: Civil, b: Civil)
    requires ValidCivil(a.y, a.m, a.d) && ValidCivil(b.y, b.m, b.d)
    ensures Before(a, b) <==> DayOf(a) < DayOf(b)
  {
    OrderAgrees(a, b);
  }

  /** Day numbers count the days of the calendar from 1970-01-01 on. */
  lemma DaysAreCounted(c: Civil)
    requires ValidCivil(c.y, c.m, c.d)
    ensures DayOf(Civil(1970, 1, 1)) == 0
    ensures var t := Tomorrow(c); ValidCivil(t.y, t.m, t.d) && DayOf(t) == DayOf(c) + 1
  {
    Epoch();
    var next := DayAfter(c);
    TomorrowValid(c);
    DaysInOrder(c, next);
    DaysInOrder(c, Tomorrow(c));
    NothingBetween(c, next);
    DaysInOrder(next, Tomorrow(c));
  }
}
