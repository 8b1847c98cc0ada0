/** The calendar arithmetic of the clock chip's driver: days since 1970 for a
    proleptic Gregorian date and back, and the BCD registers. */
module Calendar {
  import opened Words

  datatype Date = Date(y: int, m: int, d: int)

  /** Division as C does it for a positive divisor: toward zero. */
  function CDiv(a: int, b: int): int
    requires b > 0
  {
    if a >= 0 then a / b else -((-a) / b)
  }

  predicate Leap(y: int) { (y % 4 == 0 && y % 100 != 0) || y % 400 == 0 }

  const MONTH_DAYS := [31, 28, 31, 30, 31, 30, 31, 31, 30, 31, 30, 31]

  function DaysInMonth(y: int, m: int): (n: int)
    requires 1 <= m <= 12
    ensures 28 <= n <= 31
  {
    if m == 2 && Leap(y) then 29 else MONTH_DAYS[m - 1]
  }

  predicate ValidDate(a: Date) { 1 <= a.m <= 12 && 1 <= a.d <= DaysInMonth(a.y, a.m) }

  // ---- the firmware's formulas -------------------------------------------

  /** rtcDaysFromCivil; the unsigned subexpressions wrap. */
  function DaysFromCivil(a: Date): int {
    var y := a.y - (if a.m <= 2 then 1 else 0);
    var era := CDiv(if y >= 0 then y else y - 399, 400);
    var yoe := Wrap(y - era * 400);
    var doy := Wrap(Wrap(153 * Wrap(a.m + Wrap(if a.m > 2 then -3 else 9)) + 2) / 5 + a.d - 1);
    var doe := Wrap(yoe * 365 + yoe / 4 - yoe / 100 + doy);
    era * 146097 + doe - 719468
  }

  /** rtcCivilFromDays: split off the era. */
  function CivilFromDays(days: int): Date {
    var z := days + 719468;
    var era := CDiv(if z >= 0 then z else z - 146096, 146097);
    CivilFromEra(era, Wrap(z - era * 146097))
  }

  /** Days of an era without the leap days before them. */
  function Unleaped(doe: int): int { doe - doe / 1460 + doe / 36524 - doe / 146096 }

  /** Its second half: the date of day doe of an era. */
  function CivilFromEra(era: int, doe: u32): Date {
    var yoe := Wrap(Unleaped(doe)) / 365;
    CivilFromYear(yoe + era * 400, Wrap(doe - (365 * yoe + yoe / 4 - yoe / 100)))
  }

  /** And the date of day doy of the year that begins in March of y. */
  function CivilFromYear(y: int, doy: u32): Date {
    var mp := Wrap(5 * doy + 2) / 153;
    var d := Wrap(doy - Wrap(153 * mp + 2) / 5 + 1);
    var m := if mp < 10 then mp + 3 else mp - 9;
    Date(y + (if m <= 2 then 1 else 0), m, d)
  }

  // ---- plain day counting ------------------------------------------------

  /** The day after. */
  function Tomorrow(a: Date): (b: Date)
    requires ValidDate(a)
    ensures ValidDate(b)
  {
    if a.d < DaysInMonth(a.y, a.m) then Date(a.y, a.m, a.d + 1)
    else if a.m < 12 then Date(a.y, a.m + 1, 1)
    else Date(a.y + 1, 1, 1)
  }

  // ---- years of 400-year eras, beginning in March ------------------------

  /** Days before year y counted from March. */
  function YearStart(y: int): int { 365 * y + y / 4 - y / 100 + y / 400 }

  /** Days before year yoe of an era. */
  function EraYear(yoe: int): int { 365 * yoe + yoe / 4 - yoe / 100 }

  /** Days before month mp counted from March. */
  function MonthStart(mp: int): int { (153 * mp + 2) / 5 }

  /** The truncating division of the code is the floor. */
  lemma EraIsFloor(x: int, n: int)
    requires n > 0 && (n == 400 || n == 146097)
    ensures CDiv(if x >= 0 then x else x - (n - 1), n) == x / n
  {
  }

  lemma EraSplit(y: int)
    ensures y / 400 * 146097 + EraYear(y % 400) == YearStart(y)
  {
    var e, r := y / 400, y % 400;
    assert y == 400 * e + r;
    assert y / 4 == 100 * e + r / 4;
    assert y / 100 == 4 * e + r / 100;
  }

  /** Date a in the March calendar: its year and month, and days before. */
  function MarchYear(a: Date): int { if a.m <= 2 then a.y - 1 else a.y }

  function MarchMonth(m: int): int { if m <= 2 then m + 9 else m - 3 }

  lemma MonthTable(m: int)
    requires 1 <= m <= 12
    ensures 0 <= MarchMonth(m) <= 11
    ensures MonthStart(MarchMonth(m)) ==
            if m == 3 then 0 else if m == 4 then 31 else if m == 5 then 61 else if m == 6 then 92
            else if m == 7 then 122 else if m == 8 then 153 else if m == 9 then 184 else if m == 10 then 214
            else if m == 11 then 245 else if m == 12 then 275 else if m == 1 then 306 else 337
  {
  }

  lemma YearRange(yoe: int)
    requires 0 <= yoe < 400
    ensures 0 <= EraYear(yoe) <= 145731
  {
  }

  /** The unsigned month arithmetic, whose -3 wraps round. */
  lemma MonthWraps(m: int, d: int)
    requires 1 <= m <= 12 && 1 <= d <= 31
    ensures Wrap(Wrap(153 * Wrap(m + Wrap(if m > 2 then -3 else 9)) + 2) / 5 + d - 1) ==
            MonthStart(MarchMonth(m)) + d - 1
  {
    assert Wrap(-3) == U32 - 3;
    assert Wrap(m + Wrap(if m > 2 then -3 else 9)) == MarchMonth(m);
    WrapFits(153 * MarchMonth(m) + 2);
    MonthTable(m);
    WrapFits(MonthStart(MarchMonth(m)) + d - 1);
  }

  /** Without wraps and signs, DaysFromCivil is a sum of three day counts. */
  lemma DaysOf(a: Date)
    requires ValidDate(a)
    ensures DaysFromCivil(a) == YearStart(MarchYear(a)) + MonthStart(MarchMonth(a.m)) + a.d - 1 - 719468
  {
    hide Wrap, YearStart, MonthStart, CDiv;
    var y := MarchYear(a);
    EraIsFloor(y, 400);
    EraSplit(y);
    YearRange(y % 400);
    MonthTable(a.m);
    MonthWraps(a.m, a.d);
    WrapFits(y % 400);
    WrapFits(EraYear(y % 400) + MonthStart(MarchMonth(a.m)) + a.d - 1);
    assert y - y / 400 * 400 == y % 400;
  }

  lemma YearLength(y: int)
    ensures YearStart(y + 1) == YearStart(y) + if Leap(y + 1) then 366 else 365
  {
    Carry(y, 4);
    Carry(y, 100);
    Carry(y, 400);
    Nested(y + 1);
  }

  lemma Hundreds(q: int)
    ensures 100 * q % 100 == 0
  {
  }

  lemma Fours(q: int)
    ensures 4 * q % 4 == 0
  {
  }

  lemma Nested(y: int)
    ensures y % 400 == 0 ==> y % 100 == 0
    ensures y % 100 == 0 ==> y % 4 == 0
  {
    Hundreds(4 * (y / 400));
    Fours(25 * (y / 100));
  }

  lemma Carry(y: int, n: int)
    requires n == 4 || n == 100 || n == 400
    ensures (y + 1) / n == y / n + if (y + 1) % n == 0 then 1 else 0
  {
  }

  /** The day count grows by one from each day to the next. */
  lemma TomorrowIsNext(a: Date)
    requires ValidDate(a)
    ensures DaysFromCivil(Tomorrow(a)) == DaysFromCivil(a) + 1
  {
    hide YearStart, MonthStart, DaysFromCivil;
    var b := Tomorrow(a);
    DaysOf(a);
    DaysOf(b);
    MonthTable(a.m);
    MonthTable(b.m);
    YearLength(MarchYear(a));
  }

  lemma Epoch()
    ensures DaysFromCivil(Date(1970, 1, 1)) == 0
  {
    hide DaysFromCivil;
    DaysOf(Date(1970, 1, 1));
  }

  // ---- back from days ----------------------------------------------------

  /** doe lies in year yoe of an era; the last year has the 400-year day. */
  predicate InYear(doe: int, yoe: int) {
    0 <= yoe < 400 && EraYear(yoe) <= doe < EraYear(yoe + 1) + (if yoe == 399 then 1 else 0)
  }

  lemma Div1460(c: int, q: int, t: int)
    requires 0 <= c <= 3 && 0 <= q <= 24 && 0 <= t <= 1460
    ensures (36524 * c + 1461 * q + t) / 1460 == 25 * c + q + if t + 24 * c + q >= 1460 then 1 else 0
  {
    assert 36524 * c + 1461 * q + t == 1460 * (25 * c + q) + (24 * c + q + t);
  }

  lemma Div365(y: int, x: int)
    requires 365 * y <= x <= 365 * y + 364
    ensures x / 365 == y
  {
  }

  /** The corrections in the year formula cancel the leap days exactly. */
  lemma YearFound(doe: int)
    requires 0 <= doe < 146097
    ensures var n := doe - doe / 1460 + doe / 36524 - doe / 146096;
            0 <= n && InYear(doe, n / 365)
  {
    hide EraYear;
    if doe == 146096 {
      YearFoundLast();
    } else {
      var c, q, t, k := EraParts(doe);
      YearFoundIn(c, q, t, k);
      CenturyYear(c, q, k);
    }
  }

  /** Century, four years in it, day of those and year in those. */
  lemma EraParts(doe: int) returns (c: int, q: int, t: int, k: int)
    requires 0 <= doe < 146096
    ensures 0 <= c <= 3 && 0 <= q <= 24 && 0 <= t <= 1460 && k == (if t >= 1095 then 3 else t / 365)
    ensures doe == 36524 * c + 1461 * q + t && 1461 * q + t < 36524
    ensures c == doe / 36524 && doe / 146096 == 0
  {
    c := doe / 36524;
    var r := doe - 36524 * c;
    q := r / 1461;
    t := r - 1461 * q;
    k := if t >= 1095 then 3 else t / 365;
  }

  /** Day t of the q-th four years of century c lies in its k-th year. */
  lemma YearFoundIn(c: int, q: int, t: int, k: int)
    requires 0 <= c <= 3 && 0 <= q <= 24 && 0 <= t <= 1460 && k == (if t >= 1095 then 3 else t / 365)
    requires 1461 * q + t < 36524
    ensures var doe := 36524 * c + 1461 * q + t;
            doe - doe / 1460 + c >= 0 && (doe - doe / 1460 + c) / 365 == 100 * c + 4 * q + k
  {
    var e := if t + 24 * c + q >= 1460 then 1 else 0;
    Div1460(c, q, t);
    Div365(100 * c + 4 * q + k, 36524 * c + 1461 * q + t - (25 * c + q + e) + c);
  }

  lemma YearFoundLast()
    ensures InYear(146096, 399)
  {
  }

  lemma CenturyYear(c: int, q: int, k: int)
    requires 0 <= c <= 3 && 0 <= q <= 24 && 0 <= k <= 3
    ensures EraYear(100 * c + 4 * q + k) == 36524 * c + 1461 * q + 365 * k
    ensures EraYear(100 * c + 4 * q + k + 1) ==
            36524 * c + 1461 * q + 365 * (k + 1) + (if k == 3 && q < 24 then 1 else 0)
  {
  }

  /** The month formula inverts the month table. */
  lemma MonthFound(doy: int)
    requires 0 <= doy <= 365
    ensures var mp := (5 * doy + 2) / 153;
            0 <= mp <= 11 && MonthStart(mp) <= doy && (mp < 11 ==> doy < MonthStart(mp + 1))
  {
  }

  function CivilMonth(mp: int): int { if mp < 10 then mp + 3 else mp - 9 }

  // The steps of CivilFromDays over floors, from the day of the era on.

  function YearOf(doe: int): int { Unleaped(doe) / 365 }

  function DayOfYear(doe: int): int { doe - EraYear(YearOf(doe)) }

  function MonthOf(doy: int): int { (5 * doy + 2) / 153 }

  function CivilInEra(era: int, doe: int): Date { CivilInYear(YearOf(doe) + era * 400, DayOfYear(doe)) }

  function CivilInYear(y: int, doy: int): Date {
    var m := CivilMonth(MonthOf(doy));
    Date(y + (if m <= 2 then 1 else 0), m, doy - MonthStart(MonthOf(doy)) + 1)
  }

  /** The steps stay in range, so nothing wraps. */
  lemma StepsInRange(doe: int)
    requires 0 <= doe < 146097
    ensures InYear(doe, YearOf(doe)) && 0 <= DayOfYear(doe) <= 365
    ensures DayOfYear(doe) == 365 ==> Leap(YearOf(doe) + 1)
    ensures var doy := DayOfYear(doe);
            var mp := MonthOf(doy);
            0 <= mp <= 11 && MonthStart(mp) <= doy && (mp < 11 ==> doy < MonthStart(mp + 1))
  {
    hide EraYear, MonthStart;
    YearFound(doe);
    YearSpan(doe, YearOf(doe));
    MonthFound(DayOfYear(doe));
  }

  lemma UnleapedFits(doe: int)
    requires 0 <= doe < 146097
    ensures 0 <= Unleaped(doe) < U32
  {
  }

  lemma MonthFits(doy: int)
    requires 0 <= doy <= 365 && MonthStart(MonthOf(doy)) <= doy
    ensures Wrap(5 * doy + 2) == 5 * doy + 2
    ensures Wrap(153 * MonthOf(doy) + 2) == 153 * MonthOf(doy) + 2
    ensures Wrap(doy - MonthStart(MonthOf(doy)) + 1) == doy - MonthStart(MonthOf(doy)) + 1
  {
    hide Wrap;
    WrapFits(5 * doy + 2);
    WrapFits(153 * MonthOf(doy) + 2);
    WrapFits(doy - MonthStart(MonthOf(doy)) + 1);
  }

  lemma YearCivilOf(y: int, doy: int)
    requires 0 <= doy <= 365 && MonthStart(MonthOf(doy)) <= doy
    ensures CivilFromYear(y, doy) == CivilInYear(y, doy)
  {
    hide Wrap;
    MonthFits(doy);
  }

  lemma EraCivilOf(era: int, doe: int)
    requires 0 <= doe < 146097
    ensures CivilFromEra(era, doe) == CivilInEra(era, doe)
  {
    hide Wrap, InYear, Leap, Unleaped, CivilFromYear, CivilInYear, MonthOf, MonthStart;
    StepsInRange(doe);
    UnleapedFits(doe);
    WrapFits(Unleaped(doe));
    var doy := DayOfYear(doe);
    WrapFits(doy);
    YearCivilOf(YearOf(doe) + era * 400, doy);
  }

  lemma CivilOf(days: int)
    ensures var z := days + 719468; CivilFromDays(days) == CivilInEra(z / 146097, z % 146097)
  {
    hide CDiv, Wrap, CivilFromEra, CivilInEra;
    var z := days + 719468;
    EraIsFloor(z, 146097);
    assert z - z / 146097 * 146097 == z % 146097;
    WrapFits(z % 146097);
    EraCivilOf(z / 146097, z % 146097);
  }

  lemma YearSpan(doe: int, yoe: int)
    requires InYear(doe, yoe)
    ensures 0 <= doe - EraYear(yoe) <= 365
    ensures doe - EraYear(yoe) == 365 ==> Leap(yoe + 1)
  {
  }

  lemma ShiftMod(x: int, k: int, n: int)
    requires n == 4 || n == 100 || n == 400
    ensures (x + n * k) % n == x % n && (x + n * k) / n == x / n + k
  {
    if n == 4 { assert (x + 4 * k) / 4 == x / 4 + k; }
    else if n == 100 { assert (x + 100 * k) / 100 == x / 100 + k; }
    else { assert (x + 400 * k) / 400 == x / 400 + k; }
  }

  lemma LeapInEra(yoe: int, era: int)
    ensures Leap(yoe + era * 400) == Leap(yoe)
  {
    ShiftMod(yoe, 100 * era, 4);
    ShiftMod(yoe, 4 * era, 100);
    ShiftMod(yoe, era, 400);
  }

  /** Every day has a valid date, and counting its days gives the day back. */
  lemma CivilThenDays(days: int)
    ensures ValidDate(CivilFromDays(days)) && DaysFromCivil(CivilFromDays(days)) == days
  {
    hide CivilFromDays, DaysFromCivil, YearStart, EraYear, MonthStart, MonthOf, YearOf, InYear, Leap, DaysInMonth;
    CivilOf(days);
    var z := days + 719468;
    var era, doe := z / 146097, z % 146097;
    var yoe, doy := YearOf(doe), DayOfYear(doe);
    StepsInRange(doe);
    InYearRange(doe, yoe);
    var a := CivilInEra(era, doe);
    LeapInEra(yoe + 1, era);
    DayInMonth(a.y, MonthOf(doy), doy);
    DaysOf(a);
    ShiftMod(yoe, era, 400);
    EraSplit(yoe + era * 400);
    assert DayOfYear(doe) == doe - EraYear(yoe);
  }

  lemma InYearRange(doe: int, yoe: int)
    requires InYear(doe, yoe)
    ensures 0 <= yoe < 400 && yoe % 400 == yoe && yoe / 400 == 0
  {
  }

  lemma DayInMonth(y: int, mp: int, doy: int)
    requires 0 <= mp <= 11 && MonthStart(mp) <= doy <= 365 && (mp < 11 ==> doy < MonthStart(mp + 1))
    requires mp == 11 && doy == 365 ==> Leap(y)
    ensures 1 <= doy - MonthStart(mp) + 1 <= DaysInMonth(y, CivilMonth(mp))
  {
    MonthTable(CivilMonth(mp));
    if mp < 11 { MonthTable(CivilMonth(mp + 1)); }
  }

  // ---- and forth again ---------------------------------------------------

  lemma EraYearGrows(i: int, j: int)
    requires 0 <= i <= j
    ensures EraYear(i) + 365 * (j - i) <= EraYear(j)
    decreases j
  {
    hide EraYear;
    if i < j {
      EraYearGrows(i, j - 1);
      EraYearNext(j - 1);
    }
  }

  lemma EraYearNext(y: int)
    ensures EraYear(y + 1) == EraYear(y) + 365
            + (if (y + 1) % 4 == 0 then 1 else 0) - (if (y + 1) % 100 == 0 then 1 else 0)
  {
    Carry(y, 4);
    Carry(y, 100);
  }

  /** A day of an era lies in one year only. */
  lemma OneYear(doe: int, i: int, j: int)
    requires InYear(doe, i) && InYear(doe, j)
    ensures i == j
  {
    hide EraYear;
    if i < j { EraYearGrows(i + 1, j); }
    if j < i { EraYearGrows(j + 1, i); }
  }

  lemma MonthGrows(i: int, j: int)
    requires 0 <= i < j <= 11
    ensures MonthStart(i + 1) <= MonthStart(j)
  {
  }

  /** A date's day of the March year, and where that year lies in its era. */
  lemma DateInYear(a: Date)
    requires ValidDate(a)
    ensures var mp, doy := MarchMonth(a.m), MonthStart(MarchMonth(a.m)) + a.d - 1;
            && 0 <= mp <= 11 && MonthStart(mp) <= doy <= 365 && (mp < 11 ==> doy < MonthStart(mp + 1))
            && CivilMonth(mp) == a.m
            && InYear(EraYear(MarchYear(a) % 400) + doy, MarchYear(a) % 400)
            && 0 <= EraYear(MarchYear(a) % 400) + doy < 146097
  {
    hide EraYear, MonthStart, DaysInMonth, Leap;
    DateInMonths(a);
    var y := MarchYear(a);
    LeapInEra(y % 400 + 1, y / 400);
    assert y + 1 == y % 400 + 1 + y / 400 * 400;
    EraYearStep(y % 400);
    YearRange(y % 400);
  }

  lemma DateInMonths(a: Date)
    requires ValidDate(a)
    ensures var mp, doy := MarchMonth(a.m), MonthStart(MarchMonth(a.m)) + a.d - 1;
            && 0 <= mp <= 11 && 0 <= MonthStart(mp) <= doy <= 365 && (mp < 11 ==> doy < MonthStart(mp + 1))
            && CivilMonth(mp) == a.m && (doy == 365 ==> Leap(MarchYear(a) + 1))
  {
    hide MonthStart, Leap;
    MonthTable(a.m);
    if MarchMonth(a.m) < 11 { MonthTable(CivilMonth(MarchMonth(a.m) + 1)); }
  }

  lemma EraYearStep(yoe: int)
    requires 0 <= yoe < 400
    ensures EraYear(yoe + 1) + (if yoe == 399 then 1 else 0) == EraYear(yoe) + if Leap(yoe + 1) then 366 else 365
  {
    hide EraYear;
    EraYearNext(yoe);
  }

  /** Every valid date is the date of its day count. */
  lemma DaysThenCivil(a: Date)
    requires ValidDate(a)
    ensures CivilFromDays(DaysFromCivil(a)) == a
  {
    hide CivilFromDays, DaysFromCivil, YearStart, EraYear, MonthStart, MonthOf, YearOf, InYear, Leap, DaysInMonth;
    var y := MarchYear(a);
    var era, yoe := y / 400, y % 400;
    var doy := MonthStart(MarchMonth(a.m)) + a.d - 1;
    var doe := EraYear(yoe) + doy;
    var days := DaysFromCivil(a);
    DaysOf(a);
    EraSplit(y);
    DateInYear(a);
    assert (days + 719468) / 146097 == era && (days + 719468) % 146097 == doe by {
      assert days + 719468 == era * 146097 + doe;
    }
    CivilOf(days);
    StepsInRange(doe);
    OneYear(doe, yoe, YearOf(doe));
    assert DayOfYear(doe) == doy;
    var i, j := MarchMonth(a.m), MonthOf(doy);
    if i < j { MonthGrows(i, j); }
    if j < i { MonthGrows(j, i); }
  }

  /** The date of the next day is tomorrow's date. */
  lemma NextDayIsTomorrow(days: int)
    ensures ValidDate(CivilFromDays(days)) && CivilFromDays(days + 1) == Tomorrow(CivilFromDays(days))
  {
    CivilThenDays(days);
    var a := CivilFromDays(days);
    TomorrowIsNext(a);
    DaysThenCivil(Tomorrow(a));
  }

  // ---- the clock chip's registers ----------------------------------------

  datatype RtcResult = RtcOk(epochS: int) | VoltageLow | BadField | BadCentury | TooEarly

  /** rtcBcd: -1 unless both nibbles are decimal digits. */
  function Bcd(b: u8): int {
    if b / 16 > 9 || b % 16 > 9 then -1 else b / 16 * 10 + b % 16
  }

  /** rtcToBcd for two-digit values: the nibbles do not overlap. */
  function ToBcd(v: int): u8
    requires 0 <= v <= 99
  {
    v / 10 * 16 + v % 10
  }

  lemma BcdRoundTrip(v: int)
    requires 0 <= v <= 99
    ensures Bcd(ToBcd(v)) == v && (v <= 79 ==> ToBcd(v) < 128) && (v <= 39 ==> ToBcd(v) < 64)
            && (v <= 19 ==> ToBcd(v) < 32)
  {
  }

  predicate FieldsOk(s: int, mi: int, h: int, d: int, mo: int, yy: int) {
    && 0 <= s <= 59 && 0 <= mi <= 59 && 0 <= h <= 23 && yy >= 0
    && ValidDate(Date(2000 + yy, mo, d))
  }

  /** rtcDecode of the seven registers. A clock that lost power is rejected
      before anything else is looked at. */
  function Decode(r: seq<u8>, minYear: int): RtcResult
    requires |r| == 7
  {
    if r[0] >= 0x80 then VoltageLow
    else if r[5] >= 0x80 then BadCentury
    else
      var s, mi, h := Bcd(r[0] % 0x80), Bcd(r[1] % 0x80), Bcd(r[2] % 0x40);
      var d, mo, yy := Bcd(r[3] % 0x40), Bcd(r[5] % 0x20), Bcd(r[6]);
      if !FieldsOk(s, mi, h, d, mo, yy) then BadField
      else if 2000 + yy < minYear then TooEarly
      else RtcOk(DaysFromCivil(Date(2000 + yy, mo, d)) * 86400 + h * 3600 + mi * 60 + s)
  }

  /** The register b, flags and unused bits taken off, spells the value v. */
  predicate Spells(b: int, v: int) { 0 <= v <= 99 && b == 16 * (v / 10) + v % 10 }

  /** The registers show second sod of the day a of this century. */
  predicate Shows(r: seq<u8>, a: Date, sod: int)
    requires |r| == 7
  {
    && ValidDate(a) && 0 <= sod < 86400
    && Spells(r[0] % 0x80, sod % 60) && Spells(r[1] % 0x80, sod / 60 % 60) && Spells(r[2] % 0x40, sod / 3600)
    && Spells(r[3] % 0x40, a.d) && Spells(r[5] % 0x20, a.m) && Spells(r[6], a.y - 2000)
  }

  lemma BcdSpells(b: u8, v: int)
    ensures Spells(b, v) <==> v >= 0 && Bcd(b) == v
  {
  }

  lemma SodParts(h: int, mi: int, s: int)
    requires 0 <= s <= 59 && 0 <= mi <= 59 && 0 <= h <= 23
    ensures var sod := h * 3600 + mi * 60 + s;
            0 <= sod < 86400 && sod % 60 == s && sod / 60 % 60 == mi && sod / 3600 == h
  {
    assert (h * 3600 + mi * 60 + s) / 60 == 60 * h + mi;
  }

  /** What the six fields spell. */
  lemma ShowsFields(r: seq<u8>, a: Date, sod: int)
    requires |r| == 7 && 0 <= sod < 86400
    ensures Shows(r, a, sod) <==>
            && ValidDate(a) && a.y >= 2000
            && Bcd(r[0] % 0x80) == sod % 60 && Bcd(r[1] % 0x80) == sod / 60 % 60 && Bcd(r[2] % 0x40) == sod / 3600
            && Bcd(r[3] % 0x40) == a.d && Bcd(r[5] % 0x20) == a.m && Bcd(r[6]) == a.y - 2000
  {
    hide Spells, Bcd, DaysInMonth;
    BcdSpells(r[0] % 0x80, sod % 60);
    BcdSpells(r[1] % 0x80, sod / 60 % 60);
    BcdSpells(r[2] % 0x40, sod / 3600);
    BcdSpells(r[3] % 0x40, a.d);
    BcdSpells(r[5] % 0x20, a.m);
    BcdSpells(r[6], a.y - 2000);
  }

  /** The time that the registers show, if they show one. */
  lemma TimeShown(r: seq<u8>) returns (shown: bool, a: Date, sod: int)
    requires |r| == 7
    ensures shown ==> Shows(r, a, sod)
    ensures forall b, t :: Shows(r, b, t) ==> shown && b == a && t == sod
    ensures shown == FieldsOk(Bcd(r[0] % 0x80), Bcd(r[1] % 0x80), Bcd(r[2] % 0x40),
                              Bcd(r[3] % 0x40), Bcd(r[5] % 0x20), Bcd(r[6]))
    ensures a == Date(2000 + Bcd(r[6]), Bcd(r[5] % 0x20), Bcd(r[3] % 0x40))
    ensures sod == Bcd(r[2] % 0x40) * 3600 + Bcd(r[1] % 0x80) * 60 + Bcd(r[0] % 0x80)
  {
    hide Bcd, Shows, DaysInMonth;
    var s, mi, h := Bcd(r[0] % 0x80), Bcd(r[1] % 0x80), Bcd(r[2] % 0x40);
    var d, mo, yy := Bcd(r[3] % 0x40), Bcd(r[5] % 0x20), Bcd(r[6]);
    shown := FieldsOk(s, mi, h, d, mo, yy);
    a, sod := Date(2000 + yy, mo, d), h * 3600 + mi * 60 + s;
    if shown {
      SodParts(h, mi, s);
      ShowsFields(r, a, sod);
    }
    forall b, t | Shows(r, b, t) ensures shown && b == a && t == sod {
      ShownInDay(r, b, t);
      ShowsFields(r, b, t);
      SecondOfDay(t);
    }
  }

  lemma ShownInDay(r: seq<u8>, a: Date, sod: int)
    requires |r| == 7 && Shows(r, a, sod)
    ensures 0 <= sod < 86400
  {
  }

  /** The answer to any seven bytes: no time from a clock that lost power, or
      with the century bit; otherwise the second that the registers show, if
      they show one and it is not before minYear. */
  lemma DecodeMeans(r: seq<u8>, minYear: int)
    requires |r| == 7
    ensures Decode(r, minYear) == VoltageLow <==> r[0] / 0x80 == 1
    ensures Decode(r, minYear) == BadCentury <==> r[0] / 0x80 == 0 && r[5] / 0x80 == 1
    ensures forall epochS :: Decode(r, minYear) == RtcOk(epochS) <==>
              r[0] / 0x80 == 0 && r[5] / 0x80 == 0
              && exists a, sod :: Shows(r, a, sod) && a.y >= minYear && epochS == DaysFromCivil(a) * 86400 + sod
    ensures Decode(r, minYear) == TooEarly <==>
            r[0] / 0x80 == 0 && r[5] / 0x80 == 0 && exists a, sod :: Shows(r, a, sod) && a.y < minYear
    ensures Decode(r, minYear) == BadField <==>
            r[0] / 0x80 == 0 && r[5] / 0x80 == 0 && forall a, sod :: !Shows(r, a, sod)
  {
    hide Shows, Bcd, DaysFromCivil, FieldsOk;
    var shown, a, sod := TimeShown(r);
  }

  /** The weekday register: 2000-01-01 was a Saturday, and each day it moves on
      by one of seven. */
  lemma WeekdayIs(epochS: int)
    requires 946684800 <= epochS < 4102444800
    ensures 2000 <= CivilFromDays(epochS / 86400).y <= 2099
    ensures epochS < 946684800 + 86400 ==> Registers(epochS)[4] == 6
    ensures epochS >= 946684800 + 86400 ==>
              && 2000 <= CivilFromDays((epochS - 86400) / 86400).y <= 2099
              && Registers(epochS)[4] == (Registers(epochS - 86400)[4] + 1) % 7
  {
    hide CivilFromDays, Registers;
    SettableSeconds(epochS);
    WeekdayRegister(epochS);
    if epochS >= 946684800 + 86400 {
      SettableSeconds(epochS - 86400);
      WeekdayRegister(epochS - 86400);
      NextWeekday(epochS / 86400 - 1);
    }
  }

  lemma WeekdayRegister(epochS: int)
    requires epochS >= 0 && 2000 <= CivilFromDays(epochS / 86400).y <= 2099
    ensures Registers(epochS)[4] == (epochS / 86400 + 4) % 7
  {
    hide CivilFromDays, ToBcd;
  }

  lemma NextWeekday(days: int)
    ensures (days + 1 + 4) % 7 == ((days + 4) % 7 + 1) % 7
  {
  }

  /** rtcEncode: the registers of a second, in an array the caller passes. */
  method Encode(epochS: int, r: array<u8>) returns (ok: bool)
    requires r.Length == 7
    modifies r
    ensures ok == (epochS >= 0 && 2000 <= CivilFromDays(epochS / 86400).y <= 2099)
    ensures ok ==> r[..] == Registers(epochS)
    ensures !ok ==> r[..] == old(r[..])
  {
    hide CivilFromDays, DaysFromCivil;
    if epochS < 0 { return false; }
    var days, sod := epochS / 86400, epochS % 86400;
    var a := CivilFromDays(days);
    CivilThenDays(days);
    if a.y < 2000 || a.y > 2099 { return false; }
    r[0] := ToBcd(sod % 60);
    r[1] := ToBcd(sod / 60 % 60);
    r[2] := ToBcd(sod / 3600);
    r[3] := ToBcd(a.d);
    r[4] := (days + 4) % 7;
    r[5] := ToBcd(a.m);
    r[6] := ToBcd(a.y - 2000);
    ok := true;
  }

  function Registers(epochS: int): (r: seq<u8>)
    requires epochS >= 0 && 2000 <= CivilFromDays(epochS / 86400).y <= 2099
    ensures |r| == 7
  {
    var days, sod := epochS / 86400, epochS % 86400;
    CivilThenDays(days);
    var a := CivilFromDays(days);
    [ToBcd(sod % 60), ToBcd(sod / 60 % 60), ToBcd(sod / 3600), ToBcd(a.d), (days + 4) % 7, ToBcd(a.m),
     ToBcd(a.y - 2000)]
  }

  /** Setting the clock and reading it gives the second back. */
  lemma ClockRoundTrip(epochS: int, minYear: int)
    requires epochS >= 0 && minYear <= CivilFromDays(epochS / 86400).y
             && 2000 <= CivilFromDays(epochS / 86400).y <= 2099
    ensures Decode(Registers(epochS), minYear) == RtcOk(epochS)
  {
    hide CivilFromDays, DaysFromCivil, ToBcd, Decode;
    var days, sod := epochS / 86400, epochS % 86400;
    CivilThenDays(days);
    FieldsRoundTrip(CivilFromDays(days), sod, (days + 4) % 7, minYear);
  }

  /** The registers of a date and a second of the day are read back. */
  lemma FieldsRoundTrip(a: Date, sod: int, weekday: u8, minYear: int)
    requires ValidDate(a) && minYear <= a.y && 2000 <= a.y <= 2099 && 0 <= sod < 86400
    ensures Decode([ToBcd(sod % 60), ToBcd(sod / 60 % 60), ToBcd(sod / 3600), ToBcd(a.d), weekday, ToBcd(a.m),
                    ToBcd(a.y - 2000)], minYear) == RtcOk(DaysFromCivil(a) * 86400 + sod)
  {
    hide DaysFromCivil, ToBcd, Bcd;
    SecondOfDay(sod);
    BcdRoundTrip(sod % 60);
    BcdRoundTrip(sod / 60 % 60);
    BcdRoundTrip(sod / 3600);
    BcdRoundTrip(a.d);
    BcdRoundTrip(a.m);
    BcdRoundTrip(a.y - 2000);
  }

  lemma SecondOfDay(sod: int)
    requires 0 <= sod < 86400
    ensures sod / 3600 * 3600 + sod / 60 % 60 * 60 + sod % 60 == sod && 0 <= sod / 3600 <= 23
  {
  }

  /** The seconds that can be set are those of the years 2000 to 2099. */
  lemma SettableSeconds(epochS: int)
    requires epochS >= 0
    ensures 2000 <= CivilFromDays(epochS / 86400).y <= 2099 <==> 946684800 <= epochS < 4102444800
  {
    hide CivilFromDays, DaysFromCivil;
    var days := epochS / 86400;
    CivilThenDays(days);
    var a := CivilFromDays(days);
    FirstOfYear(2000);
    FirstOfYear(2100);
    DaysGrowWithYears(a, Date(2000, 1, 1));
    DaysGrowWithYears(a, Date(2100, 1, 1));
    DaysOf(Date(2000, 1, 1));
    DaysOf(Date(2100, 1, 1));
    assert 946684800 == 10957 * 86400 && 4102444800 == 47482 * 86400;
  }

  lemma FirstOfYear(y: int)
    requires y == 2000 || y == 2100
    ensures DaysFromCivil(Date(y, 1, 1)) == if y == 2000 then 10957 else 47482
  {
    hide DaysFromCivil;
    DaysOf(Date(y, 1, 1));
  }

  /** A date lies before a New Year's Day exactly when its year does. */
  lemma DaysGrowWithYears(a: Date, n: Date)
    requires ValidDate(a) && n.m == 1 && n.d == 1 && (n.y == 2000 || n.y == 2100)
    ensures a.y < n.y <==> DaysFromCivil(a) < DaysFromCivil(n)
  {
    hide DaysFromCivil, YearStart, MonthStart;
    DaysOf(a);
    DaysOf(n);
    MonthTable(a.m);
    MonthTable(1);
    DateInYear(a);
    var i, j := MarchYear(a), MarchYear(n);
    if i < j { YearStartGrows(i + 1, j); YearLength(i); }
    if j < i { YearStartGrows(j + 1, i); YearLength(j); }
  }

  lemma {:induction false} YearStartGrows(i: int, j: int)
    requires i <= j
    ensures YearStart(i) <= YearStart(j)
    decreases j - i
  {
    if i < j {
      YearStartGrows(i, j - 1);
      YearLength(j - 1);
    }
  }
}
