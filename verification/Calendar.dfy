/** Days since the epoch to calendar dates and back, against the plain Gregorian calendar. */
module Calendar {
  import opened Base
  import OfferBatch

  datatype Date = Date(year: int, month: int, day: int)

  const EPOCH_OFFSET: int := 719468
  const DAYS_PER_ERA: int := 146097

  // ----- The conversions -----

  /** The year of the era, counted from March, that a day of the era falls in. */
  function YearOfEra(doe: int): (yoe: int) {
    (doe - doe / 1460 + doe / 36524 - doe / 146096) / 365
  }

  /** The first day of a year of the era. */
  function YearStart(yoe: int): (doy: int) {
    365 * yoe + yoe / 4 - yoe / 100
  }

  /** Day of the March-based year to month (counted from March) and day. */
  function MonthOfYear(doy: int): (mp: int) {
    (5 * doy + 2) / 153
  }

  function MonthStart(mp: int): (doy: int) {
    (153 * mp + 2) / 5
  }

  /** The date at a day of a March-based year: `yoe` counts within the era. */
  function Assemble(era: int, yoe: int, doy: int): (r: Date) {
    var y := yoe + era * 400;
    var mp := MonthOfYear(doy);
    var d := doy - MonthStart(mp) + 1;
    var m := if mp < 10 then mp + 3 else mp - 9;
    Date(if m <= 2 then y + 1 else y, m, d)
  }

  function CivilFromDays(days: int): (r: Date) {
    var z := days + EPOCH_OFFSET;
    var era := z / DAYS_PER_ERA;
    CivilOfDay(era, z - era * DAYS_PER_ERA)
  }

  /** The date at a day of an era. */
  function CivilOfDay(era: int, doe: int): (r: Date) {
    var yoe := YearOfEra(doe);
    Assemble(era, yoe, doe - YearStart(yoe))
  }

  /** The March-based year a date falls in. */
  function MarchYear(d: Date): (y: int) {
    if d.month <= 2 then d.year - 1 else d.year
  }

  /** The day of that year. */
  function DayOfYear(d: Date): (doy: int) {
    MonthStart(if d.month > 2 then d.month - 3 else d.month + 9) + d.day - 1
  }

  function DaysFromCivil(date: Date): (days: int) {
    var year := MarchYear(date);
    var era := year / 400;
    var yoe := year - era * 400;
    var doe := YearStart(yoe) + DayOfYear(date);
    era * DAYS_PER_ERA + doe - EPOCH_OFFSET
  }

  // ----- The era -----

  /** A day of the era as century, four-year cycle, year of the cycle, and day of the March-based year. */
  datatype Digits = Digits(c: int, q: int, r: int, t: int)

  /** Only the last year of a cycle holds a 366th day, and the last cycle of a century only in the era's last
      century. */
  predicate Digital(x: Digits) {
    && 0 <= x.c < 4 && 0 <= x.q < 25 && 0 <= x.r < 4 && 0 <= x.t < 366
    && (x.t == 365 ==> x.r == 3 && (x.q < 24 || x.c == 3))
  }

  function DayOfEra(x: Digits): (doe: int) {
    36524 * x.c + 1461 * x.q + 365 * x.r + x.t
  }

  function Year(x: Digits): (yoe: int) {
    100 * x.c + 4 * x.q + x.r
  }

  lemma DigitsGiveYear(x: Digits)
    requires Digital(x)
    ensures YearOfEra(DayOfEra(x)) == Year(x)
    ensures YearStart(Year(x)) == DayOfEra(x) - x.t
    ensures 0 <= DayOfEra(x) < DAYS_PER_ERA
  {
    var doe := DayOfEra(x);
    assert doe / 36524 - doe / 146096 == x.c;
    var rest := 24 * x.c + x.q + 365 * x.r + x.t;
    var e := if rest < 1460 then 0 else 1;
    assert doe == 1460 * (25 * x.c + x.q) + rest;
    assert doe / 1460 == 25 * x.c + x.q + e;
    assert doe - doe / 1460 + doe / 36524 - doe / 146096 == 365 * Year(x) + x.t - e;
    assert Year(x) / 4 == 25 * x.c + x.q;
    assert Year(x) / 100 == x.c;
  }

  function Cap(n: int, top: int): (r: int) {
    if n < top then n else top
  }

  function Split(doe: int): (x: Digits) {
    var c := Cap(doe / 36524, 3);
    var inCentury := doe - 36524 * c;
    var q := Cap(inCentury / 1461, 24);
    var inCycle := inCentury - 1461 * q;
    var r := Cap(inCycle / 365, 3);
    Digits(c, q, r, inCycle - 365 * r)
  }

  lemma SplitIsDigital(doe: int)
    requires 0 <= doe < DAYS_PER_ERA
    ensures Digital(Split(doe)) && DayOfEra(Split(doe)) == doe
  {}

  // ----- The plain Gregorian calendar -----

  predicate LeapYear(year: int) {
    (year % 4 == 0 && year % 100 != 0) || year % 400 == 0
  }

  function MonthLength(year: int, month: int): (r: int) {
    if month == 2 then (if LeapYear(year) then 29 else 28)
    else if month == 4 || month == 6 || month == 9 || month == 11 then 30
    else 31
  }

  predicate ValidDate(d: Date) {
    1 <= d.month <= 12 && 1 <= d.day <= MonthLength(d.year, d.month)
  }

  function NextDate(d: Date): (r: Date) {
    if d.day < MonthLength(d.year, d.month) then d.(day := d.day + 1)
    else if d.month < 12 then Date(d.year, d.month + 1, 1)
    else Date(d.year + 1, 1, 1)
  }

  // ----- The conversions agree with it -----

  /** Month and day within a March-based year. */
  lemma MonthSplit(doy: int)
    requires 0 <= doy < 366
    ensures var mp := MonthOfYear(doy); 0 <= mp < 12 && MonthStart(mp) <= doy && (mp < 11 ==> doy < MonthStart(mp + 1))
  {}

  lemma MonthJoin(mp: int, d: int)
    requires 0 <= mp < 12 && 1 <= d && (mp < 11 ==> d <= MonthStart(mp + 1) - MonthStart(mp)) && (mp == 11 ==> d <= 29)
    ensures 0 <= MonthStart(mp) + d - 1 < 366 && MonthOfYear(MonthStart(mp) + d - 1) == mp
  {}

  lemma MonthStarts(month: int, year: int)
    requires 1 <= month <= 12 && month != 2
    ensures var mp := if month > 2 then month - 3 else month + 9;
            MonthStart(mp + 1) == MonthStart(mp) + MonthLength(year, month)
  {}

  function MarchDigits(y: int, doy: int): (x: Digits) {
    var yoe := y % 400;
    Digits(yoe / 100, yoe % 100 / 4, yoe % 4, doy)
  }

  lemma YearDigits(yoe: int)
    requires 0 <= yoe < 400
    ensures var c, q, r := yoe / 100, yoe % 100 / 4, yoe % 4;
            yoe == 100 * c + 4 * q + r && 0 <= c < 4 && 0 <= q < 25 && 0 <= r < 4
  {}

  lemma LeapDigits(y: int, era: int, x: Digits)
    requires 0 <= x.c < 4 && 0 <= x.q < 25 && 0 <= x.r < 4 && y == era * 400 + 100 * x.c + 4 * x.q + x.r
    ensures 0 <= x.t < 366 && (x.t == 365 ==> LeapYear(y + 1)) ==> Digital(x)
  {
    YearIsLeap(era, x.c, x.q, x.r);
  }

  lemma MarchDigitsGiveYear(y: int, doy: int)
    ensures Year(MarchDigits(y, doy)) == y % 400
    ensures 0 <= doy < 366 && (doy == 365 ==> LeapYear(y + 1)) ==> Digital(MarchDigits(y, doy))
  {
    YearDigits(y % 400);
    LeapDigits(y, y / 400, MarchDigits(y, doy));
  }

  lemma ValidDay(d: Date)
    requires ValidDate(d)
    ensures 0 <= DayOfYear(d) < 366 && (DayOfYear(d) == 365 ==> LeapYear(MarchYear(d) + 1))
    ensures MonthOfYear(DayOfYear(d)) == if d.month > 2 then d.month - 3 else d.month + 9
  {
    if d.month != 2 { MonthStarts(d.month, d.year); }
    MonthJoin(if d.month > 2 then d.month - 3 else d.month + 9, d.day);
  }

  /** The day number of digits in an era. */
  function DayNumber(era: int, x: Digits): (n: int) {
    era * DAYS_PER_ERA + DayOfEra(x) - EPOCH_OFFSET
  }

  lemma CivilOfDigits(era: int, x: Digits)
    requires Digital(x)
    ensures CivilFromDays(DayNumber(era, x)) == Assemble(era, Year(x), x.t)
  {
    DigitsGiveYear(x);
    CivilOfEra(DayNumber(era, x), era, DayOfEra(x));
  }

  lemma CivilOfEra(n: int, era: int, doe: int)
    requires n == era * DAYS_PER_ERA + doe - EPOCH_OFFSET && 0 <= doe < DAYS_PER_ERA
    ensures CivilFromDays(n) == CivilOfDay(era, doe)
  {
    EraQuotient(era, doe);
    assert (n + EPOCH_OFFSET) / DAYS_PER_ERA == era;
    assert n + EPOCH_OFFSET - era * DAYS_PER_ERA == doe;
  }

  lemma EraQuotient(era: int, doe: int)
    requires 0 <= doe < DAYS_PER_ERA
    ensures (era * DAYS_PER_ERA + doe) / DAYS_PER_ERA == era
  {}

  lemma DaysOfDigits(d: Date, era: int, x: Digits)
    requires Digital(x) && MarchYear(d) == Year(x) + era * 400 && DayOfYear(d) == x.t
    ensures DaysFromCivil(d) == DayNumber(era, x)
  {
    DigitsGiveYear(x);
    assert MarchYear(d) / 400 == era;
  }

  lemma AssembleRestores(d: Date, era: int, yoe: int)
    requires ValidDate(d) && MarchYear(d) == yoe + era * 400
    ensures Assemble(era, yoe, DayOfYear(d)) == d
  {
    ValidDay(d);
  }

  /** Every valid date survives the trip to a day number and back. */
  lemma DateRoundTrip(d: Date)
    requires ValidDate(d)
    ensures CivilFromDays(DaysFromCivil(d)) == d
  {
    ValidDay(d);
    var y := MarchYear(d);
    var x := MarchDigits(y, DayOfYear(d));
    MarchDigitsGiveYear(y, DayOfYear(d));
    DaysOfDigits(d, y / 400, x);
    CivilOfDigits(y / 400, x);
    AssembleRestores(d, y / 400, Year(x));
  }

  /** A leap day in the digits is a leap year in the calendar. */
  lemma DigitsLeap(x: Digits, era: int)
    requires Digital(x) && x.t == 365
    ensures LeapYear(Year(x) + era * 400 + 1)
  {
    YearIsLeap(era, x.c, x.q, x.r);
  }

  lemma AssembleIsValid(era: int, x: Digits)
    requires Digital(x)
    ensures var d := Assemble(era, Year(x), x.t);
            ValidDate(d) && MarchYear(d) == Year(x) + era * 400 && DayOfYear(d) == x.t
  {
    MonthSplit(x.t);
    if x.t == 365 { DigitsLeap(x, era); }
    var d := Assemble(era, Year(x), x.t);
    if d.month != 2 { MonthStarts(d.month, d.year); }
  }

  /** Every day number is a valid date, and survives the trip to that date and back. */
  lemma DayRoundTrip(n: int)
    ensures ValidDate(CivilFromDays(n)) && DaysFromCivil(CivilFromDays(n)) == n
  {
    var era, x := EraSplit(n);
    CivilOfDigits(era, x);
    AssembleIsValid(era, x);
    DaysOfDigits(Assemble(era, Year(x), x.t), era, x);
  }

  lemma EraSplit(n: int) returns (era: int, x: Digits)
    ensures Digital(x) && DayNumber(era, x) == n
  {
    var z := n + EPOCH_OFFSET;
    era := z / DAYS_PER_ERA;
    SplitIsDigital(z - era * DAYS_PER_ERA);
    x := Split(z - era * DAYS_PER_ERA);
  }

  /** The first day of the year after the year with the given digits, as era and digits. */
  function NextYear(era: int, c: int, q: int, r: int): (n: (int, Digits)) {
    if r < 3 then (era, Digits(c, q, r + 1, 0))
    else if q < 24 then (era, Digits(c, q + 1, 0, 0))
    else if c < 3 then (era, Digits(c + 1, 0, 0, 0))
    else (era + 1, Digits(0, 0, 0, 0))
  }

  lemma DigitsOfYear(era: int, c: int, q: int, r: int, t: int)
    requires 0 <= c < 4 && 0 <= q < 25 && 0 <= r < 4
    ensures var y := era * 400 + 100 * c + 4 * q + r; y / 400 == era && MarchDigits(y, t) == Digits(c, q, r, t)
  {
    var yoe := 100 * c + 4 * q + r;
    assert (era * 400 + yoe) / 400 == era;
    assert yoe / 100 == c && yoe % 100 / 4 == q && yoe % 4 == r;
  }

  lemma NextYearDay(era: int, c: int, q: int, r: int)
    requires 0 <= c < 4 && 0 <= q < 25 && 0 <= r < 4
    ensures var (era', x) := NextYear(era, c, q, r);
            var t := if r == 3 && (q < 24 || c == 3) then 365 else 364;
            && DayNumber(era', x) == DayNumber(era, Digits(c, q, r, t)) + 1
            && era' * 400 + Year(x) == era * 400 + (100 * c + 4 * q + r) + 1
  {}

  /** The last day of a March-based year is followed by the first of the next. */
  lemma YearTurns(era: int, c: int, q: int, r: int)
    requires 0 <= c < 4 && 0 <= q < 25 && 0 <= r < 4
    ensures var y := era * 400 + 100 * c + 4 * q + r;
            DayNumber((y + 1) / 400, MarchDigits(y + 1, 0))
              == DayNumber(y / 400, MarchDigits(y, if LeapYear(y + 1) then 365 else 364)) + 1
  {
    var y := era * 400 + 100 * c + 4 * q + r;
    var t := if LeapYear(y + 1) then 365 else 364;
    YearIsLeap(era, c, q, r);
    DigitsOfYear(era, c, q, r, t);
    var (era', x) := NextYear(era, c, q, r);
    NextYearDay(era, c, q, r);
    DigitsOfYear(era', x.c, x.q, x.r, 0);
  }

  lemma YearIsLeap(era: int, c: int, q: int, r: int)
    requires 0 <= c < 4 && 0 <= q < 25 && 0 <= r < 4
    ensures LeapYear(era * 400 + 100 * c + 4 * q + r + 1) <==> r == 3 && (q < 24 || c == 3)
  {
    var y := era * 400 + 100 * c + 4 * q + r + 1;
    Remainder(y, 4, 100 * era + 25 * c + q + (r + 1) / 4, (r + 1) % 4);
    if r == 3 {
      var full := q == 24;
      Remainder(y, 100, 4 * era + c + (if full then 1 else 0), if full then 0 else 4 * q + 4);
      Remainder(y, 400, era + (if full && c == 3 then 1 else 0), if full && c == 3 then 0 else 100 * c + 4 * q + 4);
    } else {
      Remainder(y, 400, era, 100 * c + 4 * q + r + 1);
    }
  }

  lemma Remainder(y: int, d: int, k: int, m: int)
    requires d > 0 && y == d * k + m && 0 <= m < d
    ensures y % d == m
  {
    var e := y / d - k;
    assert d * e == m - y % d;
    assert e >= 1 ==> d * e >= d;
    assert e <= -1 ==> d * e <= -d;
  }

  lemma FirstOfMarch(year: int)
    ensures DaysFromCivil(Date(year, 3, 1)) == DayNumber(year / 400, MarchDigits(year, 0))
  {
    MarchDigitsGiveYear(year, 0);
    DaysOfDigits(Date(year, 3, 1), year / 400, MarchDigits(year, 0));
  }

  lemma LastOfFebruary(y: int)
    ensures var t := if LeapYear(y + 1) then 365 else 364;
            DaysFromCivil(Date(y + 1, 2, MonthLength(y + 1, 2))) == DayNumber(y / 400, MarchDigits(y, t))
  {
    var t := if LeapYear(y + 1) then 365 else 364;
    MarchDigitsGiveYear(y, t);
    DaysOfDigits(Date(y + 1, 2, MonthLength(y + 1, 2)), y / 400, MarchDigits(y, t));
  }

  /** March starts one day after the last day of February, in common and leap years alike. */
  lemma MarchFollowsFebruary(year: int)
    ensures DaysFromCivil(Date(year, 3, 1)) == DaysFromCivil(Date(year, 2, MonthLength(year, 2))) + 1
  {
    var y := year - 1;
    LastOfFebruary(y);
    FirstOfMarch(year);
    YearTurnsAt(y);
  }

  lemma YearTurnsAt(y: int)
    ensures DayNumber((y + 1) / 400, MarchDigits(y + 1, 0))
              == DayNumber(y / 400, MarchDigits(y, if LeapYear(y + 1) then 365 else 364)) + 1
  {
    var yoe := y % 400;
    YearDigits(yoe);
    YearTurns(y / 400, yoe / 100, yoe % 100 / 4, yoe % 4);
  }

  lemma NextIsOneDayLater(d: Date)
    requires ValidDate(d)
    ensures ValidDate(NextDate(d)) && DaysFromCivil(NextDate(d)) == DaysFromCivil(d) + 1
  {
    if d.day == MonthLength(d.year, d.month) {
      if d.month == 2 {
        MarchFollowsFebruary(d.year);
      } else {
        MonthStarts(d.month, d.year);
      }
    }
  }

  /** The conversion walks the calendar: the day after is the next date, for every day number. */
  lemma CivilSuccessor(n: int)
    ensures CivilFromDays(n + 1) == NextDate(CivilFromDays(n))
  {
    DayRoundTrip(n);
    NextIsOneDayLater(CivilFromDays(n));
    DateRoundTrip(NextDate(CivilFromDays(n)));
  }

  // ----- Keys -----

  /** The date key, yyyymmdd. */
  function Key(d: Date): (k: int) {
    d.year * 10000 + d.month * 100 + d.day
  }

  function DateOfKey(k: int): (d: Date) {
    Date(k / 10_000, k / 100 % 100, k % 100)
  }

  lemma KeyDecodes(d: Date)
    requires ValidDate(d)
    ensures DateOfKey(Key(d)) == d
  {
    var k := Key(d);
    Remainder(k, 100, d.year * 100 + d.month, d.day);
    assert k / 100 == d.year * 100 + d.month;
    Remainder(k / 100, 100, d.year, d.month);
  }

  /** The epoch day is 1 January 1970. */
  lemma EpochKey()
    ensures Key(CivilFromDays(0)) == 19700101
  {
    assert CivilFromDays(0) == Date(1970, 1, 1);
  }

  lemma KeyStep(n: int)
    ensures Key(CivilFromDays(n)) < Key(CivilFromDays(n + 1))
  {
    DayRoundTrip(n);
    CivilSuccessor(n);
    NextKeyIsLarger(CivilFromDays(n));
  }

  lemma NextKeyIsLarger(d: Date)
    requires ValidDate(d)
    ensures Key(d) < Key(NextDate(d))
  {}

  lemma {:induction false} Increasing(f: int -> int, a: int, b: int)
    requires a < b && forall n :: f(n) < f(n + 1)
    ensures f(a) < f(b)
    decreases b - a
  {
    assert f(b - 1) < f(b - 1 + 1);
    if a < b - 1 { Increasing(f, a, b - 1); }
  }

  /** Later days have larger keys. */
  lemma KeysIncrease(a: int, b: int)
    requires a < b
    ensures Key(CivilFromDays(a)) < Key(CivilFromDays(b))
  {
    var f := (n: int) => Key(CivilFromDays(n));
    forall n ensures f(n) < f(n + 1) { KeyStep(n); }
    Increasing(f, a, b);
  }

  /** A day key is well formed exactly when it is the key of a valid date. */
  lemma KeyValidity(k: U32)
    ensures OfferBatch.WorldwideDayIsValid(k) <==> ValidDate(DateOfKey(k))
    ensures Key(DateOfKey(k)) == k
  {}

  /** Every valid key from the epoch on is the key of exactly one day number, which is not negative; and every key the
      conversion yields in range is valid. */
  lemma KeysAreDays(k: U32)
    requires k >= 19700101
    ensures OfferBatch.WorldwideDayIsValid(k) <==> exists n: nat :: Key(CivilFromDays(n)) == k
    ensures forall m: int, n: int :: Key(CivilFromDays(m)) == k && Key(CivilFromDays(n)) == k ==> m == n
  {
    KeyValidity(k);
    EpochKey();
    if ValidDate(DateOfKey(k)) {
      DateRoundTrip(DateOfKey(k));
      KeyIsNotBeforeEpoch(k);
      assert Key(CivilFromDays(DaysFromCivil(DateOfKey(k)))) == k;
    }
    forall n: int | Key(CivilFromDays(n)) == k ensures ValidDate(DateOfKey(k)) {
      DayRoundTrip(n);
      KeyDecodes(CivilFromDays(n));
    }
    forall m: int, n: int | Key(CivilFromDays(m)) == k && Key(CivilFromDays(n)) == k ensures m == n {
      if m < n { KeysIncrease(m, n); } else if n < m { KeysIncrease(n, m); }
    }
  }

  // ----- Timestamps -----

  const SECONDS_PER_DAY: int := 86_400

  function TimestampToDateKey(timestamp: nat): (k: int) {
    Key(CivilFromDays(timestamp / SECONDS_PER_DAY))
  }

  function DateKeyToTimestamp(k: int): (timestamp: int) {
    DaysFromCivil(DateOfKey(k)) * SECONDS_PER_DAY
  }

  lemma KeyIsNotBeforeEpoch(k: U32)
    requires k >= 19700101 && OfferBatch.WorldwideDayIsValid(k)
    ensures DaysFromCivil(DateOfKey(k)) >= 0
  {
    KeyValidity(k);
    var n := DaysFromCivil(DateOfKey(k));
    DateRoundTrip(DateOfKey(k));
    EpochKey();
    if n < 0 { KeysIncrease(n, 0); }
  }

  lemma NextDayByNumber(d: Date)
    requires ValidDate(d)
    ensures CivilFromDays(DaysFromCivil(d) + 1) == NextDate(d)
  {
    DateRoundTrip(d);
    NextDayFrom(DaysFromCivil(d), d);
  }

  lemma NextDayFrom(n: int, d: Date)
    requires CivilFromDays(n) == d
    ensures CivilFromDays(n + 1) == NextDate(d)
  {
    CivilSuccessor(n);
  }

  /** The last valid key a 32-bit integer holds: 31 December 429496. */
  const LAST_KEY: U32 := 4294961231

  lemma NextKeyFits(k: U32)
    requires OfferBatch.WorldwideDayIsValid(k)
    ensures Key(NextDate(DateOfKey(k))) < TWO_32 <==> k != LAST_KEY
  {
    KeyValidity(k);
    var d := DateOfKey(k);
    NextDateNear(d);
    assert d.year <= 429496;
  }

  /** A next date is in the same year, or is the next new year's day after 31 December. */
  lemma NextDateNear(d: Date)
    requires ValidDate(d)
    ensures var e := NextDate(d);
            if d.month == 12 && d.day == 31 then e == Date(d.year + 1, 1, 1)
            else e.year == d.year && 1 <= e.month <= 12 && 1 <= e.day <= 31
  {}

  /** Advancing a key by a day of seconds is the next calendar day, across month and year ends. It fits the 32-bit key
      for every key but the last. */
  lemma NextKeyByTimestamp(k: U32)
    requires k >= 19700101 && OfferBatch.WorldwideDayIsValid(k)
    ensures DateKeyToTimestamp(k) >= 0
    ensures TimestampToDateKey(DateKeyToTimestamp(k) + SECONDS_PER_DAY) == Key(NextDate(DateOfKey(k)))
    ensures Key(NextDate(DateOfKey(k))) < TWO_32 <==> k != LAST_KEY
  {
    KeyIsNotBeforeEpoch(k);
    NextKeyFits(k);
    KeyValidity(k);
    NextDayByNumber(DateOfKey(k));
    DaysFromSeconds(DaysFromCivil(DateOfKey(k)));
  }

  lemma DaysFromSeconds(n: int)
    ensures (n * SECONDS_PER_DAY + SECONDS_PER_DAY) / SECONDS_PER_DAY == n + 1
  {}
}
