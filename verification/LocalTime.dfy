/** The string interface of the time-zone utilities: parsing, formatting and the public conversions. */
module LocalTime {
  import opened Options
  import opened Text
  import opened Calendar
  import opened Timezone

  // ---------- Strings ----------

  function Two(n: nat): string {
    PadStart(Decimal(n), 2)
  }

  function PrintInt(n: int): string {
    if n < 0 then "-" + Decimal(-n) else Decimal(n)
  }

  /** `YYYY-MM-DD` with a year of at least four digits: the format callers pass in. */
  function IsoDay(d: Date): string
    requires d.year >= 0 && d.month >= 0 && d.day >= 0
  {
    PadStart(Decimal(d.year), 4) + "-" + (Two(d.month) + "-" + Two(d.day))
  }

  /** What the service prints: month and day are padded, the year is not. */
  function PrintDay(d: Date): string
    requires d.month >= 0 && d.day >= 0
  {
    PrintInt(d.year) + "-" + (Two(d.month) + "-" + Two(d.day))
  }

  function HhMm(h: nat, mi: nat): string {
    Two(h) + ":" + Two(mi)
  }

  /** `localDay.split('-').map(Number)`; None when one of the three is not a number. */
  function ParseDay(s: string): Option<Date> {
    var f := Split(s, '-');
    if |f| < 3 then None
    else
      match (ParseDigits(f[0]), ParseDigits(f[1]), ParseDigits(f[2]))
      case (Some(y), Some(m), Some(d)) => Some(Date(y, m, d))
      case _ => None
  }

  /** `hhmm.split(':').map(Number)`. */
  function ParseTime(s: string): Option<(nat, nat)> {
    var f := Split(s, ':');
    if |f| < 2 then None
    else
      match (ParseDigits(f[0]), ParseDigits(f[1]))
      case (Some(h), Some(mi)) => Some((h, mi))
      case _ => None
  }

  // ---------- The service ----------

  function AddOneLocalDay(localDay: string): string {
    Moved(localDay, NextUtcDay)
  }

  type RealDate = d: Date | ValidDate(d) witness Date(2000, 1, 1)

  function NextUtcDay(d: Date): (n: RealDate)
    ensures DayNumber(n) == UtcDay(d) + 1
  {
    DateOfDay(UtcDay(d) + 1)
  }

  /** The date of the string, moved and printed again. */
  function Moved(localDay: string, move: Date -> RealDate): string {
    match ParseDay(localDay)
    case None => "NaN-NaN-NaN"
    case Some(d) => PrintDay(move(d))
  }

  datatype Parts = Parts(year: int, month: int, day: int, hour: int, minute: int, second: int)

  /** The calendar fields of the local time at `t`, to the second. */
  function FormatToParts(z: Zone, t: int): Parts {
    var w := Wall(z, t);
    var d := DateOfDay(DayAt(w));
    var ms := TimeInDay(w);
    var hour := ms / 3600000;
    Parts(d.year, d.month, d.day, if hour == 0 && z.midnightAs24 then 24 else hour, ms / 60000 % 60, ms / 1000 % 60)
  }

  /** The offset read back from the formatted fields. */
  function TzOffsetMs(z: Zone, t: int): int {
    var p := FormatToParts(z, t);
    var hour := if p.hour == 24 then 0 else p.hour;
    UtcMs(Date(p.year, p.month, p.day), hour, p.minute, p.second) - t
  }

  /** Two corrective passes against the offset at the candidate instant. */
  function TwoPasses(offset: int -> int, literal: int): int {
    var candidate := literal - offset(literal);
    literal - offset(candidate)
  }

  /** The wall clock `h:mi` of `localDay` as an instant; None stands for an invalid date. */
  function ResolveOn(offset: int -> int, localDay: string, time: Option<(nat, nat)>): Option<int> {
    match (ParseDay(localDay), time)
    case (Some(d), Some((h, mi))) => Some(TwoPasses(offset, UtcMs(d, h, mi, 0)))
    case _ => None
  }

  /**
   * `offset` is the service's offset reader for the zone. The time 24:00 is the midnight of
   * the next local day.
   */
  function LocalTimeToUtc(offset: int -> int, localDay: string, hhmm: string): Option<int> {
    if hhmm == "24:00" then ResolveOn(offset, AddOneLocalDay(localDay), ParseTime("00:00"))
    else ResolveOn(offset, localDay, ParseTime(hhmm))
  }

  function LocalDayBoundsToUtc(offset: int -> int, localDay: string): (Option<int>, Option<int>) {
    (LocalTimeToUtc(offset, localDay, "00:00"), LocalTimeToUtc(offset, AddOneLocalDay(localDay), "00:00"))
  }

  /** The local calendar date that `t` falls on. */
  function LocalDayOf(z: Zone, t: int): string {
    PrintDay(DateOfDay(DayAt(Wall(z, t))))
  }

  // ---------- Parsing what was printed ----------

  lemma TwoFields(a: string, b: string, sep: char)
    requires sep !in a && sep !in b
    ensures Split(a + [sep] + b, sep) == [a, b]
  {
    SplitField(a, sep, b);
    SplitSingle(b, sep);
  }

  lemma ThreeFields(year: string, m: nat, d: nat)
    requires '-' !in year
    ensures Split(year + "-" + (Two(m) + "-" + Two(d)), '-') == [year, Two(m), Two(d)]
  {
    ParsePadded(m, 2);
    ParsePadded(d, 2);
    SplitField(year, '-', Two(m) + "-" + Two(d));
    TwoFields(Two(m), Two(d), '-');
  }

  lemma ParseIsoDay(d: Date)
    requires d.year >= 0 && d.month >= 0 && d.day >= 0
    ensures ParseDay(IsoDay(d)) == Some(d)
  {
    ParsePadded(d.year, 4);
    ParsePadded(d.month, 2);
    ParsePadded(d.day, 2);
    ThreeFields(PadStart(Decimal(d.year), 4), d.month, d.day);
  }

  lemma ParsePrintDay(d: Date)
    requires d.year >= 0 && d.month >= 0 && d.day >= 0
    ensures ParseDay(PrintDay(d)) == Some(d)
    ensures Split(PrintDay(d), '-')[0] == Decimal(d.year)
  {
    ParsePadded(d.month, 2);
    ParsePadded(d.day, 2);
    ParseDecimal(d.year);
    DecimalDigits(d.year);
    ThreeFields(Decimal(d.year), d.month, d.day);
  }

  lemma NegativeYearField(d: Date)
    requires d.year < 0 && d.month >= 0 && d.day >= 0
    ensures Split(PrintDay(d), '-')[0] == ""
  {
    LeadingSeparator(Decimal(-d.year) + "-" + (Two(d.month) + "-" + Two(d.day)), PrintDay(d));
  }

  lemma LeadingSeparator(rest: string, s: string)
    requires s == "-" + rest
    ensures Split(s, '-')[0] == ""
  {
    assert s[0] == '-';
  }

  lemma ParseHhMm(h: nat, mi: nat)
    ensures ParseTime(HhMm(h, mi)) == Some((h, mi))
  {
    ParsePadded(h, 2);
    ParsePadded(mi, 2);
    TwoFields(Two(h), Two(mi), ':');
  }

  lemma DecimalWidth(n: nat)
    ensures |Decimal(n)| >= 4 <==> n >= 1000
  {
    if n >= 10 {
      assert |Decimal(n)| == |Decimal(n / 10)| + 1;
      if n >= 100 {
        assert |Decimal(n / 10)| == |Decimal(n / 10 / 10)| + 1;
        if n >= 1000 {
          assert |Decimal(n / 10 / 10)| == |Decimal(n / 10 / 10 / 10)| + 1;
          DecimalDigits(n / 10 / 10 / 10);
        }
      }
    }
  }

  lemma PrintIsIso(d: Date)
    requires d.year >= 0 && d.month >= 0 && d.day >= 0
    ensures PrintDay(d) == IsoDay(d) <==> d.year >= 1000
  {
    DecimalWidth(d.year);
    if d.year < 1000 {
      ParsePadded(d.year, 4);
      ParsePrintDay(d);
      ThreeFields(PadStart(Decimal(d.year), 4), d.month, d.day);
      ZerosLength(4 - |Decimal(d.year)|);
    }
  }

  // ---------- The formats, digit by digit ----------

  function Digit(k: nat): char
    requires k < 10
  {
    ('0' as int + k) as char
  }

  lemma DigitCharIs(k: nat)
    requires k < 10
    ensures DigitChar(k) == Digit(k)
  {
  }

  lemma TwoIs(n: nat)
    requires n < 100
    ensures Two(n) == [Digit(n / 10), Digit(n % 10)]
  {
    DigitCharIs(n % 10);
    DigitCharIs(n / 10);
    if n < 10 {
      assert Zeros(1) == "0";
    } else {
      assert Decimal(n) == Decimal(n / 10) + [DigitChar(n % 10)];
    }
  }

  lemma DecimalLess(n: nat)
    requires n >= 10
    ensures Decimal(n) == Decimal(n / 10) + [Digit(n % 10)]
  {
    DigitCharIs(n % 10);
  }

  /** A four-digit year, two-digit month and day, and two-digit hours and minutes, all padded with zeros. */
  lemma IsoDayIs(d: Date, h: nat, mi: nat)
    requires 1000 <= d.year <= 9999 && 0 <= d.month < 100 && 0 <= d.day < 100 && h < 100 && mi < 100
    ensures IsoDay(d) == YearDigits(d.year)
                         + ['-', Digit(d.month / 10), Digit(d.month % 10)] + ['-', Digit(d.day / 10), Digit(d.day % 10)]
    ensures HhMm(h, mi) == [Digit(h / 10), Digit(h % 10), ':', Digit(mi / 10), Digit(mi % 10)]
  {
    TwoIs(d.month);
    TwoIs(d.day);
    TwoIs(h);
    TwoIs(mi);
    YearIs(d.year);
  }

  function YearDigits(y: nat): string
    requires 1000 <= y <= 9999
  {
    [Digit(y / 10 / 10 / 10), Digit(y / 10 / 10 % 10), Digit(y / 10 % 10), Digit(y % 10)]
  }

  lemma YearIs(y: nat)
    requires 1000 <= y <= 9999
    ensures PadStart(Decimal(y), 4) == YearDigits(y)
  {
    DecimalLess(y);
    DecimalLess(y / 10);
    DecimalLess(y / 10 / 10);
    DigitCharIs(y / 10 / 10 / 10);
  }

  /** Days are counted from the first of January 1970. */
  lemma EpochIsZero(d: Date)
    requires d.year == 1970 && d.month == 1 && d.day == 1
    ensures ValidDate(d) && DayNumber(d) == 0 && Midnight(d) == 0
  {
    FirstDay(d);
  }

  lemma FirstDay(d: Date)
    requires d.year == 1970 && d.month == 1 && d.day == 1
    ensures DayNumber(d) == 0
  {
    assert DayFromYear(1970) == 0;
  }

  // ---------- The next day ----------

  lemma UtcDayOfValid(d: Date)
    requires ValidDate(d) && !(0 <= d.year <= 99)
    ensures UtcDay(d) == DayNumber(d)
  {
    UtcDayOfMonth(d);
  }

  lemma MovedPrints(d: Date, move: Date -> RealDate)
    requires d.year >= 0 && d.month >= 0 && d.day >= 0
    ensures Moved(IsoDay(d), move) == PrintDay(move(d))
  {
    ParseIsoDay(d);
  }

  lemma NextDayNumber(d: Date, s: Date)
    requires ValidDate(d) && d.year >= 100 && s == Successor(d)
    ensures ValidDate(s) && UtcDay(d) + 1 == DayNumber(s)
  {
    UtcDayOfValid(d);
    SuccessorIsNextDay(d);
  }

  lemma SameNumber(n: Date, s: Date)
    requires ValidDate(n) && ValidDate(s) && DayNumber(n) == DayNumber(s)
    ensures n == s
  {
    DateOfDayInverts(n);
    DateOfDayInverts(s);
  }

  /** A year below 100 is read as one of the 1900s. */
  lemma NextBelowYear100(d: Date)
    requires ValidDate(d) && 0 <= d.year <= 99
    ensures NextUtcDay(d).year >= 1900 && ValidDate(NextUtcDay(d))
  {
    var e := Date(1900 + d.year, d.month, d.day);
    UtcDayOfMonth(d);
    MonthLength(IsLeapYear(e.year), e.month);
    YearsOrdered(1900, e.year);
    YearAtLeast(UtcDay(d) + 1, 1900);
  }

  /** Dates of different years are printed differently, padded or not. */
  lemma PrintsApart(n: Date, s: Date)
    requires ValidDate(n) && ValidDate(s) && n.year >= 0 && s.year >= 0 && n.year != s.year
    ensures PrintDay(n) != IsoDay(s)
  {
    ParseIsoDay(s);
    ParsePrintDay(n);
  }

  /**
   * Adding a day to a four-digit date gives the Gregorian successor in the same format
   * exactly when the successor's year needs no padding and is not read as a 1900s year.
   */
  lemma AddOneLocalDayIsSuccessor(d: Date)
    requires ValidDate(d) && 0 <= d.year <= 9999
    ensures ValidDate(Successor(d))
    ensures AddOneLocalDay(IsoDay(d)) == IsoDay(Successor(d)) <==> Successor(d).year >= 1000
  {
    var s := Successor(d);
    SuccessorIsNextDay(d);
    MovedPrints(d, NextUtcDay);
    if d.year > 99 {
      NextDayNumber(d, s);
      SameNumber(NextUtcDay(d), s);
      PrintIsIso(s);
    } else {
      NextBelowYear100(d);
      PrintsApart(NextUtcDay(d), s);
    }
  }

  // ---------- Reading the offset ----------

  lemma ClockFields(ms: int)
    requires 0 <= ms < MS_PER_DAY
    ensures 0 <= ms / 3600000 < 24
    ensures ms / 3600000 * 3600000 + ms / 60000 % 60 * 60000 + ms / 1000 % 60 * 1000 == ms - ms % 1000
  {
    assert ms / 60000 / 60 == ms / 3600000;
    assert ms / 1000 / 60 == ms / 60000;
  }

  /** Recombining the fields of a day and a time within it. */
  lemma Recombine(d: Date, day: int, ms: int)
    requires ValidDate(d) && DayNumber(d) == day && !(0 <= d.year <= 99)
    requires 0 <= ms < MS_PER_DAY
    ensures UtcMs(d, ms / 3600000, ms / 60000 % 60, ms / 1000 % 60) == DayStartMs(day) + ms - ms % 1000
  {
    ClockFields(ms);
    UtcDayOfValid(d);
  }

  /**
   * Formatting an instant to calendar fields and recombining them yields the wall clock cut
   * to the second, whatever way midnight is printed, outside the years 0 to 99.
   */
  lemma OffsetFromParts(z: Zone, t: int)
    requires !(0 <= DateOfDay(DayAt(Wall(z, t))).year <= 99)
    ensures TzOffsetMs(z, t) == z.off(t) - Wall(z, t) % 1000
  {
    var w := Wall(z, t);
    Recombine(DateOfDay(DayAt(w)), DayAt(w), TimeInDay(w));
    SecondsOfDay(w);
  }

  lemma SecondsOfDay(w: int)
    ensures TimeInDay(w) % 1000 == w % 1000
    ensures DayStartMs(DayAt(w)) + TimeInDay(w) == w
  {
    SameMillis(TimeInDay(w), 86400 * DayAt(w));
  }

  lemma SameMillis(r: int, k: int)
    ensures (r + 1000 * k) % 1000 == r % 1000
  {
  }

  /** Offsets are whole seconds and span at most three days. */
  ghost predicate WholeSeconds(z: Zone) {
    (forall t :: z.off(t) % 1000 == 0) && z.hi - z.lo <= 259200000
  }

  /** The start of year 999. */
  const SAFE_MS := -30641760000000

  /** `offset` returns the zone's offset at every whole second from year 999 on. */
  ghost predicate ReadsOffset(offset: int -> int, z: Zone) {
    forall t :: t % 1000 == 0 && t >= SAFE_MS + 259200000 ==> offset(t) == z.off(t)
  }

  /** The reader built on formatted calendar fields returns the zone's offset. */
  lemma FormattedFieldsReadOffset(z: Zone)
    requires IsZone(z) && WholeSeconds(z)
    ensures ReadsOffset(t => TzOffsetMs(z, t), z)
  {
    forall t | t % 1000 == 0 && t >= SAFE_MS + 259200000
      ensures TzOffsetMs(z, t) == z.off(t)
    {
      WholeSecondOffset(z, t);
    }
  }

  lemma WholeSecondOffset(z: Zone, t: int)
    requires IsZone(z) && WholeSeconds(z)
    requires t % 1000 == 0 && t >= SAFE_MS + 259200000
    ensures TzOffsetMs(z, t) == z.off(t)
  {
    assert z.lo <= z.off(t) <= z.hi && z.off(t) % 1000 == 0;
    var w := Wall(z, t);
    assert w >= SAFE_MS && w % 1000 == 0;
    DayAtLeast(w);
    YearAtLeast(DayAt(w), 999);
    OffsetFromParts(z, t);
  }

  lemma DayAtLeast(w: int)
    requires w >= SAFE_MS
    ensures DayAt(w) >= DayFromYear(999)
  {
    assert DayFromYear(999) == -354650;
  }

  // ---------- The public conversions ----------

  /** Wall-clock midnight that starts date `d`. */
  function Midnight(d: Date): int {
    DayStartMs(DayNumber(d))
  }

  lemma Sentinel()
    ensures HhMm(24, 0) == "24:00" && HhMm(0, 0) == "00:00"
  {
    assert Decimal(24) == Decimal(2) + "4";
    assert Two(24) == "24";
    assert Zeros(1) == "0" + Zeros(0);
    assert Two(0) == "00";
  }

  lemma ParseMidnight()
    ensures ParseTime("00:00") == Some((0, 0))
  {
    Sentinel();
    ParseHhMm(0, 0);
  }

  /** The public function, with the time string read. */
  lemma TimeRead(offset: int -> int, localDay: string, h: nat, mi: nat)
    ensures LocalTimeToUtc(offset, localDay, HhMm(h, mi))
         == if h == 24 && mi == 0 then ResolveOn(offset, AddOneLocalDay(localDay), Some((0, 0)))
            else ResolveOn(offset, localDay, Some((h, mi)))
  {
    ParseHhMm(h, mi);
    ParseHhMm(24, 0);
    Sentinel();
    ParseMidnight();
  }

  lemma BoundsRead(offset: int -> int, localDay: string)
    ensures LocalDayBoundsToUtc(offset, localDay)
         == (ResolveOn(offset, localDay, Some((0, 0))), ResolveOn(offset, AddOneLocalDay(localDay), Some((0, 0))))
  {
    ParseMidnight();
  }

  lemma LiteralUtc(d: Date, h: nat, mi: nat)
    requires ValidDate(d) && d.year >= 1000
    requires h < 24 && mi < 60
    ensures UtcMs(d, h, mi, 0) == Midnight(d) + h * 3600000 + mi * 60000
    ensures UtcMs(d, h, mi, 0) % 1000 == 0
    ensures UtcMs(d, h, mi, 0) >= SAFE_MS + 518400000
  {
    UtcDayOfValid(d);
    DayNumberAtLeast(d, 1000);
    LiteralBounds(DayNumber(d), h, mi);
  }

  lemma LiteralBounds(n: int, h: nat, mi: nat)
    requires n >= DayFromYear(1000)
    ensures (DayStartMs(n) + h * 3600000 + mi * 60000) % 1000 == 0
    ensures DayStartMs(n) + h * 3600000 + mi * 60000 >= SAFE_MS + 518400000
  {
    assert DayFromYear(1000) == -354285;
  }

  /** Both passes read the zone's offset, so the result is the two-pass correction. */
  lemma TwoPassesResolve(z: Zone, offset: int -> int, literal: int)
    requires IsZone(z) && WholeSeconds(z) && ReadsOffset(offset, z)
    requires literal % 1000 == 0 && literal >= SAFE_MS + 518400000
    ensures TwoPasses(offset, literal) == Resolve(z, literal)
  {
    assert z.lo <= z.off(literal) <= z.hi && z.off(literal) % 1000 == 0;
    assert (literal - z.off(literal)) % 1000 == 0;
  }

  lemma ResolveParsed(z: Zone, offset: int -> int, localDay: string, d: Date, h: nat, mi: nat)
    requires IsZone(z) && WholeSeconds(z) && ReadsOffset(offset, z)
    requires ParseDay(localDay) == Some(d) && ValidDate(d) && d.year >= 1000
    requires h < 24 && mi < 60
    ensures ResolveOn(offset, localDay, Some((h, mi))) == Some(Resolve(z, Midnight(d) + h * 3600000 + mi * 60000))
  {
    LiteralUtc(d, h, mi);
    TwoPassesResolve(z, offset, UtcMs(d, h, mi, 0));
  }

  lemma ResolveOnDate(z: Zone, offset: int -> int, d: Date, h: nat, mi: nat)
    requires IsZone(z) && WholeSeconds(z) && ReadsOffset(offset, z)
    requires ValidDate(d) && d.year >= 1000
    requires h < 24 && mi < 60
    ensures ResolveOn(offset, IsoDay(d), Some((h, mi))) == Some(Resolve(z, Midnight(d) + h * 3600000 + mi * 60000))
  {
    ParseIsoDay(d);
    ResolveParsed(z, offset, IsoDay(d), d, h, mi);
  }

  lemma NextDayParsed(d: Date)
    requires ValidDate(d) && 1000 <= d.year <= 9999
    ensures ParseDay(AddOneLocalDay(IsoDay(d))) == Some(Successor(d))
    ensures ValidDate(Successor(d)) && Successor(d).year >= 1000
  {
    AddOneLocalDayIsSuccessor(d);
    ParseIsoDay(Successor(d));
  }

  lemma NextMidnight(d: Date)
    requires ValidDate(d)
    ensures Midnight(Successor(d)) == Midnight(d) + MS_PER_DAY
  {
    SuccessorIsNextDay(d);
  }

  lemma ResolveNextDay(z: Zone, offset: int -> int, d: Date)
    requires IsZone(z) && WholeSeconds(z) && ReadsOffset(offset, z)
    requires ValidDate(d) && 1000 <= d.year <= 9999
    ensures ResolveOn(offset, AddOneLocalDay(IsoDay(d)), Some((0, 0))) == Some(Resolve(z, Midnight(d) + MS_PER_DAY))
  {
    NextDayParsed(d);
    NextMidnight(d);
    ResolveParsed(z, offset, AddOneLocalDay(IsoDay(d)), Successor(d), 0, 0);
  }

  /**
   * From year 1000 on, the string interface computes the two-pass correction, with 24:00
   * meaning the wall clock one day after midnight.
   */
  lemma LocalTimeToUtcResolves(z: Zone, offset: int -> int, d: Date, h: nat, mi: nat)
    requires IsZone(z) && WholeSeconds(z) && ReadsOffset(offset, z)
    requires ValidDate(d) && 1000 <= d.year <= 9999
    requires (h < 24 && mi < 60) || (h == 24 && mi == 0)
    ensures LocalTimeToUtc(offset, IsoDay(d), HhMm(h, mi)) == Some(Resolve(z, Midnight(d) + h * 3600000 + mi * 60000))
  {
    TimeRead(offset, IsoDay(d), h, mi);
    if h == 24 {
      ResolveNextDay(z, offset, d);
    } else {
      ResolveOnDate(z, offset, d, h, mi);
    }
  }

  // ---------- Local days ----------

  lemma LocalDayIs(z: Zone, u: int, d: Date)
    requires ValidDate(d) && d.year >= 1000
    ensures LocalDayOf(z, u) == IsoDay(d) <==> OnDay(z, Midnight(d), u)
  {
    var n := DayAt(Wall(z, u));
    var e := DateOfDay(n);
    PrintIsIso(d);
    ParsePrintDay(d);
    DecimalDigits(d.year);
    if e.year >= 0 {
      ParsePrintDay(e);
    } else {
      NegativeYearField(e);
    }
    if n == DayNumber(d) {
      DateOfDayInverts(d);
    }
  }

  /** `u` lies in a half-open range with both ends valid. */
  predicate InBounds(bounds: (Option<int>, Option<int>), u: int) {
    bounds.0.Some? && bounds.1.Some? && bounds.0.value <= u < bounds.1.value
  }

  /** The range holds exactly the instants that `dayOf` puts on `localDay`. */
  ghost predicate CoversDay(dayOf: int -> string, bounds: (Option<int>, Option<int>), localDay: string) {
    forall u :: InBounds(bounds, u) <==> dayOf(u) == localDay
  }

  /** The two ends of a local day's range, as instants. */
  lemma DayBounds(z: Zone, offset: int -> int, d: Date)
    requires IsZone(z) && WholeSeconds(z) && ReadsOffset(offset, z)
    requires ValidDate(d) && 1000 <= d.year <= 9999
    ensures LocalDayBoundsToUtc(offset, IsoDay(d))
         == (Some(Resolve(z, Midnight(d))), Some(Resolve(z, Midnight(d) + MS_PER_DAY)))
  {
    BoundsRead(offset, IsoDay(d));
    ResolveOnDate(z, offset, d, 0, 0);
    ResolveNextDay(z, offset, d);
  }

  lemma CoversIffRangeIsDay(z: Zone, w: int, dayOf: int -> string, localDay: string)
    requires forall u :: dayOf(u) == localDay <==> OnDay(z, w, u)
    ensures CoversDay(dayOf, (Some(Resolve(z, w)), Some(Resolve(z, w + MS_PER_DAY))), localDay) <==> RangeIsDay(z, w)
  {
    var bounds := (Some(Resolve(z, w)), Some(Resolve(z, w + MS_PER_DAY)));
    assert forall u :: InBounds(bounds, u) <==> InRange(z, w, u);
    if CoversDay(dayOf, bounds, localDay) {
      forall u ensures InRange(z, w, u) <==> OnDay(z, w, u) {
        assert InBounds(bounds, u) <==> dayOf(u) == localDay;
      }
    }
  }

  lemma LocalDays(z: Zone, d: Date, dayOf: int -> string)
    requires ValidDate(d) && d.year >= 1000
    requires forall u :: dayOf(u) == LocalDayOf(z, u)
    ensures forall u :: dayOf(u) == IsoDay(d) <==> OnDay(z, Midnight(d), u)
  {
    forall u ensures dayOf(u) == IsoDay(d) <==> OnDay(z, Midnight(d), u) {
      LocalDayIs(z, u, d);
    }
  }

  lemma DayBoundsHold(z: Zone, w: int, dayOf: int -> string, localDay: string)
    requires IsZone(z) && z.hi - z.lo < MS_PER_DAY
    requires forall u :: dayOf(u) == localDay <==> OnDay(z, w, u)
    ensures InBounds((Some(Resolve(z, w)), Some(Resolve(z, w + MS_PER_DAY))), Resolve(z, w))
    ensures CoversDay(dayOf, (Some(Resolve(z, w)), Some(Resolve(z, w + MS_PER_DAY))), localDay)
       <==> HarmlessJumps(z, w) && HarmlessJumps(z, w + MS_PER_DAY)
  {
    DaysAdvance(z, w);
    CoversIffRangeIsDay(z, w, dayOf, localDay);
    DayRangeIsLocalDay(z, w);
  }

  /**
   * The UTC range computed for a local day holds its own start, and it holds exactly the
   * instants that `localDayOf` puts on that day, exactly when every offset jump is harmless
   * to the midnights at its two ends.
   */
  lemma DayBoundsCoverLocalDay(z: Zone, offset: int -> int, dayOf: int -> string, d: Date)
    requires IsZone(z) && WholeSeconds(z) && ReadsOffset(offset, z) && z.hi - z.lo < MS_PER_DAY
    requires forall u :: dayOf(u) == LocalDayOf(z, u)
    requires ValidDate(d) && 1000 <= d.year <= 9999
    ensures InBounds(LocalDayBoundsToUtc(offset, IsoDay(d)), Resolve(z, Midnight(d)))
    ensures CoversDay(dayOf, LocalDayBoundsToUtc(offset, IsoDay(d)), IsoDay(d))
       <==> HarmlessJumps(z, Midnight(d)) && HarmlessJumps(z, Midnight(d) + MS_PER_DAY)
  {
    DayBounds(z, offset, d);
    LocalDays(z, d, dayOf);
    DayBoundsHold(z, Midnight(d), dayOf, IsoDay(d));
  }

  /** Consecutive local days abut: one range ends where the next begins. */
  lemma DayBoundsAbut(offset: int -> int, d: Date)
    requires ValidDate(d) && 1000 <= d.year <= 9999
    ensures LocalDayBoundsToUtc(offset, IsoDay(d)).1 == LocalDayBoundsToUtc(offset, IsoDay(Successor(d))).0
  {
    AddOneLocalDayIsSuccessor(d);
  }
}
