/** Dates of the machine-readable zone (ui/src/integration/mrz.ts:95-134). */
module MrzDates {
  import opened Wrappers

  datatype Date = Date(year: int, month: nat, day: nat)

  /** A date and the milliseconds since its midnight, UTC. Clock years are not negative. */
  datatype Instant = Instant(date: Date, ms: nat)

  datatype Kind = Birth | Expiry

  predicate DateBefore(a: Date, b: Date)
  {
    a.year < b.year || (a.year == b.year && (a.month < b.month || (a.month == b.month && a.day < b.day)))
  }

  predicate InstantBefore(a: Instant, b: Instant)
  {
    DateBefore(a.date, b.date) || (a.date == b.date && a.ms < b.ms)
  }

  predicate Leap(y: int) { y % 4 == 0 && (y % 100 != 0 || y % 400 == 0) }

  function DaysIn(year: int, month: nat): nat
  {
    if month == 2 then (if Leap(year) then 29 else 28)
    else if month in {4, 6, 9, 11} then 30 else 31
  }

  /** `Date.UTC` reads the years 0 to 99 as 1900 to 1999. */
  function Legacy(year: int): int { if 0 <= year < 100 then 1900 + year else year }

  /** `new Date(Date.UTC(year, month - 1, day))`: a day past the end of its month runs into the next. */
  function UtcDate(year: int, month: nat, day: nat): Date
    requires 1 <= month <= 12 && 1 <= day <= 31
  {
    var y := Legacy(year);
    var last := DaysIn(y, month);
    if day <= last then Date(y, month, day)
    else if month == 12 then Date(y + 1, 1, day - last)
    else Date(y, month + 1, day - last)
  }

  predicate IsDigit(c: char) { '0' <= c <= '9' }

  function Two(s: string, i: nat): (n: nat)
    requires i + 1 < |s| && IsDigit(s[i]) && IsDigit(s[i + 1])
    ensures n < 100
  {
    (s[i] as nat - 48) * 10 + (s[i + 1] as nat - 48)
  }

  predicate SixDigits(s: string) { |s| == 6 && forall i | 0 <= i < 6 :: IsDigit(s[i]) }

  function ExpandMrzDate(s: string, kind: Kind, reference: Instant): Option<Date>
  {
    if !SixDigits(s) then None
    else
      var yy, month, day := Two(s, 0), Two(s, 2), Two(s, 4);
      if month < 1 || month > 12 || day < 1 || day > 31 then None
      else
        var date := UtcDate(ExpandedYear(yy, kind, reference.date.year), month, day);
        if date.month != month || date.day != day then None else Some(date)
  }

  function ExpandedYear(yy: nat, kind: Kind, current: int): int
  {
    var currentYY := current % 100;
    var currentCentury := current - currentYY;
    match kind
    case Birth => if yy > currentYY then currentCentury - 100 + yy else currentCentury + yy
    case Expiry => if yy < currentYY - 50 then currentCentury + 100 + yy else currentCentury + yy
  }

  /** The source's adjustment of a local, as one expression. */
  function YearsBetween(from: Date, to: Date): int
  {
    to.year - from.year - (if to.month < from.month || (to.month == from.month && to.day < from.day) then 1 else 0)
  }

  /** At least `n` whole years have passed exactly when the `n`-th birthday has come. */
  lemma BirthdaysCounted(from: Date, to: Date, n: int)
    ensures YearsBetween(from, to) >= n <==> !DateBefore(to, from.(year := from.year + n))
  {
  }

  // ------------------------------------------------------------ the centuries

  /** `y` ends in the two digits `yy`. */
  predicate EndsIn(y: int, yy: nat) { y % 100 == yy }

  lemma EqualEndings(y: int, z: int, yy: nat)
    requires EndsIn(y, yy) && EndsIn(z, yy) && y < z
    ensures y + 100 <= z
  {
  }

  /** A birth year is the latest year ending in the printed digits that is not after the current one; an
      expiry year the earliest such year of the current century or later that is at most 50 years past. */
  lemma YearIsInferred(yy: nat, current: int, z: int)
    requires yy < 100 && EndsIn(z, yy)
    ensures var birth := ExpandedYear(yy, Birth, current);
            EndsIn(birth, yy) && birth <= current && (z <= current ==> z <= birth)
    ensures var expiry := ExpandedYear(yy, Expiry, current);
            EndsIn(expiry, yy) && expiry >= current - 50 && expiry >= current - current % 100
            && (z >= current - 50 && z >= current - current % 100 ==> expiry <= z)
  {
    var birth, expiry := ExpandedYear(yy, Birth, current), ExpandedYear(yy, Expiry, current);
    assert EndsIn(birth, yy) && EndsIn(expiry, yy);
    if birth < z { EqualEndings(birth, z, yy); }
    if z < expiry { EqualEndings(z, expiry, yy); }
  }

  predicate RealDate(d: Date) { 1 <= d.month <= 12 && 1 <= d.day <= DaysIn(d.year, d.month) }

  /** The calendar is the Gregorian one. */
  lemma MonthLengths(year: int, month: nat)
    requires 1 <= month <= 12
    ensures var february := if year % 400 == 0 || (year % 4 == 0 && year % 100 != 0) then 29 else 28;
            DaysIn(year, month) == [31, february, 31, 30, 31, 30, 31, 31, 30, 31, 30, 31][month - 1]
  {
  }

  /** Two digits are read as a decimal number. */
  lemma TwoIsDecimal(s: string, i: nat, n: nat)
    requires i + 1 < |s| && n < 100
    ensures s[i..i + 2] == ["0123456789"[n / 10], "0123456789"[n % 10]] <==> IsDigit(s[i]) && IsDigit(s[i + 1]) && Two(s, i) == n
  {
    assert s[i..i + 2] == [s[i], s[i + 1]];
    DigitOf(n / 10);
    DigitOf(n % 10);
  }

  lemma DigitOf(d: nat)
    requires d < 10
    ensures "0123456789"[d] == (48 + d) as char
  {
    assert d == 0 || d == 1 || d == 2 || d == 3 || d == 4 || d == 5 || d == 6 || d == 7 || d == 8 || d == 9;
  }

  /** The expansion accepts exactly the six digits that name a day of the calendar in the inferred year, and
      gives that day. */
  lemma ExpansionIsCalendar(s: string, kind: Kind, reference: Instant, d: Date)
    ensures ExpandMrzDate(s, kind, reference) == Some(d) <==>
            && SixDigits(s) && RealDate(d)
            && d == Date(Legacy(ExpandedYear(Two(s, 0), kind, reference.date.year)), Two(s, 2), Two(s, 4))
  {
  }

  /** The expanded birth date lies after the reference day, although a birth date is meant to be past, exactly
      when the printed year is the current one and the printed month and day are still to come, or when
      `Date.UTC` takes the inferred year of the first century for a year of the twentieth. */
  lemma BirthInFuture(s: string, reference: Instant)
    requires ExpandMrzDate(s, Birth, reference).Some?
    ensures var birth := ExpandMrzDate(s, Birth, reference).value;
            DateBefore(reference.date, birth) <==>
            || 0 <= ExpandedYear(Two(s, 0), Birth, reference.date.year) < 100
            || (&& Two(s, 0) == reference.date.year % 100
                && (reference.date.month < Two(s, 2) || (reference.date.month == Two(s, 2) && reference.date.day < Two(s, 4))))
  {
    var yy := Two(s, 0);
    var y := ExpandedYear(yy, Birth, reference.date.year);
    assert y <= reference.date.year < y + 100;
    assert y == reference.date.year <==> yy == reference.date.year % 100;
  }

  lemma BirthInFutureHappens()
    ensures ExpandMrzDate("261231", Birth, Instant(Date(2026, 7, 1), 0)) == Some(Date(2026, 12, 31))
    ensures DateBefore(Date(2026, 7, 1), Date(2026, 12, 31))
  {
    var s := "261231";
    assert SixDigits(s);
    assert Two(s, 0) == 26 && Two(s, 2) == 12 && Two(s, 4) == 31;
  }
}
