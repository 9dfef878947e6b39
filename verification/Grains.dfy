/** Lookbacks and metric grains: reading durations such as `P1DT6H`, `PT5M` or `24 H`, printing Azure's
    grains in that form, and choosing a grain that keeps a chart readable. Durations are in microseconds,
    rounded as timedelta rounds; numbers are exact before that rounding. */
module Grains {
  import opened Collections
  import opened Numerals

  const SECOND := 1_000_000
  const MINUTE := 60_000_000
  const HOUR := 3_600_000_000
  const DAY := 86_400_000_000
  const LONGEST := 93 * DAY

  // ----- Reading a lookback -----

  function DigitRun(s: string): (n: nat)
    ensures n <= |s| && AllDigits(s[..n]) && (n < |s| ==> !IsDigit(s[n]))
  {
    if s == "" || !IsDigit(s[0]) then 0 else 1 + DigitRun(s[1..])
  }

  /** `\d+(\.\d+)?` at the front of `s`, and what follows it. */
  function Number(s: string): Option<(real, string)> {
    var n := DigitRun(s);
    if n == 0 then None else
    var whole, rest := ValueOf(s[..n]), s[n..];
    var m := if rest != "" && rest[0] == '.' then DigitRun(rest[1..]) else 0;
    if m == 0 then Some((whole as real, rest))
    else Some((whole as real + Fraction(rest[1..][..m]), rest[1..][m..]))
  }

  /** The digits behind a decimal point. */
  function Fraction(digits: string): real
    requires AllDigits(digits)
  {
    ValueOf(digits) as real / PowerOfTen(|digits|)
  }

  function PowerOfTen(m: nat): (r: real)
    ensures r > 0.0
  {
    Pow10IsPositive(m);
    Pow10(m) as real
  }

  lemma {:induction false} Pow10IsPositive(m: nat)
    ensures Pow10(m) > 0
  {
    if m > 0 { Pow10IsPositive(m - 1); }
  }

  /** The optional group of a number and its unit letter, and what follows it. */
  function Amount(s: string, unit: char): (Option<real>, string) {
    match Number(s)
    case None => (None, s)
    case Some((x, rest)) => if rest != "" && rest[0] == unit then (Some(x), rest[1..]) else (None, s)
  }

  datatype Parts = Parts(days: real, hours: real, minutes: real)

  function OrZero(x: Option<real>): real {
    if x.Some? then x.value else 0.0
  }

  /** `P[nD][T[nH][nM]]` with at least one amount. */
  function ReadIso(s: string): Option<Parts> {
    if s == "" || s[0] != 'P' then None else
    var (d, afterDays) := Amount(s[1..], 'D');
    if afterDays == "" then (if d.Some? then Some(Parts(d.value, 0.0, 0.0)) else None)
    else if afterDays[0] != 'T' then None
    else ReadClock(d, afterDays[1..])
  }

  /** What follows the T. */
  function ReadClock(d: Option<real>, s: string): Option<Parts> {
    var (h, afterHours) := Amount(s, 'H');
    var (m, rest) := Amount(afterHours, 'M');
    if rest != "" || (d.None? && h.None? && m.None?) then None
    else Some(Parts(OrZero(d), OrZero(h), OrZero(m)))
  }

  function SkipSpace(s: string): string {
    if s != "" && s[0] in " \t\n\r" then SkipSpace(s[1..]) else s
  }

  /** A number and a unit, such as `24H` or `7 D`. */
  function ReadShort(s: string): Option<Parts> {
    match Number(s)
    case None => None
    case Some((x, after)) =>
      var unit := SkipSpace(after);
      if unit == "D" then Some(Parts(x, 0.0, 0.0))
      else if unit == "H" then Some(Parts(0.0, x, 0.0))
      else if unit == "M" then Some(Parts(0.0, 0.0, x))
      else None
  }

  function RoundHalfEven(x: real): int {
    var f := x.Floor;
    var tail := x - f as real;
    if tail < 0.5 || (tail == 0.5 && f % 2 == 0) then f else f + 1
  }

  /** Beyond this many days timedelta raises an overflow. */
  const MOST_DAYS := 1_000_000_000

  /** The exact length of the amounts, in microseconds. */
  function Sum(p: Parts): real {
    p.days * DAY as real + p.hours * HOUR as real + p.minutes * MINUTE as real
  }

  /** `timedelta(...)`, None for an overflow. */
  function Duration(p: Parts): Option<int> {
    var micros := RoundHalfEven(Sum(p));
    if micros >= MOST_DAYS * DAY then None else Some(micros)
  }

  /** The amounts a stripped, upper-cased text names; none at all in a text that is not recognised. */
  function Amounts(s: string): Parts {
    match ReadIso(s)
    case Some(p) => p
    case None => (match ReadShort(s) case Some(p) => p case None => Parts(0.0, 0.0, 0.0))
  }

  /** The amounts come, rounded to a microsecond, to a billion days or more. */
  predicate TooLong(p: Parts) {
    Sum(p) >= (MOST_DAYS * DAY) as real - 0.5
  }

  lemma RoundsUpTo(x: real, even: int)
    requires even % 2 == 0
    ensures RoundHalfEven(x) >= even <==> x >= even as real - 0.5
  {
    var f := x.Floor;
    if f == even - 1 {
      assert f % 2 == 1;
    }
  }

  /** What remains of a duration once it is made positive and cut to the longest. */
  function Bounded(delta: int): int {
    var positive := if delta <= 0 then DAY else delta;
    if positive <= LONGEST then positive else LONGEST
  }

  /** The lookback of a stripped, upper-cased text; None when it overflows. Anything unrecognised is one
      day, and nothing exceeds 93 days. */
  function Lookback(s: string): (r: Option<int>)
    ensures r.Some? ==> 0 < r.value <= LONGEST
    ensures r == None <==> TooLong(Amounts(s))
  {
    RoundsUpTo(Sum(Amounts(s)), MOST_DAYS * DAY);
    match Duration(Amounts(s))
    case None => None
    case Some(delta) => Some(Bounded(delta))
  }

  // ----- What is read -----

  function Blanks(n: nat): string {
    if n == 0 then "" else " " + Blanks(n - 1)
  }

  lemma {:induction false} SkipsBlanks(n: nat, s: string)
    requires s != "" && s[0] !in " \t\n\r"
    ensures SkipSpace(Blanks(n) + s) == s
  {
    if n == 0 {
      assert Blanks(0) + s == s;
    } else {
      SkipsBlanks(n - 1, s);
      assert (Blanks(n) + s)[1..] == Blanks(n - 1) + s;
    }
  }

  lemma {:induction false} BlankFront(n: nat, s: string)
    requires s != ""
    ensures Blanks(n) + s != "" && (Blanks(n) + s)[0] == if n == 0 then s[0] else ' '
  {
  }

  /** A number, blanks, and D, H or M for days, hours and minutes. */
  lemma ShortIsRead(n: nat, blanks: nat, unit: char)
    requires unit in {'D', 'H', 'M'}
    ensures ReadShort(Decimal(n) + (Blanks(blanks) + [unit])) ==
            Some(if unit == 'D' then Parts(n as real, 0.0, 0.0) else if unit == 'H' then Parts(0.0, n as real, 0.0)
                 else Parts(0.0, 0.0, n as real))
    ensures ReadIso(Decimal(n) + (Blanks(blanks) + [unit])) == None
  {
    var after := Blanks(blanks) + [unit];
    BlankFront(blanks, [unit]);
    NumberIsRead(n, after);
    SkipsBlanks(blanks, [unit]);
    UnitIsRead(Decimal(n) + after, n as real, after, unit);
    assert IsDigit(Decimal(n)[0]) && (Decimal(n) + after)[0] == Decimal(n)[0];
    NotIso(Decimal(n) + after);
  }

  lemma NotIso(s: string)
    requires s != "" && IsDigit(s[0])
    ensures ReadIso(s) == None
  {
  }

  lemma UnitIsRead(s: string, x: real, after: string, unit: char)
    requires unit in {'D', 'H', 'M'} && Number(s) == Some((x, after)) && SkipSpace(after) == [unit]
    ensures ReadShort(s) ==
            Some(if unit == 'D' then Parts(x, 0.0, 0.0) else if unit == 'H' then Parts(0.0, x, 0.0) else Parts(0.0, 0.0, x))
  {
  }

  /** So `24H` is 24 hours, `90 M` 90 minutes and `7D` seven days. */
  lemma ShortLookback(n: nat, blanks: nat, unit: char)
    requires n > 0 && unit in {'D', 'H', 'M'}
    ensures Lookback(Decimal(n) + (Blanks(blanks) + [unit])) ==
            Kept(n * if unit == 'D' then 86_400_000_000 else if unit == 'H' then 3_600_000_000 else 60_000_000)
  {
    ShortIsRead(n, blanks, unit);
    if unit == 'D' { SumOfDays(n); } else if unit == 'H' { SumOfHours(n); } else { SumOfMinutes(n); }
  }

  function HoursAndMinutes(h: nat, m: nat): string {
    Decimal(h) + ("H" + (Decimal(m) + "M"))
  }

  lemma ClockPartsAreRead(d: Option<real>, h: nat, m: nat)
    ensures ReadClock(d, HoursAndMinutes(h, m)) == Some(Parts(OrZero(d), h as real, m as real))
  {
    var minutes := Decimal(m) + "M";
    AmountBefore(h, 'H', minutes);
    assert ['H'] + minutes == "H" + minutes;
    AmountBefore(m, 'M', "");
    assert ['M'] + "" == "M";
  }

  /** Days, hours and minutes together. */
  lemma AllPartsAreRead(d: nat, h: nat, m: nat)
    ensures ReadIso("P" + (Decimal(d) + ("DT" + HoursAndMinutes(h, m)))) == Some(Parts(d as real, h as real, m as real))
  {
    DaysBefore(d, HoursAndMinutes(h, m));
    ClockPartsAreRead(Some(d as real), h, m);
    DaysThenClock(Decimal(d) + ("DT" + HoursAndMinutes(h, m)), Some(d as real), HoursAndMinutes(h, m),
                  Parts(d as real, h as real, m as real));
  }

  lemma DaysBefore(d: nat, clock: string)
    ensures Amount(Decimal(d) + ("DT" + clock), 'D') == (Some(d as real), "T" + clock)
  {
    TwoLetters(clock);
    AmountBefore(d, 'D', "T" + clock);
  }

  lemma TwoLetters(s: string)
    ensures "DT" + s == ['D'] + ("T" + s)
  {
  }

  lemma DaysThenClock(s: string, d: Option<real>, clock: string, p: Parts)
    requires Amount(s, 'D') == (d, "T" + clock) && ReadClock(d, clock) == Some(p)
    ensures ReadIso("P" + s) == Some(p)
  {
    assert ("P" + s)[1..] == s && ("T" + clock)[1..] == clock;
  }

  lemma AmountBefore(n: nat, unit: char, rest: string)
    requires unit in {'D', 'H', 'M'}
    ensures Amount(Decimal(n) + ([unit] + rest), unit) == (Some(n as real), rest)
  {
    NumberIsRead(n, [unit] + rest);
    assert ([unit] + rest)[1..] == rest;
  }

  /** Digits behind a point are a decimal fraction. */
  lemma FractionIs(digits: string)
    requires AllDigits(digits)
    ensures Fraction(digits) * Pow10(|digits|) as real == ValueOf(digits) as real
  {
    Pow10IsPositive(|digits|);
  }

  lemma PointIsRead(whole: string, digits: string, rest: string)
    requires whole != "" && AllDigits(whole) && digits != "" && AllDigits(digits) && rest != "" && !IsDigit(rest[0])
    ensures Number(whole + ("." + (digits + rest))) ==
            Some((ValueOf(whole) as real + Fraction(digits), rest))
  {
    var tail := digits + rest;
    var after := "." + tail;
    RunOfDigits(whole, after);
    RunOfDigits(digits, rest);
    Pieces(whole, after);
    Pieces(digits, rest);
    Pieces(".", tail);
    PointAfter(whole + after, whole, tail, digits, rest);
  }

  lemma PointAfter(s: string, whole: string, tail: string, digits: string, rest: string)
    requires |whole| > 0 && |whole| == DigitRun(s) && s[..|whole|] == whole && s[|whole|..] == "." + tail
    requires |digits| > 0 && |digits| == DigitRun(tail) && tail[..|digits|] == digits && tail[|digits|..] == rest
    requires AllDigits(whole) && AllDigits(digits)
    ensures Number(s) == Some((ValueOf(whole) as real + Fraction(digits), rest))
  {
    var after := s[|whole|..];
    assert after[0] == '.' && after[1..] == tail;
  }

  lemma Pieces(a: string, b: string)
    ensures (a + b)[..|a|] == a && (a + b)[|a|..] == b
  {
  }

  // ----- Printing a grain -----

  /** The ISO form of a grain of that many seconds, empty unless positive. */
  function Iso(total: int): string {
    if total <= 0 then ""
    else if total % 86400 == 0 then "P" + Decimal(total / 86400) + "D"
    else if total % 3600 == 0 then "PT" + Decimal(total / 3600) + "H"
    else if total % 60 == 0 then "PT" + Decimal(total / 60) + "M"
    else "PT" + Decimal(total) + "S"
  }

  lemma {:induction false} RunOfDigits(digits: string, rest: string)
    requires AllDigits(digits) && (rest != "" ==> !IsDigit(rest[0]))
    ensures DigitRun(digits + rest) == |digits|
  {
    if digits == "" {
      assert digits + rest == rest;
    } else {
      assert (digits + rest)[1..] == digits[1..] + rest;
      RunOfDigits(digits[1..], rest);
    }
  }

  lemma NumberIsRead(n: nat, rest: string)
    requires rest != "" && !IsDigit(rest[0]) && rest[0] != '.'
    ensures Number(Decimal(n) + rest) == Some((n as real, rest))
  {
    var s := Decimal(n) + rest;
    RunOfDigits(Decimal(n), rest);
    assert s[..|Decimal(n)|] == Decimal(n) && s[|Decimal(n)|..] == rest;
    ReadingBack(n);
  }

  lemma WholeMicros(n: int)
    ensures RoundHalfEven(n as real) == n
  {
  }

  lemma ReadDays(n: nat)
    ensures ReadIso("P" + Decimal(n) + "D") == Some(Parts(n as real, 0.0, 0.0))
  {
    var s := "P" + Decimal(n) + "D";
    assert s[1..] == Decimal(n) + "D";
    NumberIsRead(n, "D");
  }

  lemma ReadTime(n: nat, unit: char)
    requires unit in {'H', 'M', 'S'}
    ensures ReadIso("PT" + Decimal(n) + [unit]) ==
            if unit == 'H' then Some(Parts(0.0, n as real, 0.0))
            else if unit == 'M' then Some(Parts(0.0, 0.0, n as real)) else None
  {
    var s := "PT" + Decimal(n) + [unit];
    var tail := Decimal(n) + [unit];
    assert s[1..] == "T" + tail && s[1..][1..] == tail;
    assert Amount(s[1..], 'D') == (None, s[1..]);
    ClockIsRead(n, unit);
  }

  lemma ClockIsRead(n: nat, unit: char)
    requires unit in {'H', 'M', 'S'}
    ensures ReadClock(None, Decimal(n) + [unit]) ==
            if unit == 'H' then Some(Parts(0.0, n as real, 0.0))
            else if unit == 'M' then Some(Parts(0.0, 0.0, n as real)) else None
  {
    AmountIsRead(n, unit, 'H');
    AmountIsRead(n, unit, 'M');
    assert Amount("", 'M') == (None, "");
  }

  lemma AmountIsRead(n: nat, unit: char, expected: char)
    requires unit in {'H', 'M', 'S'}
    ensures Amount(Decimal(n) + [unit], expected) ==
            if unit == expected then (Some(n as real), "") else (None, Decimal(n) + [unit])
  {
    NumberIsRead(n, [unit]);
    assert [unit][1..] == "";
  }

  /** How many microseconds of an exact length are read. */
  function Kept(micros: int): Option<int> {
    if micros >= MOST_DAYS * DAY then None else Some(if micros <= LONGEST then micros else LONGEST)
  }

  lemma LookbackOfIso(s: string, p: Parts, micros: int)
    requires ReadIso(s) == Some(p) && micros > 0
    requires Duration(p) == if micros >= MOST_DAYS * DAY then None else Some(micros)
    ensures Lookback(s) == Kept(micros)
  {
  }

  lemma LookbackOfNothing(s: string)
    requires ReadIso(s).None? && ReadShort(s).None?
    ensures Lookback(s) == Some(DAY)
  {
    WholeMicros(0);
  }

  lemma PrintedDays(n: nat)
    requires n > 0
    ensures Lookback("P" + Decimal(n) + "D") == Kept(n * DAY)
  {
    ReadDays(n);
    SumOfDays(n);
    LookbackOfIso("P" + Decimal(n) + "D", Parts(n as real, 0.0, 0.0), n * DAY);
  }

  lemma PrintedHours(n: nat)
    requires n > 0
    ensures Lookback("PT" + Decimal(n) + "H") == Kept(n * HOUR)
  {
    ReadTime(n, 'H');
    SumOfHours(n);
    LookbackOfIso("PT" + Decimal(n) + "H", Parts(0.0, n as real, 0.0), n * HOUR);
  }

  lemma PrintedMinutes(n: nat)
    requires n > 0
    ensures Lookback("PT" + Decimal(n) + "M") == Kept(n * MINUTE)
  {
    ReadTime(n, 'M');
    SumOfMinutes(n);
    LookbackOfIso("PT" + Decimal(n) + "M", Parts(0.0, 0.0, n as real), n * MINUTE);
  }

  lemma PrintedSeconds(n: nat)
    ensures Lookback("PT" + Decimal(n) + "S") == Some(DAY)
  {
    ReadTime(n, 'S');
    NotShort("PT" + Decimal(n) + "S");
    LookbackOfNothing("PT" + Decimal(n) + "S");
  }

  lemma WholeUnits(total: int, unit: int)
    requires total > 0 && unit > 0 && total % unit == 0
    ensures total == total / unit * unit && total / unit > 0
  {
  }

  lemma Multiples(total: int)
    ensures total % 86400 == 0 || total % 3600 == 0 ==> total % 60 == 0
  {
    if total % 86400 == 0 { assert total == 60 * (total / 86400 * 1440); }
    if total % 3600 == 0 { assert total == 60 * (total / 3600 * 60); }
  }

  /** The four forms of a printed grain. */
  lemma IsoForms(total: int)
    requires total > 0
    ensures total % 60 != 0 ==> Iso(total) == "PT" + Decimal(total) + "S"
    ensures total % 60 == 0 && total % 3600 != 0 ==> Iso(total) == "PT" + Decimal(total / 60) + "M"
    ensures total % 3600 == 0 && total % 86400 != 0 ==> Iso(total) == "PT" + Decimal(total / 3600) + "H"
    ensures total % 86400 == 0 ==> Iso(total) == "P" + Decimal(total / 86400) + "D"
  {
    if total % 86400 == 0 { assert total == 3600 * (total / 86400 * 24); }
    Multiples(total);
  }

  /** What every printed grain reads back as: one day if it has seconds, for the reader does not know the
      letter S; else its own duration, cut to 93 days, or an overflow from a billion days on. */
  lemma PrintedGrain(total: int)
    requires total > 0
    ensures Lookback(Iso(total)) == if total % 60 != 0 then Some(DAY) else Kept(total * SECOND)
  {
    IsoForms(total);
    Multiples(total);
    if total % 60 != 0 {
      PrintedSeconds(total);
    } else if total % 86400 == 0 {
      WholeUnits(total, 86400);
      PrintedDays(total / 86400);
      assert total / 86400 * DAY == total * SECOND;
    } else if total % 3600 == 0 {
      WholeUnits(total, 3600);
      PrintedHours(total / 3600);
      assert total / 3600 * HOUR == total * SECOND;
    } else {
      WholeUnits(total, 60);
      PrintedMinutes(total / 60);
      assert total / 60 * MINUTE == total * SECOND;
    }
  }

  /** Printing a grain and reading it back keeps its duration exactly for whole minutes up to 93 days. */
  lemma PrintedGrainReadsBackIff(total: int)
    requires total > 0
    ensures Lookback(Iso(total)) == Some(total * SECOND) <==> total % 60 == 0 && total <= 93 * 86400
  {
    PrintedGrain(total);
    KeptIff(Lookback(Iso(total)), total);
  }

  lemma KeptIff(r: Option<int>, total: int)
    requires total > 0 && r == if total % 60 != 0 then Some(DAY) else Kept(total * SECOND)
    ensures r == Some(total * SECOND) <==> total % 60 == 0 && total <= 93 * 86400
  {
    assert total % 60 != 0 ==> total != 86400;
  }

  /** A printed duration overflows exactly from a billion days on, although everything above 93 days is
      said to be capped. */
  lemma PrintedFormsOverflowIff(n: nat)
    ensures Lookback("P" + Decimal(n) + "D") == None <==> n >= 1_000_000_000
    ensures Lookback("PT" + Decimal(n) + "H") == None <==> n >= 24_000_000_000
    ensures Lookback("PT" + Decimal(n) + "M") == None <==> n >= 1_440_000_000_000
  {
    ReadDays(n);
    SumOfDays(n);
    ReadTime(n, 'H');
    SumOfHours(n);
    ReadTime(n, 'M');
    SumOfMinutes(n);
  }

  lemma TenTimes(n: nat, s: string)
    requires n > 0 && Decimal(n) == s
    ensures Decimal(10 * n) == s + "0"
  {
    assert 10 * n / 10 == n && 10 * n % 10 == 0;
  }

  lemma Billion()
    ensures Decimal(1_000_000_000) == "1000000000"
  {
    TenTimes(1, "1");
    TenTimes(10, "10");
    TenTimes(100, "100");
    TenTimes(1_000, "1000");
    TenTimes(10_000, "10000");
    TenTimes(100_000, "100000");
    TenTimes(1_000_000, "1000000");
    TenTimes(10_000_000, "10000000");
    TenTimes(100_000_000, "100000000");
  }

  /** A concrete text that overflows. */
  lemma ABillionDays()
    ensures Lookback("P1000000000D") == None
  {
    PrintedFormsOverflowIff(1_000_000_000);
    BillionDaysText();
  }

  lemma BillionDaysText()
    ensures "P" + Decimal(1_000_000_000) + "D" == "P1000000000D"
  {
    Billion();
  }

  lemma NotShort(s: string)
    requires s != "" && s[0] == 'P'
    ensures ReadShort(s).None?
  {
  }

  lemma SumOfDays(n: nat)
    ensures Duration(Parts(n as real, 0.0, 0.0)) == if n * DAY >= MOST_DAYS * DAY then None else Some(n * DAY)
  {
    assert n as real * DAY as real == (n * DAY) as real;
    WholeMicros(n * DAY);
  }

  lemma SumOfHours(n: nat)
    ensures Duration(Parts(0.0, n as real, 0.0)) == if n * HOUR >= MOST_DAYS * DAY then None else Some(n * HOUR)
  {
    assert n as real * HOUR as real == (n * HOUR) as real;
    WholeMicros(n * HOUR);
  }

  lemma SumOfMinutes(n: nat)
    ensures Duration(Parts(0.0, 0.0, n as real)) == if n * MINUTE >= MOST_DAYS * DAY then None else Some(n * MINUTE)
  {
    assert n as real * MINUTE as real == (n * MINUTE) as real;
    WholeMicros(n * MINUTE);
  }

  // ----- Azure's own notation -----

  function Split(s: string, sep: char): (parts: seq<string>)
    ensures |parts| >= 1
  {
    if s == "" then [""]
    else
      var rest := Split(s[1..], sep);
      if s[0] == sep then [""] + rest else [[s[0]] + rest[0]] + rest[1..]
  }

  function IndexOf(s: string, c: char): (i: nat)
    ensures i <= |s|
  {
    if s == "" || s[0] == c then 0 else 1 + IndexOf(s[1..], c)
  }

  /** The seconds of `[d.]hh:mm[:ss]`; `toInt` is Python's `int`. A day part that is no number counts
      as zero, any other part that is none makes the grain unreadable. */
  function GrainSeconds(toInt: string -> Option<int>, s: string): Option<int> {
    var head := s[..IndexOf(s, ':')];
    var dot := IndexOf(head, '.');
    var (days, clock) :=
      if dot < |head| then (var d := toInt(s[..dot]); if d.Some? then d.value else 0, s[dot + 1..]) else (0, s);
    var parts := Split(clock, ':');
    if |parts| != 2 && |parts| != 3 then None else
    var h, m := toInt(parts[0]), toInt(parts[1]);
    var sec := if |parts| == 3 then toInt(parts[2]) else Some(0);
    if h.None? || m.None? || sec.None? then None
    else Some(days * 86400 + h.value * 3600 + m.value * 60 + sec.value)
  }

  function IsoFromGrain(toInt: string -> Option<int>, s: string): string {
    match GrainSeconds(toInt, s)
    case None => ""
    case Some(total) => Iso(total)
  }

  /** The grains stand in the message in this order. */
  ghost predicate StandAt(toInt: string -> Option<int>, tokens: seq<string>, out: seq<string>, at: seq<nat>) {
    && |at| == |out| && (forall a, b | 0 <= a < b < |at| :: at[a] < at[b])
    && forall a | 0 <= a < |at| :: at[a] < |tokens| && IsoFromGrain(toInt, tokens[at[a]]) == out[a]
  }

  lemma {:induction false} SplitAt(a: string, sep: char, b: string)
    requires sep !in a
    ensures Split(a + [sep] + b, sep) == [a] + Split(b, sep)
  {
    var s := a + [sep] + b;
    if a == "" {
      assert s[1..] == b;
    } else {
      assert s[1..] == a[1..] + [sep] + b;
      SplitAt(a[1..], sep, b);
      assert [a[0]] + a[1..] == a;
    }
  }

  lemma {:induction false} SplitNone(a: string, sep: char)
    requires sep !in a
    ensures Split(a, sep) == [a]
  {
    if a != "" {
      SplitNone(a[1..], sep);
      assert [a[0]] + a[1..] == a;
    }
  }

  lemma {:induction false} IndexAt(a: string, c: char, b: string)
    requires c !in a
    ensures IndexOf(a + [c] + b, c) == |a|
  {
    var s := a + [c] + b;
    if a != "" {
      assert s[1..] == a[1..] + [c] + b;
      IndexAt(a[1..], c, b);
    }
  }

  lemma {:induction false} IndexNone(a: string, c: char)
    requires c !in a
    ensures IndexOf(a, c) == |a|
  {
    if a != "" {
      IndexNone(a[1..], c);
    }
  }

  predicate Plain(s: string) {
    ':' !in s && '.' !in s
  }

  lemma ClockHead(h: string, rest: string)
    requires Plain(h)
    ensures var s := h + ":" + rest;
            s[..IndexOf(s, ':')] == h && IndexOf(h, '.') == |h|
  {
    IndexAt(h, ':', rest);
    IndexNone(h, '.');
    assert (h + ":" + rest)[..|h|] == h;
  }

  /** Hours, minutes and seconds, or hours and minutes. */
  lemma ClockIs(toInt: string -> Option<int>, h: string, m: string, sec: string)
    requires Plain(h) && Plain(m) && Plain(sec) && toInt(h).Some? && toInt(m).Some? && toInt(sec).Some?
    ensures GrainSeconds(toInt, h + ":" + m) == Some(toInt(h).value * 3600 + toInt(m).value * 60)
    ensures GrainSeconds(toInt, h + ":" + (m + ":" + sec)) == Some(toInt(h).value * 3600 + toInt(m).value * 60 + toInt(sec).value)
  {
    ClockHead(h, m);
    ClockHead(h, m + ":" + sec);
    SplitAt(h, ':', m);
    SplitNone(m, ':');
    SplitAt(h, ':', m + ":" + sec);
    SplitAt(m, ':', sec);
    SplitNone(sec, ':');
  }

  /** A number in front of a point counts days. */
  lemma DaysAndClockIs(toInt: string -> Option<int>, d: string, h: string, m: string, sec: string)
    requires Plain(d) && Plain(h) && Plain(m) && Plain(sec)
    requires toInt(d).Some? && toInt(h).Some? && toInt(m).Some? && toInt(sec).Some?
    ensures GrainSeconds(toInt, d + "." + (h + ":" + (m + ":" + sec))) ==
            Some(toInt(d).value * 86400 + toInt(h).value * 3600 + toInt(m).value * 60 + toInt(sec).value)
  {
    var clock := h + ":" + (m + ":" + sec);
    var s := d + "." + clock;
    DottedHead(d, h, m + ":" + sec);
    assert s[..|d|] == d && s[|d| + 1..] == clock;
    SplitAt(h, ':', m + ":" + sec);
    SplitAt(m, ':', sec);
    SplitNone(sec, ':');
  }

  lemma DottedHead(d: string, h: string, rest: string)
    requires Plain(d) && Plain(h)
    ensures var s := d + "." + (h + ":" + rest);
            var head := s[..IndexOf(s, ':')];
            IndexOf(head, '.') == |d| < |head|
  {
    var front := d + "." + h;
    assert d + "." + (h + ":" + rest) == front + ":" + rest;
    assert ':' !in front by {
      assert forall c :: c in front <==> c in d || c == '.' || c in h;
    }
    IndexAt(front, ':', rest);
    assert (front + ":" + rest)[..|front|] == front;
    IndexAt(d, '.', h);
  }

  /** The readable grains of an error message, each once, in order. */
  method SupportedGrains(toInt: string -> Option<int>, tokens: seq<string>) returns (out: seq<string>)
    ensures forall g :: g in out <==> g != "" && exists t <- tokens :: IsoFromGrain(toInt, t) == g
    ensures forall i, j | 0 <= i < j < |out| :: out[i] != out[j]
    ensures exists at: seq<nat> :: StandAt(toInt, tokens, out, at)
  {
    out := [];
    ghost var at: seq<nat> := [];
    for n := 0 to |tokens|
      invariant forall g :: g in out <==> g != "" && exists t <- tokens[..n] :: IsoFromGrain(toInt, t) == g
      invariant forall i, j | 0 <= i < j < |out| :: out[i] != out[j]
      invariant StandAt(toInt, tokens, out, at) && forall a | 0 <= a < |at| :: at[a] < n
    {
      assert forall t :: t in tokens[..n + 1] <==> t in tokens[..n] || t == tokens[n];
      var iso := IsoFromGrain(toInt, tokens[n]);
      if iso != "" && iso !in out {
        out := out + [iso];
        at := at + [n];
      }
    }
    assert tokens[..|tokens|] == tokens;
  }

  // ----- Choosing a grain -----

  /** Only grains that nearly all metrics support. */
  function AutoInterval(delta: int): string {
    if delta <= 12 * HOUR then "PT5M" else if delta <= 14 * DAY then "PT1H" else "P1D"
  }

  /** Five minutes for up to twelve hours, an hour for up to fourteen days, and a day beyond. */
  lemma AutoIntervalIs(delta: int)
    ensures delta <= 43_200_000_000 ==> AutoInterval(delta) == "PT5M"
    ensures 43_200_000_000 < delta <= 1_209_600_000_000 ==> AutoInterval(delta) == "PT1H"
    ensures delta > 1_209_600_000_000 ==> AutoInterval(delta) == "P1D"
  {
  }

  lemma FiveMinutes()
    ensures Lookback("PT5M") == Some(5 * MINUTE)
  {
    PrintedMinutes(5);
    assert Decimal(5) == "5" && "PT" + "5" + "M" == "PT5M";
  }

  lemma OneHour()
    ensures Lookback("PT1H") == Some(HOUR)
  {
    PrintedHours(1);
    assert Decimal(1) == "1" && "PT" + "1" + "H" == "PT1H";
  }

  lemma OneDay()
    ensures Lookback("P1D") == Some(DAY)
  {
    PrintedDays(1);
    assert Decimal(1) == "1" && "P" + "1" + "D" == "P1D";
  }

  function AutoLength(delta: int): int {
    if delta <= 12 * HOUR then 5 * MINUTE else if delta <= 14 * DAY then HOUR else DAY
  }

  lemma AutoIntervalIsRead(delta: int)
    ensures Lookback(AutoInterval(delta)) == Some(AutoLength(delta))
  {
    FiveMinutes();
    OneHour();
    OneDay();
  }

  lemma AutoPoints(r: Option<int>, delta: int)
    requires r == Some(AutoLength(delta)) && delta <= LONGEST
    ensures delta <= 336 * r.value
  {
  }

  /** Whatever text is read without an overflow, the automatic interval gives at most 336 points. */
  lemma AtMost336Points(text: string)
    requires !TooLong(Amounts(text))
    ensures Lookback(text).Some?
    ensures var grain := Lookback(AutoInterval(Lookback(text).value));
            grain.Some? && Lookback(text).value <= 336 * grain.value
  {
    var delta := Lookback(text).value;
    AutoIntervalIsRead(delta);
    AutoPoints(Lookback(AutoInterval(delta)), delta);
  }

  /** The duration by which the source orders and judges a grain: what its name reads as. */
  function Length(name: string): int {
    if Lookback(name).Some? then Lookback(name).value else 0
  }

  /** Places of `names`, by length, those of equal length as they stand. */
  predicate InOrder(length: string -> int, names: seq<string>, r: seq<nat>) {
    && (forall a | 0 <= a < |r| :: r[a] < |names|)
    && forall a, b | 0 <= a < b < |r| :: Precedes(length, names, r[a], r[b])
  }

  predicate Precedes(length: string -> int, names: seq<string>, i: nat, j: nat)
    requires i < |names| && j < |names|
  {
    length(names[i]) < length(names[j]) || (length(names[i]) == length(names[j]) && i < j)
  }

  predicate AllPlaces(r: seq<nat>, n: nat) {
    forall a | 0 <= a < |r| :: r[a] < n
  }

  /** `sorted(allowed, key=length)`, a stable sort, by places. */
  function Order(length: string -> int, names: seq<string>, n: nat): (r: seq<nat>)
    requires n <= |names|
    ensures AllPlaces(r, n)
  {
    if n == 0 then [] else Insert(length, names, Order(length, names, n - 1), n - 1)
  }

  function Insert(length: string -> int, names: seq<string>, r: seq<nat>, n: nat): (r': seq<nat>)
    requires n < |names| && AllPlaces(r, n)
    ensures AllPlaces(r', n + 1)
  {
    if r == [] || length(names[r[|r| - 1]]) <= length(names[n]) then r + [n]
    else Insert(length, names, r[..|r| - 1], n) + [r[|r| - 1]]
  }

  lemma {:induction false} InsertIsInOrder(length: string -> int, names: seq<string>, r: seq<nat>, n: nat)
    requires n < |names| && AllPlaces(r, n) && InOrder(length, names, r)
    ensures InOrder(length, names, Insert(length, names, r, n))
    ensures forall j: nat | AllPrecede(length, names, r, j) && Precedes(length, names, n, j) ::
              AllPrecede(length, names, Insert(length, names, r, n), j)
  {
    BeforeTheLast(length, names, r);
    if r != [] && length(names[r[|r| - 1]]) > length(names[n]) {
      var k := |r| - 1;
      var front := Insert(length, names, r[..k], n);
      InsertIsInOrder(length, names, r[..k], n);
      assert AllPrecede(length, names, front, r[k]);
      assert forall j: nat | AllPrecede(length, names, r, j) :: AllPrecede(length, names, r[..k], j);
    }
  }

  lemma {:induction false} OrderIsInOrder(length: string -> int, names: seq<string>, n: nat)
    requires n <= |names|
    ensures InOrder(length, names, Order(length, names, n))
  {
    if n > 0 {
      OrderIsInOrder(length, names, n - 1);
      InsertIsInOrder(length, names, Order(length, names, n - 1), n - 1);
    }
  }

  lemma {:induction false} InsertKeeps(length: string -> int, names: seq<string>, r: seq<nat>, n: nat)
    requires n < |names| && AllPlaces(r, n)
    ensures forall i :: i in Insert(length, names, r, n) <==> i in r || i == n
  {
    if r != [] && length(names[r[|r| - 1]]) > length(names[n]) {
      var k := |r| - 1;
      InsertKeeps(length, names, r[..k], n);
      assert r == r[..k] + [r[k]];
    }
  }

  /** Every place is there. */
  lemma {:induction false} OrderKeeps(length: string -> int, names: seq<string>, n: nat)
    requires n <= |names|
    ensures forall i :: i in Order(length, names, n) <==> 0 <= i < n
  {
    if n > 0 {
      OrderKeeps(length, names, n - 1);
      InsertKeeps(length, names, Order(length, names, n - 1), n - 1);
    }
  }

  predicate AllPrecede(length: string -> int, names: seq<string>, r: seq<nat>, j: nat) {
    j < |names| && forall a | 0 <= a < |r| :: r[a] < |names| && Precedes(length, names, r[a], j)
  }

  lemma BeforeTheLast(length: string -> int, names: seq<string>, r: seq<nat>)
    requires InOrder(length, names, r)
    ensures r != [] ==> AllPrecede(length, names, r[..|r| - 1], r[|r| - 1])
    ensures r != [] ==> forall a | 0 <= a < |r| :: length(names[r[a]]) <= length(names[r[|r| - 1]])
  {
  }

  /** At most 500 points. */
  predicate Readable(delta: int, micros: int) {
    delta <= 500 * micros
  }

  /** `g` is a finest allowed grain with at most 500 points or, if there is none, a coarsest one. */
  ghost predicate BestGrain(length: string -> int, delta: int, allowed: seq<string>, g: string) {
    && g in allowed
    && (Readable(delta, length(g)) ==> forall x <- allowed | Readable(delta, length(x)) :: length(g) <= length(x))
    && (!Readable(delta, length(g)) ==> forall x <- allowed :: !Readable(delta, length(x)) && length(x) <= length(g))
  }

  /** Which of the grains it is: of several best ones the first that is readable, or the last if none is. */
  ghost predicate BestAt(length: string -> int, delta: int, allowed: seq<string>, k: nat) {
    && k < |allowed|
    && (Readable(delta, length(allowed[k])) ==>
          forall x: nat | x < |allowed| && x != k && Readable(delta, length(allowed[x])) :: Precedes(length, allowed, k, x))
    && (!Readable(delta, length(allowed[k])) ==>
          forall x: nat | x < |allowed| && x != k :: !Readable(delta, length(allowed[x])) && Precedes(length, allowed, x, k))
  }

  lemma BestAtIsBest(length: string -> int, delta: int, allowed: seq<string>, k: nat)
    requires BestAt(length, delta, allowed, k)
    ensures BestGrain(length, delta, allowed, allowed[k])
    ensures forall j: nat | BestAt(length, delta, allowed, j) :: j == k
  {
    forall x <- allowed
      ensures exists i: nat :: i < |allowed| && allowed[i] == x
    {
      var i :| 0 <= i < |allowed| && allowed[i] == x;
    }
  }

  lemma FirstReadableIsBest(length: string -> int, delta: int, allowed: seq<string>, order: seq<nat>, i: nat)
    requires InOrder(length, allowed, order) && (forall x :: x in order <==> 0 <= x < |allowed|)
    requires i < |order| && forall j | 0 <= j < i :: !Readable(delta, length(allowed[order[j]]))
    requires Readable(delta, length(allowed[order[i]])) || i == |order| - 1
    ensures BestAt(length, delta, allowed, order[i])
  {
    forall x: nat | x < |allowed| && x != order[i]
      ensures Readable(delta, length(allowed[order[i]])) && Readable(delta, length(allowed[x])) ==> Precedes(length, allowed, order[i], x)
      ensures !Readable(delta, length(allowed[order[i]])) ==>
                !Readable(delta, length(allowed[x])) && Precedes(length, allowed, x, order[i])
    {
      assert x in order;
      var j :| 0 <= j < |order| && order[j] == x;
    }
  }

  predicate Overflows(name: string) {
    Lookback(name) == None
  }

  method AnyOf(names: seq<string>, p: string -> bool) returns (any: bool)
    ensures any <==> exists g <- names :: p(g)
  {
    for i := 0 to |names|
      invariant forall j | 0 <= j < i :: !p(names[j])
    {
      if p(names[i]) {
        return true;
      }
    }
    any := false;
  }

  /** The sort and the scan, for any measure of a grain. */
  method Choose(length: string -> int, delta: int, allowed: seq<string>) returns (name: string, ghost k: nat)
    ensures allowed == [] ==> name == "PT1H"
    ensures allowed != [] ==> BestAt(length, delta, allowed, k) && name == allowed[k]
  {
    k := 0;
    var order := Order(length, allowed, |allowed|);
    OrderKeeps(length, allowed, |allowed|);
    OrderIsInOrder(length, allowed, |allowed|);
    for i := 0 to |order|
      invariant forall j | 0 <= j < i :: !Readable(delta, length(allowed[order[j]]))
    {
      if Readable(delta, length(allowed[order[i]])) {
        FirstReadableIsBest(length, delta, allowed, order, i);
        return allowed[order[i]], order[i];
      }
    }
    if order == [] {
      assert 0 !in order;
      return "PT1H", 0;
    }
    var last := |order| - 1;
    FirstReadableIsBest(length, delta, allowed, order, last);
    name, k := allowed[order[last]], order[last];
  }

  /** A best grain, or an hour if no grain is allowed; None when the name of one overflows. */
  method PickGrain(delta: int, allowed: seq<string>) returns (name: Option<string>)
    ensures name == None <==> exists g <- allowed :: Overflows(g)
    ensures allowed == [] ==> name == Some("PT1H")
    ensures name.Some? && allowed != [] ==> exists k: nat :: BestAt(Length, delta, allowed, k) && name == Some(allowed[k])
    ensures name.Some? && allowed != [] ==> BestGrain(Length, delta, allowed, name.value)
  {
    var overflow := AnyOf(allowed, Overflows);
    if overflow {
      return None;
    }
    ghost var k;
    var best;
    best, k := Choose(Length, delta, allowed);
    if allowed != [] {
      BestAtIsBest(Length, delta, allowed, k);
    }
    name := Some(best);
  }

  /** The names of grains of so many seconds. */
  function Printed(totals: seq<int>): seq<string> {
    seq(|totals|, i requires 0 <= i < |totals| => Iso(totals[i]))
  }

  // ----- When the choice by reading is the choice by duration -----

  /** `t` is a finest of `totals`, in seconds, with at most 500 points or, if there is none, a coarsest one,
      by this measure. */
  ghost predicate BestBy(length: int -> int, delta: int, totals: seq<int>, t: int) {
    && t in totals
    && (Readable(delta, length(t) * SECOND) ==>
          forall u <- totals | Readable(delta, length(u) * SECOND) :: length(t) <= length(u))
    && (!Readable(delta, length(t) * SECOND) ==>
          forall u <- totals :: !Readable(delta, length(u) * SECOND) && length(u) <= length(t))
  }

  function Exact(t: int): int { t }

  /** For every span, whatever is best as read is best by duration. */
  ghost predicate AlwaysRight(read: int -> int, totals: seq<int>) {
    forall delta, t | 0 < delta && BestBy(read, delta, totals, t) :: BestBy(Exact, delta, totals, t)
  }

  /** Each grain that is misread is coarser than all others, in truth and as read. */
  ghost predicate MisreadAreCoarsest(read: int -> int, totals: seq<int>) {
    forall t <- totals, u <- totals | read(t) != t && u != t :: u < t && u < read(t)
  }

  lemma {:induction false} SomeBest(length: int -> int, delta: int, totals: seq<int>) returns (t: int)
    requires totals != []
    ensures BestBy(length, delta, totals, t)
  {
    var n := |totals| - 1;
    var last := totals[n];
    assert forall u :: u in totals <==> u in totals[..n] || u == last;
    t := last;
    if n > 0 {
      var b := SomeBest(length, delta, totals[..n]);
      var bOk, lastOk := Readable(delta, length(b) * SECOND), Readable(delta, length(last) * SECOND);
      if (bOk && (!lastOk || length(b) <= length(last))) || (!bOk && !lastOk && length(last) <= length(b)) {
        t := b;
      }
    }
  }

  lemma {:induction false} UpperBound(read: int -> int, totals: seq<int>) returns (most: int)
    ensures most > 0 && forall t <- totals :: t < most && read(t) < most
  {
    most := 1;
    if totals != [] {
      var n := |totals| - 1;
      var rest := UpperBound(read, totals[..n]);
      assert forall u :: u in totals <==> u in totals[..n] || u == totals[n];
      most := Max(rest, Max(totals[n] + 1, read(totals[n]) + 1));
    }
  }

  function Max(a: int, b: int): int {
    if a < b then b else a
  }

  /** In a span for which none is readable the coarsest as read is picked, so it has to be the coarsest. */
  lemma CoarsestIsCoarsest(read: int -> int, totals: seq<int>, t: int)
    requires AlwaysRight(read, totals) && t in totals && forall u <- totals :: read(u) <= read(t)
    ensures forall u <- totals :: u <= t
  {
    var most := UpperBound(read, totals);
    var delta := 500 * most * SECOND;
    assert forall u <- totals :: !Readable(delta, u * SECOND) && !Readable(delta, read(u) * SECOND);
    assert BestBy(read, delta, totals, t);
    assert BestBy(Exact, delta, totals, t);
  }

  /** In a span just readable at the length read, that grain is picked. */
  lemma JustReadable(read: int -> int, totals: seq<int>, t: int)
    requires AlwaysRight(read, totals) && t in totals && read(t) > 0
    ensures t >= read(t) ==> forall u <- totals | u >= read(t) :: t <= u
    ensures t < read(t) ==> forall u <- totals :: u < read(t) && u <= t
  {
    var delta := 500 * read(t) * SECOND;
    assert forall x: int :: Readable(delta, x * SECOND) <==> x >= read(t);
    assert BestBy(read, delta, totals, t);
    assert BestBy(Exact, delta, totals, t);
  }

  /** In a span just too long for the length read, a grain that is truly longer is passed over for one read
      as longer still, if there is any. */
  lemma ReadShorter(read: int -> int, totals: seq<int>, t: int)
    requires AlwaysRight(read, totals) && t in totals && 0 < read(t) < t
    ensures forall u <- totals :: u <= t
  {
    JustReadable(read, totals, t);
    var delta := 500 * read(t) * SECOND + 1;
    assert forall x: int :: Readable(delta, x * SECOND) <==> x > read(t);
    var p := SomeBest(read, delta, totals);
    assert BestBy(Exact, delta, totals, p);
    assert forall w <- totals :: read(w) <= read(t);
    CoarsestIsCoarsest(read, totals, t);
  }

  lemma MisreadIsCoarsest(read: int -> int, totals: seq<int>, t: int, u: int)
    requires AlwaysRight(read, totals) && t in totals && u in totals && read(t) != t && u != t && read(t) > 0
    ensures u < t && u < read(t)
  {
    JustReadable(read, totals, t);
    if read(t) < t {
      ReadShorter(read, totals, t);
    }
  }

  lemma CoarsestMisreadIsRight(read: int -> int, totals: seq<int>, delta: int, t: int)
    requires MisreadAreCoarsest(read, totals) && BestBy(read, delta, totals, t)
    ensures BestBy(Exact, delta, totals, t)
  {
    if m :| m in totals && read(m) != m {
      assert forall u <- totals | u != m :: u < m && u < read(m) && read(u) == u;
    }
  }

  /** However grains are read, the choice is right for every span if and only if each misread grain is coarser
      than all others, in truth and as read. */
  lemma AlwaysRightIff(read: int -> int, totals: seq<int>)
    requires forall t <- totals :: read(t) > 0
    ensures AlwaysRight(read, totals) <==> MisreadAreCoarsest(read, totals)
  {
    if AlwaysRight(read, totals) {
      forall t <- totals, u <- totals | read(t) != t && u != t
        ensures u < t && u < read(t)
      {
        MisreadIsCoarsest(read, totals, t, u);
      }
    } else {
      var delta, t :| 0 < delta && BestBy(read, delta, totals, t) && !BestBy(Exact, delta, totals, t);
      if MisreadAreCoarsest(read, totals) {
        CoarsestMisreadIsRight(read, totals, delta, t);
      }
    }
  }

  /** The same for the spans that a lookback can have, of at most 93 days. */
  ghost predicate RightForLookbacks(read: int -> int, totals: seq<int>) {
    forall delta, t | 0 < delta <= LONGEST && BestBy(read, delta, totals, t) :: BestBy(Exact, delta, totals, t)
  }

  /** From so many seconds on a grain is readable for every lookback. */
  const LONG := 16_071

  lemma LongIsReadable(x: int)
    ensures Readable(LONGEST, x * SECOND) <==> x >= LONG
  {
  }

  /** `h` is the finest of the long ones, in truth and as read. */
  ghost predicate FinestLong(read: int -> int, totals: seq<int>, h: int) {
    h in totals && h >= LONG && forall u <- totals | u >= LONG && u != h :: h < u && read(h) < read(u)
  }

  ghost predicate ShortMisreadAreCoarsest(read: int -> int, totals: seq<int>) {
    forall t <- totals, u <- totals | read(t) != t && t < LONG && u != t :: u < t
  }

  ghost predicate LongMisreadAreOrdered(read: int -> int, totals: seq<int>) {
    (exists t <- totals :: read(t) != t && t >= LONG) ==> exists h :: FinestLong(read, totals, h)
  }

  /** A misread grain is read as a long one. */
  ghost predicate ReadAsLong(read: int -> int, totals: seq<int>) {
    forall t <- totals :: t > 0 && (read(t) != t ==> read(t) >= LONG)
  }

  lemma ShortMisread(read: int -> int, totals: seq<int>, t: int, u: int)
    requires ReadAsLong(read, totals) && RightForLookbacks(read, totals)
    requires t in totals && u in totals && read(t) != t && t < LONG && u != t
    ensures u < t
  {
    var delta := 500 * t * SECOND;
    assert forall x: int :: Readable(delta, x * SECOND) <==> x >= t;
    var p := SomeBest(read, delta, totals);
    assert BestBy(Exact, delta, totals, p);
    assert p == t;
    forall x: int
      ensures Readable(LONGEST, x * SECOND) <==> x >= LONG
    {
      LongIsReadable(x);
    }
    assert BestBy(read, LONGEST, totals, t);
    assert BestBy(Exact, LONGEST, totals, t);
  }

  lemma LongMisread(read: int -> int, totals: seq<int>, m: int) returns (h: int)
    requires ReadAsLong(read, totals) && RightForLookbacks(read, totals)
    requires m in totals && read(m) != m && m >= LONG
    ensures FinestLong(read, totals, h)
  {
    forall x: int
      ensures Readable(LONGEST, x * SECOND) <==> x >= LONG
    {
      LongIsReadable(x);
    }
    h := SomeBest(read, LONGEST, totals);
    assert BestBy(Exact, LONGEST, totals, h);
    forall u <- totals | u >= LONG && u != h
      ensures h < u && read(h) < read(u)
    {
      assert BestBy(read, LONGEST, totals, u) ==> BestBy(Exact, LONGEST, totals, u);
    }
  }

  /** Long grains are readable as read and in truth. */
  lemma LongOnes(read: int -> int, totals: seq<int>, delta: int)
    requires ReadAsLong(read, totals) && 0 < delta <= LONGEST
    ensures forall u <- totals | u >= LONG :: Readable(delta, u * SECOND) && read(u) >= LONG && Readable(delta, read(u) * SECOND)
  {
  }

  lemma OrderedLongIsRight(read: int -> int, totals: seq<int>, delta: int, t: int, h: int)
    requires ReadAsLong(read, totals) && FinestLong(read, totals, h) && 0 < delta <= LONGEST
    requires forall u <- totals | u < LONG :: read(u) == u
    requires BestBy(read, delta, totals, t)
    ensures BestBy(Exact, delta, totals, t)
  {
    LongOnes(read, totals, delta);
  }

  lemma {:induction false} RightForLookbacksIff(read: int -> int, totals: seq<int>)
    requires ReadAsLong(read, totals)
    ensures RightForLookbacks(read, totals) <==>
            ShortMisreadAreCoarsest(read, totals) && LongMisreadAreOrdered(read, totals)
  {
    if RightForLookbacks(read, totals) {
      forall t <- totals, u <- totals | read(t) != t && t < LONG && u != t
        ensures u < t
      {
        ShortMisread(read, totals, t, u);
      }
      if m :| m in totals && read(m) != m && m >= LONG {
        var h := LongMisread(read, totals, m);
      }
    } else {
      var delta, t :| 0 < delta <= LONGEST && BestBy(read, delta, totals, t) && !BestBy(Exact, delta, totals, t);
      if ShortMisreadAreCoarsest(read, totals) && LongMisreadAreOrdered(read, totals) {
        OrderedIsRight(read, totals, delta, t);
      }
    }
  }

  lemma OrderedIsRight(read: int -> int, totals: seq<int>, delta: int, t: int)
    requires ReadAsLong(read, totals) && 0 < delta <= LONGEST && BestBy(read, delta, totals, t)
    requires ShortMisreadAreCoarsest(read, totals) && LongMisreadAreOrdered(read, totals)
    ensures BestBy(Exact, delta, totals, t)
  {
    if m :| m in totals && read(m) != m && m < LONG {
      assert forall u <- totals | u != m :: u < m && read(u) == u;
      CoarsestMisreadIsRight(read, totals, delta, t);
    } else if m :| m in totals && read(m) != m {
      var h :| FinestLong(read, totals, h);
      OrderedLongIsRight(read, totals, delta, t, h);
    } else {
      CoarsestMisreadIsRight(read, totals, delta, t);
    }
  }

  // ----- The same of grains as they are printed -----

  /** The seconds that a printed grain reads back as. */
  function ReadAs(t: int): int {
    if t % 60 != 0 then 86400 else if t <= 93 * 86400 then t else 93 * 86400
  }

  /** Grains whose names can be read without an overflow. */
  predicate Printable(totals: seq<int>) {
    forall i | 0 <= i < |totals| :: 0 < totals[i] && (totals[i] % 60 == 0 ==> totals[i] < MOST_DAYS * 86400)
  }

  lemma PrintedLength(t: int)
    requires 0 < t && (t % 60 == 0 ==> t < MOST_DAYS * 86400)
    ensures Length(Iso(t)) == ReadAs(t) * SECOND
  {
    PrintedGrain(t);
  }

  lemma PickIsBestAsRead(delta: int, totals: seq<int>, t: int)
    requires Printable(totals) && t in totals
    ensures BestGrain(Length, delta, Printed(totals), Iso(t)) <==> BestBy(ReadAs, delta, totals, t)
  {
    forall i | 0 <= i < |totals|
      ensures Length(Iso(totals[i])) == ReadAs(totals[i]) * SECOND
    {
      PrintedLength(totals[i]);
    }
    SameMeasure(Length, ReadAs, delta, totals, t);
  }

  lemma SameMeasure(length: string -> int, read: int -> int, delta: int, totals: seq<int>, t: int)
    requires t in totals && forall i | 0 <= i < |totals| :: length(Iso(totals[i])) == read(totals[i]) * SECOND
    ensures BestGrain(length, delta, Printed(totals), Iso(t)) <==> BestBy(read, delta, totals, t)
  {
    var names := Printed(totals);
    forall u <- totals
      ensures Iso(u) in names && length(Iso(u)) == read(u) * SECOND
    {
      var i :| 0 <= i < |totals| && totals[i] == u;
      assert names[i] == Iso(u);
    }
    forall x <- names
      ensures exists u <- totals :: x == Iso(u)
    {
      var i :| 0 <= i < |names| && names[i] == x;
      assert totals[i] in totals;
    }
  }

  /** The grain picked for a span is always a finest readable one by its true duration, or a coarsest. */
  ghost predicate PicksTheFinest(totals: seq<int>, longest: Option<int>) {
    forall delta, t | 0 < delta && (longest.Some? ==> delta <= longest.value) && t in totals
                      && BestGrain(Length, delta, Printed(totals), Iso(t)) :: BestBy(Exact, delta, totals, t)
  }

  /** For every span whatever: if and only if each grain with seconds, and each of more than 93 days, is coarser
      than all others, and what it reads as is too. */
  lemma PicksTheFinestIff(totals: seq<int>)
    requires Printable(totals)
    ensures PicksTheFinest(totals, None) <==>
            forall t <- totals, u <- totals | (t % 60 != 0 || t > 93 * 86400) && u != t :: u < t && u < ReadAs(t)
  {
    Misread(totals);
    AlwaysRightIff(ReadAs, totals);
    forall delta, t | t in totals
      ensures BestGrain(Length, delta, Printed(totals), Iso(t)) <==> BestBy(ReadAs, delta, totals, t)
    {
      PickIsBestAsRead(delta, totals, t);
    }
  }

  /** For every lookback: if and only if a misread grain of less than 16071 seconds is coarser than all others
      and, where longer ones are misread, one is finest among those both in truth and as read. */
  lemma PicksTheFinestForLookbacksIff(totals: seq<int>)
    requires Printable(totals)
    ensures PicksTheFinest(totals, Some(LONGEST)) <==>
            ShortMisreadAreCoarsest(ReadAs, totals) && LongMisreadAreOrdered(ReadAs, totals)
  {
    Misread(totals);
    RightForLookbacksIff(ReadAs, totals);
    forall delta, t | t in totals
      ensures BestGrain(Length, delta, Printed(totals), Iso(t)) <==> BestBy(ReadAs, delta, totals, t)
    {
      PickIsBestAsRead(delta, totals, t);
    }
  }

  lemma Misread(totals: seq<int>)
    requires Printable(totals)
    ensures forall t <- totals :: ReadAs(t) > 0 && (ReadAs(t) != t <==> t % 60 != 0 || t > 93 * 86400)
    ensures ReadAsLong(ReadAs, totals)
  {
    forall t <- totals
      ensures t > 0 && ReadAs(t) > 0 && (ReadAs(t) != t <==> t % 60 != 0 || t > 93 * 86400)
      ensures ReadAs(t) != t ==> ReadAs(t) >= LONG
    {
      var i :| 0 <= i < |totals| && totals[i] == t;
      assert t % 60 != 0 ==> t != 86400;
    }
  }

  /** A grain with seconds counts as a day: it is passed over for a coarser one of whole minutes, even where
      it is readable itself. */
  lemma SecondsArePassedOver(delta: int, seconds: int, minutes: int, g: string)
    requires 0 < seconds < minutes < 86400 && seconds % 60 != 0 && minutes % 60 == 0
    requires Readable(delta, seconds * SECOND)
    ensures BestGrain(Length, delta, [Iso(seconds), Iso(minutes)], g) <==> g == Iso(minutes)
  {
    PrintedLength(seconds);
    PrintedLength(minutes);
    FinerIsPicked(Length, delta, Iso(minutes), Iso(seconds), g);
    Swapped(Length, delta, Iso(seconds), Iso(minutes), g);
  }

  /** And it is picked for a span in which it is not readable, although a coarser one is. */
  lemma SecondsArePickedUnreadable(delta: int, seconds: int, coarse: int, g: string)
    requires 0 < seconds < 86400 < coarse <= 93 * 86400 && seconds % 60 != 0 && coarse % 60 == 0
    requires 0 < delta <= LONGEST && !Readable(delta, seconds * SECOND) && Readable(delta, coarse * SECOND)
    ensures BestGrain(Length, delta, [Iso(seconds), Iso(coarse)], g) <==> g == Iso(seconds)
  {
    PrintedLength(seconds);
    PrintedLength(coarse);
    FinerIsPicked(Length, delta, Iso(seconds), Iso(coarse), g);
  }

  /** A concrete case: of 330 seconds and a week the former is picked for 93 days, with more than 24,000
      points. */
  lemma TooManyPoints(g: string)
    ensures Iso(330) == "PT330S" && Iso(604_800) == "P7D"
    ensures BestGrain(Length, LONGEST, [Iso(330), Iso(604_800)], g) <==> g == Iso(330)
    ensures LONGEST > 24_000 * 330 * SECOND && Readable(LONGEST, 604_800 * SECOND)
  {
    SecondsArePickedUnreadable(LONGEST, 330, 604_800, g);
    TwoNames();
  }

  lemma TwoNames()
    ensures Iso(330) == "PT330S" && Iso(604_800) == "P7D"
  {
    TenTimes(33, "33");
    assert Decimal(330) == "330" && Decimal(7) == "7";
    assert "PT" + "330" + "S" == "PT330S" && "P" + "7" + "D" == "P7D";
  }

  lemma FinerIsPicked(length: string -> int, delta: int, a: string, b: string, g: string)
    requires length(a) < length(b) && Readable(delta, length(a))
    ensures BestGrain(length, delta, [a, b], g) <==> g == a
  {
    assert forall x :: x in [a, b] <==> x == a || x == b;
    assert [a, b][0] == a;
  }

  lemma Swapped(length: string -> int, delta: int, a: string, b: string, g: string)
    ensures BestGrain(length, delta, [a, b], g) <==> BestGrain(length, delta, [b, a], g)
  {
    assert forall x :: x in [a, b] <==> x in [b, a];
  }
}
