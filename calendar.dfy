/** Proleptic Gregorian dates and times as Python's `datetime` module checks them, and
    the part of `datetime.strptime` that the statement formats use. */
module Calendar {
  import opened Outcomes
  import opened PyText

  datatype Date = Date(year: int, month: int, day: int)

  datatype DateTime = DateTime(year: int, month: int, day: int, hour: int, minute: int, second: int)

  /** `datetime.MINYEAR` and `datetime.MAXYEAR`. */
  const MinYear := 1
  const MaxYear := 9999

  predicate IsLeap(y: int) {
    y % 4 == 0 && (y % 100 != 0 || y % 400 == 0)
  }

  function DaysInMonth(y: int, m: int): int
    requires 1 <= m <= 12
  {
    if m == 2 then (if IsLeap(y) then 29 else 28)
    else if m == 4 || m == 6 || m == 9 || m == 11 then 30
    else 31
  }

  /** The dates `datetime.date(year, month, day)` accepts. */
  predicate ValidDate(d: Date) {
    MinYear <= d.year <= MaxYear && 1 <= d.month <= 12 && 1 <= d.day <= DaysInMonth(d.year, d.month)
  }

  lemma ValidDateBounds(d: Date)
    requires ValidDate(d)
    ensures 1 <= d.year <= 9999 && 1 <= d.month <= 12 && 1 <= d.day <= 31
  {
  }

  predicate ValidDateTime(t: DateTime) {
    ValidDate(DateOf(t)) && 0 <= t.hour <= 23 && 0 <= t.minute <= 59 && 0 <= t.second <= 59
  }

  function DateOf(t: DateTime): Date {
    Date(t.year, t.month, t.day)
  }

  /** Integers a C `int` holds, the width `datetime.date` reads its arguments at. */
  predicate CInt(n: int) {
    -0x8000_0000 <= n <= 0x7FFF_FFFF
  }

  /** `datetime.date(year, month, day)`. The arguments are first converted to C `int`s
      (`OverflowError` when one does not fit), then checked as a date (`ValueError`
      for an impossible one). The conversion never rejects a possible date. */
  function MakeDate(year: int, month: int, day: int): (r: Result<Date>)
    ensures r.Ok? <==> ValidDate(Date(year, month, day))
    ensures r.Ok? ==> r.value == Date(year, month, day)
    ensures r.Err? ==> r.error == if CInt(year) && CInt(month) && CInt(day) then ValueError else OverflowError
  {
    if !(CInt(year) && CInt(month) && CInt(day)) then Err(OverflowError)
    else if ValidDate(Date(year, month, day)) then Ok(Date(year, month, day))
    else Err(ValueError)
  }

  /** `a < b` on dates: chronological order. */
  predicate Before(a: Date, b: Date) {
    a.year < b.year || (a.year == b.year && (a.month < b.month || (a.month == b.month && a.day < b.day)))
  }

  /** `start <= d < end`: `d` lies in the half-open range. */
  predicate InRange(d: Date, start: Date, end: Date) {
    !Before(d, start) && Before(d, end)
  }

  // ---------------------------------------------------------------------------
  // strptime
  // ---------------------------------------------------------------------------

  /** The values a format's directives have captured so far. */
  datatype Fields = Fields(year: Option<int>, month: Option<int>, day: Option<int>,
                           hour: Option<int>, minute: Option<int>, second: Option<int>)

  const NoFields := Fields(None, None, None, None, None, None)

  predicate IsNumberDirective(d: char) {
    d == 'm' || d == 'd' || d == 'H' || d == 'M' || d == 'S'
  }

  /** The smallest and largest value the pattern of a one- or two-digit directive admits:
      `%m` 1-12, `%d` 1-31, `%H` 0-23, `%M` 0-59, `%S` 0-61. */
  function Low(d: char): int {
    if d == 'm' || d == 'd' then 1 else 0
  }

  function High(d: char): int {
    if d == 'm' then 12 else if d == 'd' then 31 else if d == 'H' then 23 else if d == 'M' then 59 else 61
  }

  function Record(f: Fields, d: char, v: int): Fields {
    if d == 'Y' then f.(year := Some(v))
    else if d == 'm' then f.(month := Some(v))
    else if d == 'd' then f.(day := Some(v))
    else if d == 'H' then f.(hour := Some(v))
    else if d == 'M' then f.(minute := Some(v))
    else f.(second := Some(v))
  }

  /** Weekday abbreviations of the C locale, which `%a` matches ignoring case. */
  const WeekdayNames: seq<string> := ["mon", "tue", "wed", "thu", "fri", "sat", "sun"]

  /** The first way, in the order Python's regular-expression engine tries them, in
      which `fmt` matches a prefix of `text`: the captured fields and the unmatched rest.
      A run of whitespace in the format matches one or more whitespace characters
      (longest first); other literal characters match ignoring case. */
  function MatchFormat(fmt: string, text: string, acc: Fields): Option<(Fields, string)>
    decreases |fmt|, 0
  {
    if fmt == [] then Some((acc, text))
    else if IsSpace(fmt[0]) then MatchSpaces(fmt[SpaceRun(fmt)..], text, acc, SpaceRun(text))
    else if fmt[0] == '%' then
      if |fmt| == 1 then None else MatchDirective(fmt[1], fmt[2..], text, acc)
    else if text != [] && LowerChar(text[0]) == LowerChar(fmt[0]) then MatchFormat(fmt[1..], text[1..], acc)
    else None
  }

  /** The directive `%d` followed by the format `rest`. A one- or two-digit directive
      tries two digits before one (and `%d` then a space and a digit); `%Y` takes
      exactly four digits; `%a` a weekday abbreviation; `%%` a percent sign. */
  function MatchDirective(d: char, rest: string, text: string, acc: Fields): Option<(Fields, string)>
    decreases |rest|, 1
  {
    if d == '%' then
      if text != [] && text[0] == '%' then MatchFormat(rest, text[1..], acc) else None
    else if d == 'Y' then
      if Digits2(text) && Digits2(text[2..]) then
        MatchFormat(rest, text[4..], Record(acc, 'Y', Value2(text) * 100 + Value2(text[2..])))
      else None
    else if d == 'a' then
      if |text| >= 3 && [LowerChar(text[0]), LowerChar(text[1]), LowerChar(text[2])] in WeekdayNames then
        MatchFormat(rest, text[3..], acc)
      else None
    else if IsNumberDirective(d) then
      var two :=
        if Digits2(text) && Low(d) <= Value2(text) <= High(d) then
          MatchFormat(rest, text[2..], Record(acc, d, Value2(text)))
        else None;
      if two.Some? then two
      else
        var one :=
          if text != [] && IsDigit(text[0]) && Low(d) <= DigitValue(text[0]) then
            MatchFormat(rest, text[1..], Record(acc, d, DigitValue(text[0])))
          else None;
        if one.Some? then one
        else if d == 'd' && |text| >= 2 && text[0] == ' ' && '1' <= text[1] <= '9' then
          MatchFormat(rest, text[2..], Record(acc, d, DigitValue(text[1])))
        else None
    else None
  }

  /** `\s+` followed by `fmt`, trying the longest run of `k` whitespace characters first. */
  function MatchSpaces(fmt: string, text: string, acc: Fields, k: nat): Option<(Fields, string)>
    requires k <= |text|
    decreases |fmt|, k + 2
  {
    if k == 0 then None
    else
      var r := MatchFormat(fmt, text[k..], acc);
      if r.Some? then r else MatchSpaces(fmt, text, acc, k - 1)
  }

  /** The number of whitespace characters `s` starts with. */
  function SpaceRun(s: string): (n: nat)
    ensures n <= |s|
  {
    if s != [] && IsSpace(s[0]) then 1 + SpaceRun(s[1..]) else 0
  }

  predicate Digits2(t: string) {
    |t| >= 2 && IsDigit(t[0]) && IsDigit(t[1])
  }

  function Value2(t: string): int
    requires Digits2(t)
  {
    DigitValue(t[0]) * 10 + DigitValue(t[1])
  }

  /** The `datetime` the captured fields describe; a field no directive captured takes
      Python's default (year 1900, January, the 1st, midnight). An impossible date or a
      leap second is a `ValueError`, here `None`. */
  function FieldsToDateTime(f: Fields): Option<DateTime> {
    var t := DateTime(f.year.GetOr(1900), f.month.GetOr(1), f.day.GetOr(1),
                      f.hour.GetOr(0), f.minute.GetOr(0), f.second.GetOr(0));
    if ValidDateTime(t) then Some(t) else None
  }

  /** `datetime.strptime(text, fmt)`; `None` stands for its `ValueError`, raised when the
      format does not match or text is left over after the match. */
  function Strptime(text: string, fmt: string): (r: Option<DateTime>)
    ensures r.Some? ==> ValidDateTime(r.value)
  {
    match MatchFormat(fmt, text, NoFields)
    case None => None
    case Some(m) => if m.1 != [] then None else FieldsToDateTime(m.0)
  }

  // ---------------------------------------------------------------------------
  // Fixed-width renderings and their round trips through Strptime
  // ---------------------------------------------------------------------------

  function Pad4(n: int): string
    requires 0 <= n <= 9999
  {
    Pad2(n / 100) + Pad2(n % 100)
  }

  lemma Pad2Digits(n: int, tail: string)
    requires 0 <= n <= 99
    ensures Digits2(Pad2(n) + tail) && Value2(Pad2(n) + tail) == n && (Pad2(n) + tail)[2..] == tail
  {
  }

  lemma Pad4Digits(n: int, tail: string)
    requires 0 <= n <= 9999
    ensures var t := Pad4(n) + tail;
      Digits2(t) && Digits2(t[2..]) && Value2(t) * 100 + Value2(t[2..]) == n && t[4..] == tail
  {
    var t := Pad4(n) + tail;
    assert t == Pad2(n / 100) + (Pad2(n % 100) + tail);
    Pad2Digits(n / 100, Pad2(n % 100) + tail);
    Pad2Digits(n % 100, tail);
  }

  /** A two-digit field in range is matched by the two-digit alternative of its
      directive, provided the rest of the format then matches. */
  lemma TwoDigitStep(d: char, rest: string, v: int, tail: string, acc: Fields)
    requires IsNumberDirective(d) && Low(d) <= v <= High(d)
    requires MatchFormat(rest, tail, Record(acc, d, v)).Some?
    ensures MatchFormat(['%', d] + rest, Pad2(v) + tail, acc) == MatchFormat(rest, tail, Record(acc, d, v))
  {
    var fmt := ['%', d] + rest;
    Pad2Digits(v, tail);
    assert fmt[0] == '%' && fmt[1] == d && fmt[2..] == rest;
  }

  lemma YearStep(rest: string, y: int, tail: string, acc: Fields)
    requires 0 <= y <= 9999
    ensures MatchFormat("%Y" + rest, Pad4(y) + tail, acc) == MatchFormat(rest, tail, Record(acc, 'Y', y))
  {
    var fmt := "%Y" + rest;
    Pad4Digits(y, tail);
    assert fmt[0] == '%' && fmt[1] == 'Y' && fmt[2..] == rest;
  }

  lemma LiteralStep(c: char, rest: string, tail: string, acc: Fields)
    requires !IsSpace(c) && c != '%'
    ensures MatchFormat([c] + rest, [c] + tail, acc) == MatchFormat(rest, tail, acc)
  {
    assert ([c] + rest)[1..] == rest && ([c] + tail)[1..] == tail;
  }

  /** The format of the posted-date field of a tagged statement. */
  const CompactFormat := "%Y%m%d%H%M%S"

  /** A timestamp written `YYYYMMDDHHMMSS`. */
  function FormatCompact(t: DateTime): string
    requires ValidDateTime(t)
  {
    Pad4(t.year) + (Pad2(t.month) + (Pad2(t.day) + (Pad2(t.hour) + (Pad2(t.minute) + Pad2(t.second)))))
  }

  /** Parsing a fixed-width `YYYYMMDDHHMMSS` timestamp with `CompactFormat` gives back
      the timestamp it was written from. */
  lemma CompactRoundTrip(t: DateTime)
    requires ValidDateTime(t)
    ensures Strptime(FormatCompact(t), CompactFormat) == Some(t)
  {
    var a3 := Record(Record(Record(NoFields, 'Y', t.year), 'm', t.month), 'd', t.day);
    var a6 := Record(Record(Record(a3, 'H', t.hour), 'M', t.minute), 'S', t.second);
    ClockSteps(t.hour, t.minute, t.second, a3);
    DateSteps(t.year, t.month, t.day, Pad2(t.hour) + (Pad2(t.minute) + Pad2(t.second)), (a6, ""));
    assert a6 == Fields(Some(t.year), Some(t.month), Some(t.day), Some(t.hour), Some(t.minute), Some(t.second));
  }

  lemma DateSteps(y: int, mo: int, d: int, clock: string, r: (Fields, string))
    requires 0 <= y <= 9999 && 1 <= mo <= 12 && 1 <= d <= 31
    requires MatchFormat("%H%M%S", clock, Record(Record(Record(NoFields, 'Y', y), 'm', mo), 'd', d)) == Some(r)
    ensures MatchFormat(CompactFormat, Pad4(y) + (Pad2(mo) + (Pad2(d) + clock)), NoFields) == Some(r)
  {
    var a1 := Record(NoFields, 'Y', y);
    var a2 := Record(a1, 'm', mo);
    CompactFormatPieces();
    TwoDigitStep('d', "%H%M%S", d, clock, a2);
    TwoDigitStep('m', "%d%H%M%S", mo, Pad2(d) + clock, a1);
    YearStep("%m%d%H%M%S", y, Pad2(mo) + (Pad2(d) + clock), NoFields);
  }

  /** `CompactFormat`, one directive at a time. */
  lemma CompactFormatPieces()
    ensures ['%', 'd'] + "%H%M%S" == "%d%H%M%S"
    ensures ['%', 'm'] + "%d%H%M%S" == "%m%d%H%M%S"
    ensures "%Y" + "%m%d%H%M%S" == CompactFormat
  {
  }

  lemma ClockSteps(h: int, mi: int, sec: int, acc: Fields)
    requires 0 <= h <= 23 && 0 <= mi <= 59 && 0 <= sec <= 59
    ensures MatchFormat("%H%M%S", Pad2(h) + (Pad2(mi) + Pad2(sec)), acc)
         == Some((Record(Record(Record(acc, 'H', h), 'M', mi), 'S', sec), ""))
  {
    var a4 := Record(acc, 'H', h);
    var a5 := Record(a4, 'M', mi);
    var a6 := Record(a5, 'S', sec);
    assert MatchFormat("", "", a6) == Some((a6, ""));
    TwoDigitStep('S', "", sec, "", a5);
    assert ['%', 'S'] + "" == "%S" && Pad2(sec) + "" == Pad2(sec);
    TwoDigitStep('M', "%S", mi, Pad2(sec), a4);
    assert ['%', 'M'] + "%S" == "%M%S";
    TwoDigitStep('H', "%M%S", h, Pad2(mi) + Pad2(sec), acc);
    assert ['%', 'H'] + "%M%S" == "%H%M%S";
  }

  /** The format of the date column of the bank statements: `%m/%d/%Y`. */
  const SlashFormat := "%m/%d/%Y"

  /** `SlashFormat`, one directive or literal at a time. */
  lemma SlashFormatPieces()
    ensures "%Y" + "" == "%Y" && ['/'] + "%Y" == "/%Y" && ['%', 'd'] + "/%Y" == "%d/%Y"
    ensures ['/'] + "%d/%Y" == "/%d/%Y" && ['%', 'm'] + "/%d/%Y" == SlashFormat
  {
  }

  /** A date written `MM/DD/YYYY`. */
  function FormatSlash(d: Date): string
    requires ValidDate(d)
  {
    Pad2(d.month) + ("/" + (Pad2(d.day) + ("/" + Pad4(d.year))))
  }

  /** Parsing a zero-padded `MM/DD/YYYY` date with `SlashFormat` gives midnight of that date. */
  lemma SlashRoundTrip(d: Date)
    requires ValidDate(d)
    ensures Strptime(FormatSlash(d), SlashFormat) == Some(DateTime(d.year, d.month, d.day, 0, 0, 0))
  {
    var a1 := Record(NoFields, 'm', d.month);
    var a2 := Record(a1, 'd', d.day);
    var a3 := Record(a2, 'Y', d.year);
    SlashFormatPieces();
    YearStep("", d.year, "", a2);
    assert Pad4(d.year) + "" == Pad4(d.year);
    assert MatchFormat("", "", a3) == Some((a3, ""));
    LiteralStep('/', "%Y", Pad4(d.year), a2);
    assert ['/'] + Pad4(d.year) == "/" + Pad4(d.year);
    TwoDigitStep('d', "/%Y", d.day, "/" + Pad4(d.year), a1);
    LiteralStep('/', "%d/%Y", Pad2(d.day) + ("/" + Pad4(d.year)), a1);
    TwoDigitStep('m', "/%d/%Y", d.month, "/" + (Pad2(d.day) + ("/" + Pad4(d.year))), NoFields);
    assert a3 == Fields(Some(d.year), Some(d.month), Some(d.day), None, None, None);
  }
}
