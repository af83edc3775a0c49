/** Calendar pieces shared by the ingest scripts: the August-cutoff season
    rule and a model of `datetime.strptime(s, '%Y-%m-%d')`. */
module Calendar {
  import opened Wrappers
  import opened Text

  datatype Date = Date(year: int, month: int, day: int)

  /** Months counted from year 0, so that (year, month) pairs compare as integers. */
  function MonthIndex(year: int, month: int): int {
    12 * year + (month - 1)
  }

  /** A season starting in `year` runs from August of `year` to July of `year + 1`;
      a date belongs to the season whose span contains its month. */
  function SeasonOf(year: int, month: int): (s: int)
    requires 1 <= month <= 12
    ensures MonthIndex(s, 8) <= MonthIndex(year, month) < MonthIndex(s + 1, 8)
  {
    if month >= 8 then year else year - 1
  }

  /** Only one season's span contains a given month. */
  lemma SeasonUnique(year: int, month: int, s: int)
    requires 1 <= month <= 12
    requires MonthIndex(s, 8) <= MonthIndex(year, month) < MonthIndex(s + 1, 8)
    ensures s == SeasonOf(year, month)
  {
  }

  predicate IsLeapYear(y: int) {
    y % 4 == 0 && (y % 100 != 0 || y % 400 == 0)
  }

  function DaysInMonth(y: int, m: int): (d: int)
    requires 1 <= m <= 12
    ensures 28 <= d <= 31
  {
    if m == 2 then (if IsLeapYear(y) then 29 else 28)
    else if m == 4 || m == 6 || m == 9 || m == 11 then 30
    else 31
  }

  /** A date `datetime.date` accepts. */
  predicate ValidDate(d: Date) {
    1 <= d.year <= 9999 && 1 <= d.month <= 12 && 1 <= d.day <= DaysInMonth(d.year, d.month)
  }

  /** A field matched by one alternative of a `strptime` pattern: its value and
      how many characters it consumed. */
  datatype Field = Field(value: int, width: nat)

  /** `%m`, the regular expression `1[0-2]|0[1-9]|[1-9]`, tried in order at the
      start of `s`. */
  function MatchMonth(s: string): (r: Option<Field>)
    ensures r.Some? ==> 1 <= r.value.width <= 2 && r.value.width <= |s| && 1 <= r.value.value <= 12
  {
    if |s| >= 2 && s[0] == '1' && '0' <= s[1] <= '2' then Some(Field(10 + DigitValue(s[1]), 2))
    else if |s| >= 2 && s[0] == '0' && '1' <= s[1] <= '9' then Some(Field(DigitValue(s[1]), 2))
    else if |s| >= 1 && '1' <= s[0] <= '9' then Some(Field(DigitValue(s[0]), 1))
    else None
  }

  /** `%d`, the regular expression `3[01]|[12]\d|0[1-9]|[1-9]| [1-9]`, tried in
      order at the start of `s`. */
  function MatchDay(s: string): (r: Option<Field>)
    ensures r.Some? ==> 1 <= r.value.width <= 2 && r.value.width <= |s| && 1 <= r.value.value <= 31
  {
    if |s| >= 2 && s[0] == '3' && '0' <= s[1] <= '1' then Some(Field(30 + DigitValue(s[1]), 2))
    else if |s| >= 2 && '1' <= s[0] <= '2' && IsDigit(s[1]) then Some(Field(10 * DigitValue(s[0]) + DigitValue(s[1]), 2))
    else if |s| >= 2 && s[0] == '0' && '1' <= s[1] <= '9' then Some(Field(DigitValue(s[1]), 2))
    else if |s| >= 1 && '1' <= s[0] <= '9' then Some(Field(DigitValue(s[0]), 1))
    else if |s| >= 2 && s[0] == ' ' && '1' <= s[1] <= '9' then Some(Field(DigitValue(s[1]), 2))
    else None
  }

  /** `datetime.strptime(s, '%Y-%m-%d')`: four digits, `-`, a month, `-`, a day,
      nothing left over, and a date that exists. `None` stands for the
      `ValueError` it raises otherwise. */
  function ParseIsoDate(s: string): (r: Option<Date>)
    ensures r.Some? ==> ValidDate(r.value)
  {
    if |s| < 5 || !AllDigits(s[..4]) || s[4] != '-' then None
    else
      var year := DigitsValue(s[..4]);
      match MatchMonth(s[5..])
      case None => None
      case Some(m) =>
        var rest := s[5 + m.width..];
        if |rest| == 0 || rest[0] != '-' then None
        else match MatchDay(rest[1..])
          case None => None
          case Some(d) =>
            if d.width != |rest| - 1 then None   // "unconverted data remains"
            else
              var date := Date(year, m.value, d.value);
              if ValidDate(date) then Some(date) else None
  }

  /** Two-digit zero-padded rendering of 1..99. */
  function Pad2(n: nat): (s: string)
    requires n < 100
    ensures |s| == 2 && AllDigits(s) && DigitsValue(s) == n
  {
    var s := [DigitChar(n / 10), DigitChar(n % 10)];
    assert s[..2] == s && s[..1][..0] == [];
    assert DigitsValue(s[..1]) == n / 10;
    s
  }

  /** Four-digit zero-padded rendering of 0..9999. */
  function Pad4(n: nat): (s: string)
    requires n < 10000
    ensures |s| == 4 && AllDigits(s) && DigitsValue(s) == n
  {
    var s := [DigitChar(n / 1000), DigitChar(n / 100 % 10), DigitChar(n / 10 % 10), DigitChar(n % 10)];
    assert s[..4] == s && s[..3][..2] == s[..2] && s[..2][..1] == s[..1] && s[..1][..0] == [];
    assert DigitsValue(s[..1]) == n / 1000;
    assert DigitsValue(s[..2]) == n / 100;
    assert DigitsValue(s[..3]) == n / 10;
    s
  }

  /** `date.strftime('%Y-%m-%d')`. */
  function FormatIsoDate(d: Date): (s: string)
    requires ValidDate(d)
    ensures |s| == 10
  {
    Pad4(d.year) + "-" + Pad2(d.month) + "-" + Pad2(d.day)
  }

  /** Parsing what `FormatIsoDate` wrote gives back the same date. */
  lemma ParseFormatRoundTrip(d: Date)
    requires ValidDate(d)
    ensures ParseIsoDate(FormatIsoDate(d)) == Some(d)
  {
    var s := FormatIsoDate(d);
    var y, m, dd := Pad4(d.year), Pad2(d.month), Pad2(d.day);
    assert s[..4] == y;
    assert s[4] == '-';
    assert s[5..] == m + "-" + dd;
    assert MatchMonth(s[5..]) == Some(Field(d.month, 2));
    var rest := s[7..];
    assert rest == "-" + dd;
    assert rest[1..] == dd;
    assert MatchDay(dd) == Some(Field(d.day, 2));
  }
}
