/** Dates as text: the `YYYY-MM-DD` extended calendar-date form of section
    4.1.2.2 of ISO 8601:2004 that `date.fromisoformat` reads, and the
    `DD/MM/YYYY` form that `strftime('%d/%m/%Y')` writes. */
module DateText {
  import opened Wrappers
  import opened Digits
  import opened Calendar

  /** Fields small enough to be written in four, two and two digits. */
  predicate Writable(d: Date) {
    0 <= d.year < 10000 && 0 <= d.month < 100 && 0 <= d.day < 100
  }

  // ---- YYYY-MM-DD --------------------------------------------------------

  /** The ISO 8601 extended form of a date, as `date.isoformat` writes it. */
  function FormatIso(d: Date): (s: string)
    requires Writable(d)
    ensures |s| == 10
  {
    Padded(d.year, 4) + "-" + Padded(d.month, 2) + "-" + Padded(d.day, 2)
  }

  /** The ISO text holds the year, month and day fields, each read back exactly. */
  lemma IsoFields(d: Date)
    requires Writable(d)
    ensures var s := FormatIso(d);
      && s[4] == '-' && s[7] == '-'
      && AllDigits(s[..4]) && AllDigits(s[5..7]) && AllDigits(s[8..])
      && ValueOf(s[..4]) == d.year && ValueOf(s[5..7]) == d.month && ValueOf(s[8..]) == d.day
  {
    var s := FormatIso(d);
    PaddedValue(d.year, 4);
    PaddedValue(d.month, 2);
    PaddedValue(d.day, 2);
    assert s[..4] == Padded(d.year, 4);
    assert s[5..7] == Padded(d.month, 2);
    assert s[8..] == Padded(d.day, 2);
  }

  /** `date.fromisoformat(s)`: exactly ten characters, digits around two
      hyphens, naming a real date; `None` where Python raises ValueError. */
  function ParseIso(s: string): (r: Option<Date>)
    ensures r.Some? ==> ValidDate(r.value)
  {
    if |s| == 10 && s[4] == '-' && s[7] == '-'
       && AllDigits(s[..4]) && AllDigits(s[5..7]) && AllDigits(s[8..])
    then
      var d := Date(ValueOf(s[..4]), ValueOf(s[5..7]), ValueOf(s[8..]));
      if ValidDate(d) then Some(d) else None
    else None
  }

  /** An accepted text is three digit fields around two hyphens, and the date is their values. */
  lemma IsoParts(s: string)
    requires ParseIso(s).Some?
    ensures |s| == 10 && s[4] == '-' && s[7] == '-'
    ensures AllDigits(s[..4]) && AllDigits(s[5..7]) && AllDigits(s[8..])
    ensures ParseIso(s).value == Date(ValueOf(s[..4]), ValueOf(s[5..7]), ValueOf(s[8..]))
  {
  }

  /** A date read from a text is written back as exactly that text. */
  lemma ParseIsoSound(s: string)
    requires ParseIso(s).Some?
    ensures FormatIso(ParseIso(s).value) == s
  {
    IsoParts(s);
    PaddedOfValue(s[..4]);
    PaddedOfValue(s[5..7]);
    PaddedOfValue(s[8..]);
    IsoPieces(s);
  }

  /** A ten-character text with hyphens at 4 and 7 is its three fields joined by hyphens. */
  lemma IsoPieces(s: string)
    requires |s| == 10 && s[4] == '-' && s[7] == '-'
    ensures s == s[..4] + "-" + s[5..7] + "-" + s[8..]
  {
  }

  /** Every valid date survives writing and reading back. */
  lemma IsoRoundTrip(d: Date)
    requires ValidDate(d)
    ensures ParseIso(FormatIso(d)) == Some(d)
  {
    IsoFields(d);
  }

  /** The accepted strings are exactly the ISO forms of valid dates. */
  lemma IsoAcceptsExactly(s: string)
    ensures ParseIso(s).Some? <==> exists d :: ValidDate(d) && FormatIso(d) == s
  {
    if exists d :: ValidDate(d) && FormatIso(d) == s {
      var d :| ValidDate(d) && FormatIso(d) == s;
      IsoRoundTrip(d);
    }
    if ParseIso(s).Some? {
      ParseIsoSound(s);
    }
  }

  /** Different dates are written differently. */
  lemma IsoInjective(a: Date, b: Date)
    requires Writable(a) && Writable(b)
    requires FormatIso(a) == FormatIso(b)
    ensures a == b
  {
    IsoFields(a);
    IsoFields(b);
  }

  /** The text `YYYY-02-29` is accepted exactly in leap years. */
  lemma LeapDayAccepted(year: int)
    requires MinYear <= year <= MaxYear
    ensures ParseIso(FormatIso(Date(year, 2, 29))).Some? <==> IsLeap(year)
  {
    var d := Date(year, 2, 29);
    var r := ParseIso(FormatIso(d));
    if IsLeap(year) {
      IsoRoundTrip(d);
    } else if r.Some? {
      ParseIsoSound(FormatIso(d));
      IsoInjective(r.value, d);
    }
  }

  // ---- DD/MM/YYYY --------------------------------------------------------

  /** `strftime('%d/%m/%Y')`: two-digit day, two-digit month and four-digit
      year, zero-padded and separated by slashes. */
  function FormatDmy(d: Date): (s: string)
    requires Writable(d)
    ensures |s| == 10
  {
    Padded(d.day, 2) + "/" + Padded(d.month, 2) + "/" + Padded(d.year, 4)
  }

  /** The `DD/MM/YYYY` text holds the day, month and year fields, each read back exactly. */
  lemma DmyFields(d: Date)
    requires Writable(d)
    ensures var s := FormatDmy(d);
      && s[2] == '/' && s[5] == '/'
      && AllDigits(s[..2]) && AllDigits(s[3..5]) && AllDigits(s[6..])
      && ValueOf(s[..2]) == d.day && ValueOf(s[3..5]) == d.month && ValueOf(s[6..]) == d.year
  {
    var s := FormatDmy(d);
    PaddedValue(d.year, 4);
    PaddedValue(d.month, 2);
    PaddedValue(d.day, 2);
    assert s[..2] == Padded(d.day, 2);
    assert s[3..5] == Padded(d.month, 2);
    assert s[6..] == Padded(d.year, 4);
  }

  /** Reading a `DD/MM/YYYY` text back as the date it names. */
  function ParseDmy(s: string): (r: Option<Date>)
    ensures r.Some? ==> ValidDate(r.value)
  {
    if |s| == 10 && s[2] == '/' && s[5] == '/'
       && AllDigits(s[..2]) && AllDigits(s[3..5]) && AllDigits(s[6..])
    then
      var d := Date(ValueOf(s[6..]), ValueOf(s[3..5]), ValueOf(s[..2]));
      if ValidDate(d) then Some(d) else None
    else None
  }

  /** An accepted `DD/MM/YYYY` text is three digit fields around two slashes, and the date is their values. */
  lemma DmyParts(s: string)
    requires ParseDmy(s).Some?
    ensures |s| == 10 && s[2] == '/' && s[5] == '/'
    ensures AllDigits(s[..2]) && AllDigits(s[3..5]) && AllDigits(s[6..])
    ensures ParseDmy(s).value == Date(ValueOf(s[6..]), ValueOf(s[3..5]), ValueOf(s[..2]))
  {
  }

  /** The three fields of a `DD/MM/YYYY` text, each zero-padded. */
  lemma DmySlices(d: Date)
    requires Writable(d)
    ensures var t := FormatDmy(d);
      t[..2] == Padded(d.day, 2) && t[3..5] == Padded(d.month, 2) && t[6..] == Padded(d.year, 4)
  {
  }

  /** A date read from a `DD/MM/YYYY` text is written back as exactly that text. */
  lemma ParseDmySound(s: string)
    requires ParseDmy(s).Some?
    ensures FormatDmy(ParseDmy(s).value) == s
  {
    DmyParts(s);
    PaddedOfValue(s[..2]);
    PaddedOfValue(s[3..5]);
    PaddedOfValue(s[6..]);
    DmyPieces(s);
  }

  /** A ten-character text with slashes at 2 and 5 is its three fields joined by slashes. */
  lemma DmyPieces(s: string)
    requires |s| == 10 && s[2] == '/' && s[5] == '/'
    ensures s == s[..2] + "/" + s[3..5] + "/" + s[6..]
  {
  }

  /** The rendered date names the very date it was rendered from. */
  lemma DmyRoundTrip(d: Date)
    requires ValidDate(d)
    ensures ParseDmy(FormatDmy(d)) == Some(d)
  {
    DmyFields(d);
  }

  /** The `DD/MM/YYYY` text of a parsed ISO date holds the same three digit
      fields as the ISO text, in day, month, year order. */
  lemma DmyOfIso(s: string)
    requires ParseIso(s).Some?
    ensures var t := FormatDmy(ParseIso(s).value);
      t[..2] == s[8..] && t[3..5] == s[5..7] && t[6..] == s[..4]
  {
    IsoParts(s);
    DmySlices(ParseIso(s).value);
    PaddedOfValue(s[..4]);
    PaddedOfValue(s[5..7]);
    PaddedOfValue(s[8..]);
  }
}
