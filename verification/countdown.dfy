/** The countdown message: for each configured event, the whole days left
    until its date, classified into one of four cases and rendered as one
    bullet line; the lines joined into the message description. */
module Countdown {
  import opened Wrappers
  import opened Digits
  import opened Calendar
  import opened DateText
  import opened TextLines
  import opened Collect

  /** A configured event: title, date as ISO text, and emoji. */
  datatype Event = Event(title: string, dateText: string, emoji: string)

  /** The events the script announces, in order. */
  const Events: seq<Event> := [
    Event("Signature du bail", "2025-08-22", "📝"),
    Event("Emménagement", "2025-08-30", "🏡")
  ]

  /** The error that aborts the run: an event date `date.fromisoformat` rejects. */
  datatype BadDate = InvalidIsoFormat(index: nat, text: string)

  /** The four messages an event can get. */
  datatype Case = DaysLeft(n: nat) | Tomorrow | Today | Past

  const Bullet: string := "• "

  /** The case for a day difference: more than one day, one day, none, or past. */
  function Classify(delta: int): (c: Case)
    ensures c.DaysLeft? <==> delta > 1
    ensures c.DaysLeft? ==> c.n == delta
    ensures c.Tomorrow? <==> delta == 1
    ensures c.Today? <==> delta == 0
    ensures c.Past? <==> delta < 0
  {
    if delta > 1 then DaysLeft(delta)
    else if delta == 1 then Tomorrow
    else if delta == 0 then Today
    else Past
  }

  /** The case an event dated `d` gets on `today`, in calendar terms: a count
      of n days exactly when n single-day steps reach `d`, and so on. */
  lemma {:induction false} CaseOfDates(today: Date, d: Date)
    requires ValidDate(today) && ValidDate(d)
    ensures var c := Classify(DaysBetween(today, d));
      && (c.DaysLeft? ==> c.n >= 2 && Advance(today, c.n) == Some(d))
      && (c.DaysLeft? <==> Before(today, d) && NextDay(today) != Some(d))
      && (c.Tomorrow? <==> NextDay(today) == Some(d))
      && (c.Today? <==> d == today)
      && (c.Past? <==> Before(d, today))
  {
    var delta := DaysBetween(today, d);
    if delta >= 1 {
      DaysBetweenCountsSteps(today, d);
      assert Advance(today, 1) == NextDay(today);
    }
    var next := NextDay(today);
    if next == Some(d) {
      assert delta == 1;
    }
  }

  // ---- Rendering ----------------------------------------------------------

  predicate StartsWith(s: string, prefix: string) {
    |prefix| <= |s| && s[..|prefix|] == prefix
  }

  predicate EndsWith(s: string, suffix: string) {
    |suffix| <= |s| && s[|s| - |suffix|..] == suffix
  }

  /** The `J-n` count a message opens with, if it opens with one. */
  function CountLabel(m: string): Option<nat> {
    if StartsWith(m, "J-") && DigitRun(m[2..]) > 0 then
      DigitRunDigits(m[2..]);
      Some(ValueOf(m[2..][..DigitRun(m[2..])]))
    else None
  }

  /** The date a message closes with, written `(… DD/MM/YYYY)`, if it closes with one. */
  function DateShown(m: string): Option<Date> {
    if |m| >= 11 && m[|m| - 1] == ')' then ParseDmy(m[|m| - 11..|m| - 1]) else None
  }

  /** The separator-free middle of a countdown line: title in bold, then the emoji. */
  function Named(title: string, emoji: string): string {
    " avant **" + title + "** " + emoji + " "
  }

  /** The shape shared by the dated messages: an opening, a middle, then a
      parenthesis holding a marker and the date. */
  function Framed(open: string, mid: string, mark: string, date: string): string {
    open + mid + mark + date + ")"
  }

  /** The message for an event titled `title` with `emoji`, dated `d`, `delta` days ahead. */
  function Message(title: string, emoji: string, d: Date, delta: int): string
    requires ValidDate(d)
  {
    match Classify(delta)
    case DaysLeft(n) => Framed("J-" + Decimal(n), Named(title, emoji), "(", FormatDmy(d))
    case Tomorrow => Framed("J-1", Named(title, emoji), "(demain • ", FormatDmy(d))
    case Today => "🎉 **C'EST AUJOURD'HUI !** " + title + " " + emoji
    case Past => Framed(title, " " + emoji + " : **passé** ", "(le ", FormatDmy(d))
  }

  /** What a reader recovers from a message. A future date shows the `J-n`
      count and n is the day difference; a count shows only for a future date
      unless the title itself opens like one; every case but the same day
      closes with the event's date, which reads back as that date; tomorrow
      is marked `demain` and a past date `le`. */
  lemma {:induction false} MessageReadsBack(title: string, emoji: string, d: Date, delta: int)
    requires ValidDate(d)
    ensures var m := Message(title, emoji, d, delta);
      && (delta >= 1 ==> CountLabel(m) == Some(delta))
      && (CountLabel(m).Some? ==> delta >= 1 || StartsWith(title, "J-"))
      && (delta != 0 ==> DateShown(m) == Some(d))
      && (delta == 1 ==> EndsWith(m, "(demain • " + FormatDmy(d) + ")"))
      && (delta < 0 ==> EndsWith(m, "(le " + FormatDmy(d) + ")"))
  {
    match Classify(delta)
    case DaysLeft(n) => CountedReadsBack(title, emoji, d, n);
    case Tomorrow => TomorrowReadsBack(title, emoji, d);
    case Today =>
    case Past => PastReadsBack(title, emoji, d, delta);
  }

  lemma CountedReadsBack(title: string, emoji: string, d: Date, n: nat)
    requires ValidDate(d) && n > 1
    ensures var m := Framed("J-" + Decimal(n), Named(title, emoji), "(", FormatDmy(d));
      CountLabel(m) == Some(n) && DateShown(m) == Some(d)
  {
    var date := FormatDmy(d);
    var m := Framed("J-" + Decimal(n), Named(title, emoji), "(", date);
    DmyRoundTrip(d);
    FramedShape("J-" + Decimal(n), Named(title, emoji), "(", date);
    DecimalValue(n);
    CountLabelOf(m, Decimal(n));
    DateShownOf(m, date);
  }

  lemma TomorrowReadsBack(title: string, emoji: string, d: Date)
    requires ValidDate(d)
    ensures var m := Framed("J-1", Named(title, emoji), "(demain • ", FormatDmy(d));
      CountLabel(m) == Some(1) && DateShown(m) == Some(d)
      && EndsWith(m, "(demain • " + FormatDmy(d) + ")")
  {
    var date := FormatDmy(d);
    var m := Framed("J-1", Named(title, emoji), "(demain • ", date);
    DmyRoundTrip(d);
    FramedShape("J-1", Named(title, emoji), "(demain • ", date);
    DecimalValue(1);
    DecimalOne();
    CountLabelOf(m, "1");
    DateShownOf(m, date);
  }

  lemma PastReadsBack(title: string, emoji: string, d: Date, delta: int)
    requires ValidDate(d) && delta < 0
    ensures var m := Framed(title, " " + emoji + " : **passé** ", "(le ", FormatDmy(d));
      (CountLabel(m).Some? ==> StartsWith(title, "J-")) && DateShown(m) == Some(d)
      && EndsWith(m, "(le " + FormatDmy(d) + ")")
  {
    var date := FormatDmy(d);
    var m := Framed(title, " " + emoji + " : **passé** ", "(le ", date);
    DmyRoundTrip(d);
    FramedShape(title, " " + emoji + " : **passé** ", "(le ", date);
    PastOpensWithTitle(title, m);
    DateShownOf(m, date);
  }


  lemma FramedShape(open: string, mid: string, mark: string, date: string)
    ensures var m := Framed(open, mid, mark, date);
      && StartsWith(m, open)
      && (|mid| > 0 ==> |m| > |open| && m[|open|] == mid[0])
      && EndsWith(m, mark + date + ")")
      && |m| >= |date| + 1 && m[|m| - 1] == ')' && m[|m| - 1 - |date|..|m| - 1] == date
  {
    var m := Framed(open, mid, mark, date);
    assert m[..|open|] == open;
    assert m[|m| - |mark + date + ")"|..] == mark + date + ")";
  }

  lemma DateShownOf(m: string, date: string)
    requires |date| == 10 && |m| >= 11 && m[|m| - 1] == ')' && m[|m| - 11..|m| - 1] == date
    ensures DateShown(m) == ParseDmy(date)
  {
  }

  lemma DecimalOne()
    ensures Decimal(1) == "1"
  {
  }

  /** A numeral after `J-`, ended by a space, is read back as the count. */
  lemma CountLabelOf(m: string, digits: string)
    requires Canonical(digits)
    requires StartsWith(m, "J-" + digits)
    requires |m| > 2 + |digits| && m[2 + |digits|] == ' '
    ensures CountLabel(m) == Some(ValueOf(digits))
  {
    var k := 2 + |digits|;
    assert m[..2] == m[..k][..2] == "J-";
    var tail := m[2..];
    assert tail[..|digits|] == m[2..k] == m[..k][2..] == digits;
    var rest := tail[|digits|..];
    assert tail == digits + rest;
    DigitRunOfConcat(digits, rest);
  }

  /** A message that opens with the title, then a space, carries a count only if
      the title opens like one. */
  lemma PastOpensWithTitle(title: string, m: string)
    requires StartsWith(m, title) && |m| > |title| && m[|title|] == ' '
    ensures CountLabel(m).Some? ==> StartsWith(title, "J-")
  {
    if |title| >= 2 {
      assert m[..2] == title[..2];
    }
  }

  /** Moving `today` forward by one day brings every event one day closer. */
  lemma NextDayShiftsDelta(today: Date, d: Date)
    requires ValidDate(today) && ValidDate(d) && NextDay(today).Some?
    ensures DaysBetween(NextDay(today).value, d) == DaysBetween(today, d) - 1
  {
  }

  /** A same-day message names no date: it is the same whatever the event's date. */
  lemma TodayNamesNoDate(title: string, emoji: string, d1: Date, d2: Date)
    requires ValidDate(d1) && ValidDate(d2)
    ensures Message(title, emoji, d1, 0) == Message(title, emoji, d2, 0)
  {
  }

  /** A past message shows no count: it is the same however far in the past. */
  lemma PastShowsNoCount(title: string, emoji: string, d: Date, delta1: int, delta2: int)
    requires ValidDate(d) && delta1 < 0 && delta2 < 0
    ensures Message(title, emoji, d, delta1) == Message(title, emoji, d, delta2)
  {
  }

  // ---- One line per event, joined -----------------------------------------

  /** The bullet line for event `e` on `today`; none when its date text is rejected. */
  function EventLine(e: Event, today: Day): (r: Option<string>)
    ensures r.Some? <==> ParseIso(e.dateText).Some?
    ensures r.Some? ==> StartsWith(r.value, Bullet)
  {
    match ParseIso(e.dateText)
    case None => None
    case Some(d) => Some(Bullet + Message(e.title, e.emoji, d, DaysBetween(today, d)))
  }

  predicate AllDatesParse(events: seq<Event>) {
    forall i :: 0 <= i < |events| ==> ParseIso(events[i].dateText).Some?
  }

  /** The lines for `events`, one per event and in order, or the first event
      whose date text `date.fromisoformat` rejects, which aborts the run. */
  function Lines(events: seq<Event>, today: Day): (r: Result<seq<string>, BadDate>)
    ensures r.Success? <==> AllDatesParse(events)
    ensures r.Success? ==> |r.value| == |events|
    ensures r.Success? ==> forall i :: 0 <= i < |events| ==> EventLine(events[i], today) == Some(r.value[i])
    ensures r.Failure? ==>
      && r.error.index < |events|
      && r.error.text == events[r.error.index].dateText
      && ParseIso(r.error.text).None?
      && forall j :: 0 <= j < r.error.index ==> ParseIso(events[j].dateText).Some?
  {
    match MapUntilNone(events, e => EventLine(e, today))
    case Success(ls) => Success(ls)
    case Failure(k) => Failure(InvalidIsoFormat(k, events[k].dateText))
  }

  /** The `for` loop over the events, appending each event's line and stopping
      at the first rejected date. */
  method BuildLines(events: seq<Event>, today: Day) returns (r: Result<seq<string>, BadDate>)
    ensures r == Lines(events, today)
  {
    var lines := CollectAll(events, e => EventLine(e, today));
    match lines
    case Success(ls) => return Success(ls);
    case Failure(k) => return Failure(InvalidIsoFormat(k, events[k].dateText));
  }

  predicate NoNewline(e: Event) {
    '\n' !in e.title && '\n' !in e.emoji
  }

  /** The embed description: the lines joined with newlines, or the first
      event whose date text is rejected. */
  method Describe(events: seq<Event>, today: Day) returns (r: Result<string, BadDate>)
    ensures r.Success? <==> AllDatesParse(events)
    ensures r.Failure? ==>
      && r.error.index < |events|
      && ParseIso(events[r.error.index].dateText).None?
      && r.error.text == events[r.error.index].dateText
      && forall j :: 0 <= j < r.error.index ==> ParseIso(events[j].dateText).Some?
    ensures r.Success? ==> exists ls :: Lines(events, today) == Success(ls) && r.value == Join(ls, '\n')
    ensures |events| == 0 ==> r == Success("")
  {
    var lines := BuildLines(events, today);
    match lines
    case Failure(e) =>
      return Failure(e);
    case Success(ls) =>
      return Success(Join(ls, '\n'));
  }

  /** When no title or emoji holds a newline, the joined lines split back into
      exactly one line per event, in event order. */
  lemma JoinedLinesSplitBack(events: seq<Event>, today: Day)
    ensures Lines(events, today).Success? && |events| > 0 && (forall i :: 0 <= i < |events| ==> NoNewline(events[i])) ==>
      var parts := Split(Join(Lines(events, today).value, '\n'), '\n');
      |parts| == |events| && forall i :: 0 <= i < |events| ==> EventLine(events[i], today) == Some(parts[i])
  {
    if Lines(events, today).Success? && |events| > 0 && (forall i :: 0 <= i < |events| ==> NoNewline(events[i])) {
      var ls := Lines(events, today).value;
      forall i | 0 <= i < |ls|
        ensures '\n' !in ls[i]
      {
        var d := ParseIso(events[i].dateText).value;
        MessageNoNewline(events[i].title, events[i].emoji, d, DaysBetween(today, d));
      }
      SplitJoin(ls, '\n');
    }
  }

  /** Rendering adds no newline of its own. */
  lemma MessageNoNewline(title: string, emoji: string, d: Date, delta: int)
    requires ValidDate(d)
    requires '\n' !in title && '\n' !in emoji
    ensures '\n' !in Bullet + Message(title, emoji, d, delta)
  {
    DmyNoNewline(d);
    if delta > 1 {
      DecimalValue(delta);
      DigitsNoNewline(Decimal(delta));
      FramedNoNewline("J-" + Decimal(delta), Named(title, emoji), "(", FormatDmy(d));
    } else if delta == 1 {
      FramedNoNewline("J-1", Named(title, emoji), "(demain • ", FormatDmy(d));
    } else if delta == 0 {
      TodayNoNewline(title, emoji);
    } else {
      FramedNoNewline(title, " " + emoji + " : **passé** ", "(le ", FormatDmy(d));
    }
  }

  lemma TodayNoNewline(title: string, emoji: string)
    requires '\n' !in title && '\n' !in emoji
    ensures '\n' !in "🎉 **C'EST AUJOURD'HUI !** " + title + " " + emoji
  {
  }

  lemma FramedNoNewline(open: string, mid: string, mark: string, date: string)
    requires '\n' !in open && '\n' !in mid && '\n' !in mark && '\n' !in date
    ensures '\n' !in Framed(open, mid, mark, date)
  {
  }

  lemma DmyNoNewline(d: Date)
    requires ValidDate(d)
    ensures '\n' !in FormatDmy(d)
  {
    var date := FormatDmy(d);
    DmyFields(d);
    DigitsNoNewline(date[..2]);
    DigitsNoNewline(date[3..5]);
    DigitsNoNewline(date[6..]);
    assert date == date[..2] + "/" + date[3..5] + "/" + date[6..];
  }

  lemma DigitsNoNewline(s: string)
    requires AllDigits(s)
    ensures '\n' !in s
  {
  }

  // ---- The configured events ----------------------------------------------

  // The digit fields of the two configured dates, one small fact each.

  lemma YearDigits()
    ensures Padded(2025, 4) == "2025"
  {
  }

  lemma MonthDigits()
    ensures Padded(8, 2) == "08"
  {
  }

  lemma SigningDayDigits()
    ensures Padded(22, 2) == "22"
  {
  }

  lemma MoveDayDigits()
    ensures Padded(30, 2) == "30"
  {
  }

  /** The signing date, written both ways. */
  lemma SigningTexts()
    ensures FormatIso(Date(2025, 8, 22)) == "2025-08-22" && FormatDmy(Date(2025, 8, 22)) == "22/08/2025"
  {
    YearDigits();
    MonthDigits();
    SigningDayDigits();
  }

  /** The moving date, written both ways. */
  lemma MoveTexts()
    ensures FormatIso(Date(2025, 8, 30)) == "2025-08-30" && FormatDmy(Date(2025, 8, 30)) == "30/08/2025"
  {
    YearDigits();
    MonthDigits();
    MoveDayDigits();
  }

  /** Both configured dates are well-formed, so the run never aborts on them. */
  lemma ConfiguredDatesParse()
    ensures ParseIso(Events[0].dateText) == Some(Date(2025, 8, 22))
    ensures ParseIso(Events[1].dateText) == Some(Date(2025, 8, 30))
    ensures AllDatesParse(Events)
  {
    SigningTexts();
    MoveTexts();
    IsoRoundTrip(Date(2025, 8, 22));
    IsoRoundTrip(Date(2025, 8, 30));
  }

  /** The line `EventLine` gives a configured event, in terms of its message. */
  lemma ConfiguredLine(k: nat, today: Day, d: Date, delta: int)
    requires k < |Events| && ParseIso(Events[k].dateText) == Some(d)
    requires DaysBetween(today, d) == delta
    ensures EventLine(Events[k], today) == Some(Bullet + Message(Events[k].title, Events[k].emoji, d, delta))
  {
  }

  /** The day numbers of the dates the scenarios below use. */
  lemma ScenarioDays()
    ensures Ordinal(Date(2025, 8, 21)) == 739484
    ensures Ordinal(Date(2025, 8, 22)) == 739485
    ensures Ordinal(Date(2025, 8, 30)) == 739493
    ensures Ordinal(Date(2025, 9, 4)) == 739498
  {
  }

  // In the scenarios below, the expected line is written as the concatenation
  // `Message` builds, piece by piece; joined up, each is the single line quoted
  // in its comment.

  /** The day before the signing, the signing is announced for tomorrow with
      its date written day first:
      `• J-1 avant **Signature du bail** 📝 (demain • 22/08/2025)`. */
  lemma EveOfSigning()
    ensures EventLine(Events[0], Date(2025, 8, 21)) == Some(Bullet +
      ("J-1" + (" avant **" + "Signature du bail" + "** " + "📝" + " ") + "(demain • " + "22/08/2025" + ")"))
  {
    var today, d := Date(2025, 8, 21), Date(2025, 8, 22);
    ConfiguredDatesParse();
    SigningTexts();
    ScenarioDays();
    ConfiguredLine(0, today, d, 1);
  }

  /** On the same day, the move is announced nine days ahead:
      `• J-9 avant **Emménagement** 🏡 (30/08/2025)`. */
  lemma NineDaysBeforeMove()
    ensures EventLine(Events[1], Date(2025, 8, 21)) == Some(Bullet +
      ("J-" + "9" + (" avant **" + "Emménagement" + "** " + "🏡" + " ") + "(" + "30/08/2025" + ")"))
  {
    var today, d := Date(2025, 8, 21), Date(2025, 8, 30);
    ConfiguredDatesParse();
    MoveTexts();
    ScenarioDays();
    ConfiguredLine(1, today, d, 9);
    assert Decimal(9) == "9";
  }

  /** Once the move has happened, it is announced as past, without a count:
      `• Emménagement 🏡 : **passé** (le 30/08/2025)`. */
  lemma AfterTheMove()
    ensures EventLine(Events[1], Date(2025, 9, 4)) == Some(Bullet +
      ("Emménagement" + (" " + "🏡" + " : **passé** ") + "(le " + "30/08/2025" + ")"))
  {
    var today, d := Date(2025, 9, 4), Date(2025, 8, 30);
    ConfiguredDatesParse();
    MoveTexts();
    ScenarioDays();
    ConfiguredLine(1, today, d, -5);
  }

  /** On the day of the signing, its line is the celebration, with no date:
      `• 🎉 **C'EST AUJOURD'HUI !** Signature du bail 📝`. */
  lemma DayOfSigning()
    ensures EventLine(Events[0], Date(2025, 8, 22)) == Some(Bullet +
      ("🎉 **C'EST AUJOURD'HUI !** " + "Signature du bail" + " " + "📝"))
  {
    var d := Date(2025, 8, 22);
    ConfiguredDatesParse();
    ConfiguredLine(0, d, d, 0);
  }
}
