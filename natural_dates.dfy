/**
 * `ParseNaturalDate` and `GetNextDayOfWeek`: the eighteen English phrases a
 * due date may be given as, each resolved against today's date at midnight.
 * Today is a parameter (it is read from the clock in the program).
 */
module NaturalDates {
  import opened Wrappers
  import opened Text
  import opened Calendar

  /** `System.DayOfWeek`: Sunday is 0, Saturday is 6. */
  const Sunday: int := 0
  const Monday: int := 1
  const Tuesday: int := 2
  const Wednesday: int := 3
  const Thursday: int := 4
  const Friday: int := 5
  const Saturday: int := 6

  /** The English day names, indexed by `DayOfWeek`. */
  const DayNames: seq<string> :=
    ["sunday", "monday", "tuesday", "wednesday", "thursday", "friday", "saturday"]

  /** What a recognised phrase asks for. */
  datatype Offset =
    | DaysAhead(days: nat)
    | MonthsAhead(months: nat)
    | ThisWeekday(weekday: int)
    | NextWeekday(weekday: int)

  predicate ValidOffset(o: Offset) {
    (o.ThisWeekday? || o.NextWeekday?) ==> 0 <= o.weekday < 7
  }

  /** The phrases of the `switch`, in the order written. */
  const Phrases: seq<string> := [
    "today", "tomorrow", "next week", "next month",
    "this friday", "next friday", "this monday", "next monday",
    "this tuesday", "next tuesday", "this wednesday", "next wednesday",
    "this thursday", "next thursday", "this saturday", "next saturday",
    "this sunday", "next sunday"]

  /** Each weekday phrase of the `switch` is "this " or "next " and a name from the table. */
  lemma DayPhrasesSpelled()
    ensures "this sunday" == "this " + DayNames[0]
    ensures "next sunday" == "next " + DayNames[0]
    ensures "this monday" == "this " + DayNames[1]
    ensures "next monday" == "next " + DayNames[1]
    ensures "this tuesday" == "this " + DayNames[2]
    ensures "next tuesday" == "next " + DayNames[2]
    ensures "this wednesday" == "this " + DayNames[3]
    ensures "next wednesday" == "next " + DayNames[3]
    ensures "this thursday" == "this " + DayNames[4]
    ensures "next thursday" == "next " + DayNames[4]
    ensures "this friday" == "this " + DayNames[5]
    ensures "next friday" == "next " + DayNames[5]
    ensures "this saturday" == "this " + DayNames[6]
    ensures "next saturday" == "next " + DayNames[6]
  {
  }

  /** The `switch` on the normalised phrase; `None` is the discard arm. */
  function PhraseOffset(phrase: string): (r: Option<Offset>)
    ensures r.Some? ==> ValidOffset(r.value)
  {
    if phrase == "today" then Some(DaysAhead(0))
    else if phrase == "tomorrow" then Some(DaysAhead(1))
    else if phrase == "next week" then Some(DaysAhead(7))
    else if phrase == "next month" then Some(MonthsAhead(1))
    else if phrase == "this friday" then Some(ThisWeekday(Friday))
    else if phrase == "next friday" then Some(NextWeekday(Friday))
    else if phrase == "this monday" then Some(ThisWeekday(Monday))
    else if phrase == "next monday" then Some(NextWeekday(Monday))
    else if phrase == "this tuesday" then Some(ThisWeekday(Tuesday))
    else if phrase == "next tuesday" then Some(NextWeekday(Tuesday))
    else if phrase == "this wednesday" then Some(ThisWeekday(Wednesday))
    else if phrase == "next wednesday" then Some(NextWeekday(Wednesday))
    else if phrase == "this thursday" then Some(ThisWeekday(Thursday))
    else if phrase == "next thursday" then Some(NextWeekday(Thursday))
    else if phrase == "this saturday" then Some(ThisWeekday(Saturday))
    else if phrase == "next saturday" then Some(NextWeekday(Saturday))
    else if phrase == "this sunday" then Some(ThisWeekday(Sunday))
    else if phrase == "next sunday" then Some(NextWeekday(Sunday))
    else None
  }

  /** Exactly the eighteen phrases are recognised. */
  lemma PhraseOffsetRecognises(phrase: string)
    ensures PhraseOffset(phrase).Some? <==> phrase in Phrases
  {
  }

  /** A phrase the `switch` reads as a weekday is "this " or "next " followed by that day's name. */
  lemma WeekdayPhraseNamesDay(phrase: string)
    requires PhraseOffset(phrase).Some?
    ensures var o := PhraseOffset(phrase).value;
      (o.ThisWeekday? ==> phrase == "this " + DayNames[o.weekday])
      && (o.NextWeekday? ==> phrase == "next " + DayNames[o.weekday])
  {
    DayPhrasesSpelled();
  }

  /** "this <day>" and "next <day>" are recognised for every day name, and name that day. */
  lemma WeekdayPhrases(w: int)
    requires 0 <= w < 7
    ensures PhraseOffset("this " + DayNames[w]) == Some(ThisWeekday(w))
    ensures PhraseOffset("next " + DayNames[w]) == Some(NextWeekday(w))
  {
    DayPhrasesSpelled();
  }

  /** The distance `GetNextDayOfWeek` adds reaches the target weekday within a week. */
  lemma DaysUntilTarget(w: int, t: int)
    requires 0 <= w < 7 && 0 <= t < 7
    ensures var k := (t - w + 7) % 7; 0 <= k < 7 && (w + k) % 7 == t
  {
    if t >= w {
      assert (t - w + 7) % 7 == t - w;
    } else {
      assert (t - w + 7) % 7 == t - w + 7;
      assert (t + 7) % 7 == t;
    }
  }

  /** No shorter distance reaches it. */
  lemma DaysUntilTargetIsLeast(w: int, t: int, n: nat)
    requires 0 <= w < 7 && 0 <= t < 7
    requires n < (t - w + 7) % 7
    ensures (w + n) % 7 != t
  {
    if t >= w {
      assert (t - w + 7) % 7 == t - w;
      assert (w + n) % 7 == w + n;
    } else {
      assert (t - w + 7) % 7 == t - w + 7;
      if w + n < 7 {
        assert (w + n) % 7 == w + n;
      } else {
        assert (w + n) % 7 == w + n - 7;
      }
    }
  }

  /** `GetNextDayOfWeek`: the first day on or after today that falls on `target`. */
  function GetNextDayOfWeek(target: int, today: Date): (r: Date)
    requires 0 <= target < 7 && ValidDate(today)
    ensures ValidDate(r)
    ensures DayOfWeek(r) == target
    ensures DayNumber(today) <= DayNumber(r) < DayNumber(today) + 7
    ensures DayNumber(r) == DayNumber(today) + (target - DayOfWeek(today) + 7) % 7
  {
    var w := DayOfWeek(today);
    var daysUntilTarget := (target - w + 7) % 7;
    DaysUntilTarget(w, target);
    assert 0 <= daysUntilTarget < 7 && (w + daysUntilTarget) % 7 == target;
    AddDaysWeekday(today, daysUntilTarget);
    AddDays(today, daysUntilTarget)
  }

  /** The same on day numbers: `a` is today's, `w` its weekday, `x` a later day's. */
  lemma NearestInDayNumbers(a: nat, w: int, t: int, x: nat)
    requires w == (a + 1) % 7 && 0 <= t < 7
    requires a <= x < a + (t - w + 7) % 7
    ensures (x + 1) % 7 != t
  {
    var n := x - a;
    DaysUntilTargetIsLeast(w, t, n);
    ModAddRight(a + 1, n);
    assert x + 1 == a + 1 + n;
  }

  /** No day from today up to the one found falls on `target`, so it is the nearest one. */
  lemma NextDayOfWeekIsNearest(target: int, today: Date, e: Date)
    requires 0 <= target < 7 && ValidDate(today) && ValidDate(e)
    requires DayNumber(today) <= DayNumber(e) < DayNumber(today) + (target - DayOfWeek(today) + 7) % 7
    ensures DayOfWeek(e) != target
  {
    NearestInDayNumbers(DayNumber(today), DayOfWeek(today), target, DayNumber(e));
  }

  /** The date an offset stands for, counted from today. */
  function Resolve(o: Offset, today: Date): (r: Date)
    requires ValidOffset(o) && ValidDate(today)
    ensures ValidDate(r)
  {
    match o
    case DaysAhead(n) => AddDays(today, n)
    case MonthsAhead(m) => AddMonths(today, m)
    case ThisWeekday(w) => GetNextDayOfWeek(w, today)
    case NextWeekday(w) => AddDays(GetNextDayOfWeek(w, today), 7)
  }

  /** `ParseNaturalDate`: null and "" give null; otherwise the lower-cased, trimmed phrase is
      looked up, and a recognised one gives its date at midnight. */
  function ParseNaturalDate(dateString: Option<string>, today: Date): (r: Option<DateTime>)
    requires ValidDate(today)
    ensures r.Some? ==> ValidDateTime(r.value) && r.value.ticks == 0
    ensures dateString == None || dateString == Some("") ==> r == None
  {
    if dateString.None? || dateString.value == "" then None
    else
      match PhraseOffset(Trim(ToLower(dateString.value)))
      case None => None
      case Some(o) => Some(DateTime(Resolve(o, today), 0))
  }

  /** A date is produced exactly for a non-empty string whose lower-cased, trimmed form is one of
      the phrases. */
  lemma ParseNaturalDateDefined(dateString: Option<string>, today: Date)
    requires ValidDate(today)
    ensures ParseNaturalDate(dateString, today).Some? <==>
      dateString.Some? && dateString.value != "" && Trim(ToLower(dateString.value)) in Phrases
  {
    if dateString.Some? && dateString.value != "" {
      PhraseOffsetRecognises(Trim(ToLower(dateString.value)));
    }
  }

  /** A phrase already in normal form is parsed as its table entry says. */
  lemma ParsesAsPhrase(phrase: string, today: Date)
    requires ValidDate(today) && phrase != [] && Trim(ToLower(phrase)) == phrase
    requires PhraseOffset(phrase).Some?
    ensures ParseNaturalDate(Some(phrase), today) == Some(DateTime(Resolve(PhraseOffset(phrase).value, today), 0))
  {
  }

  lemma TodayIsNormal() ensures Trim(ToLower("today")) == "today" { LowerTrimmedFixed("today"); }
  lemma TomorrowIsNormal() ensures Trim(ToLower("tomorrow")) == "tomorrow" { LowerTrimmedFixed("tomorrow"); }
  lemma NextWeekIsNormal() ensures Trim(ToLower("next week")) == "next week" { LowerTrimmedFixed("next week"); }
  lemma NextMonthIsNormal() ensures Trim(ToLower("next month")) == "next month" { LowerTrimmedFixed("next month"); }

  /** "today", "tomorrow" and "next week" are 0, 1 and 7 days ahead. */
  lemma TodayParses(today: Date)
    requires ValidDate(today)
    ensures ParseNaturalDate(Some("today"), today) == Some(DateTime(today, 0))
  {
    TodayIsNormal();
    ParsesAsPhrase("today", today);
  }

  lemma TomorrowParses(today: Date)
    requires ValidDate(today)
    ensures var r := ParseNaturalDate(Some("tomorrow"), today);
      r.Some? && DayNumber(r.value.date) == DayNumber(today) + 1
  {
    TomorrowIsNormal();
    ParsesAsPhrase("tomorrow", today);
  }

  lemma NextWeekParses(today: Date)
    requires ValidDate(today)
    ensures var r := ParseNaturalDate(Some("next week"), today);
      r.Some? && DayNumber(r.value.date) == DayNumber(today) + 7
  {
    NextWeekIsNormal();
    ParsesAsPhrase("next week", today);
  }

  /** "next month" is the same day of the following month, cut back to that month's last day. */
  lemma NextMonthParses(today: Date)
    requires ValidDate(today)
    ensures var r := ParseNaturalDate(Some("next month"), today);
      r.Some? &&
      r.value.date.year * 12 + r.value.date.month == today.year * 12 + today.month + 1 &&
      r.value.date.day == Min(today.day, DaysInMonth(r.value.date.year, r.value.date.month))
  {
    NextMonthIsNormal();
    ParsesAsPhrase("next month", today);
  }

  /** A day name in lower case after "this " or "next " is already in normal form. */
  lemma WeekdayPhraseNormal(phrase: string, prefix: string, w: int)
    requires prefix == "this " || prefix == "next "
    requires 0 <= w < 7 && phrase == prefix + DayNames[w]
    ensures phrase != [] && Trim(ToLower(phrase)) == phrase
  {
    assert forall i | 0 <= i < |DayNames[w]| :: 'a' <= DayNames[w][i] <= 'z';
    assert forall i | 0 <= i < |phrase| :: phrase[i] == ' ' || 'a' <= phrase[i] <= 'z';
    assert phrase[|phrase| - 1] == DayNames[w][|DayNames[w]| - 1];
    LowerTrimmedFixed(phrase);
  }

  /** The offset a weekday phrase stands for, stated on the phrase. */
  lemma WeekdayPhraseOffset(phrase: string, prefix: string, w: int)
    requires prefix == "this " || prefix == "next "
    requires 0 <= w < 7 && phrase == prefix + DayNames[w]
    ensures PhraseOffset(phrase) == Some(if prefix == "this " then ThisWeekday(w) else NextWeekday(w))
  {
    WeekdayPhrases(w);
  }

  /** A phrase in normal form parses to what its offset resolves to. */
  lemma ParsesAsOffset(phrase: string, o: Offset, today: Date)
    requires ValidDate(today) && phrase != [] && Trim(ToLower(phrase)) == phrase
    requires PhraseOffset(phrase) == Some(o)
    ensures ValidOffset(o)
    ensures ParseNaturalDate(Some(phrase), today) == Some(DateTime(Resolve(o, today), 0))
  {
  }

  /** The offset of "this <day>": that weekday, 0 to 6 days ahead. */
  lemma ThisWeekdayOffset(w: int, today: Date)
    requires ValidDate(today) && 0 <= w < 7
    ensures DayOfWeek(Resolve(ThisWeekday(w), today)) == w
    ensures DayNumber(today) <= DayNumber(Resolve(ThisWeekday(w), today)) < DayNumber(today) + 7
  {
    assert Resolve(ThisWeekday(w), today) == GetNextDayOfWeek(w, today);
  }

  /** The offset of "next <day>": a week after that of "this <day>". */
  lemma NextWeekdayOffset(w: int, today: Date)
    requires ValidDate(today) && 0 <= w < 7
    ensures DayOfWeek(Resolve(NextWeekday(w), today)) == w
    ensures DayNumber(Resolve(NextWeekday(w), today)) == DayNumber(Resolve(ThisWeekday(w), today)) + 7
  {
    var d := GetNextDayOfWeek(w, today);
    assert Resolve(ThisWeekday(w), today) == d;
    assert Resolve(NextWeekday(w), today) == AddDays(d, 7);
    WeekLater(d);
  }

  /** "this <day>" parses to midnight of the nearest day, today included, that falls on that
      weekday: 0 to 6 days ahead. */
  lemma ThisWeekdayPhrase(w: int, today: Date)
    requires ValidDate(today) && 0 <= w < 7
    ensures var r := ParseNaturalDate(Some("this " + DayNames[w]), today);
      r.Some? && r.value.ticks == 0 && DayOfWeek(r.value.date) == w
      && DayNumber(today) <= DayNumber(r.value.date) < DayNumber(today) + 7
  {
    var phrase := "this " + DayNames[w];
    WeekdayPhraseNormal(phrase, "this ", w);
    WeekdayPhraseOffset(phrase, "this ", w);
    ParsesAsOffset(phrase, ThisWeekday(w), today);
    ThisWeekdayOffset(w, today);
  }

  /** "next <day>" parses to the same weekday exactly a week after "this <day>", 7 to 13 days
      ahead. */
  lemma NextWeekdayPhrase(w: int, today: Date)
    requires ValidDate(today) && 0 <= w < 7
    ensures var r := ParseNaturalDate(Some("next " + DayNames[w]), today);
      var here := ParseNaturalDate(Some("this " + DayNames[w]), today);
      r.Some? && here.Some? && r.value.ticks == 0 && DayOfWeek(r.value.date) == w
      && DayNumber(r.value.date) == DayNumber(here.value.date) + 7
      && DayNumber(today) + 7 <= DayNumber(r.value.date) < DayNumber(today) + 14
  {
    var here, later := "this " + DayNames[w], "next " + DayNames[w];
    WeekdayPhraseNormal(here, "this ", w);
    WeekdayPhraseOffset(here, "this ", w);
    ParsesAsOffset(here, ThisWeekday(w), today);
    WeekdayPhraseNormal(later, "next ", w);
    WeekdayPhraseOffset(later, "next ", w);
    ParsesAsOffset(later, NextWeekday(w), today);
    ThisWeekdayOffset(w, today);
    NextWeekdayOffset(w, today);
  }

  /** On a Wednesday, "this friday" is two days ahead, "next friday" nine, and "this wednesday"
      is today itself. */
  lemma OnAWednesday(today: Date)
    requires ValidDate(today) && DayOfWeek(today) == Wednesday
    ensures var r := ParseNaturalDate(Some("this friday"), today);
      r.Some? && DayNumber(r.value.date) == DayNumber(today) + 2
    ensures var r := ParseNaturalDate(Some("next friday"), today);
      r.Some? && DayNumber(r.value.date) == DayNumber(today) + 9
    ensures ParseNaturalDate(Some("this wednesday"), today) == Some(DateTime(today, 0))
  {
    assert "this " + DayNames[Friday] == "this friday";
    assert "next " + DayNames[Friday] == "next friday";
    assert "this " + DayNames[Wednesday] == "this wednesday";
    WeekdayOnWednesday(today);
  }

  /** The same, through the day-name table. */
  lemma WeekdayOnWednesday(today: Date)
    requires ValidDate(today) && DayOfWeek(today) == Wednesday
    ensures var r := ParseNaturalDate(Some("this " + DayNames[Friday]), today);
      r.Some? && DayNumber(r.value.date) == DayNumber(today) + 2
    ensures var r := ParseNaturalDate(Some("next " + DayNames[Friday]), today);
      r.Some? && DayNumber(r.value.date) == DayNumber(today) + 9
    ensures ParseNaturalDate(Some("this " + DayNames[Wednesday]), today) == Some(DateTime(today, 0))
  {
    var fri, nextFri, wed := "this " + DayNames[Friday], "next " + DayNames[Friday], "this " + DayNames[Wednesday];
    WeekdayPhraseNormal(fri, "this ", Friday);
    WeekdayPhraseOffset(fri, "this ", Friday);
    ParsesAsOffset(fri, ThisWeekday(Friday), today);
    WeekdayPhraseNormal(nextFri, "next ", Friday);
    WeekdayPhraseOffset(nextFri, "next ", Friday);
    ParsesAsOffset(nextFri, NextWeekday(Friday), today);
    WeekdayPhraseNormal(wed, "this ", Wednesday);
    WeekdayPhraseOffset(wed, "this ", Wednesday);
    ParsesAsOffset(wed, ThisWeekday(Wednesday), today);
    assert GetNextDayOfWeek(Wednesday, today) == AddDays(today, 0);
  }
}
