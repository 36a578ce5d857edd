/** The progress page (`src/components/pages/ProgressPage.jsx`): the 30-day
    completion rate, a calendar of the last 30 days coloured by each day's
    check-in, and the labels of the milestones achieved. Dates are day numbers. */
module Progress {
  import opened Wrappers
  import opened JsValue
  import opened Table
  import opened Db
  import opened Completion
  import JsText
  import DailyCheckIn

  /** `monthlyCompletionRate`: the rate of the check-ins `loadData` fetched,
      which are the 30 newest of the user. */
  function MonthlyRate(checkIns: Store, userId: string): nat
  {
    CompletionRate(CheckInsOf(checkIns, userId, 30))
  }

  /** The 30-day rate is a percentage over at most 30 of the user's check-ins,
      and it is 100 exactly when each of them has all six habits. */
  lemma MonthlyRateSpec(checkIns: Store, userId: string)
    requires Table.Valid(checkIns)
    ensures var h := CheckInsOf(checkIns, userId, 30);
      && |h| <= 30
      && (forall x :: x in h ==> x in checkIns.rows && Get(x, "userId") == Str(userId))
      && MonthlyRate(checkIns, userId) <= 100
      && (h != [] ==> (MonthlyRate(checkIns, userId) == 100 <==> forall i :: 0 <= i < |h| ==> Complete(h[i])))
  {
    CheckInsOfSpec(checkIns, userId, 30);
    var h := CheckInsOf(checkIns, userId, 30);
    if h != [] {
      RateIs100Iff(h);
    }
  }

  /** The calendar's days: the 30 days ending today, oldest first. */
  function CalendarDays(today: int): (ds: seq<int>)
    ensures |ds| == 30 && ds[29] == today
    ensures forall i :: 0 < i < 30 ==> ds[i] == ds[i - 1] + 1
  {
    seq(30, (i: int) => today - (29 - i))
  }

  /** `checkInHistory.find((c) => c.date === dateString)` */
  function FindByDate(history: seq<Record>, day: int): (r: Option<Record>)
    ensures r.Some? ==> r.value in history && Get(r.value, "date") == Num(day)
    ensures r.None? <==> forall i :: 0 <= i < |history| ==> Get(history[i], "date") != Num(day)
  {
    if history == [] then None
    else if Get(history[0], "date") == Num(day) then Some(history[0])
    else
      var r := FindByDate(history[1..], day);
      assert forall i :: 1 <= i < |history| ==> history[i] == history[1..][i - 1];
      r
  }

  /** A day's rate: that of its check-in alone, or 0 without one. */
  function DayRate(history: seq<Record>, day: int): nat
  {
    match FindByDate(history, day)
    case None => 0
    case Some(c) => CompletionRate([c])
  }

  datatype Colour = Green | Yellow | Orange | Grey

  /** The class chain of a calendar cell. */
  function ColourOf(rate: int): Colour
  {
    if rate >= 80 then Green else if rate >= 50 then Yellow else if rate > 0 then Orange else Grey
  }

  /** A day's colour by the number k of habits its check-in has: green for 5 or
      6, yellow for 3 or 4, orange for 1 or 2, and grey for none, or when the day
      has no check-in at all. */
  lemma DayColourSpec(history: seq<Record>, day: int)
    ensures var c := FindByDate(history, day);
      var colour := ColourOf(DayRate(history, day));
      && (colour == Grey <==> c.None? || FieldsOf(c.value) == 0)
      && (colour == Orange <==> c.Some? && 1 <= FieldsOf(c.value) <= 2)
      && (colour == Yellow <==> c.Some? && 3 <= FieldsOf(c.value) <= 4)
      && (colour == Green <==> c.Some? && 5 <= FieldsOf(c.value))
  {
    var c := FindByDate(history, day);
    if c.Some? {
      SingleRate(c.value);
    }
  }

  /** A day's rate is one of the seven single-check-in rates. */
  lemma DayRateValues(history: seq<Record>, day: int)
    ensures DayRate(history, day) in [0, 17, 33, 50, 67, 83, 100]
  {
    var c := FindByDate(history, day);
    if c.Some? {
      SingleRate(c.value);
    }
  }

  /** `milestone.type.replace('_', ' ').toUpperCase()` */
  function MilestoneLabel(milestoneType: string): string
  {
    JsText.ToUpper(JsText.ReplaceFirst(milestoneType, '_', ' '))
  }

  /** Only the first '_' becomes a space: the label is the upper-cased type with
      that one character replaced, and a type without '_' is only upper-cased. */
  lemma MilestoneLabelSpec(milestoneType: string, i: nat)
    requires i < |milestoneType| && milestoneType[i] == '_'
    requires forall k :: 0 <= k < i ==> milestoneType[k] != '_'
    ensures MilestoneLabel(milestoneType) == JsText.ToUpper(milestoneType[..i] + " " + milestoneType[i + 1..])
    ensures forall k :: i < k < |milestoneType| && milestoneType[k] == '_' ==> MilestoneLabel(milestoneType)[k] == '_'
  {
    JsText.ReplaceFirstAt(milestoneType, '_', ' ', i);
    var r := milestoneType[..i] + " " + milestoneType[i + 1..];
    assert |r| == |milestoneType|;
    forall k | i < k < |milestoneType| && milestoneType[k] == '_'
      ensures MilestoneLabel(milestoneType)[k] == '_'
    {
      assert r[k] == milestoneType[k];
      assert JsText.ToUpper(r)[k] == JsText.UpperChar(r[k]);
    }
  }

  lemma MilestoneLabelWithoutUnderscore(milestoneType: string)
    requires forall k :: 0 <= k < |milestoneType| ==> milestoneType[k] != '_'
    ensures MilestoneLabel(milestoneType) == JsText.ToUpper(milestoneType)
  {
    JsText.ReplaceFirstAbsent(milestoneType, '_', ' ');
  }

  /** The milestones the check-in page awards show as "STREAK <n>". */
  lemma StreakMilestoneLabel(n: nat)
    ensures MilestoneLabel(DailyCheckIn.MilestoneType(n)) == "STREAK " + JsText.NatToString(n)
  {
    var t := DailyCheckIn.MilestoneType(n);
    var digits := JsText.NatToString(n);
    assert t == "streak_" + digits;
    JsText.ReplaceFirstAt(t, '_', ' ', 6);
    var r := t[..6] + " " + t[7..];
    assert r == "streak " + digits;
    var u := JsText.ToUpper(r);
    assert forall k :: 0 <= k < |u| ==> u[k] == ("STREAK " + digits)[k];
  }
}
