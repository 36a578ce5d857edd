/** The daily check-in form (`src/components/dashboard/DailyCheckIn.jsx`): the
    six habit fields being edited, whether they are saved, the current streak of
    consecutive days ending today, the educational card, and the streak
    milestones awarded on save. Days are day numbers; "today" is a parameter. */
module DailyCheckIn {
  import opened Wrappers
  import opened JsValue
  import opened Table
  import opened Db
  import opened Completion
  import JsText

  /** The form's initial state: every flag false and no exercise choice. */
  const InitialCheckIn: Record := map[
    "supplements" := Bool(false), "sleep" := Bool(false), "exercise" := Str(""),
    "temperature" := Bool(false), "alcohol" := Bool(false), "stress" := Bool(false)]

  /** The default a missing flag falls back to when a saved check-in is loaded. */
  function Default(f: string): Value
  {
    if f == "exercise" then Str("") else Bool(false)
  }

  /** The form built from today's saved check-in: each habit field keeps a
      truthy value and falls back to its default otherwise; nothing else of the
      stored row (ids, dates, timestamps) is kept. */
  function Normalise(todayData: Record): (c: Record)
    ensures forall f :: f in c <==> f in Habits
    ensures forall f :: f in Habits ==> (Truthy(c[f]) <==> Truthy(Get(todayData, f)))
    ensures forall f :: f in Habits && Truthy(Get(todayData, f)) ==> c[f] == todayData[f]
    ensures forall f :: f in Habits && !Truthy(Get(todayData, f)) ==> c[f] == Default(f)
  {
    map f | f in Habits :: Or(Get(todayData, f), Default(f))
  }

  /** Loading keeps the completion count of the saved check-in. */
  lemma NormaliseKeepsFields(todayData: Record)
    ensures FieldsOf(Normalise(todayData)) == FieldsOf(todayData)
  {
    var c := Normalise(todayData);
    forall f | f in Habits
      ensures Done(c, f) == Done(todayData, f)
    {
      assert Get(c, f) == c[f];
    }
    assert "supplements" in Habits && "sleep" in Habits && "exercise" in Habits;
    assert "alcohol" in Habits && "stress" in Habits && "temperature" in Habits;
  }

  /** Loading what was loaded changes nothing. */
  lemma NormaliseIdempotent(todayData: Record)
    ensures Normalise(Normalise(todayData)) == Normalise(todayData)
  {
    var c := Normalise(todayData);
    forall f | f in Habits
      ensures Normalise(c)[f] == c[f]
    {
      assert Get(c, f) == c[f];
    }
  }

  /** The educational card shown after a checkbox changes. */
  datatype Card = Card(title: string, content: string, emoji: string)

  const SleepCard := Card("Why Sleep Matters",
    "Quality sleep is crucial for hormone regulation and reproductive health. Aim for 7-9 hours per night for optimal fertility.",
    "😴")

  const StressCard := Card("Managing Stress",
    "High stress levels can affect hormone balance and fertility. Try meditation, deep breathing, or gentle exercise to manage stress.",
    "🧘")

  /** A card is shown exactly when sleep or stress is unticked: the sleep card
      for sleep and the stress card for stress; any other change hides it. */
  function CardFor(field: string, value: Value): (r: Option<Card>)
    ensures r.Some? <==> (field == "sleep" || field == "stress") && !Truthy(value)
    ensures r.Some? ==> r.value == (if field == "sleep" then SleepCard else StressCard)
  {
    if field == "sleep" && !Truthy(value) then Some(SleepCard)
    else if field == "stress" && !Truthy(value) then Some(StressCard)
    else None
  }

  /** `new Date(row.date).toDateString() === expected.toDateString()` for the
      expected date `today - i`: an entry without a date is an invalid date,
      whose text never matches. */
  predicate DatedOn(row: Record, day: int)
  {
    Get(row, "date") == Num(day)
  }

  /** The count of the loop in `calculateStreak` from index i: how many entries
      from i on follow each other backwards from day `today - i`. */
  function StreakFrom(rows: seq<Record>, today: int, i: nat): (n: nat)
    requires i <= |rows|
    ensures i + n <= |rows|
    decreases |rows| - i
  {
    if i < |rows| && DatedOn(rows[i], today - i) then 1 + StreakFrom(rows, today, i + 1) else 0
  }

  /** The streak of the newest-first check-ins on day `today`. */
  function StreakOf(rows: seq<Record>, today: int): nat
  {
    StreakFrom(rows, today, 0)
  }

  /** The loop of `calculateStreak`: counts entries while entry i is dated
      `today - i` and stops at the first that is not. */
  method CalculateStreak(rows: seq<Record>, today: int) returns (currentStreak: nat)
    ensures currentStreak == StreakOf(rows, today)
  {
    currentStreak := 0;
    var i := 0;
    while i < |rows|
      invariant 0 <= i <= |rows| && currentStreak == i
      invariant StreakFrom(rows, today, 0) == i + StreakFrom(rows, today, i)
    {
      if DatedOn(rows[i], today - i) {
        currentStreak := currentStreak + 1;
      } else {
        break;
      }
      i := i + 1;
    }
  }

  lemma {:induction false} StreakFromSpec(rows: seq<Record>, today: int, i: nat)
    requires i <= |rows|
    ensures forall k :: i <= k < i + StreakFrom(rows, today, i) ==> DatedOn(rows[k], today - k)
    ensures i + StreakFrom(rows, today, i) < |rows| ==>
      !DatedOn(rows[i + StreakFrom(rows, today, i)], today - (i + StreakFrom(rows, today, i)))
    decreases |rows| - i
  {
    if i < |rows| && DatedOn(rows[i], today - i) {
      StreakFromSpec(rows, today, i + 1);
    }
  }

  /** The streak n is the length of the longest prefix of the newest-first list
      whose entry k is dated `today - k`: the entries before n all are, entry n
      (if any) is not, so the streak is 0 whenever the newest entry is not
      dated today. */
  lemma StreakSpec(rows: seq<Record>, today: int)
    ensures var n := StreakOf(rows, today);
      && n <= |rows|
      && (forall k :: 0 <= k < n ==> DatedOn(rows[k], today - k))
      && (n < |rows| ==> !DatedOn(rows[n], today - n))
      && (rows == [] || !DatedOn(rows[0], today) ==> n == 0)
  {
    StreakFromSpec(rows, today, 0);
  }

  /** The streak lengths that earn a milestone. */
  const Thresholds: seq<nat> := [7, 14, 30, 60, 90]

  /** `` `streak_${n}` `` */
  function MilestoneType(n: nat): string
  {
    "streak_" + JsText.NatToString(n)
  }

  /** `milestones.map(m => m.type)` */
  function TypesOf(milestones: seq<Record>): (r: seq<Value>)
    ensures |r| == |milestones|
    ensures forall i :: 0 <= i < |r| ==> r[i] == Get(milestones[i], "type")
  {
    if milestones == [] then [] else [Get(milestones[0], "type")] + TypesOf(milestones[1..])
  }

  /** The condition of `handleSave`: n is one of 7, 14, 30, 60, 90 and no
      milestone of type `streak_n` is recorded yet. */
  predicate MilestoneDue(n: nat, types: seq<Value>)
  {
    n in Thresholds && Str(MilestoneType(n)) !in types
  }

  /** The types the condition names are the five literals of the source. */
  lemma MilestoneTypes()
    ensures MilestoneType(7) == "streak_7" && MilestoneType(14) == "streak_14"
    ensures MilestoneType(30) == "streak_30" && MilestoneType(60) == "streak_60"
    ensures MilestoneType(90) == "streak_90"
  {
    assert JsText.NatToString(7) == "7";
    assert JsText.NatToString(14) == "14";
    assert JsText.NatToString(30) == "30";
    assert JsText.NatToString(60) == "60";
    assert JsText.NatToString(90) == "90";
  }

  /** A milestone is awarded at most once: after `streak_n` is saved for the
      user, it is no longer due for that user. */
  lemma AwardedMilestoneNotDueAgain(s: Store, userId: string, n: nat, now: string)
    requires Table.Valid(s) && s.autoIncrement && s.keyPath == "id" && NumericKeys(s)
    ensures Add(s, MilestoneRecord(userId, Str(MilestoneType(n)), map["streak" := Num(n)], now)).Ok?
    ensures var t := Add(s, MilestoneRecord(userId, Str(MilestoneType(n)), map["streak" := Num(n)], now)).value.0;
      !MilestoneDue(n, TypesOf(MilestonesOf(t, userId)))
  {
    var data := map["streak" := Num(n)];
    SaveThenMilestonesNewestFirst(s, userId, Str(MilestoneType(n)), data, now);
    var t := Add(s, MilestoneRecord(userId, Str(MilestoneType(n)), data, now)).value.0;
    var ms := MilestonesOf(t, userId);
    assert Get(ms[0], "type") == Str(MilestoneType(n));
    assert TypesOf(ms)[0] == Str(MilestoneType(n));
  }

  /** The milestone step of `handleSave` on values: the milestones in `p`,
      whether `getMilestones` and `saveMilestone` are rejected, and the streak
      n checked; the outcome is the alert and the milestones afterwards. */
  function MilestoneStep(p: Store, readFails: bool, saveFails: bool, userId: string, n: nat, now: string): (Option<string>, Store)
  {
    if readFails then (Some(SaveFailedMessage), p)
    else if !MilestoneDue(n, TypesOf(MilestonesOf(p, userId))) then (None, p)
    else match Attempt<(Store, Key)>(saveFails, Add(p, MilestoneRecord(userId, Str(MilestoneType(n)), map["streak" := Num(n)], now)))
      case Err(_) => (Some(SaveFailedMessage), p)
      case Ok(added) => (None, added.0)
  }

  /** What the milestone step does: `streak_n` with data `{ streak: n }` is
      added exactly when the milestones were read, it is due and its save goes
      through; the alert is shown exactly when a request of the step fails. */
  lemma MilestoneStepSpec(p: Store, readFails: bool, saveFails: bool, userId: string, n: nat, now: string,
                          alert: Option<string>, after: Store)
    requires (alert, after) == MilestoneStep(p, readFails, saveFails, userId, n, now)
    ensures var due := MilestoneDue(n, TypesOf(MilestonesOf(p, userId)));
      var add := Add(p, MilestoneRecord(userId, Str(MilestoneType(n)), map["streak" := Num(n)], now));
      && (alert.Some? ==> alert == Some(SaveFailedMessage))
      && (alert.None? <==> !readFails && (!due || (!saveFails && add.Ok?)))
      && after == (if !readFails && due && !saveFails && add.Ok? then add.value.0 else p)
  {
  }

  /** A row dated `day` for the counterexample below. */
  function DayRow(day: int): Record
  {
    map["date" := Num(day), "supplements" := Bool(true)]
  }

  /** `handleSave` as written takes `streak + 1` from the streak shown before
      the save. With check-ins on the six days before today and none today,
      that streak is 0 (the newest entry is not today's), so the first save of
      the seventh day tests 1 and awards nothing, although the streak after
      the save is 7 and `streak_7` is due. */
  lemma StaleStreakMissesSeventhDay(today: int)
    ensures var before := [DayRow(today - 1), DayRow(today - 2), DayRow(today - 3),
                           DayRow(today - 4), DayRow(today - 5), DayRow(today - 6)];
      var after := [DayRow(today)] + before;
      && StreakOf(before, today) == 0
      && StreakOf(after, today) == 7
      && !MilestoneDue(StreakOf(before, today) + 1, [])
      && MilestoneDue(StreakOf(after, today), [])
  {
    var before := [DayRow(today - 1), DayRow(today - 2), DayRow(today - 3),
                   DayRow(today - 4), DayRow(today - 5), DayRow(today - 6)];
    var after := [DayRow(today)] + before;
    assert !DatedOn(before[0], today);
    assert StreakFrom(after, today, 7) == 0;
    assert StreakFrom(after, today, 6) == 1;
    assert StreakFrom(after, today, 5) == 2;
    assert StreakFrom(after, today, 4) == 3;
    assert StreakFrom(after, today, 3) == 4;
    assert StreakFrom(after, today, 2) == 5;
    assert StreakFrom(after, today, 1) == 6;
    MilestoneTypes();
  }

  const SaveFailedMessage := "Failed to save check-in. Please try again."

  /** The component's state. */
  class CheckInForm {
    var checkIn: Record
    var loading: bool
    var saved: bool
    var streak: nat
    var card: Option<Card>

    constructor ()
      ensures checkIn == InitialCheckIn && loading && !saved && streak == 0 && card.None?
    {
      checkIn := InitialCheckIn;
      loading := true;
      saved := false;
      streak := 0;
      card := None;
    }

    /** `handleCheckboxChange(field, value)`: sets the field, marks the form
        unsaved and picks the card. */
    method HandleCheckboxChange(field: string, value: Value)
      modifies this
      ensures checkIn == old(checkIn)[field := value] && !saved && card == CardFor(field, value)
      ensures loading == old(loading) && streak == old(streak)
    {
      checkIn := checkIn[field := value];
      saved := false;
      card := CardFor(field, value);
    }

    /** `loadTodayCheckIn()`: with a signed-in user, today's saved check-in (if
        any) fills the form and marks it saved; loading ends either way. */
    method LoadTodayCheckIn(db: Database, user: Option<Record>, today: int)
      requires user.Some? ==> Get(user.value, "id").Str?
      modifies this, db.backend
      ensures user.None? ==> checkIn == old(checkIn) && saved == old(saved) && loading == old(loading)
      ensures user.Some? ==>
        var found := if old(db.Fails(0)) then None else TodayCheckIn(db.checkIns, Get(user.value, "id").s, today);
        && !loading
        && (found.Some? ==> checkIn == Normalise(found.value) && saved)
        && (found.None? ==> checkIn == old(checkIn) && saved == old(saved))
      ensures streak == old(streak) && card == old(card)
    {
      if user.None? {
        return;
      }
      var todayData := db.GetTodayCheckIn(Get(user.value, "id").s, today);
      if todayData.Some? {
        checkIn := Normalise(todayData.value);
        saved := true;
      }
      loading := false;
    }

    /** `calculateStreak()`: with a signed-in user, the streak of the 90 newest
        check-ins; a storage failure is logged and leaves the streak. */
    method CalculateStreakOf(db: Database, user: Option<Record>, today: int)
      requires user.Some? ==> Get(user.value, "id").Str?
      modifies this, db.backend
      ensures db.backend.requests == old(db.backend.requests) + (if user.Some? then 1 else 0)
      ensures user.Some? && !old(db.Fails(0)) ==>
        streak == StreakOf(CheckInsOf(db.checkIns, Get(user.value, "id").s, 90), today)
      ensures user.None? || old(db.Fails(0)) ==> streak == old(streak)
      ensures checkIn == old(checkIn) && saved == old(saved) && loading == old(loading) && card == old(card)
    {
      if user.None? {
        return;
      }
      var checkIns := db.GetCheckIns(Get(user.value, "id").s, 90);
      if checkIns.Err? {
        return;
      }
      streak := CalculateStreak(checkIns.value, today);
    }

    /** The milestone step of `handleSave` for the streak value n it tests
        (`getMilestones` is the next request, `saveMilestone` the one after):
        `streak_n` with data `{ streak: n }` is added exactly when the
        milestones were read, it is due and its save goes through; the alert
        is shown exactly when a request of the step fails. */
    static method AwardMilestone(db: Database, userId: string, n: nat, now: string) returns (alert: Option<string>)
      requires db.Valid()
      modifies db, db.backend
      ensures db.Valid()
      ensures db.State() == old(db.State()).(milestones := db.milestones)
      ensures alert.Some? ==> alert == Some(SaveFailedMessage)
      ensures var due := MilestoneDue(n, TypesOf(MilestonesOf(old(db.milestones), userId)));
        var add := Add(old(db.milestones), MilestoneRecord(userId, Str(MilestoneType(n)), map["streak" := Num(n)], now));
        && (alert.None? <==> !old(db.Fails(0)) && (!due || (!old(db.Fails(1)) && add.Ok?)))
        && db.milestones == (if !old(db.Fails(0)) && due && !old(db.Fails(1)) && add.Ok? then add.value.0 else old(db.milestones))
      ensures (alert, db.milestones) == MilestoneStep(old(db.milestones), old(db.Fails(0)), old(db.Fails(1)), userId, n, now)
    {
      var milestones := db.GetMilestones(userId);
      if milestones.Err? {
        return Some(SaveFailedMessage);
      }
      var milestoneTypes := TypesOf(milestones.value);
      if MilestoneDue(n, milestoneTypes) {
        var r := db.SaveMilestone(userId, Str(MilestoneType(n)), map["streak" := Num(n)], now);
        if r.Err? {
          return Some(SaveFailedMessage);
        }
      }
      return None;
    }

    /** The steps of `handleSave` after the check-in is stored: the streak is
        recounted (request 0) and then a streak is checked for a milestone
        (requests 1 and 2) — the given one, or the recounted one when none is
        given. */
    method RecountAndAward(db: Database, user: Option<Record>, today: int, now: string, given: Option<nat>) returns (alert: Option<string>)
      requires db.Valid()
      requires user.Some? && Get(user.value, "id").Str?
      modifies this, db, db.backend
      ensures db.Valid()
      ensures var id := Get(user.value, "id").s;
        var recounted := if old(db.Fails(0)) then old(streak) else StreakOf(CheckInsOf(old(db.checkIns), id, 90), today);
        && streak == recounted
        && db.State() == old(db.State()).(milestones := db.milestones)
        && (alert, db.milestones) == MilestoneStep(old(db.milestones), old(db.Fails(1)), old(db.Fails(2)), id,
                                                   if given.Some? then given.value else recounted, now)
      ensures checkIn == old(checkIn) && card == old(card) && loading == old(loading) && saved == old(saved)
    {
      var id := Get(user.value, "id").s;
      ghost var readFails, saveFails := db.Fails(1), db.Fails(2);
      ghost var before := db.State();
      CalculateStreakOf(db, user, today);
      assert db.State() == before;
      assert db.Fails(0) == readFails && db.Fails(1) == saveFails;
      var n := if given.Some? then given.value else streak;
      alert := AwardMilestone(db, id, n, now);
    }

    /** `handleSave()` as written: saves the form (request 0), marks it saved,
        recounts the streak (request 1, whose failure is only logged), and then
        tests the streak captured before the save plus one for a milestone, as
        `AwardMilestone` does with requests 2 and 3. Any other failure is
        reported with the alert text, after whatever the earlier steps did:
        a milestone step that fails leaves the check-in saved. */
    method HandleSave(db: Database, user: Option<Record>, today: int, now: string) returns (alert: Option<string>)
      requires db.Valid()
      requires user.Some? ==> Get(user.value, "id").Str?
      modifies this, db, db.backend
      ensures db.Valid()
      ensures user.None? ==> alert.None? && db.State() == old(db.State()) && saved == old(saved) && streak == old(streak)
      ensures user.Some? ==>
        var id := Get(user.value, "id").s;
        var up := Attempt(old(db.Fails(0)), UpsertCheckIn(old(db.checkIns), id, old(checkIn), today, now));
        && (up.Err? ==> alert == Some(SaveFailedMessage) && db.State() == old(db.State()) && saved == old(saved) && streak == old(streak))
        && (up.Ok? ==>
              var n := old(streak) + 1;
              var due := MilestoneDue(n, TypesOf(MilestonesOf(old(db.milestones), id)));
              var add := Add(old(db.milestones), MilestoneRecord(id, Str(MilestoneType(n)), map["streak" := Num(n)], now));
              && saved
              && streak == (if old(db.Fails(1)) then old(streak) else StreakOf(CheckInsOf(up.value.0, id, 90), today))
              && db.State() == old(db.State()).(checkIns := up.value.0, milestones := db.milestones)
              && (alert.Some? ==> alert == Some(SaveFailedMessage))
              && (alert.None? <==> !old(db.Fails(2)) && (!due || (!old(db.Fails(3)) && add.Ok?)))
              && db.milestones == (if !old(db.Fails(2)) && due && !old(db.Fails(3)) && add.Ok? then add.value.0 else old(db.milestones)))
      ensures checkIn == old(checkIn) && card == old(card) && loading == old(loading)
    {
      if user.None? {
        return None;
      }
      var id := Get(user.value, "id").s;
      var streakBefore := streak;
      ghost var recountFails, readFails, saveFails := db.Fails(1), db.Fails(2), db.Fails(3);
      var r := db.SaveCheckIn(id, checkIn, today, now);
      if r.Err? {
        return Some(SaveFailedMessage);
      }
      assert db.milestones == old(db.milestones);
      saved := true;
      alert := RecountAndAward(db, user, today, now, Some(streakBefore + 1));
      MilestoneStepSpec(old(db.milestones), readFails, saveFails, id, streakBefore + 1, now, alert, db.milestones);
    }

    /** `handleSave()` with the evidently intended milestone test: the streak
        checked is the one recounted after the save (still the old one when the
        recount fails). */
    method HandleSaveCorrected(db: Database, user: Option<Record>, today: int, now: string) returns (alert: Option<string>)
      requires db.Valid()
      requires user.Some? ==> Get(user.value, "id").Str?
      modifies this, db, db.backend
      ensures db.Valid()
      ensures user.None? ==> alert.None? && db.State() == old(db.State()) && saved == old(saved) && streak == old(streak)
      ensures user.Some? ==>
        var id := Get(user.value, "id").s;
        var up := Attempt(old(db.Fails(0)), UpsertCheckIn(old(db.checkIns), id, old(checkIn), today, now));
        && (up.Err? ==> alert == Some(SaveFailedMessage) && db.State() == old(db.State()) && saved == old(saved) && streak == old(streak))
        && (up.Ok? ==>
              var n := if old(db.Fails(1)) then old(streak) else StreakOf(CheckInsOf(up.value.0, id, 90), today);
              var due := MilestoneDue(n, TypesOf(MilestonesOf(old(db.milestones), id)));
              var add := Add(old(db.milestones), MilestoneRecord(id, Str(MilestoneType(n)), map["streak" := Num(n)], now));
              && saved
              && streak == n
              && db.State() == old(db.State()).(checkIns := up.value.0, milestones := db.milestones)
              && (alert.Some? ==> alert == Some(SaveFailedMessage))
              && (alert.None? <==> !old(db.Fails(2)) && (!due || (!old(db.Fails(3)) && add.Ok?)))
              && db.milestones == (if !old(db.Fails(2)) && due && !old(db.Fails(3)) && add.Ok? then add.value.0 else old(db.milestones)))
      ensures checkIn == old(checkIn) && card == old(card) && loading == old(loading)
    {
      if user.None? {
        return None;
      }
      var id := Get(user.value, "id").s;
      ghost var recountFails, readFails, saveFails := db.Fails(1), db.Fails(2), db.Fails(3);
      var r := db.SaveCheckIn(id, checkIn, today, now);
      if r.Err? {
        return Some(SaveFailedMessage);
      }
      saved := true;
      alert := RecountAndAward(db, user, today, now, None);
      MilestoneStepSpec(old(db.milestones), readFails, saveFails, id, streak, now, alert, db.milestones);
    }
  }
}
