/** The premium dashboard (`src/components/premium/PremiumDashboard.jsx`): a
    greeting by time of day, the user's vitality score from the latest week of
    check-ins, the partner's completion rate, their collective vitality, the
    per-habit percentages of the breakdown card and the days until the optimised
    window. The hour of the clock is a parameter. */
module Premium {
  import opened Wrappers
  import opened JsValue
  import opened Table
  import opened Db
  import opened Completion
  import opened Cycle
  import Synergy

  datatype TimeOfDay = Morning | Afternoon | Evening

  /** The effect's bucket for `new Date().getHours()`. */
  function TimeOfDayOf(hour: nat): (t: TimeOfDay)
    ensures t == Morning <==> hour < 12
    ensures t == Afternoon <==> 12 <= hour < 17
    ensures t == Evening <==> 17 <= hour
  {
    if hour < 12 then Morning else if hour < 17 then Afternoon else Evening
  }

  /** Position in the day: morning, afternoon, evening. */
  function Rank(t: TimeOfDay): nat
  {
    match t
    case Morning => 0
    case Afternoon => 1
    case Evening => 2
  }

  /** A later hour never gets an earlier part of the day. */
  lemma TimeOfDayMonotone(h1: nat, h2: nat)
    requires h1 <= h2
    ensures Rank(TimeOfDayOf(h1)) <= Rank(TimeOfDayOf(h2))
  {
  }

  /** `greetingMap[timeOfDay]` */
  function Greeting(t: TimeOfDay): string
  {
    match t
    case Morning => "Good morning"
    case Afternoon => "Good afternoon"
    case Evening => "Good evening"
  }

  /** What `loadDashboardData` stores in `stats`. */
  datatype PremiumStats = PremiumStats(
    dayInProgram: Option<nat>,
    vitalityScore: nat,
    weeklyCompletionRate: nat,
    partnerCompletionRate: nat,
    checkInHistory: seq<Record>)

  const InitialStats := PremiumStats(Some(0), 0, 0, 0, [])

  /** `partnershipData?.partnerId` is truthy. */
  predicate Paired(partnership: Option<Record>)
  {
    partnership.Some? && Truthy(Get(partnership.value, "partnerId"))
  }

  /** The partner's check-ins that are rated: the seven newest when paired and
      none otherwise. */
  function PartnerCheckIns(checkIns: Store, partnership: Option<Record>): seq<Record>
    requires Paired(partnership) ==> Get(partnership.value, "partnerId").Str?
  {
    if Paired(partnership) then CheckInsOf(checkIns, Get(partnership.value, "partnerId").s, 7) else []
  }

  /** The stats computed from the day in program, the user's 30 newest
      check-ins and the partner's rated check-ins. */
  function PremiumStatsOf(day: Option<nat>, mine: seq<Record>, partners: seq<Record>): PremiumStats
  {
    var weekly := CompletionRate(Slice(mine, 0, 7));
    PremiumStats(day, weekly, weekly, CompletionRate(partners), mine)
  }

  /** The vitality score is the rate of the first seven of the latest 30
      check-ins, which are the user's seven newest; both rates are
      percentages, and without a partner the partner's rate is 0. */
  lemma PremiumStatsSpec(checkIns: Store, userId: string, day: Option<nat>, partnership: Option<Record>)
    requires Paired(partnership) ==> Get(partnership.value, "partnerId").Str?
    ensures var s := PremiumStatsOf(day, CheckInsOf(checkIns, userId, 30), PartnerCheckIns(checkIns, partnership));
      && s.vitalityScore == s.weeklyCompletionRate == CompletionRate(CheckInsOf(checkIns, userId, 7))
      && s.vitalityScore <= 100 && s.partnerCompletionRate <= 100
      && (!Paired(partnership) ==> s.partnerCompletionRate == 0)
      && |s.checkInHistory| <= 30
  {
    var all := Reverse(WithField(checkIns.rows, "userId", Str(userId)));
    assert Slice(CheckInsOf(checkIns, userId, 30), 0, 7) == CheckInsOf(checkIns, userId, 7) by {
      assert CheckInsOf(checkIns, userId, 30) == Limit(all, 30);
      assert CheckInsOf(checkIns, userId, 7) == Limit(all, 7);
    }
  }

  /** `collectiveVitality`: when paired, the rounded average of the two weekly
      rates; otherwise the user's own score. */
  function CollectiveVitality(stats: PremiumStats, partnership: Option<Record>): nat
  {
    if Paired(partnership) then Synergy.Average(stats.weeklyCompletionRate, stats.partnerCompletionRate)
    else stats.vitalityScore
  }

  /** The collective vitality lies between the two partners' rates when paired,
      is the user's own score otherwise, and is always a percentage. */
  lemma CollectiveVitalitySpec(day: Option<nat>, mine: seq<Record>, partners: seq<Record>, partnership: Option<Record>)
    ensures var s := PremiumStatsOf(day, mine, partners);
      var v := CollectiveVitality(s, partnership);
      && v <= 100
      && (Paired(partnership) ==>
            Synergy.Min(s.weeklyCompletionRate, s.partnerCompletionRate) <= v
            <= Synergy.Max(s.weeklyCompletionRate, s.partnerCompletionRate))
      && (!Paired(partnership) ==> v == CompletionRate(Slice(mine, 0, 7)))
  {
    var s := PremiumStatsOf(day, mine, partners);
    Synergy.AverageSpec(s.weeklyCompletionRate, s.partnerCompletionRate);
  }

  /** The habits of the breakdown card. */
  datatype BreakdownHabit = Supplements | Sleep | Movement

  /** A check-in counts for a habit of the card; movement needs an exercise
      choice other than 'none'. */
  predicate Counts(c: Record, h: BreakdownHabit)
  {
    match h
    case Supplements => Truthy(Get(c, "supplements"))
    case Sleep => Truthy(Get(c, "sleep"))
    case Movement => Truthy(Get(c, "exercise")) && Get(c, "exercise") != Str("none")
  }

  /** `.filter(...).length` */
  function CountOf(cs: seq<Record>, h: BreakdownHabit): (n: nat)
    ensures n <= |cs|
    ensures n == 0 <==> forall i :: 0 <= i < |cs| ==> !Counts(cs[i], h)
    ensures n == |cs| <==> forall i :: 0 <= i < |cs| ==> Counts(cs[i], h)
  {
    if cs == [] then 0
    else
      var n := CountOf(cs[1..], h);
      assert forall i :: 1 <= i < |cs| ==> cs[i] == cs[1..][i - 1];
      (if Counts(cs[0], h) then 1 else 0) + n
  }

  /** `Math.round((history.slice(0,7).filter(...).length / 7) * 100)`: the
      share out of seven days, whatever the number of check-ins. */
  function HabitPercent(history: seq<Record>, h: BreakdownHabit): nat
  {
    Round(100 * CountOf(Slice(history, 0, 7), h), 7)
  }

  /** A percentage that is 0 exactly when none of the seven newest check-ins
      counts and 100 exactly when seven check-ins all count; with fewer than seven
      check-ins it stays below 100. */
  lemma HabitPercentSpec(history: seq<Record>, h: BreakdownHabit)
    ensures var w := Slice(history, 0, 7);
      && HabitPercent(history, h) <= 100
      && (HabitPercent(history, h) == 0 <==> forall i :: 0 <= i < |w| ==> !Counts(w[i], h))
      && (HabitPercent(history, h) == 100 <==> |w| == 7 && forall i :: 0 <= i < 7 ==> Counts(w[i], h))
  {
    var w := Slice(history, 0, 7);
    var c := CountOf(w, h);
    assert c <= 7;
    assert HabitPercent(history, h) == (200 * c + 7) / 14;
  }

  /** An exercise choice of 'none' counts in the completion rate but not as
      movement. */
  lemma NoneCountsOnlyForRate(c: Record)
    requires Get(c, "exercise") == Str("none")
    ensures Done(c, "exercise") == 1 && !Counts(c, Movement)
  {
  }

  /** The component's state. */
  class PremiumDashboardView {
    var stats: PremiumStats
    var partnership: Option<Record>
    var timeOfDay: TimeOfDay

    constructor ()
      ensures stats == InitialStats && partnership.None? && timeOfDay == Morning
    {
      stats := InitialStats;
      partnership := None;
      timeOfDay := Morning;
    }

    /** The effect: sets the time of day from the hour and runs
        `loadDashboardData`. Without a user nothing is loaded. The user's 30
        newest check-ins are request 0, the partnership request 1 (a failure
        reads as no partnership) and the partner's week request 2. A failed
        fetch is caught and leaves `stats` and `partnership` as they were. The
        stored partner ids are strings or `null`; for a truthy partner id of
        another kind the model fails the partner fetch the same way, with no
        request, where the browser would query that key and find no rows. */
    method Load(db: Database, user: Option<Record>, hour: nat, parse: string -> Option<int>, todayMs: int)
      requires user.Some? ==> Get(user.value, "id").Str?
      modifies this, db.backend
      ensures timeOfDay == TimeOfDayOf(hour)
      ensures user.None? || old(db.Fails(0)) ==> stats == old(stats) && partnership == old(partnership)
      ensures user.Some? && !old(db.Fails(0)) ==>
        var p := if old(db.Fails(1)) then None else PartnershipOf(db.partnerships, Get(user.value, "id").s);
        Paired(p) && (!Get(p.value, "partnerId").Str? || old(db.Fails(2))) ==>
          stats == old(stats) && partnership == old(partnership)
      ensures user.Some? && !old(db.Fails(0)) ==>
        var p := if old(db.Fails(1)) then None else PartnershipOf(db.partnerships, Get(user.value, "id").s);
        (Paired(p) ==> Get(p.value, "partnerId").Str? && !old(db.Fails(2))) ==>
          && stats == PremiumStatsOf(DayOf(Get(user.value, "startDate"), parse, todayMs),
                                     CheckInsOf(db.checkIns, Get(user.value, "id").s, 30),
                                     PartnerCheckIns(db.checkIns, p))
          && partnership == p
    {
      timeOfDay := TimeOfDayOf(hour);
      if user.None? {
        return;
      }
      var id := Get(user.value, "id").s;
      var dayInProgram := DayOf(Get(user.value, "startDate"), parse, todayMs);
      var checkIns := db.GetCheckIns(id, 30);
      if checkIns.Err? {
        return;
      }
      var weekly := CompletionRate(Slice(checkIns.value, 0, 7));
      var vitalityScore := weekly;
      var partnershipData := db.GetPartnership(id);
      var partnerRate := 0;
      if Paired(partnershipData) {
        var partnerId := Get(partnershipData.value, "partnerId");
        if !partnerId.Str? {
          return;
        }
        var partnerCheckIns := db.GetCheckIns(partnerId.s, 7);
        if partnerCheckIns.Err? {
          return;
        }
        partnerRate := CompletionRate(partnerCheckIns.value);
      }
      stats := PremiumStats(dayInProgram, vitalityScore, weekly, partnerRate, checkIns.value);
      partnership := partnershipData;
    }
  }
}
