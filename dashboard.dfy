/** The statistics of the dashboard (`src/components/dashboard/Dashboard.jsx`):
    the day in program, the longest run of consecutive check-in days, this week's
    and last week's completion rates and the days until the optimised window.
    Check-in dates are day numbers, so the difference of two dates in days is
    exact and `Math.round` of it is the difference itself. */
module Dashboard {
  import opened Wrappers
  import opened JsValue
  import opened Table
  import opened Db
  import opened Completion
  import opened Cycle

  /** `Math.round((new Date(curr.date) - new Date(prev.date)) / day) === 1`: both
      dates are days and the second is the day after the first. A missing date
      makes the difference NaN, which is never 1. */
  predicate NextDay(prev: Record, curr: Record)
  {
    Get(prev, "date").Num? && Get(curr, "date").Num? && Get(curr, "date").n - Get(prev, "date").n == 1
  }

  /** Entries lo..hi (inclusive) of `ds` are a run: each is the day after the one
      before it. */
  ghost predicate IsRun(ds: seq<Record>, lo: int, hi: int)
  {
    0 <= lo <= hi < |ds| && forall k :: lo < k <= hi ==> NextDay(ds[k - 1], ds[k])
  }

  /** The length of the run that ends at entry i: the value `currentStreak` has
      after the loop body for i. */
  function RunEndingAt(ds: seq<Record>, i: nat): (n: nat)
    requires i < |ds|
    ensures 1 <= n <= i + 1
  {
    if i == 0 || !NextDay(ds[i - 1], ds[i]) then 1 else RunEndingAt(ds, i - 1) + 1
  }

  function Max(a: nat, b: nat): nat
  {
    if a >= b then a else b
  }

  /** The longest run ending before index m. */
  function LongestRun(ds: seq<Record>, m: nat): (n: nat)
    requires m <= |ds|
    ensures n <= m
    ensures m > 0 ==> n >= 1
  {
    if m == 0 then 0 else Max(LongestRun(ds, m - 1), RunEndingAt(ds, m - 1))
  }

  /** The longest-streak loop of `loadStats` over the check-ins, which arrive
      newest first and are reversed to oldest first. */
  method LongestStreak(checkIns: seq<Record>) returns (longestStreak: nat)
    ensures longestStreak == LongestRun(Reverse(checkIns), |checkIns|)
  {
    var sorted := Reverse(checkIns);
    longestStreak := 0;
    var currentStreak: nat := 0;
    for i := 0 to |sorted|
      invariant i == 0 ==> longestStreak == 0 && currentStreak == 0
      invariant i > 0 ==> currentStreak == RunEndingAt(sorted, i - 1)
      invariant i > 0 ==> Max(longestStreak, currentStreak) == LongestRun(sorted, i)
    {
      if i == 0 {
        currentStreak := 1;
      } else {
        if NextDay(sorted[i - 1], sorted[i]) {
          currentStreak := currentStreak + 1;
        } else {
          if currentStreak > longestStreak {
            longestStreak := currentStreak;
          }
          currentStreak := 1;
        }
      }
    }
    if currentStreak > longestStreak {
      longestStreak := currentStreak;
    }
  }

  /** The run ending at i really is a run. */
  lemma {:induction false} RunEndingAtIsRun(ds: seq<Record>, i: nat)
    requires i < |ds|
    ensures IsRun(ds, i + 1 - RunEndingAt(ds, i), i)
    decreases i
  {
    if i > 0 && NextDay(ds[i - 1], ds[i]) {
      RunEndingAtIsRun(ds, i - 1);
    }
  }

  /** No run ending at hi is longer than `RunEndingAt(ds, hi)`. */
  lemma {:induction false} RunIsAtMostRunEndingAt(ds: seq<Record>, lo: int, hi: int)
    requires IsRun(ds, lo, hi)
    ensures hi - lo + 1 <= RunEndingAt(ds, hi)
    decreases hi
  {
    if lo < hi {
      assert NextDay(ds[hi - 1], ds[hi]);
      assert IsRun(ds, lo, hi - 1);
      RunIsAtMostRunEndingAt(ds, lo, hi - 1);
    }
  }

  /** `LongestRun(ds, m)` is the longest run within the first m entries: one run
      has that length and none is longer. */
  lemma {:induction false} LongestRunIsMaximal(ds: seq<Record>, m: nat)
    requires 0 < m <= |ds|
    ensures exists lo: int, hi: int :: IsRun(ds, lo, hi) && hi < m && hi - lo + 1 == LongestRun(ds, m)
    ensures forall lo: int, hi: int :: IsRun(ds, lo, hi) && hi < m ==> hi - lo + 1 <= LongestRun(ds, m)
    decreases m
  {
    var r := RunEndingAt(ds, m - 1);
    RunEndingAtIsRun(ds, m - 1);
    if m > 1 {
      LongestRunIsMaximal(ds, m - 1);
    }
    if m == 1 || LongestRun(ds, m - 1) < r {
      var lo := m - r;
      assert IsRun(ds, lo, m - 1) && m - 1 - lo + 1 == LongestRun(ds, m);
    }
    forall lo: int, hi: int | IsRun(ds, lo, hi) && hi < m
      ensures hi - lo + 1 <= LongestRun(ds, m)
    {
      RunIsAtMostRunEndingAt(ds, lo, hi);
      if hi < m - 1 {
        assert hi - lo + 1 <= LongestRun(ds, m - 1);
      }
    }
  }

  /** The longest streak is 0 for no check-ins and otherwise between 1 and their
      number, and it is the length of the longest run of consecutive days in the
      list taken oldest first. */
  lemma LongestStreakSpec(checkIns: seq<Record>)
    ensures var ds := Reverse(checkIns);
      var n := LongestRun(ds, |checkIns|);
      && (checkIns == [] <==> n == 0)
      && n <= |checkIns|
      && (checkIns != [] ==>
            (exists lo: int, hi: int :: IsRun(ds, lo, hi) && hi - lo + 1 == n)
            && forall lo: int, hi: int :: IsRun(ds, lo, hi) ==> hi - lo + 1 <= n)
  {
    var ds := Reverse(checkIns);
    assert |ds| == |checkIns|;
    if checkIns != [] {
      LongestRunIsMaximal(ds, |ds|);
    }
  }

  /** What `loadStats` stores in `stats`. */
  datatype Stats = Stats(
    dayInProgram: Option<nat>,
    longestStreak: nat,
    weeklyCompletionRate: nat,
    lastWeekCompletionRate: nat,
    totalCheckIns: nat,
    milestones: seq<Record>)

  /** The stats before anything is loaded. */
  const InitialStats := Stats(Some(0), 0, 0, 0, 0, [])

  /** `stats.weeklyCompletionRate - stats.lastWeekCompletionRate`: this week's
      seven newest check-ins against the seven before them. */
  function CompletionChange(stats: Stats): int
  {
    stats.weeklyCompletionRate - stats.lastWeekCompletionRate
  }

  /** The stats `loadStats` computes from the day in program, the check-ins
      (newest first, at most 90) and the milestones. */
  function StatsOf(day: Option<nat>, checkIns: seq<Record>, milestones: seq<Record>): Stats
  {
    Stats(day, LongestRun(Reverse(checkIns), |checkIns|),
          CompletionRate(Slice(checkIns, 0, 7)), CompletionRate(Slice(checkIns, 7, 14)),
          |checkIns|, milestones)
  }

  /** The weekly change compares two rates, so it lies in [-100, 100]; it is the
      difference of the rate of entries 0-6 and that of entries 7-13, and with
      fewer than eight check-ins last week's rate is 0. */
  lemma CompletionChangeSpec(day: Option<nat>, checkIns: seq<Record>, milestones: seq<Record>)
    ensures var d := CompletionChange(StatsOf(day, checkIns, milestones));
      && -100 <= d <= 100
      && d == CompletionRate(checkIns[..if |checkIns| < 7 then |checkIns| else 7])
              - (if |checkIns| <= 7 then 0
                 else CompletionRate(checkIns[7..if |checkIns| < 14 then |checkIns| else 14]))
  {
    var n := |checkIns|;
    assert Slice(checkIns, 0, 7) == checkIns[..if n < 7 then n else 7];
    if n > 7 {
      assert Slice(checkIns, 7, 14) == checkIns[7..if n < 14 then n else 14];
    }
  }

  /** The cycle length and the days until the optimised window shown in the
      header: 74 for 'male', 90 otherwise, counted down to 0 and then kept at 0. */
  function DaysUntilOptimised(user: Record, stats: Stats): Option<nat>
  {
    DaysLeftOf(CycleLength(Get(user, "sex")), stats.dayInProgram)
  }

  /** The component state that `loadStats` fills. */
  class DashboardState {
    var stats: Stats
    var checkInHistory: seq<Record>

    constructor ()
      ensures stats == InitialStats && checkInHistory == []
    {
      stats := InitialStats;
      checkInHistory := [];
    }

    /** `loadStats()`: fetches the 90 newest check-ins (request 0) and the
        milestones (request 1) and sets `stats`; the history is set as soon as
        the check-ins arrive. A storage failure is caught and logged, leaving
        what was set so far: when only the milestones fail, the history is new
        and the statistics are the old ones. */
    method LoadStats(db: Database, user: Record, parse: string -> Option<int>, todayMs: int)
      requires Get(user, "id").Str?
      modifies this, db.backend
      ensures old(db.Fails(0)) ==> stats == old(stats) && checkInHistory == old(checkInHistory)
      ensures !old(db.Fails(0)) ==> checkInHistory == CheckInsOf(db.checkIns, Get(user, "id").s, 90)
      ensures !old(db.Fails(0)) && old(db.Fails(1)) ==> stats == old(stats)
      ensures !old(db.Fails(0)) && !old(db.Fails(1)) ==>
        stats == StatsOf(DayOf(Get(user, "startDate"), parse, todayMs), CheckInsOf(db.checkIns, Get(user, "id").s, 90),
                         MilestonesOf(db.milestones, Get(user, "id").s))
    {
      ghost var milestonesFail := db.Fails(1);
      var dayInProgram := DayOf(Get(user, "startDate"), parse, todayMs);
      var checkIns := db.GetCheckIns(Get(user, "id").s, 90);
      if checkIns.Err? {
        return;
      }
      assert db.Fails(0) == milestonesFail;
      checkInHistory := checkIns.value;
      var longestStreak := LongestStreak(checkIns.value);
      var weekly := CompletionRate(Slice(checkIns.value, 0, 7));
      var lastWeek := CompletionRate(Slice(checkIns.value, 7, 14));
      var milestones := db.GetMilestones(Get(user, "id").s);
      if milestones.Err? {
        return;
      }
      stats := Stats(dayInProgram, longestStreak, weekly, lastWeek, |checkIns.value|, milestones.value);
    }
  }
}
