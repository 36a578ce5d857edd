/** The optimisation timeline (`src/components/dashboard/Timeline.jsx`): the
    four phases of the program by sex, the phase a day of the program falls in,
    and the state the component derives from the signed-in user. */
module Timeline {
  import opened Wrappers
  import opened JsValue
  import opened Db
  import opened Cycle
  import JsText

  /** A phase's last day; the optimised window never ends. */
  datatype End = Day(n: nat) | Infinity

  datatype Phase = Phase(name: string, start: nat, end: End, color: string, description: string)

  /** `getPhases(sex)`: four phases, the male cycle for 'male' and the female
      cycle for anything else. They tile the days from 1 on without gap or
      overlap, the third ends on the last day of the cycle, and the last is the
      optimised window. */
  function Phases(sex: Value): (ps: seq<Phase>)
    ensures |ps| == 4 && ps[0].start == 1
    ensures forall i :: 0 <= i < 3 ==> ps[i].end.Day? && ps[i].end.n + 1 == ps[i + 1].start && ps[i].start <= ps[i].end.n
    ensures ps[2].end == Day(CycleLength(sex))
    ensures ps[3].end == Infinity && ps[3].name == "Optimized Window"
  {
    if sex == Str("male") then
      [Phase("Foundation Phase", 1, Day(14), "bg-primary", "Building healthy habits"),
       Phase("Building Phase", 15, Day(44), "bg-secondary", "Developing optimal conditions"),
       Phase("Maturation Phase", 45, Day(74), "bg-accent", "Final optimization"),
       Phase("Optimized Window", 75, Infinity, "bg-green-500", "Peak fertility window")]
    else
      [Phase("Egg Development Start", 1, Day(30), "bg-primary", "Early development phase"),
       Phase("Maturation Window", 31, Day(60), "bg-secondary", "Active maturation"),
       Phase("Final Maturation", 61, Day(90), "bg-accent", "Completing optimization"),
       Phase("Optimized Window", 91, Infinity, "bg-green-500", "Peak fertility window")]
  }

  /** `day >= phase.start && day <= phase.end`: the `isActive` of the list. */
  predicate IsActive(day: nat, p: Phase)
  {
    day >= p.start && (p.end.Infinity? || day <= p.end.n)
  }

  /** `day > phase.end` */
  predicate IsPast(day: nat, p: Phase)
  {
    p.end.Day? && day > p.end.n
  }

  /** A phase is never both active and past; the phases before the active one
      are past and those after it are neither. */
  lemma ActiveAndPast(sex: Value, day: nat, i: nat)
    requires i < 4 && IsActive(day, Phases(sex)[i])
    ensures forall j :: 0 <= j < 4 ==> !(IsActive(day, Phases(sex)[j]) && IsPast(day, Phases(sex)[j]))
    ensures forall j :: 0 <= j < i ==> IsPast(day, Phases(sex)[j])
    ensures forall j :: i < j < 4 ==> !IsPast(day, Phases(sex)[j]) && !IsActive(day, Phases(sex)[j])
  {
  }

  /** From day 1 on exactly one phase is active; on day 0 none is. */
  lemma ExactlyOnePhase(sex: Value, day: nat)
    ensures day == 0 ==> forall j :: 0 <= j < 4 ==> !IsActive(day, Phases(sex)[j])
    ensures day >= 1 ==> exists i :: 0 <= i < 4 && IsActive(day, Phases(sex)[i])
    ensures forall i, j :: 0 <= i < 4 && 0 <= j < 4 && IsActive(day, Phases(sex)[i]) && IsActive(day, Phases(sex)[j]) ==> i == j
  {
    var ps := Phases(sex);
    if day >= 1 {
      var i := if day < ps[1].start then 0 else if day < ps[2].start then 1 else if day < ps[3].start then 2 else 3;
      assert IsActive(day, ps[i]);
    }
  }

  /** The effect's phase selection for a valid day: the first phase that holds
      the day, and the last phase once the day is past the cycle. */
  method CurrentPhase(day: nat, sex: Value) returns (current: Option<Phase>)
    ensures day == 0 <==> current.None?
    ensures current.Some? ==> current.value in Phases(sex) && IsActive(day, current.value)
    ensures day > CycleLength(sex) ==> current == Some(Phases(sex)[3])
  {
    var cycleLength := CycleLength(sex);
    var phases := Phases(sex);
    current := None;
    for i := 0 to |phases|
      invariant current.None? ==> forall j :: 0 <= j < i ==> !IsActive(day, phases[j])
      invariant forall p :: current == Some(p) ==> p in phases && IsActive(day, p)
    {
      if IsActive(day, phases[i]) {
        current := Some(phases[i]);
        break;
      }
    }
    if day > cycleLength {
      current := Some(phases[|phases| - 1]);
    }
    ExactlyOnePhase(sex, day);
  }

  /** The override after the loop picks the phase the loop has already picked:
      past the cycle the only active phase is the optimised window. */
  lemma OverrideAgrees(sex: Value, day: nat)
    requires day > CycleLength(sex)
    ensures IsActive(day, Phases(sex)[3])
    ensures forall j :: 0 <= j < 3 ==> !IsActive(day, Phases(sex)[j])
  {
  }

  /** The line under the day: the days left while some remain, and the
      optimised-window message otherwise, including NaN days (NaN > 0 is false). */
  function RemainingText(daysRemaining: Option<nat>): (t: string)
    ensures t == "In optimized window!" <==> daysRemaining.None? || daysRemaining.value == 0
  {
    if daysRemaining.Some? && daysRemaining.value > 0 then
      JsText.NatToString(daysRemaining.value) + " days to optimization"
    else "In optimized window!"
  }

  /** The message is shown from the last day of the cycle on, and also when
      the day is not a number. */
  lemma RemainingTextSpec(sex: Value, day: Option<nat>)
    ensures RemainingText(DaysLeftOf(CycleLength(sex), day)) == "In optimized window!"
      <==> day.None? || day.value >= CycleLength(sex)
  {
  }

  /** The component's state. `dayInProgram` is None for NaN. */
  class TimelineView {
    var dayInProgram: Option<nat>
    var currentPhase: Option<Phase>

    constructor ()
      ensures dayInProgram == Some(0) && currentPhase.None?
    {
      dayInProgram := Some(0);
      currentPhase := None;
    }

    /** The effect: with a signed-in user whose `startDate` is truthy, the day
        in program is computed and, for a valid day, the phase holding it is
        set. Day 0 is in no phase and a NaN day matches none: the phase is then
        never set and keeps its old value. */
    method Load(user: Option<Record>, parse: string -> Option<int>, todayMs: int)
      modifies this
      ensures user.None? || !Truthy(Get(user.value, "startDate")) ==>
        dayInProgram == old(dayInProgram) && currentPhase == old(currentPhase)
      ensures user.Some? && Truthy(Get(user.value, "startDate")) ==>
        var day := DayOf(Get(user.value, "startDate"), parse, todayMs);
        && dayInProgram == day
        && (day.None? || day.value == 0 ==> currentPhase == old(currentPhase))
        && (day.Some? && day.value > 0 ==>
              && currentPhase.Some? && currentPhase.value in Phases(Get(user.value, "sex"))
              && IsActive(day.value, currentPhase.value))
    {
      if user.None? || !Truthy(Get(user.value, "startDate")) {
        return;
      }
      var day := DayOf(Get(user.value, "startDate"), parse, todayMs);
      dayInProgram := day;
      if day.Some? {
        var phase := CurrentPhase(day.value, Get(user.value, "sex"));
        if phase.Some? {
          currentPhase := phase;
        }
      }
    }
  }

  /** A user as `createUser` stores it has no `startDate`, so the effect never
      runs for a signed-up user: the day stays 0 and no phase is shown. */
  lemma StoredUserNeverStartsTimeline(userData: Record, id: string, now: string)
    ensures !Truthy(Get(UserRecord(userData, id, now), "startDate"))
  {
  }
}
