/** The program calendar that Dashboard, Timeline and PremiumDashboard each
    compute: the day of the program from the start date, the cycle length by
    sex, and the days left until the optimised window. Instants are
    milliseconds since the epoch; reading the clock is a parameter. */
module Cycle {
  import opened Wrappers
  import opened JsValue
  import JsText

  /** `1000 * 60 * 60 * 24` */
  const MsPerDay: nat := 86400000

  /** `user.sex === 'male' ? 74 : 90`: anything but the exact string 'male',
      including a missing sex, gets 90. */
  function CycleLength(sex: Value): (n: nat)
    ensures n == 74 || n == 90
    ensures n == 74 <==> sex == Str("male")
  {
    if sex == Str("male") then 74 else 90
  }

  function Abs(x: int): nat
  {
    if x < 0 then -x else x
  }

  /** `Math.ceil(Math.abs(today - start) / MsPerDay)`: the least number of whole
      days that covers the distance between the two instants. */
  function DayInProgram(todayMs: int, startMs: int): (d: nat)
    ensures d * MsPerDay >= Abs(todayMs - startMs)
    ensures d > 0 ==> (d - 1) * MsPerDay < Abs(todayMs - startMs)
    ensures d == 0 <==> todayMs == startMs
  {
    var a := Abs(todayMs - startMs);
    var d := (a + MsPerDay - 1) / MsPerDay;
    assert a + MsPerDay - 1 == MsPerDay * d + (a + MsPerDay - 1) % MsPerDay;
    d
  }

  /** `new Date(v).getTime()`: a missing start date gives an invalid date (NaN),
      `null` gives the epoch, a number is taken as milliseconds, and text goes
      through the date parser, which is a parameter (None for text it rejects). */
  function StartMs(v: Value, parse: string -> Option<int>): Option<int>
  {
    match v
    case Undefined => None
    case NaN => None
    case Null => Some(0)
    case Bool(b) => Some(if b then 1 else 0)
    case Num(n) => Some(n)
    case _ => parse(JsText.ToStr(v))
  }

  /** The day in program as the code computes it from `user.startDate`: NaN
      (None) when the start date is not a valid date. */
  function DayOf(startDate: Value, parse: string -> Option<int>, todayMs: int): Option<nat>
  {
    match StartMs(startDate, parse)
    case None => None
    case Some(s) => Some(DayInProgram(todayMs, s))
  }

  /** `Math.max(cycleLength - day, 0)`: zero exactly from the last day of the
      cycle on, and otherwise the days still missing to reach it. */
  function DaysLeft(cycle: nat, day: nat): (r: nat)
    ensures r == 0 <==> day >= cycle
    ensures r > 0 ==> day + r == cycle
    ensures r <= cycle
  {
    if cycle > day then cycle - day else 0
  }

  /** `Math.max(cycleLength - NaN, 0)` is NaN: with no valid day there is no
      count either. */
  function DaysLeftOf(cycle: nat, day: Option<nat>): (r: Option<nat>)
    ensures r.None? <==> day.None?
    ensures day.Some? ==> r == Some(DaysLeft(cycle, day.value))
  {
    match day
    case None => None
    case Some(d) => Some(DaysLeft(cycle, d))
  }

  /** A user record without `startDate` has no day in program, so the day and the
      days left are both NaN (shown as "NaN"). */
  lemma MissingStartDateIsNaN(user: Record, parse: string -> Option<int>, todayMs: int)
    requires "startDate" !in user
    ensures DayOf(Get(user, "startDate"), parse, todayMs).None?
    ensures DaysLeftOf(CycleLength(Get(user, "sex")), DayOf(Get(user, "startDate"), parse, todayMs)).None?
  {
  }
}
