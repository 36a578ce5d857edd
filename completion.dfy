/** `calculateCompletionRate`, which four components carry as identical copies
    (Dashboard, PartnerPairing, PremiumDashboard, ProgressPage): the share of the
    six habit fields that are truthy over a list of check-ins, as a rounded
    percentage. `Math.round` of a non-negative rational a/b is ⌊a/b + 1/2⌋,
    which for naturals is (2a + b) div 2b; the model computes it exactly. */
module Completion {
  import opened JsValue

  /** The habit fields of a check-in, in the order the code tests them. */
  const Habits: seq<string> := ["supplements", "sleep", "exercise", "alcohol", "stress", "temperature"]

  /** 1 when field `f` of `c` is truthy. `exercise` holds a string, so any
      non-empty choice counts, "none" included. */
  function Done(c: Record, f: string): nat
  {
    if Truthy(Get(c, f)) then 1 else 0
  }

  /** All six habit fields are truthy. */
  predicate Complete(c: Record)
  {
    forall f :: f in Habits ==> Truthy(Get(c, f))
  }

  /** The per-check-in count inside the `reduce`: one for each truthy habit
      field; all six exactly when the check-in is complete. */
  function FieldsOf(c: Record): (n: nat)
    ensures n <= 6
    ensures n == 6 <==> Complete(c)
    ensures n == 0 <==> forall f :: f in Habits ==> !Truthy(Get(c, f))
  {
    assert Habits[0] == "supplements" && Habits[1] == "sleep" && Habits[2] == "exercise";
    assert Habits[3] == "alcohol" && Habits[4] == "stress" && Habits[5] == "temperature";
    Done(c, "supplements") + Done(c, "sleep") + Done(c, "exercise")
    + Done(c, "alcohol") + Done(c, "stress") + Done(c, "temperature")
  }

  /** The `reduce` from the left with initial value 0: at most six per
      check-in, and exactly six per check-in when every one is complete. */
  function TotalFields(cs: seq<Record>): (t: nat)
    ensures t <= 6 * |cs|
    ensures t == 6 * |cs| <==> forall i :: 0 <= i < |cs| ==> Complete(cs[i])
  {
    if cs == [] then 0
    else
      var init := cs[..|cs| - 1];
      var t := TotalFields(init) + FieldsOf(cs[|cs| - 1]);
      assert forall i :: 0 <= i < |init| ==> init[i] == cs[i];
      t
  }

  /** `Math.round(a / b)` for naturals. */
  function Round(a: nat, b: nat): nat
    requires b > 0
  {
    (2 * a + b) / (2 * b)
  }

  /** `Round` is the nearest integer, halves rounding up:
      r - 1/2 <= a/b < r + 1/2. */
  lemma RoundIsNearest(a: nat, b: nat)
    requires b > 0
    ensures 2 * b * Round(a, b) <= 2 * a + b < 2 * b * (Round(a, b) + 1)
  {
    var r := Round(a, b);
    var m := (2 * a + b) % (2 * b);
    assert 2 * a + b == 2 * b * r + m;
  }

  lemma MulMonotone(b: nat, x: nat, y: nat)
    requires x <= y
    ensures b * x <= b * y
  {
    var d := y - x;
    assert b * y == b * x + b * d;
  }

  /** Cancelling a positive factor from a strict inequality. */
  lemma CancelLess(b: nat, x: nat, y: nat)
    requires b > 0 && b * x < b * y
    ensures x < y
  {
    if x >= y {
      MulMonotone(b, y, x);
    }
  }

  /** Rounding a quotient that is at most the integer k gives at most k. */
  lemma RoundAtMost(a: nat, b: nat, k: nat)
    requires b > 0 && a <= k * b
    ensures Round(a, b) <= k
  {
    RoundIsNearest(a, b);
    var r := Round(a, b);
    var kb := k * b;
    assert 2 * b * (k + 1) == 2 * kb + 2 * b;
    assert 2 * b * r < 2 * b * (k + 1);
    CancelLess(2 * b, r, k + 1);
  }

  /** Rounding a quotient that is at least the integer k gives at least k. */
  lemma RoundAtLeast(a: nat, b: nat, k: nat)
    requires b > 0 && a >= k * b
    ensures Round(a, b) >= k
  {
    RoundIsNearest(a, b);
    var r := Round(a, b);
    var kb := k * b;
    assert 2 * b * k == 2 * kb;
    assert 2 * b * k < 2 * b * (r + 1);
    CancelLess(2 * b, k, r + 1);
  }

  /** `calculateCompletionRate(checkIns)`: 0 for an empty list, otherwise
      round(100·t / 6n) for t truthy fields among n check-ins; a percentage. */
  function CompletionRate(cs: seq<Record>): (r: nat)
    ensures r <= 100
    ensures cs == [] ==> r == 0
  {
    if cs == [] then 0
    else
      var t := TotalFields(cs);
      RoundAtMost(100 * t, 6 * |cs|, 100);
      Round(100 * t, 6 * |cs|)
  }

  /** The rate is the rounding of the exact share a/b = 100·t / 6n of a
      non-empty list: r - 1/2 <= a/b < r + 1/2. */
  lemma CompletionRateIsRoundedShare(cs: seq<Record>)
    requires cs != []
    ensures var r := CompletionRate(cs);
      var a := 100 * TotalFields(cs);
      var b := 6 * |cs|;
      2 * b * r <= 2 * a + b < 2 * b * (r + 1)
  {
    RoundIsNearest(100 * TotalFields(cs), 6 * |cs|);
  }

  /** For lists of at most 33 check-ins (every caller fetches at most 30), the
      rate is 100 exactly when every check-in has all six fields truthy. */
  lemma RateIs100Iff(cs: seq<Record>)
    requires 0 < |cs| <= 33
    ensures CompletionRate(cs) == 100 <==> forall i :: 0 <= i < |cs| ==> Complete(cs[i])
  {
    var n := |cs|;
    var t := TotalFields(cs);
    if t < 6 * n {
      // 100·t <= 600n - 100 < 99·6n + 3n, so the share is below 99.5
      RoundIsNearest(100 * t, 6 * n);
      var r := Round(100 * t, 6 * n);
      if r >= 100 {
        MulMonotone(12 * n, 100, r);
        assert false;
      }
    } else {
      RoundAtLeast(100 * t, 6 * n, 100);
    }
  }

  /** The bound 33 is tight: with 34 check-ins and a single missing field the
      share is 99.51% and rounds to 100. */
  lemma RateRoundsToHundredAt34(cs: seq<Record>)
    requires |cs| == 34 && TotalFields(cs) == 6 * 34 - 1
    ensures CompletionRate(cs) == 100
    ensures exists i :: 0 <= i < |cs| && !Complete(cs[i])
  {
    assert CompletionRate(cs) == Round(100 * 203, 204);
    RoundOfShareAt34();
    assert !(forall i :: 0 <= i < |cs| ==> Complete(cs[i]));
  }

  lemma RoundOfShareAt34()
    ensures Round(100 * 203, 204) == 100
  {
    assert 2 * 20300 + 204 == 40804;
    assert 40804 / 408 == 100;
  }

  /** For at most 33 check-ins the rate is 0 exactly when no habit field is
      truthy anywhere. */
  lemma RateIsZeroIff(cs: seq<Record>)
    requires 0 < |cs| <= 33
    ensures CompletionRate(cs) == 0 <==> TotalFields(cs) == 0
  {
    var t := TotalFields(cs);
    var b := 6 * |cs|;
    if t == 0 {
      RoundAtMost(0, b, 0);
    } else {
      // 2·100t >= 200 > 6n: the share is at least one half
      RoundAtLeastOne(100 * t, b);
    }
  }

  /** A share of at least one half rounds to at least 1. */
  lemma RoundAtLeastOne(a: nat, b: nat)
    requires b > 0 && 2 * a >= b
    ensures Round(a, b) >= 1
  {
    var x := 2 * a + b;
    var y := 2 * b;
    assert x == y * (x / y) + x % y;
  }

  /** The rate of a single check-in with k truthy fields is round(100k/6):
      one of 0, 17, 33, 50, 67, 83, 100. */
  lemma SingleRate(c: Record)
    ensures CompletionRate([c]) == [0, 17, 33, 50, 67, 83, 100][FieldsOf(c)]
  {
    assert TotalFields([c]) == FieldsOf(c) by {
      assert [c][..0] == [];
    }
    var k := FieldsOf(c);
    assert CompletionRate([c]) == (200 * k + 6) / 12;
  }

  /** `array.slice(from, to)`: the entries from `from` up to but excluding `to`,
      with both indices clamped to the array. */
  function Slice(cs: seq<Record>, from: nat, to: nat): (r: seq<Record>)
    ensures |r| == if to <= from || from >= |cs| then 0 else (if to <= |cs| then to else |cs|) - from
    ensures forall i :: 0 <= i < |r| ==> r[i] == cs[from + i]
  {
    var hi := if to <= |cs| then to else |cs|;
    if hi <= from then [] else cs[from..hi]
  }
}
