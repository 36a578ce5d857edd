/** The ritual grid (`src/components/premium/DailyRituals.jsx`): six rituals,
    each a habit field of today's check-in, toggled with a click and saved at
    once; a failed save puts back the check-in as it was before the click. The
    header counts the truthy values of the check-in object. */
module Rituals {
  import opened Wrappers
  import opened JsValue
  import opened Table
  import opened Db
  import Completion

  datatype Ritual = Ritual(id: string, text: string, field: string, isSpecial: bool, femaleOnly: bool)

  /** The `rituals` table, in display order. */
  const Rituals: seq<Ritual> := [
    Ritual("supplements", "Supplements", "supplements", false, false),
    Ritual("sleep", "Sleep 7+hrs", "sleep", false, false),
    Ritual("exercise", "Movement", "exercise", true, false),
    Ritual("temperature", "Temperature", "temperature", false, true),
    Ritual("alcohol", "No Alcohol", "alcohol", false, false),
    Ritual("stress", "Stress Mgmt", "stress", false, false)
  ]

  /** Six rituals with distinct fields, which are exactly the six habit fields
      of a check-in; only exercise is special and only temperature is marked
      female-only. The grid maps over the whole table, so the female-only
      ritual is shown to every user. */
  lemma RitualTable()
    ensures |Rituals| == 6
    ensures forall i, j :: 0 <= i < j < |Rituals| ==> Rituals[i].field != Rituals[j].field
    ensures forall i :: 0 <= i < |Rituals| ==> Rituals[i].field in Completion.Habits
    ensures forall f :: f in Completion.Habits ==> exists i :: 0 <= i < |Rituals| && Rituals[i].field == f
    ensures forall i :: 0 <= i < |Rituals| ==> (Rituals[i].isSpecial <==> Rituals[i].field == "exercise")
    ensures forall i :: 0 <= i < |Rituals| ==> (Rituals[i].femaleOnly <==> Rituals[i].field == "temperature")
  {
    assert Rituals[0].field == "supplements" && Rituals[1].field == "sleep" && Rituals[2].field == "exercise";
    assert Rituals[3].field == "temperature" && Rituals[4].field == "alcohol" && Rituals[5].field == "stress";
  }

  /** `{ ...checkIn, [field]: !checkIn[field] }` */
  function Toggle(checkIn: Record, field: string): (r: Record)
    ensures r.Keys == checkIn.Keys + {field}
    ensures Truthy(Get(r, field)) <==> !Truthy(Get(checkIn, field))
    ensures forall k :: k in checkIn && k != field ==> r[k] == checkIn[k]
  {
    checkIn[field := Bool(!Truthy(Get(checkIn, field)))]
  }

  /** Toggling twice restores the field's truthiness and leaves every other
      field alone; when the field already held a boolean, the object itself is
      restored. */
  lemma ToggleTwice(checkIn: Record, field: string)
    ensures var r := Toggle(Toggle(checkIn, field), field);
      && (Truthy(Get(r, field)) <==> Truthy(Get(checkIn, field)))
      && (forall k :: k in checkIn && k != field ==> r[k] == checkIn[k])
      && (field in checkIn && checkIn[field].Bool? ==> r == checkIn)
  {
    var r := Toggle(Toggle(checkIn, field), field);
    if field in checkIn && checkIn[field].Bool? {
      assert r.Keys == checkIn.Keys;
    }
  }

  /** The keys whose values are truthy. */
  function TruthyKeys(checkIn: Record): set<string>
  {
    set k | k in checkIn && Truthy(checkIn[k])
  }

  /** `Object.values(checkIn).filter(Boolean).length` */
  function CompletedCount(checkIn: Record): nat
  {
    |TruthyKeys(checkIn)|
  }

  /** The count covers every truthy value, not only the six rituals: a stored
      check-in with all six habits done also counts its generated id, its
      `userId`, its date and its `createdAt` time, and exceeds the six of the
      header's denominator. */
  lemma StoredRowOvercounts(checkIn: Record)
    requires Completion.Complete(checkIn)
    requires Truthy(Get(checkIn, "id")) && Truthy(Get(checkIn, "userId"))
    requires Truthy(Get(checkIn, "date")) && Truthy(Get(checkIn, "createdAt"))
    ensures CompletedCount(checkIn) >= 10 > |Rituals|
  {
    var keys := ["supplements", "sleep", "exercise", "alcohol", "stress", "temperature",
                 "id", "userId", "date", "createdAt"];
    assert forall i, j :: 0 <= i < j < |keys| ==> keys[i] != keys[j];
    forall i | 0 <= i < |keys| ensures keys[i] in TruthyKeys(checkIn) {
      if i < 6 {
        assert keys[i] == Completion.Habits[i];
        assert keys[i] in Completion.Habits;
      }
      assert Truthy(Get(checkIn, keys[i]));
    }
    DistinctCard(keys, TruthyKeys(checkIn));
  }

  /** Distinct elements of a set number at most its size. */
  lemma {:induction false} DistinctCard(xs: seq<string>, b: set<string>)
    requires forall i, j :: 0 <= i < j < |xs| ==> xs[i] != xs[j]
    requires forall i :: 0 <= i < |xs| ==> xs[i] in b
    ensures |xs| <= |b|
  {
    if xs != [] {
      var x := xs[|xs| - 1];
      DistinctCard(xs[..|xs| - 1], b - {x});
    }
  }

  /** Toggling a field moves the count by exactly one: up when the field was
      not truthy, down when it was. */
  lemma ToggleMovesCountByOne(checkIn: Record, field: string)
    ensures var c := CompletedCount(Toggle(checkIn, field));
      if Truthy(Get(checkIn, field)) then c + 1 == CompletedCount(checkIn)
      else c == CompletedCount(checkIn) + 1
  {
    var before := TruthyKeys(checkIn);
    var after := TruthyKeys(Toggle(checkIn, field));
    var rest := before - {field};
    ToggleKeepsOtherTruthyKeys(checkIn, field);
    if Truthy(Get(checkIn, field)) {
      assert field in before && field !in after;
      assert before == rest + {field} && after == rest;
    } else {
      assert field !in before && field in after;
      assert after == rest + {field} && before == rest;
    }
  }

  /** Apart from the toggled field, the same keys are truthy before and after. */
  lemma ToggleKeepsOtherTruthyKeys(checkIn: Record, field: string)
    ensures TruthyKeys(Toggle(checkIn, field)) - {field} == TruthyKeys(checkIn) - {field}
  {
    var toggled := Toggle(checkIn, field);
    forall k | k != field
      ensures k in TruthyKeys(toggled) <==> k in TruthyKeys(checkIn)
    {
      if k in checkIn {
        assert toggled[k] == checkIn[k];
      }
    }
  }

  /** The component's state. `userId` is the prop it was given. */
  class DailyRitualsView {
    var userId: Value
    var checkIn: Record
    var loading: bool

    constructor (id: Value)
      ensures userId == id && checkIn == map[] && loading
    {
      userId := id;
      checkIn := map[];
      loading := true;
    }

    /** `loadTodayCheckIn()`: without a user id nothing happens and the grid
        stays hidden. Otherwise today's saved check-in, if any, replaces the
        object, and loading ends; a storage failure reads as no check-in. */
    method LoadTodayCheckIn(db: Database, today: int)
      requires Truthy(userId) ==> userId.Str?
      modifies this, db.backend
      ensures userId == old(userId)
      ensures !Truthy(userId) ==> checkIn == old(checkIn) && loading == old(loading)
      ensures Truthy(userId) ==>
        var found := if old(db.Fails(0)) then None else TodayCheckIn(db.checkIns, userId.s, today);
        && !loading
        && (found.Some? ==> checkIn == found.value)
        && (found.None? ==> checkIn == old(checkIn))
    {
      if !Truthy(userId) {
        return;
      }
      var todayData := db.GetTodayCheckIn(userId.s, today);
      if todayData.Some? {
        checkIn := todayData.value;
      }
      loading := false;
    }

    /** `toggleRitual(field)`: the toggled object is shown and saved as today's
        check-in; if the save fails, the object from before the toggle is put
        back and the store is unchanged. The grid is only shown once loading
        has ended, which needs a user id. */
    method ToggleRitual(db: Database, field: string, today: int, now: string)
      requires db.Valid() && userId.Str?
      modifies this, db, db.backend
      ensures db.Valid() && userId == old(userId) && loading == old(loading)
      ensures var toggled := Toggle(old(checkIn), field);
        var res := Attempt(old(db.Fails(0)), UpsertCheckIn(old(db.checkIns), userId.s, toggled, today, now));
        && (res.Ok? ==> checkIn == toggled && db.State() == old(db.State()).(checkIns := res.value.0))
        && (res.Err? ==> checkIn == old(checkIn) && db.State() == old(db.State()))
    {
      var previous := checkIn;
      var newCheckIn := Toggle(checkIn, field);
      checkIn := newCheckIn;
      var r := db.SaveCheckIn(userId.s, newCheckIn, today, now);
      if r.Err? {
        checkIn := previous;
      }
    }

    /** A click on a ritual: the exercise button is disabled and its click does
        nothing; any other ritual is toggled. */
    method Click(db: Database, ritual: Ritual, today: int, now: string)
      requires db.Valid() && userId.Str?
      modifies this, db, db.backend
      ensures db.Valid() && userId == old(userId) && loading == old(loading)
      ensures ritual.field == "exercise" ==> checkIn == old(checkIn) && db.State() == old(db.State())
      ensures ritual.field != "exercise" ==>
        var toggled := Toggle(old(checkIn), ritual.field);
        var res := Attempt(old(db.Fails(0)), UpsertCheckIn(old(db.checkIns), userId.s, toggled, today, now));
        && (res.Ok? ==> checkIn == toggled && db.State() == old(db.State()).(checkIns := res.value.0))
        && (res.Err? ==> checkIn == old(checkIn) && db.State() == old(db.State()))
    {
      if ritual.field != "exercise" {
        ToggleRitual(db, ritual.field, today, now);
      }
    }
  }
}
