/** Partner pairing (`src/components/dashboard/PartnerPairing.jsx`): a user
    publishes a pairing code as a partnership row of their own, and a partner
    who enters the code is linked to its owner. Partnership rows are keyed by
    `userId`, so each user has at most one. */
module PartnerPairing {
  import opened Wrappers
  import opened JsValue
  import opened Table
  import opened Db
  import opened Completion
  import JsText
  import Crypto

  /** `{ shareCheckIns: true, shareTimeline: true, shareNotes: false }` */
  const SharedData: Value := Obj(map["shareCheckIns" := Bool(true), "shareTimeline" := Bool(true), "shareNotes" := Bool(false)])

  /** What `handlePair` ends with, and the alert it shows. */
  datatype PairOutcome = Ignored | InvalidCode | AlreadyUsed | Paired | Failed(error: DbError)

  function PairAlert(o: PairOutcome): Option<string>
  {
    match o
    case Ignored => None
    case InvalidCode => Some("Invalid pairing code. Please check and try again.")
    case AlreadyUsed => Some("This pairing code is already used.")
    case Paired => Some("Successfully paired with your partner!")
    case Failed(_) => Some("Failed to pair. Please try again.")
  }

  /** `myStats` / `partnerStats` */
  datatype PairStats = PairStats(weeklyCompletionRate: nat, totalCheckIns: nat)

  /** The stats of a week of check-ins. */
  function StatsOf(checkIns: seq<Record>): PairStats
  {
    PairStats(CompletionRate(checkIns), |checkIns|)
  }

  /** `Math.min(myStats?.totalCheckIns || 0, partnerStats?.totalCheckIns || 0)`:
      0 unless both stats are loaded, and never more than either count. */
  function CombinedStreak(my: Option<PairStats>, partner: Option<PairStats>): (n: nat)
    ensures my.None? || partner.None? ==> n == 0
    ensures my.Some? ==> n <= my.value.totalCheckIns
    ensures partner.Some? ==> n <= partner.value.totalCheckIns
    ensures my.Some? && partner.Some? ==> n == my.value.totalCheckIns || n == partner.value.totalCheckIns
  {
    var a := if my.Some? then my.value.totalCheckIns else 0;
    var b := if partner.Some? then partner.value.totalCheckIns else 0;
    if a <= b then a else b
  }

  /** Both counts come from a week of check-ins, so the combined streak is at
      most 7 and both rates are percentages. */
  lemma CombinedStreakAtMostAWeek(checkIns: Store, me: string, partner: string)
    requires Table.Valid(checkIns)
    ensures var my := StatsOf(CheckInsOf(checkIns, me, 7));
      var theirs := StatsOf(CheckInsOf(checkIns, partner, 7));
      && CombinedStreak(Some(my), Some(theirs)) <= 7
      && my.weeklyCompletionRate <= 100 && theirs.weeklyCompletionRate <= 100
  {
    CheckInsOfSpec(checkIns, me, 7);
  }

  /** `!partnership || !partnership.partnerId` selects the unpaired view. */
  predicate ShowsPairedView(partnership: Option<Record>)
  {
    partnership.Some? && Truthy(Get(partnership.value, "partnerId"))
  }

  /** The second `add` of `handlePair` as written stores a row under the key of
      the partnership just found by code. That row is still in the store after
      the first add, so the second add is always a ConstraintError. */
  lemma SecondAddAlwaysRejected(s: Store, found: Record, me: Value, code: Value, sharedData: Value, now: string)
    requires Table.Valid(s) && s.keyPath == "userId" && !s.autoIncrement
    requires found in s.rows
    requires Add(s, PartnershipRecord(me, Get(found, "userId"), code, sharedData, now)).Ok?
    ensures var t := Add(s, PartnershipRecord(me, Get(found, "userId"), code, sharedData, now)).value.0;
      Add(t, PartnershipRecord(Get(found, "userId"), me, code, sharedData, now)) == Err(ConstraintError)
  {
    var first := PartnershipRecord(me, Get(found, "userId"), code, sharedData, now);
    AddSpec(s, first);
    var t := Add(s, first).value.0;
    assert found in t.rows;
    var i :| 0 <= i < |t.rows| && t.rows[i] == found;
    var second := PartnershipRecord(Get(found, "userId"), me, code, sharedData, now);
    assert Get(second, "userId") == Get(found, "userId");
    assert PrimaryKey(t.rows[i], "userId") == PrimaryKey(second, "userId");
    assert HasKey(t.rows, t.keyPath, PrimaryKey(second, "userId").value);
  }

  /** The first step of the pairing: a row keyed by the partner, who has no
      row yet, is added; the other rows stay. */
  lemma AddPartnerRow(s: Store, found: Record, row: Record, me: string)
    requires Table.Valid(s) && s.keyPath == "userId" && !s.autoIncrement
    requires !HasKey(s.rows, "userId", StrKey(me)) && found in s.rows && Get(row, "userId") == Str(me)
    ensures Add(s, row).Ok?
    ensures var t := Add(s, row).value.0;
      && Table.Valid(t) && t.keyPath == "userId" && !t.autoIncrement
      && row in t.rows && found in t.rows
  {
    assert PrimaryKey(row, "userId") == Some(StrKey(me));
    AddSpec(s, row);
    assert row["userId" := KeyValue(StrKey(me))] == row;
  }

  /** The second step of the corrected pairing: the owner's row gets the
      partner's id; every other row stays where it is. */
  lemma LinkOwnerRow(t: Store, found: Record, other: Record, owner: string, me: string)
    requires Table.Valid(t) && t.keyPath == "userId"
    requires found in t.rows && Get(found, "userId") == Str(owner)
    requires other in t.rows && Get(other, "userId") != Str(owner)
    ensures Update(t, StrKey(owner), map["partnerId" := Str(me)]).Ok?
    ensures var u := Update(t, StrKey(owner), map["partnerId" := Str(me)]).value.0;
      && Table.Valid(u) && u.keyPath == "userId"
      && Merge(found, map["partnerId" := Str(me)]) in u.rows
      && other in u.rows
  {
    var changes := map["partnerId" := Str(me)];
    var i :| 0 <= i < |t.rows| && t.rows[i] == found;
    assert PrimaryKey(found, "userId") == Some(StrKey(owner));
    var j := IndexOf(t.rows, "userId", StrKey(owner));
    assert Merge(t.rows[j.value], changes)["userId"] == t.rows[j.value]["userId"];
    UpdateSpec(t, StrKey(owner), changes);
    var u := Update(t, StrKey(owner), changes).value.0;
    assert u.rows[i] == Merge(found, changes);
    var m :| 0 <= m < |t.rows| && t.rows[m] == other;
    assert PrimaryKey(other, "userId") != Some(StrKey(owner));
    assert u.rows[m] == other;
  }

  /** The evidently intended pairing: add the partner's row pointing at the
      owner, then set the owner's `partnerId`. When the code's row is unused,
      the partner has no row yet and is not the owner, both steps succeed and
      each side's partnership names the other. */
  lemma CorrectedPairLinksBoth(s: Store, found: Record, row: Record, owner: string, me: string)
    requires Table.Valid(s) && s.keyPath == "userId" && !s.autoIncrement
    requires found in s.rows && Get(found, "userId") == Str(owner) && owner != me
    requires !HasKey(s.rows, "userId", StrKey(me))
    requires Get(row, "userId") == Str(me) && Get(row, "partnerId") == Str(owner)
    ensures Add(s, row).Ok?
    ensures var t := Add(s, row).value.0;
      && Update(t, StrKey(owner), map["partnerId" := Str(me)]).Ok?
      && var u := Update(t, StrKey(owner), map["partnerId" := Str(me)]).value.0;
         && PartnershipOf(u, me).Some? && Get(PartnershipOf(u, me).value, "partnerId") == Str(owner)
         && PartnershipOf(u, owner).Some? && Get(PartnershipOf(u, owner).value, "partnerId") == Str(me)
  {
    AddPartnerRow(s, found, row, me);
    var t := Add(s, row).value.0;
    LinkOwnerRow(t, found, row, owner, me);
    var changes := map["partnerId" := Str(me)];
    var u := Update(t, StrKey(owner), changes).value.0;
    BothFound(u, row, Merge(found, changes), owner, me);
  }

  /** The corrected pairing's two writes on the partnerships store, for a
      schedule in which the add is rejected when `addFails` and the update
      when `updateFails`: the result and the store left behind. An owner id
      that is not a key fails the update before it reaches the store. */
  function LinkSteps(p: Store, addFails: bool, updateFails: bool, row: Record, owner: Value, changes: Record)
    : (Result<(), DbError>, Store)
  {
    match Attempt<(Store, Key)>(addFails, Add(p, row))
    case Err(e) => (Err(e), p)
    case Ok((added, _)) =>
      if AsKey(owner).None? then (Err(DataError), added)
      else
        match Attempt<(Store, nat)>(updateFails, Update(added, AsKey(owner).value, changes))
        case Err(e) => (Err(e), added)
        case Ok((linked, _)) => (Ok(()), linked)
  }

  /** A rejected add leaves the store as it was; once the add is through, a
      rejected update keeps the new row; when neither is rejected, the code's
      row is unused and the partner has no row yet and is not its owner, each
      side's partnership names the other. */
  lemma LinkStepsSpec(p: Store, addFails: bool, updateFails: bool, found: Record, row: Record, me: string)
    requires Table.Valid(p) && p.keyPath == "userId" && !p.autoIncrement
    requires Get(row, "userId") == Str(me) && Get(row, "partnerId") == Get(found, "userId")
    ensures var first := Attempt<(Store, Key)>(addFails, Add(p, row));
      var (r, after) := LinkSteps(p, addFails, updateFails, row, Get(found, "userId"), map["partnerId" := Str(me)]);
      && (first.Err? ==> r == Err(first.error) && after == p)
      && (first.Ok? && updateFails ==> r.Err? && after == first.value.0)
    ensures !addFails && !updateFails && found in p.rows && Get(found, "userId").Str?
            && Get(found, "userId") != Str(me) && !HasKey(p.rows, "userId", StrKey(me)) ==>
      var owner := Get(found, "userId").s;
      var (r, after) := LinkSteps(p, addFails, updateFails, row, Get(found, "userId"), map["partnerId" := Str(me)]);
      && r.Ok?
      && PartnershipOf(after, me).Some? && Get(PartnershipOf(after, me).value, "partnerId") == Str(owner)
      && PartnershipOf(after, owner).Some? && Get(PartnershipOf(after, owner).value, "partnerId") == Str(me)
  {
    var owner := Get(found, "userId");
    if !addFails && !updateFails && found in p.rows && owner.Str? && owner != Str(me) && !HasKey(p.rows, "userId", StrKey(me)) {
      CorrectedPairLinksBoth(p, found, row, owner.s, me);
      assert AsKey(owner) == Some(StrKey(owner.s));
    }
  }

  /** Once both rows are stored, each user's partnership is their own row. */
  lemma BothFound(u: Store, mine: Record, theirs: Record, owner: string, me: string)
    requires Table.Valid(u) && u.keyPath == "userId"
    requires mine in u.rows && Get(mine, "userId") == Str(me) && Get(mine, "partnerId") == Str(owner)
    requires theirs in u.rows && Get(theirs, "userId") == Str(owner) && Get(theirs, "partnerId") == Str(me)
    ensures PartnershipOf(u, me).Some? && Get(PartnershipOf(u, me).value, "partnerId") == Str(owner)
    ensures PartnershipOf(u, owner).Some? && Get(PartnershipOf(u, owner).value, "partnerId") == Str(me)
  {
    PartnershipOfFindsOwnRow(u, me, mine);
    PartnershipOfFindsOwnRow(u, owner, theirs);
  }

  /** The component's state. */
  class PairingView {
    var partnership: Option<Record>
    var pairingCode: string
    var partnerCode: string
    var loading: bool
    var showPairForm: bool
    var partnerStats: Option<PairStats>
    var myStats: Option<PairStats>

    constructor ()
      ensures partnership.None? && pairingCode == "" && partnerCode == "" && loading && !showPairForm
      ensures partnerStats.None? && myStats.None?
    {
      partnership := None;
      pairingCode := "";
      partnerCode := "";
      loading := true;
      showPairForm := false;
      partnerStats := None;
      myStats := None;
    }

    /** `loadStats(partnerId)`: a week of the user's check-ins, then a week of
        the partner's. The stored partner ids are strings or `null` (an unused
        code); for any id that is not a string the model fails the partner
        fetch without a request, so only the user's own stats are set. The
        browser rejects a `null` key too, but would query a number and find
        no rows. The user's check-ins are request 0, the
        partner's request 1; a failure ends the load. */
    method LoadStats(db: Database, me: string, partnerId: Value)
      modifies this, db.backend
      ensures !old(db.Fails(0)) ==> myStats == Some(StatsOf(CheckInsOf(db.checkIns, me, 7)))
      ensures !old(db.Fails(0)) && !old(db.Fails(1)) && partnerId.Str? ==>
        partnerStats == Some(StatsOf(CheckInsOf(db.checkIns, partnerId.s, 7)))
      ensures old(db.Fails(0)) ==> myStats == old(myStats)
      ensures old(db.Fails(0)) || old(db.Fails(1)) || !partnerId.Str? ==> partnerStats == old(partnerStats)
      ensures partnership == old(partnership) && pairingCode == old(pairingCode) && partnerCode == old(partnerCode)
      ensures loading == old(loading) && showPairForm == old(showPairForm)
    {
      ghost var myFails, partnerFails := db.Fails(0), db.Fails(1);
      var mine := db.GetCheckIns(me, 7);
      if mine.Ok? {
        assert !myFails && db.Fails(0) == partnerFails;
        myStats := Some(StatsOf(mine.value));
        if partnerId.Str? {
          var theirs := db.GetCheckIns(partnerId.s, 7);
          if theirs.Ok? {
            partnerStats := Some(StatsOf(theirs.value));
          }
        }
      }
    }

    /** `loadPartnership()`: the user's own partnership row, if any, and the
        stats for it; loading ends either way. */
    method LoadPartnership(db: Database, user: Option<Record>)
      requires user.Some? ==> Get(user.value, "id").Str?
      modifies this, db.backend
      ensures user.None? ==> partnership == old(partnership) && loading == old(loading)
      ensures user.Some? ==>
        var found := if old(db.Fails(0)) then None else PartnershipOf(db.partnerships, Get(user.value, "id").s);
        && !loading
        && (found.Some? ==> partnership == found)
        && (found.None? ==> partnership == old(partnership) && myStats == old(myStats) && partnerStats == old(partnerStats))
      ensures user.Some? && !old(db.Fails(0)) && PartnershipOf(db.partnerships, Get(user.value, "id").s).Some? ==>
        var id := Get(user.value, "id").s;
        var pid := Get(PartnershipOf(db.partnerships, id).value, "partnerId");
        && (!old(db.Fails(1)) ==> myStats == Some(StatsOf(CheckInsOf(db.checkIns, id, 7))))
        && (old(db.Fails(1)) ==> myStats == old(myStats))
        && (!old(db.Fails(1)) && !old(db.Fails(2)) && pid.Str? ==> partnerStats == Some(StatsOf(CheckInsOf(db.checkIns, pid.s, 7))))
        && (old(db.Fails(1)) || old(db.Fails(2)) || !pid.Str? ==> partnerStats == old(partnerStats))
      ensures pairingCode == old(pairingCode) && partnerCode == old(partnerCode) && showPairForm == old(showPairForm)
    {
      if user.None? {
        return;
      }
      ghost var f1, f2 := db.Fails(1), db.Fails(2);
      var existing := db.GetPartnership(Get(user.value, "id").s);
      assert db.Fails(0) == f1 && db.Fails(1) == f2;
      if existing.Some? {
        partnership := existing;
        LoadStats(db, Get(user.value, "id").s, Get(existing.value, "partnerId"));
      }
      loading := false;
    }

    /** `generateCode()`: a fresh pairing code, shown but not stored. */
    method GenerateCode(rnd: Crypto.Random)
      modifies this
      ensures pairingCode == Crypto.PairingCodeOf(rnd) && Crypto.IsPairingCode(pairingCode)
      ensures partnership == old(partnership) && partnerCode == old(partnerCode) && loading == old(loading)
      ensures showPairForm == old(showPairForm) && myStats == old(myStats) && partnerStats == old(partnerStats)
    {
      pairingCode := Crypto.GeneratePairingCode(rnd);
    }

    /** `handleGenerateAndSave()`: stores a fresh code as the user's own,
        unused partnership row and shows it. A user who already has a row is
        rejected by the add. */
    method HandleGenerateAndSave(db: Database, user: Option<Record>, rnd: Crypto.Random, now: string) returns (alert: Option<string>)
      requires db.Valid()
      requires user.Some? ==> Get(user.value, "id").Str?
      modifies this, db, db.backend
      ensures db.Valid()
      ensures user.None? ==> alert.None? && db.State() == old(db.State()) && pairingCode == old(pairingCode)
      ensures user.Some? ==>
        var code := Crypto.PairingCodeOf(rnd);
        var row := PartnershipRecord(Get(user.value, "id"), Null, Str(code), SharedData, now);
        var res := Attempt(old(db.Fails(0)), Add(old(db.partnerships), row));
        && (res.Ok? ==> alert.None? && pairingCode == code && db.State() == old(db.State()).(partnerships := res.value.0)
                        && row in db.partnerships.rows)
        && (res.Err? ==> alert == Some("Failed to generate code. Please try again.")
                         && pairingCode == old(pairingCode) && db.State() == old(db.State()))
      ensures partnership == old(partnership) && partnerCode == old(partnerCode)
      ensures loading == old(loading) && showPairForm == old(showPairForm) && myStats == old(myStats) && partnerStats == old(partnerStats)
    {
      if user.None? {
        return None;
      }
      var code := Crypto.GeneratePairingCode(rnd);
      assert code == Crypto.PairingCodeOf(rnd);
      var row := PartnershipRecord(Get(user.value, "id"), Null, Str(code), SharedData, now);
      CreatePartnershipNeverOverwrites(db.partnerships, Get(user.value, "id"), Null, Str(code), SharedData, now);
      var r := db.CreatePartnership(Get(user.value, "id"), Null, Str(code), SharedData, now);
      if r.Err? {
        return Some("Failed to generate code. Please try again.");
      }
      pairingCode := code;
      alert := None;
    }

    /** `handlePair()` as written. With a signed-in user and a non-empty code,
        the code is upper-cased and looked up (request 0); an unknown code (or
        a failed lookup, which gives null) is invalid, a code whose row names a
        partner is used. Otherwise the partner's row is added (request 1) and
        then a second row under the owner's key (request 2), which is always
        rejected: the pairing never succeeds, and all it leaves behind is the
        partner's own row. */
    method HandlePair(db: Database, user: Option<Record>, now: string) returns (outcome: PairOutcome)
      requires db.Valid()
      requires user.Some? ==> Get(user.value, "id").Str?
      modifies this, db, db.backend
      ensures db.Valid()
      ensures outcome != Paired
      ensures user.None? || old(partnerCode) == "" ==> outcome == Ignored
      ensures outcome == Ignored || outcome == InvalidCode || outcome == AlreadyUsed ==> db.State() == old(db.State())
      ensures user.Some? && old(partnerCode) != "" ==>
        var code := JsText.ToUpper(old(partnerCode));
        var found := if old(db.Fails(0)) then None else PartnershipByCode(old(db.partnerships), code);
        && (outcome == InvalidCode <==> found.None?)
        && (outcome == AlreadyUsed <==> found.Some? && Truthy(Get(found.value, "partnerId")))
        && (found.Some? && !Truthy(Get(found.value, "partnerId")) ==>
              var first := Attempt(old(db.Fails(1)), Add(old(db.partnerships),
                PartnershipRecord(Get(user.value, "id"), Get(found.value, "userId"), Str(code), SharedData, now)));
              && outcome.Failed?
              && (first.Err? ==> outcome.error == first.error && db.State() == old(db.State()))
              && (first.Ok? ==> outcome.error == (if old(db.Fails(2)) then StorageFailure else ConstraintError)
                                && db.State() == old(db.State()).(partnerships := first.value.0)))
      ensures partnerCode == old(partnerCode) && showPairForm == old(showPairForm) && partnership == old(partnership)
      ensures loading == old(loading) && myStats == old(myStats) && partnerStats == old(partnerStats) && pairingCode == old(pairingCode)
    {
      if user.None? || partnerCode == "" {
        return Ignored;
      }
      var me := Get(user.value, "id");
      var code := JsText.ToUpper(partnerCode);
      var existing := db.FindPartnershipByCode(code);
      if existing.None? {
        return InvalidCode;
      }
      if Truthy(Get(existing.value, "partnerId")) {
        return AlreadyUsed;
      }
      var owner := Get(existing.value, "userId");
      var before := db.partnerships;
      var first := db.CreatePartnership(me, owner, Str(code), SharedData, now);
      if first.Err? {
        return Failed(first.error);
      }
      SecondAddAlwaysRejected(before, existing.value, me, Str(code), SharedData, now);
      var second := db.CreatePartnership(owner, me, Str(code), SharedData, now);
      if second.Err? {
        return Failed(second.error);
      }
      // The source clears the form, reloads and reports success here; the
      // second add has just been shown to fail, so this point is never reached.
      assert false;
    }

    /** The two writes of the corrected pairing: the partner's row pointing at
        the owner of `found` (request 0), then the owner's `partnerId`
        (request 1). When the second is rejected the partner's row stays. */
    static method LinkPartners(db: Database, found: Record, me: string, code: string, sharedData: Value, now: string) returns (r: Result<(), DbError>)
      requires db.Valid()
      modifies db, db.backend
      ensures db.Valid()
      ensures db.State() == old(db.State()).(partnerships := db.partnerships)
      ensures var row := PartnershipRecord(Str(me), Get(found, "userId"), Str(code), sharedData, now);
        && (r, db.partnerships) == LinkSteps(old(db.partnerships), old(db.Fails(0)), old(db.Fails(1)), row,
                                             Get(found, "userId"), map["partnerId" := Str(me)])
        && db.backend.requests == old(db.backend.requests) + (if Attempt<(Store, Key)>(old(db.Fails(0)), Add(old(db.partnerships), row)).Err? then 1 else 2)
      ensures var first := Attempt(old(db.Fails(0)), Add(old(db.partnerships),
                PartnershipRecord(Str(me), Get(found, "userId"), Str(code), sharedData, now)));
        && (first.Err? ==> r == Err(first.error) && db.partnerships == old(db.partnerships))
        && (first.Ok? && old(db.Fails(1)) ==> r.Err? && db.partnerships == first.value.0)
      ensures !old(db.Fails(0)) && !old(db.Fails(1)) && found in old(db.partnerships).rows && Get(found, "userId").Str?
              && Get(found, "userId") != Str(me) && !HasKey(old(db.partnerships).rows, "userId", StrKey(me)) ==>
        var owner := Get(found, "userId").s;
        && r.Ok?
        && PartnershipOf(db.partnerships, me).Some?
        && Get(PartnershipOf(db.partnerships, me).value, "partnerId") == Str(owner)
        && PartnershipOf(db.partnerships, owner).Some?
        && Get(PartnershipOf(db.partnerships, owner).value, "partnerId") == Str(me)
    {
      var owner := Get(found, "userId");
      ghost var s0 := db.State();
      ghost var before := db.partnerships;
      ghost var addFails, updateFails := db.Fails(0), db.Fails(1);
      var row := PartnershipRecord(Str(me), owner, Str(code), sharedData, now);
      var changes := map["partnerId" := Str(me)];
      LinkStepsSpec(before, addFails, updateFails, found, row, me);
      var first := db.CreatePartnership(Str(me), owner, Str(code), sharedData, now);
      if first.Err? {
        return Err(first.error);
      }
      assert db.State() == s0.(partnerships := Add(before, row).value.0);
      assert db.Fails(0) == updateFails;
      var second := db.UpdatePartnership(owner, changes);
      if second.Err? {
        return Err(second.error);
      }
      r := Ok(());
    }

    /** `handlePair()` with the second `add` replaced by an update of the
        owner's row. When the code's row is unused, its three requests (the
        lookup and the two writes) go through, the partner has no row yet and
        is not the owner, the pairing succeeds: the form is cleared and closed,
        and afterwards each side's partnership names the other. */
    method HandlePairCorrected(db: Database, user: Option<Record>, now: string) returns (outcome: PairOutcome)
      requires db.Valid()
      requires user.Some? ==> Get(user.value, "id").Str?
      modifies this, db, db.backend
      ensures db.Valid()
      ensures user.None? || old(partnerCode) == "" ==> outcome == Ignored
      ensures outcome == Ignored || outcome == InvalidCode || outcome == AlreadyUsed ==> db.State() == old(db.State())
      ensures user.Some? && old(partnerCode) != "" ==>
        var me := Get(user.value, "id").s;
        var found := if old(db.Fails(0)) then None else PartnershipByCode(old(db.partnerships), JsText.ToUpper(old(partnerCode)));
        && (outcome == InvalidCode <==> found.None?)
        && (outcome == AlreadyUsed <==> found.Some? && Truthy(Get(found.value, "partnerId")))
        && (found.Some? && !Truthy(Get(found.value, "partnerId")) && Get(found.value, "userId").Str?
            && !old(db.Fails(1)) && !old(db.Fails(2))
            && Get(found.value, "userId") != Str(me) && !HasKey(old(db.partnerships).rows, "userId", StrKey(me)) ==>
              var owner := Get(found.value, "userId").s;
              && outcome == Paired
              && PartnershipOf(db.partnerships, me).Some?
              && Get(PartnershipOf(db.partnerships, me).value, "partnerId") == Str(owner)
              && PartnershipOf(db.partnerships, owner).Some?
              && Get(PartnershipOf(db.partnerships, owner).value, "partnerId") == Str(me))
      ensures outcome == Paired ==> partnerCode == "" && !showPairForm
    {
      if user.None? || partnerCode == "" {
        return Ignored;
      }
      var me := Get(user.value, "id");
      var code := JsText.ToUpper(partnerCode);
      var existing := db.FindPartnershipByCode(code);
      if existing.None? {
        return InvalidCode;
      }
      if Truthy(Get(existing.value, "partnerId")) {
        return AlreadyUsed;
      }
      var linked := LinkPartners(db, existing.value, me.s, code, SharedData, now);
      if linked.Err? {
        return Failed(linked.error);
      }
      partnerCode := "";
      showPairForm := false;
      LoadPartnership(db, user);
      outcome := Paired;
    }
  }
}
