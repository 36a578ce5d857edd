/** The local store of `src/db.js`: six object stores and the helper functions
    the application calls. Each helper is a pure operation on `Table.Store`
    values (the specification) and a method of `Database`, which updates its
    store fields with that operation. `new Date()` and `Math.random()` become
    parameters; calendar dates are day numbers stored as numbers. */
module Db {
  import opened Wrappers
  import opened JsValue
  import opened Table
  import JsText

  // ---- users ----

  /** `user_${Date.now()}_${Math.random().toString(36).substr(2, 9)}`, with the
      random part passed in. */
  function UserId(nowMs: int, randomPart: string): (id: string)
    ensures |id| >= 5 && id[..5] == "user_"
  {
    "user_" + JsText.IntToString(nowMs) + "_" + randomPart
  }

  /** The record `createUser` builds from `userData`: exactly seven fields. Every
      other field of `userData` (among them `passwordSalt` and `startDate`) is
      dropped. */
  function UserRecord(userData: Record, id: string, now: string): (u: Record)
    ensures u.Keys == {"id", "email", "createdAt", "passwordHash", "name", "age", "sex"}
    ensures u["id"] == Str(id) && u["createdAt"] == Str(now)
    ensures forall k :: k in u && k != "id" && k != "createdAt" ==> u[k] == Get(userData, k)
    ensures "passwordSalt" !in u && "startDate" !in u
  {
    map[
      "id" := Str(id),
      "email" := Get(userData, "email"),
      "createdAt" := Str(now),
      "passwordHash" := Get(userData, "passwordHash"),
      "name" := Get(userData, "name"),
      "age" := Get(userData, "age"),
      "sex" := Get(userData, "sex")]
  }

  /** Every stored user was built by `UserRecord`, so its id is a string. */
  ghost predicate UserRows(users: Store)
  {
    forall x :: x in users.rows ==> Get(x, "id").Str?
  }

  /** What `createUser` would store if it kept the salt it is given: the seven
      fields plus `passwordSalt`. */
  function UserRecordWithSalt(userData: Record, id: string, now: string): (u: Record)
    ensures u.Keys == {"id", "email", "createdAt", "passwordHash", "passwordSalt", "name", "age", "sex"}
    ensures u["passwordSalt"] == Get(userData, "passwordSalt")
    ensures forall k :: k in u && k != "passwordSalt" ==> k in UserRecord(userData, id, now) && u[k] == UserRecord(userData, id, now)[k]
  {
    UserRecord(userData, id, now)["passwordSalt" := Get(userData, "passwordSalt")]
  }

  /** `users.where('email').equals(email).first()` */
  function UserByEmail(users: Store, email: string): (r: Option<Record>)
    ensures r.Some? ==> r.value in users.rows && Get(r.value, "email") == Str(email)
    ensures r.None? <==> forall x :: x in users.rows ==> Get(x, "email") != Str(email)
  {
    First(WithField(users.rows, "email", Str(email)))
  }

  // ---- health data ----

  /** `saveHealthData(userId, data, encryptedData)` stores this record; `data` is
      not part of it. */
  function HealthDataRecord(userId: Value, encryptedData: Value, now: string): Record
  {
    map["userId" := userId, "encryptedData" := encryptedData, "updatedAt" := Str(now)]
  }

  /** `healthData.where('userId').equals(userId).last()` */
  function LatestHealthData(healthData: Store, userId: string): Option<Record>
  {
    Last(WithField(healthData.rows, "userId", Str(userId)))
  }

  /** Every key of the store is a generated number. */
  ghost predicate NumericKeys(s: Store)
  {
    forall i :: 0 <= i < |s.rows| ==> PrimaryKey(s.rows[i], s.keyPath).Some? && PrimaryKey(s.rows[i], s.keyPath).value.NumKey?
  }

  lemma {:induction false} WithFieldAppend(rows: seq<Record>, x: Record, field: string, v: Value)
    ensures WithField(rows + [x], field, v) == WithField(rows, field, v) + (if Get(x, field) == v then [x] else [])
    decreases |rows|
  {
    if rows != [] {
      assert (rows + [x])[1..] == rows[1..] + [x];
      WithFieldAppend(rows[1..], x, field, v);
    }
  }

  /** In a `++id` store whose keys are all generated, `add` appends: the new row
      goes after every existing row. */
  lemma AddAppends(s: Store, row: Record)
    requires Table.Valid(s) && s.autoIncrement && NumericKeys(s)
    requires Get(row, s.keyPath) == Undefined
    ensures Add(s, row).Ok?
    ensures Add(s, row).value.0.rows == s.rows + [row[s.keyPath := Num(s.next)]]
    ensures NumericKeys(Add(s, row).value.0)
  {
    var k := NumKey(s.next);
    assert !HasKey(s.rows, s.keyPath, k);
    var p := InsertionPoint(s.rows, s.keyPath, k);
    if p < |s.rows| {
      assert false;
    }
    assert s.rows[..p] == s.rows && s.rows[p..] == [];
  }

  /** Health data is append-only: a save adds one row at the end and changes no
      other, and the user's latest row is then the one just saved. */
  lemma SaveThenLatestHealthData(s: Store, userId: string, data: Value, encryptedData: Value, now: string)
    requires Table.Valid(s) && s.autoIncrement && s.keyPath == "id" && NumericKeys(s)
    ensures Add(s, HealthDataRecord(Str(userId), encryptedData, now)).Ok?
    ensures var t := Add(s, HealthDataRecord(Str(userId), encryptedData, now)).value.0;
      && t.rows == s.rows + [HealthDataRecord(Str(userId), encryptedData, now)["id" := Num(s.next)]]
      && LatestHealthData(t, userId) == Some(HealthDataRecord(Str(userId), encryptedData, now)["id" := Num(s.next)])
  {
    var row := HealthDataRecord(Str(userId), encryptedData, now);
    AddAppends(s, row);
    WithFieldAppend(s.rows, row["id" := Num(s.next)], "userId", Str(userId));
  }

  // ---- check-ins ----

  predicate IsTodayRow(r: Record, userId: string, today: int)
  {
    Get(r, "userId") == Str(userId) && Get(r, "date") == Num(today)
  }

  /** `checkIns.where('[userId+date]').equals([userId, today])`. */
  function TodayRows(rows: seq<Record>, userId: string, today: int): (r: seq<Record>)
    ensures forall x :: x in r <==> x in rows && IsTodayRow(x, userId, today)
  {
    WithField(WithField(rows, "userId", Str(userId)), "date", Num(today))
  }

  /** `getTodayCheckIn(userId)` when storage works. */
  function TodayCheckIn(checkIns: Store, userId: string, today: int): Option<Record>
  {
    First(TodayRows(checkIns.rows, userId, today))
  }

  /** The record a new check-in is added as: `{ userId, date: today, ...checkInData, createdAt }`. */
  function NewCheckInRecord(userId: string, checkInData: Record, today: int, now: string): Record
  {
    Spread(Spread(map["userId" := Str(userId), "date" := Num(today)], checkInData), map["createdAt" := Str(now)])
  }

  /** The changes an existing check-in is updated with: `{ ...checkInData, updatedAt }`. */
  function CheckInChanges(checkInData: Record, now: string): Record
  {
    Spread(checkInData, map["updatedAt" := Str(now)])
  }

  /** `saveCheckIn(userId, checkInData)`: looks up today's row for the user; when
      there is one it is updated and its key returned, otherwise a new row is
      added and its generated key returned. */
  function UpsertCheckIn(s: Store, userId: string, checkInData: Record, today: int, now: string): Result<(Store, Key), DbError>
  {
    match TodayCheckIn(s, userId, today)
    case Some(existing) =>
      (match PrimaryKey(existing, s.keyPath)
       case None => Err(DataError)
       case Some(k) =>
         match Update(s, k, CheckInChanges(checkInData, now))
         case Err(e) => Err(e)
         case Ok((t, _)) => Ok((t, k)))
    case None => Add(s, NewCheckInRecord(userId, checkInData, today, now))
  }

  /** Check-in data that does not contradict the row it is saved into: any
      `userId` or `date` it carries is the user's and today's. */
  predicate Consistent(checkInData: Record, userId: string, today: int)
  {
    && ("userId" in checkInData ==> checkInData["userId"] == Str(userId))
    && ("date" in checkInData ==> checkInData["date"] == Num(today))
  }

  ghost predicate AtMostOneToday(rows: seq<Record>, userId: string, today: int)
  {
    forall i, j :: 0 <= i < |rows| && 0 <= j < |rows| && IsTodayRow(rows[i], userId, today) && IsTodayRow(rows[j], userId, today) ==> i == j
  }

  ghost predicate ExactlyOneToday(rows: seq<Record>, userId: string, today: int)
  {
    exists i :: 0 <= i < |rows| && IsTodayRow(rows[i], userId, today) && forall j :: 0 <= j < |rows| && j != i ==> !IsTodayRow(rows[j], userId, today)
  }

  lemma KeysDistinct(rows: seq<Record>, keyPath: string, i: nat, j: nat)
    requires Ordered(rows, keyPath)
    requires i < |rows| && j < |rows| && PrimaryKey(rows[i], keyPath) == PrimaryKey(rows[j], keyPath)
    ensures i == j
  {
    var k := PrimaryKey(rows[i], keyPath).value;
    KeyLessIsStrictTotalOrder(k, k, k);
  }

  /** When today's row exists, `saveCheckIn` updates exactly that row in place:
      it keeps its id, takes every defined field of `checkInData` and `updatedAt`,
      and that id is returned; every other row is unchanged. */
  lemma SaveCheckInUpdatesExisting(s: Store, userId: string, checkInData: Record, today: int, now: string, i: nat)
    requires Table.Valid(s) && s.keyPath == "id"
    requires i < |s.rows| && TodayCheckIn(s, userId, today) == Some(s.rows[i])
    requires UpsertCheckIn(s, userId, checkInData, today, now).Ok?
    ensures var (t, k) := UpsertCheckIn(s, userId, checkInData, today, now).value;
      && Table.Valid(t)
      && Some(k) == PrimaryKey(s.rows[i], "id")
      && |t.rows| == |s.rows|
      && t.rows[i] == Merge(s.rows[i], CheckInChanges(checkInData, now))
      && PrimaryKey(t.rows[i], "id") == Some(k)
      && Get(t.rows[i], "updatedAt") == Str(now)
      && (forall f :: f in checkInData && f != "updatedAt" && checkInData[f] != Undefined ==> t.rows[i][f] == checkInData[f])
      && (forall j :: 0 <= j < |s.rows| && j != i ==> t.rows[j] == s.rows[j])
  {
    var e := s.rows[i];
    var k := PrimaryKey(e, "id").value;
    var changes := CheckInChanges(checkInData, now);
    UpdateSpec(s, k, changes);
    forall j | 0 <= j < |s.rows| && PrimaryKey(s.rows[j], "id") == Some(k) ensures j == i {
      KeysDistinct(s.rows, "id", i, j);
    }
  }

  /** When there is no row for today, `saveCheckIn` adds one row holding
      `{ userId, date: today, ...checkInData, createdAt }` and keeps every other row. */
  lemma SaveCheckInAddsNew(s: Store, userId: string, checkInData: Record, today: int, now: string)
    requires Table.Valid(s) && s.keyPath == "id" && s.autoIncrement
    requires TodayCheckIn(s, userId, today).None?
    requires UpsertCheckIn(s, userId, checkInData, today, now).Ok?
    ensures var (t, k) := UpsertCheckIn(s, userId, checkInData, today, now).value;
      var stored := NewCheckInRecord(userId, checkInData, today, now)["id" := KeyValue(k)];
      && Table.Valid(t)
      && |t.rows| == |s.rows| + 1
      && (forall x :: x in t.rows <==> x in s.rows || x == stored)
      && !HasKey(s.rows, "id", k)
      && Get(stored, "createdAt") == Str(now)
      && (Consistent(checkInData, userId, today) ==> IsTodayRow(stored, userId, today))
  {
    AddSpec(s, NewCheckInRecord(userId, checkInData, today, now));
  }

  lemma UpsertKeepsValid(s: Store, userId: string, checkInData: Record, today: int, now: string)
    requires Table.Valid(s) && s.keyPath == "id" && s.autoIncrement
    requires UpsertCheckIn(s, userId, checkInData, today, now).Ok?
    ensures var t := UpsertCheckIn(s, userId, checkInData, today, now).value.0;
      Table.Valid(t) && t.keyPath == "id" && t.autoIncrement
  {
    match TodayCheckIn(s, userId, today)
    case Some(e) =>
      assert e in TodayRows(s.rows, userId, today);
      var i :| 0 <= i < |s.rows| && s.rows[i] == e;
      SaveCheckInUpdatesExisting(s, userId, checkInData, today, now, i);
      UpdateSpec(s, PrimaryKey(e, "id").value, CheckInChanges(checkInData, now));
    case None =>
      SaveCheckInAddsNew(s, userId, checkInData, today, now);
  }

  /** The upsert keeps one row per user and day: when at most one row for
      (userId, today) existed and the data is consistent, a successful save leaves
      exactly one, and every row for another user or day is kept as it was. */
  lemma SaveCheckInExactlyOne(s: Store, userId: string, checkInData: Record, today: int, now: string)
    requires Table.Valid(s) && s.keyPath == "id" && s.autoIncrement
    requires AtMostOneToday(s.rows, userId, today)
    requires Consistent(checkInData, userId, today)
    requires UpsertCheckIn(s, userId, checkInData, today, now).Ok?
    ensures var t := UpsertCheckIn(s, userId, checkInData, today, now).value.0;
      && ExactlyOneToday(t.rows, userId, today)
      && (forall x :: !IsTodayRow(x, userId, today) ==> (x in t.rows <==> x in s.rows))
  {
    match TodayCheckIn(s, userId, today)
    case Some(e) =>
      assert e in TodayRows(s.rows, userId, today);
      var i :| 0 <= i < |s.rows| && s.rows[i] == e;
      ExactlyOneAfterUpdate(s, userId, checkInData, today, now, i);
    case None =>
      ExactlyOneAfterAdd(s, userId, checkInData, today, now);
  }

  /** Replacing today's row at index i by another of today's rows leaves exactly
      one of them when there was at most one, and keeps every other row. */
  lemma {:induction false} ReplaceTodayRow(a: seq<Record>, b: seq<Record>, i: nat, userId: string, today: int)
    requires |a| == |b| && i < |a|
    requires AtMostOneToday(a, userId, today)
    requires IsTodayRow(a[i], userId, today) && IsTodayRow(b[i], userId, today)
    requires forall j :: 0 <= j < |a| && j != i ==> b[j] == a[j]
    ensures ExactlyOneToday(b, userId, today)
    ensures forall x :: !IsTodayRow(x, userId, today) ==> (x in b <==> x in a)
  {
    forall j | 0 <= j < |b| && j != i ensures !IsTodayRow(b[j], userId, today) {
      assert b[j] == a[j];
    }
    assert ExactlyOneToday(b, userId, today);
    forall x | !IsTodayRow(x, userId, today) ensures x in b <==> x in a {
      if x in a {
        var j :| 0 <= j < |a| && a[j] == x;
        assert j != i && b[j] == x;
      }
      if x in b {
        var j :| 0 <= j < |b| && b[j] == x;
        assert j != i && a[j] == x;
      }
    }
  }

  lemma ExactlyOneAfterUpdate(s: Store, userId: string, checkInData: Record, today: int, now: string, i: nat)
    requires Table.Valid(s) && s.keyPath == "id"
    requires AtMostOneToday(s.rows, userId, today)
    requires Consistent(checkInData, userId, today)
    requires i < |s.rows| && TodayCheckIn(s, userId, today) == Some(s.rows[i])
    requires UpsertCheckIn(s, userId, checkInData, today, now).Ok?
    ensures var t := UpsertCheckIn(s, userId, checkInData, today, now).value.0;
      && ExactlyOneToday(t.rows, userId, today)
      && (forall x :: !IsTodayRow(x, userId, today) ==> (x in t.rows <==> x in s.rows))
  {
    var t := UpsertCheckIn(s, userId, checkInData, today, now).value.0;
    SaveCheckInUpdatesExisting(s, userId, checkInData, today, now, i);
    assert s.rows[i] in TodayRows(s.rows, userId, today);
    assert IsTodayRow(t.rows[i], userId, today);
    ReplaceTodayRow(s.rows, t.rows, i, userId, today);
  }

  lemma ExactlyOneAfterAdd(s: Store, userId: string, checkInData: Record, today: int, now: string)
    requires Table.Valid(s) && s.keyPath == "id" && s.autoIncrement
    requires Consistent(checkInData, userId, today)
    requires TodayCheckIn(s, userId, today).None?
    requires UpsertCheckIn(s, userId, checkInData, today, now).Ok?
    ensures var t := UpsertCheckIn(s, userId, checkInData, today, now).value.0;
      && ExactlyOneToday(t.rows, userId, today)
      && (forall x :: !IsTodayRow(x, userId, today) ==> (x in t.rows <==> x in s.rows))
  {
    var (t, k) := UpsertCheckIn(s, userId, checkInData, today, now).value;
    SaveCheckInAddsNew(s, userId, checkInData, today, now);
    var stored := NewCheckInRecord(userId, checkInData, today, now)["id" := KeyValue(k)];
    assert stored in t.rows;
    var i :| 0 <= i < |t.rows| && t.rows[i] == stored;
    assert TodayRows(s.rows, userId, today) == [];
    OnlyAddedRowIsToday(s, t, stored, userId, today, i);
  }

  /** When no earlier row is today's, the added row is the only one that is. */
  lemma OnlyAddedRowIsToday(s: Store, t: Store, stored: Record, userId: string, today: int, i: nat)
    requires Table.Valid(t)
    requires i < |t.rows| && t.rows[i] == stored
    requires forall x :: x in t.rows <==> x in s.rows || x == stored
    requires forall x :: x in s.rows ==> !IsTodayRow(x, userId, today)
    ensures forall j :: 0 <= j < |t.rows| && j != i ==> !IsTodayRow(t.rows[j], userId, today)
  {
    forall j | 0 <= j < |t.rows| && j != i
      ensures !IsTodayRow(t.rows[j], userId, today)
    {
      if t.rows[j] == stored {
        KeysDistinct(t.rows, t.keyPath, i, j);
      }
    }
  }

  /** `checkIns.where('userId').equals(userId).reverse().limit(limit).toArray()` */
  function CheckInsOf(checkIns: Store, userId: string, limit: nat): seq<Record>
  {
    Limit(Reverse(WithField(checkIns.rows, "userId", Str(userId))), limit)
  }

  /** At most `limit` rows, all of the user, newest (greatest key) first. */
  lemma CheckInsOfSpec(checkIns: Store, userId: string, limit: nat)
    requires Table.Valid(checkIns)
    ensures var r := CheckInsOf(checkIns, userId, limit);
      && |r| <= limit
      && (forall x :: x in r ==> x in checkIns.rows && Get(x, "userId") == Str(userId))
      && (forall i :: 0 <= i < |r| ==> PrimaryKey(r[i], checkIns.keyPath).Some?)
      && (forall i, j :: 0 <= i < j < |r| ==>
            KeyLess(PrimaryKey(r[j], checkIns.keyPath).value, PrimaryKey(r[i], checkIns.keyPath).value))
  {
    var w := WithField(checkIns.rows, "userId", Str(userId));
    WithFieldOrdered(checkIns.rows, checkIns.keyPath, "userId", Str(userId));
    var v := Reverse(w);
    var r := CheckInsOf(checkIns, userId, limit);
    assert r == v[..|r|];
    forall i | 0 <= i < |r| ensures r[i] == w[|w| - 1 - i] {
      assert r[i] == v[i];
    }
    forall x | x in r ensures x in w {
      var i :| 0 <= i < |r| && r[i] == x;
      assert w[|w| - 1 - i] == x;
    }
  }

  // ---- milestones ----

  /** `{ userId, type, achievedAt, ...data }` */
  function MilestoneRecord(userId: string, milestoneType: Value, data: Record, now: string): Record
  {
    Spread(map["userId" := Str(userId), "type" := milestoneType, "achievedAt" := Str(now)], data)
  }

  /** `milestones.where('userId').equals(userId).reverse().toArray()` */
  function MilestonesOf(milestones: Store, userId: string): seq<Record>
  {
    Reverse(WithField(milestones.rows, "userId", Str(userId)))
  }

  /** The user's milestones in reverse insertion order: a milestone saved into a
      store of generated keys comes first, ahead of all earlier ones. */
  lemma SaveThenMilestonesNewestFirst(s: Store, userId: string, milestoneType: Value, data: Record, now: string)
    requires Table.Valid(s) && s.autoIncrement && s.keyPath == "id" && NumericKeys(s)
    requires "id" !in data && "userId" !in data
    ensures Add(s, MilestoneRecord(userId, milestoneType, data, now)).Ok?
    ensures var t := Add(s, MilestoneRecord(userId, milestoneType, data, now)).value.0;
      MilestonesOf(t, userId) == [MilestoneRecord(userId, milestoneType, data, now)["id" := Num(s.next)]] + MilestonesOf(s, userId)
  {
    var row := MilestoneRecord(userId, milestoneType, data, now);
    var stored := row["id" := Num(s.next)];
    MilestoneRecordKeys(userId, milestoneType, data, now, s.next);
    AddAppends(s, row);
    WithFieldAppend(s.rows, stored, "userId", Str(userId));
    ReverseSnoc(WithField(s.rows, "userId", Str(userId)), stored);
  }

  /** A milestone row has no key of its own yet, and keeps its owner once the
      generated key is set. */
  lemma MilestoneRecordKeys(userId: string, milestoneType: Value, data: Record, now: string, next: int)
    requires "id" !in data && "userId" !in data
    ensures Get(MilestoneRecord(userId, milestoneType, data, now), "id") == Undefined
    ensures Get(MilestoneRecord(userId, milestoneType, data, now)["id" := Num(next)], "userId") == Str(userId)
  {
  }

  lemma ReverseSnoc(w: seq<Record>, x: Record)
    ensures Reverse(w + [x]) == [x] + Reverse(w)
  {
    assert forall i :: 0 <= i < |w| + 1 ==> Reverse(w + [x])[i] == ([x] + Reverse(w))[i];
  }

  // ---- partnerships ----

  /** `{ userId, partnerId, pairingCode, sharedData, createdAt }` */
  function PartnershipRecord(userId: Value, partnerId: Value, pairingCode: Value, sharedData: Value, now: string): Record
  {
    map["userId" := userId, "partnerId" := partnerId, "pairingCode" := pairingCode,
        "sharedData" := sharedData, "createdAt" := Str(now)]
  }

  /** `partnerships.where('userId').equals(userId).first()` */
  function PartnershipOf(partnerships: Store, userId: string): Option<Record>
  {
    First(WithField(partnerships.rows, "userId", Str(userId)))
  }

  /** `partnerships.where('pairingCode').equals(code).first()` */
  function PartnershipByCode(partnerships: Store, code: string): (r: Option<Record>)
    ensures r.Some? ==> r.value in partnerships.rows && Get(r.value, "pairingCode") == Str(code)
    ensures r.None? <==> forall x :: x in partnerships.rows ==> Get(x, "pairingCode") != Str(code)
  {
    First(WithField(partnerships.rows, "pairingCode", Str(code)))
  }

  /** `createPartnership` never overwrites: a row whose `userId` is already stored
      is rejected with a ConstraintError and the store is left as it was; a
      successful add keeps every existing row. */
  lemma CreatePartnershipNeverOverwrites(s: Store, userId: Value, partnerId: Value, code: Value, sharedData: Value, now: string)
    requires Table.Valid(s) && s.keyPath == "userId" && !s.autoIncrement
    ensures var r := Add(s, PartnershipRecord(userId, partnerId, code, sharedData, now));
      && (r.Err? <==> AsKey(userId).None? || HasKey(s.rows, "userId", AsKey(userId).value))
      && (AsKey(userId).Some? && HasKey(s.rows, "userId", AsKey(userId).value) ==> r == Err(ConstraintError))
      && (r.Ok? ==>
            (forall x :: x in s.rows ==> x in r.value.0.rows)
            && PartnershipRecord(userId, partnerId, code, sharedData, now) in r.value.0.rows)
  {
    var row := PartnershipRecord(userId, partnerId, code, sharedData, now);
    assert Get(row, "userId") == userId;
    if Add(s, row).Ok? {
      AddSpec(s, row);
      assert row["userId" := KeyValue(AsKey(userId).value)] == row;
    }
  }

  /** When a user's code is stored by them, looking that user up finds it. */
  lemma PartnershipOfFindsOwnRow(s: Store, userId: string, x: Record)
    requires Table.Valid(s) && s.keyPath == "userId"
    requires x in s.rows && Get(x, "userId") == Str(userId)
    ensures PartnershipOf(s, userId) == Some(x)
  {
    var w := WithField(s.rows, "userId", Str(userId));
    assert x in w && w[0] in w;
    var i :| 0 <= i < |s.rows| && s.rows[i] == x;
    var j :| 0 <= j < |s.rows| && s.rows[j] == w[0];
    KeysDistinct(s.rows, "userId", i, j);
  }

  // ---- analytics ----

  /** `{ userId, event, timestamp, ...data }` */
  function AnalyticsRecord(userId: Value, event: string, data: Record, now: string): Record
  {
    Spread(map["userId" := userId, "event" := Str(event), "timestamp" := Str(now)], data)
  }

  /** The whole database state at one moment. */
  datatype Snapshot = Snapshot(
    users: Store, healthData: Store, checkIns: Store, partnerships: Store,
    milestones: Store, analytics: Store)

  /** The result of a request: a storage failure when the request is rejected,
      otherwise the operation's own result. */
  function Attempt<T>(failing: bool, op: Result<T, DbError>): (r: Result<T, DbError>)
    ensures failing ==> r == Err(StorageFailure)
    ensures !failing ==> r == op
  {
    if failing then Err(StorageFailure) else op
  }

  /** The browser storage (IndexedDB) behind the Dexie instance. The requests
      the helpers of `db.js` make are numbered from 0; `faults(n)` says whether
      the n-th one is rejected. Which requests fail is fixed in advance, so a
      failure can land between any two requests of one handler. */
  class Backend {
    const faults: nat -> bool
    var requests: nat

    constructor (faults: nat -> bool)
      ensures this.faults == faults && requests == 0
    {
      this.faults := faults;
      requests := 0;
    }

    /** Whether the request k places after the next one is rejected. */
    function FailsAt(k: nat): bool
      reads this
    {
      faults(requests + k)
    }

    /** Makes one request and reports whether it was rejected. */
    method Request() returns (failed: bool)
      modifies this
      ensures failed == old(FailsAt(0))
      ensures requests == old(requests) + 1
    {
      failed := faults(requests);
      requests := requests + 1;
    }
  }

  /** `FertilityOptimizationDB` with the stores of `db.version(1).stores(...)`.
      Every helper makes exactly one request of `backend`; a rejected request
      leaves every store as it was (`saveCheckIn` reads before it writes, so a
      failure of either step changes nothing). */
  class Database {
    var users: Store
    var healthData: Store
    var checkIns: Store
    var partnerships: Store
    var milestones: Store
    var analytics: Store
    const backend: Backend

    ghost function State(): Snapshot
      reads this
    {
      Snapshot(users, healthData, checkIns, partnerships, milestones, analytics)
    }

    /** Whether the request k places after the next one is rejected. */
    function Fails(k: nat): bool
      reads backend
    {
      backend.FailsAt(k)
    }

    ghost predicate Valid()
      reads this
    {
      && Table.Valid(users) && users.keyPath == "id" && !users.autoIncrement && UserRows(users)
      && Table.Valid(healthData) && healthData.keyPath == "id" && healthData.autoIncrement && NumericKeys(healthData)
      && Table.Valid(checkIns) && checkIns.keyPath == "id" && checkIns.autoIncrement
      && Table.Valid(partnerships) && partnerships.keyPath == "userId" && !partnerships.autoIncrement
      && Table.Valid(milestones) && milestones.keyPath == "id" && milestones.autoIncrement
      && Table.Valid(analytics) && analytics.keyPath == "id" && analytics.autoIncrement
    }

    constructor (backend: Backend)
      ensures this.backend == backend && Valid()
      ensures users.rows == [] && healthData.rows == [] && checkIns.rows == []
      ensures partnerships.rows == [] && milestones.rows == [] && analytics.rows == []
    {
      users := Empty("id", false);
      healthData := Empty("id", true);
      checkIns := Empty("id", true);
      partnerships := Empty("userId", false);
      milestones := Empty("id", true);
      analytics := Empty("id", true);
      this.backend := backend;
    }

    /** `createUser(userData)`: adds the seven-field user record and returns it. */
    method CreateUser(userData: Record, nowMs: int, randomPart: string, now: string) returns (r: Result<Record, DbError>)
      requires Valid()
      modifies this, backend
      ensures Valid()
      ensures backend.requests == old(backend.requests) + 1
      ensures var res := Attempt(old(Fails(0)), Add(old(users), UserRecord(userData, UserId(nowMs, randomPart), now)));
        && (r.Ok? <==> res.Ok?)
        && (r.Ok? ==> r.value == UserRecord(userData, UserId(nowMs, randomPart), now) && State() == old(State()).(users := res.value.0))
        && (r.Err? ==> r.error == res.error && State() == old(State()))
    {
      var user := UserRecord(userData, UserId(nowMs, randomPart), now);
      var failed := backend.Request();
      var res := Attempt(failed, Add(users, user));
      if res.Ok? {
        AddSpec(users, user);
        users := res.value.0;
        r := Ok(user);
      } else {
        r := Err(res.error);
      }
    }

    /** `getUserByEmail(email)` */
    method GetUserByEmail(email: string) returns (r: Result<Option<Record>, DbError>)
      modifies backend
      ensures backend.requests == old(backend.requests) + 1
      ensures r == Attempt(old(Fails(0)), Ok(UserByEmail(users, email)))
    {
      var failed := backend.Request();
      r := Attempt(failed, Ok(UserByEmail(users, email)));
    }

    /** `saveHealthData(userId, data, encryptedData)`: appends a row; `data` is
      ignored. */
    method SaveHealthData(userId: Value, data: Value, encryptedData: Value, now: string) returns (r: Result<Key, DbError>)
      requires Valid()
      modifies this, backend
      ensures Valid()
      ensures backend.requests == old(backend.requests) + 1
      ensures var res := Attempt(old(Fails(0)), Add(old(healthData), HealthDataRecord(userId, encryptedData, now)));
        && (r.Ok? <==> res.Ok?)
        && (r.Ok? ==> r.value == res.value.1 && State() == old(State()).(healthData := res.value.0))
        && (r.Err? ==> r.error == res.error && State() == old(State()))
    {
      var row := HealthDataRecord(userId, encryptedData, now);
      var failed := backend.Request();
      var res := Attempt(failed, Add(healthData, row));
      if res.Ok? {
        AddSpec(healthData, row);
        AddAppends(healthData, row);
        healthData := res.value.0;
        r := Ok(res.value.1);
      } else {
        r := Err(res.error);
      }
    }

    /** `getHealthData(userId)` */
    method GetHealthData(userId: string) returns (r: Result<Option<Record>, DbError>)
      modifies backend
      ensures backend.requests == old(backend.requests) + 1
      ensures r == Attempt(old(Fails(0)), Ok(LatestHealthData(healthData, userId)))
    {
      var failed := backend.Request();
      r := Attempt(failed, Ok(LatestHealthData(healthData, userId)));
    }

    /** `saveCheckIn(userId, checkInData)`: update of today's row or add of a new one. */
    method SaveCheckIn(userId: string, checkInData: Record, today: int, now: string) returns (r: Result<Key, DbError>)
      requires Valid()
      modifies this, backend
      ensures Valid()
      ensures backend.requests == old(backend.requests) + 1
      ensures var res := Attempt(old(Fails(0)), UpsertCheckIn(old(checkIns), userId, checkInData, today, now));
        && (r.Ok? <==> res.Ok?)
        && (r.Ok? ==> r.value == res.value.1 && State() == old(State()).(checkIns := res.value.0))
        && (r.Err? ==> r.error == res.error && State() == old(State()))
    {
      var failed := backend.Request();
      var res := Attempt(failed, UpsertCheckIn(checkIns, userId, checkInData, today, now));
      if res.Ok? {
        UpsertKeepsValid(checkIns, userId, checkInData, today, now);
        checkIns := res.value.0;
        r := Ok(res.value.1);
      } else {
        r := Err(res.error);
      }
    }

    /** `getCheckIns(userId, limit = 90)` */
    method GetCheckIns(userId: string, limit: nat := 90) returns (r: Result<seq<Record>, DbError>)
      modifies backend
      ensures backend.requests == old(backend.requests) + 1
      ensures r == Attempt(old(Fails(0)), Ok(CheckInsOf(checkIns, userId, limit)))
    {
      var failed := backend.Request();
      r := Attempt(failed, Ok(CheckInsOf(checkIns, userId, limit)));
    }

    /** `getTodayCheckIn(userId)`: a storage failure gives null instead of an error. */
    method GetTodayCheckIn(userId: string, today: int) returns (r: Option<Record>)
      modifies backend
      ensures backend.requests == old(backend.requests) + 1
      ensures old(Fails(0)) ==> r == None
      ensures !old(Fails(0)) ==> r == TodayCheckIn(checkIns, userId, today)
    {
      var failed := backend.Request();
      if failed {
        r := None;
      } else {
        r := TodayCheckIn(checkIns, userId, today);
      }
    }

    /** `saveMilestone(userId, type, data = {})` */
    method SaveMilestone(userId: string, milestoneType: Value, data: Record, now: string) returns (r: Result<Key, DbError>)
      requires Valid()
      modifies this, backend
      ensures Valid()
      ensures backend.requests == old(backend.requests) + 1
      ensures var res := Attempt(old(Fails(0)), Add(old(milestones), MilestoneRecord(userId, milestoneType, data, now)));
        && (r.Ok? <==> res.Ok?)
        && (r.Ok? ==> r.value == res.value.1 && State() == old(State()).(milestones := res.value.0))
        && (r.Err? ==> r.error == res.error && State() == old(State()))
    {
      var row := MilestoneRecord(userId, milestoneType, data, now);
      var failed := backend.Request();
      var res := Attempt(failed, Add(milestones, row));
      if res.Ok? {
        AddSpec(milestones, row);
        milestones := res.value.0;
        r := Ok(res.value.1);
      } else {
        r := Err(res.error);
      }
    }

    /** `getMilestones(userId)` */
    method GetMilestones(userId: string) returns (r: Result<seq<Record>, DbError>)
      modifies backend
      ensures backend.requests == old(backend.requests) + 1
      ensures r == Attempt(old(Fails(0)), Ok(MilestonesOf(milestones, userId)))
    {
      var failed := backend.Request();
      r := Attempt(failed, Ok(MilestonesOf(milestones, userId)));
    }

    /** `createPartnership(userId, partnerId, pairingCode, sharedData)` */
    method CreatePartnership(userId: Value, partnerId: Value, pairingCode: Value, sharedData: Value, now: string)
      returns (r: Result<(), DbError>)
      requires Valid()
      modifies this, backend
      ensures Valid()
      ensures backend.requests == old(backend.requests) + 1
      ensures var res := Attempt(old(Fails(0)), Add(old(partnerships), PartnershipRecord(userId, partnerId, pairingCode, sharedData, now)));
        && (r.Ok? <==> res.Ok?)
        && (r.Ok? ==> State() == old(State()).(partnerships := res.value.0))
        && (r.Err? ==> r.error == res.error && State() == old(State()))
    {
      var row := PartnershipRecord(userId, partnerId, pairingCode, sharedData, now);
      var failed := backend.Request();
      var res := Attempt(failed, Add(partnerships, row));
      if res.Ok? {
        AddSpec(partnerships, row);
        partnerships := res.value.0;
        r := Ok(());
      } else {
        r := Err(res.error);
      }
    }

    /** `partnerships.update(userId, changes)`: db.js exports no such function;
        it is the update the corrected pairing needs (see
        `PartnerPairing.PairingView.HandlePairCorrected`). A value that is not a
        key is rejected as a DataError. */
    method UpdatePartnership(userId: Value, changes: Record) returns (r: Result<nat, DbError>)
      requires Valid()
      modifies this, backend
      ensures Valid()
      ensures backend.requests == old(backend.requests) + 1
      ensures var res := if AsKey(userId).None? then Err(DataError) else Attempt(old(Fails(0)), Update(old(partnerships), AsKey(userId).value, changes));
        && (r.Ok? <==> res.Ok?)
        && (r.Ok? ==> r.value == res.value.1 && State() == old(State()).(partnerships := res.value.0))
        && (r.Err? ==> r.error == res.error && State() == old(State()))
    {
      var failed := backend.Request();
      if AsKey(userId).None? {
        return Err(DataError);
      }
      var res := Attempt(failed, Update(partnerships, AsKey(userId).value, changes));
      if res.Ok? {
        UpdateSpec(partnerships, AsKey(userId).value, changes);
        partnerships := res.value.0;
        r := Ok(res.value.1);
      } else {
        r := Err(res.error);
      }
    }

    /** `getPartnership(userId)`: a storage failure gives null. */
    method GetPartnership(userId: string) returns (r: Option<Record>)
      modifies backend
      ensures backend.requests == old(backend.requests) + 1
      ensures old(Fails(0)) ==> r == None
      ensures !old(Fails(0)) ==> r == PartnershipOf(partnerships, userId)
    {
      var failed := backend.Request();
      if failed {
        r := None;
      } else {
        r := PartnershipOf(partnerships, userId);
      }
    }

    /** `findPartnershipByCode(code)`: a storage failure gives null. */
    method FindPartnershipByCode(code: string) returns (r: Option<Record>)
      modifies backend
      ensures backend.requests == old(backend.requests) + 1
      ensures old(Fails(0)) ==> r == None
      ensures !old(Fails(0)) ==> r == PartnershipByCode(partnerships, code)
    {
      var failed := backend.Request();
      if failed {
        r := None;
      } else {
        r := PartnershipByCode(partnerships, code);
      }
    }

    /** `trackAnalytics(userId, event, data = {})`: adds an event row; a failure is
        logged and swallowed. */
    method TrackAnalytics(userId: Value, event: string, data: Record, now: string)
      requires Valid()
      modifies this, backend
      ensures Valid()
      ensures backend.requests == old(backend.requests) + 1
      ensures var res := Attempt(old(Fails(0)), Add(old(analytics), AnalyticsRecord(userId, event, data, now)));
        && (res.Ok? ==> State() == old(State()).(analytics := res.value.0))
        && (res.Err? ==> State() == old(State()))
    {
      var row := AnalyticsRecord(userId, event, data, now);
      var failed := backend.Request();
      var res := Attempt(failed, Add(analytics, row));
      if res.Ok? {
        AddSpec(analytics, row);
        analytics := res.value.0;
      }
    }
  }
}
