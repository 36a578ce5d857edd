/** The session state machine of `src/AuthContext.jsx`: the signed-in `user`,
    the `password` kept in memory for encryption, the `loading` flag and the two
    `localStorage` keys. Awaited calls run one after another; a thrown error is
    an `Err` result, raised after whatever state the steps before it had set. */
module Auth {
  import opened Wrappers
  import opened JsValue
  import JsText
  import opened Crypto
  import opened Table
  import opened Db

  datatype AuthError =
    | UserExists          // 'User with this email already exists'
    | UserNotFound        // 'User not found'
    | InvalidPassword     // 'Invalid password'
    | CryptoFailure(cryptoError: CryptoError)
    | StorageError(dbError: DbError)

  /** The object `signup` hands to `createUser`: `{ email, passwordHash, passwordSalt, ...userData }`. */
  function SignupInput(email: string, h: PasswordHash, userData: Record): Record
  {
    Spread(map["email" := Str(email), "passwordHash" := Str(h.hash), "passwordSalt" := Str(h.salt)], userData)
  }

  /** The session keys written after signup and login; nothing else is stored. */
  function SessionAfterSignIn(session: map<string, string>, id: string, email: string): (r: map<string, string>)
    ensures r.Keys == session.Keys + {"userId", "userEmail"}
    ensures r["userEmail"] == email && r["userId"] == id
    ensures forall k :: k in session && k != "userId" && k != "userEmail" ==> r[k] == session[k]
  {
    session["userId" := id]["userEmail" := email]
  }

  /** A user created by `signup` can never log in: the stored record has no
      `passwordSalt`, so `verifyPassword` receives `undefined`, `atob("undefined")`
      throws, and login fails with that error whatever the password. */
  lemma LoginOfCreatedUserFails(P: Primitives, email: string, pwd: string, pwd2: string, rnd: Random,
                                userData: Record, id: string, now: string)
    ensures var u := UserRecord(SignupInput(email, HashPassword(P, pwd, rnd), userData), id, now);
      VerifyPassword(P, pwd2, Get(u, "passwordHash"), Get(u, "passwordSalt"))
        == Err(Base64Failure(Base64.InvalidCharacterError))
  {
    var u := UserRecord(SignupInput(email, HashPassword(P, pwd, rnd), userData), id, now);
    VerifyMissingSaltThrows(P, pwd2, Get(u, "passwordHash"));
  }

  /** With the salt kept, the password chosen at signup verifies against the
      stored record (when `userData` does not override the credential fields). */
  lemma LoginOfCorrectedUserSucceeds(P: Primitives, email: string, pwd: string, rnd: Random,
                                     userData: Record, id: string, now: string)
    requires "passwordHash" !in userData && "passwordSalt" !in userData
    ensures var u := UserRecordWithSalt(SignupInput(email, HashPassword(P, pwd, rnd), userData), id, now);
      VerifyPassword(P, pwd, Get(u, "passwordHash"), Get(u, "passwordSalt")) == Ok(true)
  {
    var h := HashPassword(P, pwd, rnd);
    var u := UserRecordWithSalt(SignupInput(email, h, userData), id, now);
    assert Get(u, "passwordHash") == Str(h.hash);
    assert Get(u, "passwordSalt") == Str(h.salt);
    VerifyOwnHash(P, pwd, rnd);
  }

  /** The decision `login` makes from the result of `getUserByEmail`: a storage
      error is rethrown, no user is 'User not found', a salt that does not decode
      throws from `verifyPassword`, a mismatch is 'Invalid password', and only a
      verified password yields the stored user. */
  function LoginOutcome(P: Primitives, found: Result<Option<Record>, DbError>, pwd: string): (r: Result<Record, AuthError>)
    ensures found.Err? ==> r == Err(StorageError(found.error))
    ensures found == Ok(None) ==> r == Err(UserNotFound)
    ensures found.Ok? && found.value.Some? ==>
      var u := found.value.value;
      var v := VerifyPassword(P, pwd, Get(u, "passwordHash"), Get(u, "passwordSalt"));
      && (v.Err? ==> r == Err(CryptoFailure(v.error)))
      && (v == Ok(false) ==> r == Err(InvalidPassword))
      && (v == Ok(true) ==> r == Ok(u))
    ensures r.Ok? ==> found == Ok(Some(r.value))
    ensures r.Ok? <==>
      found.Ok? && found.value.Some? &&
      VerifyPassword(P, pwd, Get(found.value.value, "passwordHash"), Get(found.value.value, "passwordSalt")) == Ok(true)
  {
    match found
    case Err(e) => Err(StorageError(e))
    case Ok(None) => Err(UserNotFound)
    case Ok(Some(u)) =>
      match VerifyPassword(P, pwd, Get(u, "passwordHash"), Get(u, "passwordSalt"))
      case Err(e) => Err(CryptoFailure(e))
      case Ok(isValid) => if isValid then Ok(u) else Err(InvalidPassword)
  }

  /** A user looked up in a store written by `createUser` has no salt, so login
      fails for every password. */
  lemma LoginOfStoredUserFails(P: Primitives, users: Store, email: string, pwd: string)
    requires forall x :: x in users.rows ==> "passwordSalt" !in x
    ensures LoginOutcome(P, Ok(UserByEmail(users, email)), pwd).Err?
  {
    var found := UserByEmail(users, email);
    if found.Some? {
      VerifyMissingSaltThrows(P, pwd, Get(found.value, "passwordHash"));
    }
  }

  /** After a signup whose health-data save failed, the user row it created is
      found by the email, so a second signup with that email is refused as
      'User with this email already exists'. */
  lemma OrphanUserBlocksRetry(users: Store, email: string, h: PasswordHash, userData: Record, id: string, now: string)
    requires Table.Valid(users) && "email" !in userData
    requires !users.autoIncrement && users.keyPath == "id"
    requires Add(users, UserRecord(SignupInput(email, h, userData), id, now)).Ok?
    ensures UserByEmail(Add(users, UserRecord(SignupInput(email, h, userData), id, now)).value.0, email).Some?
  {
    var u := UserRecord(SignupInput(email, h, userData), id, now);
    AddSpec(users, u);
    assert u["id"] == Str(id);
    assert u[users.keyPath := KeyValue(Add(users, u).value.1)] == u;
    assert Get(u, "email") == Str(email);
  }

  /** The record `signup` has `createUser` store. */
  function SignupUser(P: Primitives, email: string, pwd: string, userData: Record, hashRnd: Random,
                      nowMs: int, randomPart: string, now: string): Record
  {
    UserRecord(SignupInput(email, HashPassword(P, pwd, hashRnd), userData), UserId(nowMs, randomPart), now)
  }

  /** The health-data row `signup` has `saveHealthData` store: the user's
      health data encrypted under the password. */
  function SignupHealth(P: Primitives, pwd: string, userData: Record, nowMs: int, randomPart: string, now: string,
                        saltRnd: Random, ivRnd: Random): Record
  {
    HealthDataRecord(Str(UserId(nowMs, randomPart)), EncryptData(P, Get(userData, "healthData"), pwd, saltRnd, ivRnd), now)
  }

  /** The user row carries the id the health row is stored under. */
  lemma SignupRows(P: Primitives, email: string, pwd: string, userData: Record, hashRnd: Random, nowMs: int,
                   randomPart: string, now: string, saltRnd: Random, ivRnd: Random)
    ensures var u := SignupUser(P, email, pwd, userData, hashRnd, nowMs, randomPart, now);
      && "id" in u && u["id"] == Str(UserId(nowMs, randomPart))
      && SignupHealth(P, pwd, userData, nowMs, randomPart, now, saltRnd, ivRnd)
         == HealthDataRecord(u["id"], EncryptData(P, Get(userData, "healthData"), pwd, saltRnd, ivRnd), now)
  {
  }

  /** The first half of `signup` when it stores the user row `u`: the result
      and the database left. The email lookup is request `start`, and
      `createUser` the next one. */
  function CreateSteps(s: Snapshot, faults: nat -> bool, start: nat, email: string, u: Record)
    : (Result<Record, AuthError>, Snapshot)
  {
    if faults(start) then (Err(StorageError(StorageFailure)), s)
    else if UserByEmail(s.users, email).Some? then (Err(UserExists), s)
    else
      match Attempt<(Store, Key)>(faults(start + 1), Add(s.users, u))
      case Err(e) => (Err(StorageError(e)), s)
      case Ok((users, _)) => (Ok(u), s.(users := users))
  }

  /** How far `signup` gets: refused before any write, stopped after the user
      row was written (the health-data save was rejected), or signed in. */
  datatype SignupStage = Refused | UserOnly | SignedIn

  /** The stage `signup` reaches and the database it leaves when it stores the
      user row `u` and the health row `h`: the email lookup is request
      `start`, `createUser` the next one and `saveHealthData` the one after,
      and `faults` says which requests are rejected. */
  function SignupSteps(s: Snapshot, faults: nat -> bool, start: nat, email: string, u: Record, h: Record)
    : (SignupStage, Snapshot)
  {
    var (created, withUser) := CreateSteps(s, faults, start, email, u);
    if created.Err? then (Refused, s)
    else
      match Attempt<(Store, Key)>(faults(start + 2), Add(withUser.healthData, h))
      case Err(_) => (UserOnly, withUser)
      case Ok((healthData, _)) => (SignedIn, withUser.(healthData := healthData))
  }

  /** A refused signup changes nothing; a stopped one has added exactly the
      user row; a finished one has added the user row and the health row. */
  lemma SignupStepsSpec(s: Snapshot, faults: nat -> bool, start: nat, email: string, u: Record, h: Record)
    ensures var (stage, after) := SignupSteps(s, faults, start, email, u, h);
      && (stage == Refused <==> faults(start) || UserByEmail(s.users, email).Some? || faults(start + 1) || Add(s.users, u).Err?)
      && (stage == Refused ==> after == s)
      && (stage != Refused ==> after.users == Add(s.users, u).value.0)
      && (stage == UserOnly ==> after == s.(users := after.users))
      && (stage == SignedIn <==> stage != Refused && !faults(start + 2) && Add(s.healthData, h).Ok?)
      && (stage == SignedIn ==> after == s.(users := after.users, healthData := Add(s.healthData, h).value.0))
  {
  }

  /** A signup stopped after `createUser` has left a user row that the email
      finds, so signing up again with that email is refused before any write,
      whichever requests then fail. */
  lemma StoppedSignupBlocksRetry(s: Snapshot, faults: nat -> bool, start: nat, P: Primitives, email: string, pwd: string,
                                 userData: Record, hashRnd: Random, nowMs: int, randomPart: string, now: string,
                                 h: Record, faults2: nat -> bool, start2: nat, u2: Record, h2: Record)
    requires Table.Valid(s.users) && !s.users.autoIncrement && s.users.keyPath == "id" && "email" !in userData
    requires SignupSteps(s, faults, start, email, SignupUser(P, email, pwd, userData, hashRnd, nowMs, randomPart, now), h).0 == UserOnly
    ensures var stopped := SignupSteps(s, faults, start, email, SignupUser(P, email, pwd, userData, hashRnd, nowMs, randomPart, now), h).1;
      SignupSteps(stopped, faults2, start2, email, u2, h2) == (Refused, stopped)
  {
    var u := SignupUser(P, email, pwd, userData, hashRnd, nowMs, randomPart, now);
    SignupStepsSpec(s, faults, start, email, u, h);
    OrphanUserBlocksRetry(s.users, email, HashPassword(P, pwd, hashRnd), userData, UserId(nowMs, randomPart), now);
  }

  /** `!user || !password`: the guard of the two health-data accessors. */
  predicate Locked(user: Option<Record>, password: Option<string>)
  {
    user.None? || password.None? || password.value == ""
  }

  /** `AuthProvider`: the values it provides and the state behind them. */
  class AuthProvider {
    var user: Option<Record>
    var password: Option<string>
    var loading: bool
    /** `localStorage`, which outlives the provider. */
    var session: map<string, string>
    const db: Database
    const P: Primitives

    ghost predicate Valid()
      reads this, db
    {
      db.Valid() && (user.Some? ==> Get(user.value, "id").Str?)
    }

    /** The initial state: `useState(null)`, `useState(true)`, `useState(null)`. */
    constructor (db: Database, P: Primitives, session: map<string, string>)
      requires db.Valid()
      ensures Valid()
      ensures this.db == db && this.P == P && this.session == session
      ensures user == None && password == None && loading
    {
      this.db := db;
      this.P := P;
      this.session := session;
      user := None;
      password := None;
      loading := true;
    }

    /** `isAuthenticated: !!user` */
    function IsAuthenticated(): (b: bool)
      reads this
      ensures b <==> user.Some?
    {
      user.Some?
    }

    /** The effect run on mount: with both session keys set, the user is looked up
        by the stored email. `password` is never restored. A failed lookup leaves
        `loading` set, since its rejection is not handled. */
    method Restore()
      requires Valid()
      modifies this, db.backend
      ensures Valid()
      ensures password == old(password) && session == old(session)
      ensures !("userId" in session && session["userId"] != "" && "userEmail" in session && session["userEmail"] != "") ==>
        user == old(user) && !loading
      ensures ("userId" in session && session["userId"] != "" && "userEmail" in session && session["userEmail"] != "") ==>
        var found := Attempt(old(db.Fails(0)), Ok(UserByEmail(db.users, session["userEmail"])));
        && (found.Err? ==> user == old(user) && loading == old(loading))
        && (found.Ok? ==> !loading && user == (if found.value.Some? then found.value else old(user)))
    {
      if "userId" in session && session["userId"] != "" && "userEmail" in session && session["userEmail"] != "" {
        var found := db.GetUserByEmail(session["userEmail"]);
        if found.Ok? {
          if found.value.Some? {
            user := found.value;
          }
          loading := false;
        }
      } else {
        loading := false;
      }
    }

    /** The first half of `signup`: the duplicate check (request 0), hashing and
        `createUser` (request 1). Only the users table can change. */
    method CreateAccount(email: string, pwd: string, userData: Record, hashRnd: Random,
                         nowMs: int, randomPart: string, now: string)
      returns (r: Result<Record, AuthError>)
      requires db.Valid()
      modifies db, db.backend
      ensures db.Valid()
      ensures (r, db.State()) == CreateSteps(old(db.State()), db.backend.faults, old(db.backend.requests), email,
                                             SignupUser(P, email, pwd, userData, hashRnd, nowMs, randomPart, now))
      ensures var newUser := SignupUser(P, email, pwd, userData, hashRnd, nowMs, randomPart, now);
        var created := Attempt(old(db.Fails(1)), Add(old(db.users), newUser));
        && (old(db.Fails(0)) ==> r == Err(StorageError(StorageFailure)))
        && (!old(db.Fails(0)) && UserByEmail(old(db.users), email).Some? ==> r == Err(UserExists))
        && (old(db.Fails(0)) || UserByEmail(old(db.users), email).Some? ==>
              db.State() == old(db.State()) && db.backend.requests == old(db.backend.requests) + 1)
        && (!old(db.Fails(0)) && UserByEmail(old(db.users), email).None? ==>
              && db.backend.requests == old(db.backend.requests) + 2
              && (created.Err? ==> r == Err(StorageError(created.error)) && db.State() == old(db.State()))
              && (created.Ok? ==> r == Ok(newUser) && db.State() == old(db.State()).(users := created.value.0)))
        && (r.Ok? ==> db.backend.requests == old(db.backend.requests) + 2)
    {
      ghost var createFails := db.Fails(1);
      var existing := db.GetUserByEmail(email);
      if existing.Err? {
        return Err(StorageError(existing.error));
      }
      if existing.value.Some? {
        return Err(UserExists);
      }
      assert db.Fails(0) == createFails;
      var h := HashPassword(P, pwd, hashRnd);
      var created := db.CreateUser(SignupInput(email, h, userData), nowMs, randomPart, now);
      if created.Err? {
        return Err(StorageError(created.error));
      }
      r := Ok(created.value);
    }

    /** `signup(email, pwd, userData)`, making requests 0 to 2 as `SignupSteps`
        says. A known email is rejected before any write. Otherwise the user is
        created, `password` is set, the health data is encrypted and saved, the
        session keys are written and `user` is set. When the health-data save
        fails, the user row and `password` stay: the email is then taken, and
        signing up again with it is refused (`StoppedSignupBlocksRetry`). */
    method Signup(email: string, pwd: string, userData: Record, hashRnd: Random,
                  nowMs: int, randomPart: string, now: string, saltRnd: Random, ivRnd: Random)
      returns (r: Result<Record, AuthError>)
      requires Valid()
      modifies this, db, db.backend
      ensures Valid()
      ensures loading == old(loading)
      ensures old(db.Fails(0)) ==> r == Err(StorageError(StorageFailure))
      ensures !old(db.Fails(0)) && UserByEmail(old(db.users), email).Some? ==> r == Err(UserExists)
      ensures r.Err? && r.error != UserExists ==> r == Err(StorageError(StorageFailure)) || r.error.StorageError?
      ensures var (stage, after) := SignupSteps(old(db.State()), db.backend.faults, old(db.backend.requests), email,
                                                SignupUser(P, email, pwd, userData, hashRnd, nowMs, randomPart, now),
                                                SignupHealth(P, pwd, userData, nowMs, randomPart, now, saltRnd, ivRnd));
        && db.State() == after
        && (r.Ok? <==> stage == SignedIn)
        && (r.Ok? ==> r.value == SignupUser(P, email, pwd, userData, hashRnd, nowMs, randomPart, now))
        && user == (if r.Ok? then Some(r.value) else old(user))
        && session == (if r.Ok? then SessionAfterSignIn(old(session), UserId(nowMs, randomPart), email) else old(session))
        && password == (if stage == Refused then old(password) else Some(pwd))
        && (stage != Refused ==> db.backend.requests == old(db.backend.requests) + 3)
    {
      ghost var u := SignupUser(P, email, pwd, userData, hashRnd, nowMs, randomPart, now);
      ghost var h := SignupHealth(P, pwd, userData, nowMs, randomPart, now, saltRnd, ivRnd);
      SignupRows(P, email, pwd, userData, hashRnd, nowMs, randomPart, now, saltRnd, ivRnd);
      r := CreateAccount(email, pwd, userData, hashRnd, nowMs, randomPart, now);
      if r.Err? {
        return;
      }
      assert r.value == u;
      var encryptedHealth := EncryptData(P, Get(userData, "healthData"), pwd, saltRnd, ivRnd);
      r := FinishSignup(email, pwd, Get(userData, "healthData"), encryptedHealth, now, r.value, u, h,
                        old(db.State()), old(db.backend.requests));
    }

    /** The rest of `signup` once `createUser` (request `start + 1`) has stored
        the user row `u`: `password` is set, the health row `h` with the
        encrypted health data is saved (request `start + 2`), and when that
        succeeds the session keys are written and the new user is signed in. */
    method FinishSignup(email: string, pwd: string, healthData: Value, encryptedHealth: Value, now: string,
                        newUser: Record, ghost u: Record, ghost h: Record, ghost s0: Snapshot, ghost start: nat)
      returns (r: Result<Record, AuthError>)
      requires Valid()
      requires newUser == u && "id" in u && u["id"].Str? && h == HealthDataRecord(u["id"], encryptedHealth, now)
      requires CreateSteps(s0, db.backend.faults, start, email, u) == (Ok(u), db.State())
      requires db.backend.requests == start + 2
      modifies this, db, db.backend
      ensures Valid()
      ensures loading == old(loading)
      ensures var (stage, after) := SignupSteps(s0, db.backend.faults, start, email, u, h);
        && db.State() == after
        && stage != Refused
        && (r.Ok? <==> stage == SignedIn)
        && (r.Ok? ==> r.value == u)
        && (r.Err? ==> r.error.StorageError?)
        && user == (if r.Ok? then Some(u) else old(user))
        && session == (if r.Ok? then SessionAfterSignIn(old(session), u["id"].s, email) else old(session))
        && password == Some(pwd)
        && db.backend.requests == start + 3
    {
      var saved := KeepPasswordAndSaveHealth(newUser, healthData, encryptedHealth, pwd, now);
      if saved.Err? {
        return Err(StorageError(saved.error));
      }
      OpenSession(newUser, email);
      r := Ok(newUser);
    }

    /** The middle of `signup`: `password` is set and the health data, already
        encrypted under it by the caller, is saved for the new user. */
    method KeepPasswordAndSaveHealth(newUser: Record, healthData: Value, encryptedHealth: Value, pwd: string, now: string)
      returns (saved: Result<Key, DbError>)
      requires Valid() && Get(newUser, "id").Str?
      modifies this, db, db.backend
      ensures Valid()
      ensures password == Some(pwd) && user == old(user) && session == old(session) && loading == old(loading)
      ensures db.backend.requests == old(db.backend.requests) + 1
      ensures var res := Attempt(old(db.Fails(0)),
          Add(old(db.healthData), HealthDataRecord(newUser["id"], encryptedHealth, now)));
        && (saved.Ok? <==> res.Ok?)
        && (saved.Ok? ==> db.State() == old(db.State()).(healthData := res.value.0))
        && (saved.Err? ==> saved.error == res.error && db.State() == old(db.State()))
    {
      saved := db.SaveHealthData(newUser["id"], healthData, encryptedHealth, now);
      // The save touches only `db`, so `password` can be set after it.
      password := Some(pwd);
    }

    /** `login(email, pwd)`: the outcome is `LoginOutcome` of the lookup. Any
        failure leaves the state unchanged; success sets `password`, the session
        keys and `user`. */
    method Login(email: string, pwd: string) returns (r: Result<Record, AuthError>)
      requires Valid()
      modifies this, db.backend
      ensures Valid()
      ensures r == LoginOutcome(P, Attempt(old(db.Fails(0)), Ok(UserByEmail(db.users, email))), pwd)
      ensures r.Err? ==> user == old(user) && password == old(password) && session == old(session)
      ensures r.Ok? ==>
        user == Some(r.value) && password == Some(pwd) && session == SessionAfterSignIn(old(session), Get(r.value, "id").s, email)
      ensures loading == old(loading)
    {
      var found := db.GetUserByEmail(email);
      r := LoginOutcome(P, found, pwd);
      if r.Ok? {
        assert r.value in db.users.rows;
        SignIn(r.value, pwd, email);
      }
    }

    /** The success path of `login`: `password`, then the two session keys, then
        `user`. */
    method SignIn(u: Record, pwd: string, email: string)
      requires Valid() && Get(u, "id").Str?
      modifies this
      ensures Valid()
      ensures user == Some(u) && password == Some(pwd) && session == SessionAfterSignIn(old(session), Get(u, "id").s, email)
      ensures loading == old(loading)
    {
      password := Some(pwd);
      session := SessionAfterSignIn(session, Get(u, "id").s, email);
      user := Some(u);
    }

    /** The last steps of `signup`: the two session keys are written and `user`
        is set. */
    method OpenSession(u: Record, email: string)
      requires Valid() && Get(u, "id").Str?
      modifies this
      ensures Valid()
      ensures user == Some(u) && session == SessionAfterSignIn(old(session), Get(u, "id").s, email)
      ensures password == old(password) && loading == old(loading)
    {
      session := SessionAfterSignIn(session, Get(u, "id").s, email);
      user := Some(u);
    }

    /** `logout()`: both session keys removed, `user` and `password` cleared. */
    method Logout()
      requires Valid()
      modifies this
      ensures Valid()
      ensures user == None && password == None && !IsAuthenticated()
      ensures session == old(session) - {"userId", "userEmail"}
      ensures loading == old(loading)
    {
      session := session - {"userId", "userEmail"};
      user := None;
      password := None;
    }

    /** `getEncryptedHealthData()`: null when locked or when the user has no
        health data, otherwise the decryption of the latest saved envelope. */
    method GetEncryptedHealthData() returns (r: Result<Option<Value>, AuthError>)
      requires Valid()
      modifies db.backend
      ensures Locked(user, password) ==> r == Ok(None)
      ensures !Locked(user, password) ==>
        var found := Attempt(old(db.Fails(0)), Ok(LatestHealthData(db.healthData, Get(user.value, "id").s)));
        && (found.Err? ==> r == Err(StorageError(found.error)))
        && (found == Ok(None) ==> r == Ok(None))
        && (found.Ok? && found.value.Some? ==>
              var d := DecryptData(P, Get(found.value.value, "encryptedData"), password.value);
              r == if d.Ok? then Ok(Some(d.value)) else Err(CryptoFailure(d.error)))
    {
      if Locked(user, password) {
        return Ok(None);
      }
      var data := db.GetHealthData(Get(user.value, "id").s);
      if data.Err? {
        return Err(StorageError(data.error));
      }
      if data.value.None? {
        return Ok(None);
      }
      var decrypted := DecryptData(P, Get(data.value.value, "encryptedData"), password.value);
      if decrypted.Err? {
        return Err(CryptoFailure(decrypted.error));
      }
      r := Ok(Some(decrypted.value));
    }

    /** `updateHealthData(newHealthData)`: nothing when locked, otherwise one fresh
        envelope is appended for the user. */
    method UpdateHealthData(newHealthData: Value, saltRnd: Random, ivRnd: Random, now: string)
      returns (r: Result<(), AuthError>)
      requires Valid()
      modifies db, db.backend
      ensures Valid()
      ensures Locked(user, password) ==> r == Ok(()) && db.State() == old(db.State())
      ensures !Locked(user, password) ==>
        var envelope := EncryptData(P, newHealthData, password.value, saltRnd, ivRnd);
        var res := Attempt(old(db.Fails(0)), Add(old(db.healthData), HealthDataRecord(Get(user.value, "id"), envelope, now)));
        && (res.Err? ==> r == Err(StorageError(res.error)) && db.State() == old(db.State()))
        && (res.Ok? ==> r == Ok(()) && db.State() == old(db.State()).(healthData := res.value.0))
    {
      if Locked(user, password) {
        return Ok(());
      }
      var encryptedHealth := EncryptData(P, newHealthData, password.value, saltRnd, ivRnd);
      var saved := db.SaveHealthData(Get(user.value, "id"), newHealthData, encryptedHealth, now);
      if saved.Err? {
        return Err(StorageError(saved.error));
      }
      r := Ok(());
    }
  }
}
