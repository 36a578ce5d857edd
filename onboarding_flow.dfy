/** The onboarding wizard (`src/components/onboarding/OnboardingFlow.jsx`): a
    step counter from 1 to 5, the form every step writes into, and
    `handleComplete`, which splits the form into the signup data and the health
    data, signs up and records the analytics event. The ISO time of the clock is
    a parameter. */
module OnboardingFlow {
  import opened Wrappers
  import opened JsValue
  import opened Table
  import opened Db
  import opened Crypto
  import Auth

  /** The `useState` initial value of `formData`. */
  const InitialForm: Record := map[
    "email" := Str(""), "password" := Str(""), "name" := Str(""), "age" := Str(""),
    "sex" := Str(""), "exerciseFrequency" := Str(""), "sleepHours" := Str(""),
    "caffeine" := Str("none"), "alcohol" := Str("none"), "smoking" := Str("no"),
    "currentSupplements" := Arr([])]

  /** The six fields that make up the health data. */
  const HealthFields: set<string> := {"exerciseFrequency", "sleepHours", "caffeine", "alcohol", "smoking", "currentSupplements"}

  /** The `healthData` object built from the form. */
  function HealthDataOf(formData: Record): (h: Record)
    ensures h.Keys == HealthFields
    ensures forall k :: k in HealthFields ==> h[k] == Get(formData, k)
  {
    map[
      "exerciseFrequency" := Get(formData, "exerciseFrequency"),
      "sleepHours" := Get(formData, "sleepHours"),
      "caffeine" := Get(formData, "caffeine"),
      "alcohol" := Get(formData, "alcohol"),
      "smoking" := Get(formData, "smoking"),
      "currentSupplements" := Get(formData, "currentSupplements")]
  }

  /** The third argument of `signup`: what is left of the form besides the
      email and the password, regrouped. */
  function SignupData(formData: Record, now: string): Record
  {
    map[
      "name" := Get(formData, "name"),
      "age" := Get(formData, "age"),
      "sex" := Get(formData, "sex"),
      "healthData" := Obj(HealthDataOf(formData)),
      "startDate" := Str(now)]
  }

  /** The signup data holds neither the email nor the password; its health data
      is exactly the six health fields of the form; the start date is the time
      of completion. */
  lemma SignupDataSpec(formData: Record, now: string)
    ensures var d := SignupData(formData, now);
      && d.Keys == {"name", "age", "sex", "healthData", "startDate"}
      && "email" !in d && "password" !in d
      && d["name"] == Get(formData, "name") && d["age"] == Get(formData, "age") && d["sex"] == Get(formData, "sex")
      && d["healthData"].Obj? && d["healthData"].fields.Keys == HealthFields
      && (forall k :: k in HealthFields ==> d["healthData"].fields[k] == Get(formData, k))
      && d["startDate"] == Str(now)
  {
  }

  /** The start date given to `signup` does not reach the stored user:
      `createUser` keeps only its seven fields. */
  lemma StartDateNotStored(formData: Record, email: string, h: PasswordHash, id: string, now: string)
    ensures Get(SignupData(formData, now), "startDate") == Str(now)
    ensures "startDate" !in UserRecord(Auth.SignupInput(email, h, SignupData(formData, now)), id, now)
  {
  }

  /** The step components. */
  datatype Component = EmailPasswordStep | BasicInfoStep | HealthBaselineStep | TimelineStep | PreviewStep

  /** A rendered step: its component and which callbacks it is given. */
  datatype Screen = Screen(component: Component, onNext: bool, onBack: bool, onComplete: bool)

  /** `renderStep()` */
  function RenderStep(step: int): Option<Screen>
  {
    match step
    case 1 => Some(Screen(EmailPasswordStep, true, false, false))
    case 2 => Some(Screen(BasicInfoStep, true, true, false))
    case 3 => Some(Screen(HealthBaselineStep, true, true, false))
    case 4 => Some(Screen(TimelineStep, true, true, false))
    case 5 => Some(Screen(PreviewStep, false, true, true))
    case _ => None
  }

  /** A screen is rendered exactly for steps 1 to 5; every one but the first can
      go back, every one but the last can go forward, and only the last
      completes. */
  lemma RenderStepSpec(step: int)
    ensures RenderStep(step).Some? <==> 1 <= step <= 5
    ensures RenderStep(step).Some? ==>
      && (RenderStep(step).value.onBack <==> step != 1)
      && (RenderStep(step).value.onNext <==> step != 5)
      && (RenderStep(step).value.onComplete <==> step == 5)
  {
  }

  /** A step change the user can ask for. */
  datatype Move = Next | Back

  /** The rendered step offers the callback for the move. */
  predicate Offered(step: int, m: Move)
  {
    RenderStep(step).Some? && (if m == Next then RenderStep(step).value.onNext else RenderStep(step).value.onBack)
  }

  /** `nextStep` and `prevStep` on the counter. */
  function Apply(step: int, m: Move): int
  {
    if m == Next then step + 1 else step - 1
  }

  /** Every move of the sequence is offered by the step it is made from. */
  predicate AllOffered(step: int, moves: seq<Move>)
    decreases |moves|
  {
    moves == [] || (Offered(step, moves[0]) && AllOffered(Apply(step, moves[0]), moves[1..]))
  }

  /** The step after a sequence of moves. */
  function Run(step: int, moves: seq<Move>): int
    decreases |moves|
  {
    if moves == [] then step else Run(Apply(step, moves[0]), moves[1..])
  }

  /** Moving through the screens' own callbacks never leaves steps 1 to 5, so
      some step is always rendered. */
  lemma {:induction false} OfferedMovesStayInRange(step: int, moves: seq<Move>)
    requires 1 <= step <= 5 && AllOffered(step, moves)
    ensures 1 <= Run(step, moves) <= 5
    ensures RenderStep(Run(step, moves)).Some?
    decreases |moves|
  {
    if moves != [] {
      RenderStepSpec(step);
      OfferedMovesStayInRange(Apply(step, moves[0]), moves[1..]);
    }
    RenderStepSpec(Run(step, moves));
  }

  /** How `handleComplete` ends: at the dashboard, or with an alert. */
  datatype Finish = Navigated(path: string) | Alerted(message: string)

  const SignupFailed := "Failed to complete signup. Please try again."

  /** The analytics event recorded once the user exists. */
  function SignupEvent(formData: Record): Record
  {
    map["sex" := Get(formData, "sex"), "age" := Get(formData, "age")]
  }

  /** The event row has no `id`, so the auto-increment analytics table always
      takes it. */
  lemma EventIsAdded(s: Store, userId: Value, formData: Record, now: string)
    requires s.autoIncrement && s.keyPath == "id"
    ensures Add(s, AnalyticsRecord(userId, "signup_completed", SignupEvent(formData), now)).Ok?
  {
    var row := AnalyticsRecord(userId, "signup_completed", SignupEvent(formData), now);
    assert "id" !in row;
  }

  /** The user row `createUser` stores for the form. */
  function NewUser(P: Primitives, formData: Record, hashRnd: Random, nowMs: int, randomPart: string, now: string): Record
    requires Get(formData, "email").Str? && Get(formData, "password").Str?
  {
    UserRecord(Auth.SignupInput(Get(formData, "email").s, HashPassword(P, Get(formData, "password").s, hashRnd),
                                SignupData(formData, now)),
               UserId(nowMs, randomPart), now)
  }

  /** The health-data row `saveHealthData` stores for the form. */
  function SignupHealthRow(P: Primitives, formData: Record, nowMs: int, randomPart: string, now: string,
                           saltRnd: Random, ivRnd: Random): Record
    requires Get(formData, "password").Str?
  {
    HealthDataRecord(Str(UserId(nowMs, randomPart)),
                     EncryptData(P, Obj(HealthDataOf(formData)), Get(formData, "password").s, saltRnd, ivRnd), now)
  }

  /** The health data in the signup data is the form's six health fields. */
  lemma SignupDataHealth(formData: Record, now: string)
    ensures Get(SignupData(formData, now), "healthData") == Obj(HealthDataOf(formData))
  {
    assert "healthData" in SignupData(formData, now);
  }

  /** The user row `signup` builds from the signup data of a form. */
  lemma SignupUserRow(P: Primitives, formData: Record, hashRnd: Random, nowMs: int, randomPart: string, now: string)
    requires Get(formData, "email").Str? && Get(formData, "password").Str?
    ensures NewUser(P, formData, hashRnd, nowMs, randomPart, now)
      == UserRecord(Auth.SignupInput(Get(formData, "email").s, HashPassword(P, Get(formData, "password").s, hashRnd),
                                     SignupData(formData, now)), UserId(nowMs, randomPart), now)
    ensures NewUser(P, formData, hashRnd, nowMs, randomPart, now)["id"] == Str(UserId(nowMs, randomPart))
  {
  }

  /** The health-data row `signup` builds from the signup data of a form. */
  lemma SignupHealthRowOfData(P: Primitives, formData: Record, nowMs: int, randomPart: string, now: string,
                              saltRnd: Random, ivRnd: Random)
    requires Get(formData, "password").Str?
    ensures SignupHealthRow(P, formData, nowMs, randomPart, now, saltRnd, ivRnd)
      == HealthDataRecord(Str(UserId(nowMs, randomPart)),
                          EncryptData(P, Get(SignupData(formData, now), "healthData"), Get(formData, "password").s,
                                      saltRnd, ivRnd), now)
  {
    SignupDataHealth(formData, now);
  }

  /** The analytics row of the completed signup. */
  function SignupAnalytics(formData: Record, nowMs: int, randomPart: string, now: string): Record
  {
    AnalyticsRecord(Str(UserId(nowMs, randomPart)), "signup_completed", SignupEvent(formData), now)
  }

  /** The stage `signup` reaches for a form and the database it leaves, when
      its email lookup is request `start`. */
  function SignupOfForm(s: Snapshot, faults: nat -> bool, start: nat, P: Primitives, formData: Record, hashRnd: Random,
                        nowMs: int, randomPart: string, now: string, saltRnd: Random, ivRnd: Random)
    : (Auth.SignupStage, Snapshot)
    requires Get(formData, "email").Str? && Get(formData, "password").Str?
  {
    Auth.SignupSteps(s, faults, start, Get(formData, "email").s, NewUser(P, formData, hashRnd, nowMs, randomPart, now),
                     SignupHealthRow(P, formData, nowMs, randomPart, now, saltRnd, ivRnd))
  }

  /** The database after `trackAnalytics` logs `event`: the row is added
      unless the request is rejected or the add fails. */
  function Tracked(s: Snapshot, rejected: bool, event: Record): Snapshot
  {
    match Attempt<(Store, Key)>(rejected, Add(s.analytics, event))
    case Err(_) => s
    case Ok((analytics, _)) => s.(analytics := analytics)
  }

  /** How `handleComplete` ends and the database it leaves, for any user,
      health-data and event rows: an unfinished signup ends in the alert; a
      finished one is followed by `trackAnalytics` (request `start + 3`), whose
      rejection is swallowed, and then by the dashboard. */
  function FinishSteps(s: Snapshot, faults: nat -> bool, start: nat, email: string, u: Record, h: Record,
                       event: Record): (Finish, Snapshot)
  {
    var (stage, signedUp) := Auth.SignupSteps(s, faults, start, email, u, h);
    if stage != Auth.SignedIn then (Alerted(SignupFailed), signedUp)
    else (Navigated("/dashboard"), Tracked(signedUp, faults(start + 3), event))
  }

  /** The properties of `FinishSteps` that `OnboardedSpec` states for a form. */
  lemma FinishStepsSpec(s: Snapshot, faults: nat -> bool, start: nat, email: string, u: Record, h: Record, event: Record)
    ensures var (stage, signedUp) := Auth.SignupSteps(s, faults, start, email, u, h);
      var (f, after) := FinishSteps(s, faults, start, email, u, h, event);
      && (f == Navigated("/dashboard") || f == Alerted(SignupFailed))
      && (f.Navigated? <==> stage == Auth.SignedIn)
      && (stage == Auth.Refused ==> after == s)
      && (stage == Auth.UserOnly ==> Add(s.users, u).Ok? && after == s.(users := Add(s.users, u).value.0))
      && after.(analytics := s.analytics) == signedUp.(analytics := s.analytics)
      && (after.analytics != s.analytics ==> f.Navigated?)
      && after.checkIns == s.checkIns && after.partnerships == s.partnerships && after.milestones == s.milestones
  {
    Auth.SignupStepsSpec(s, faults, start, email, u, h);
  }

  /** The outcome of `handleComplete` for a form. */
  function Onboarded(s: Snapshot, faults: nat -> bool, start: nat, P: Primitives, formData: Record, hashRnd: Random,
                     nowMs: int, randomPart: string, now: string, saltRnd: Random, ivRnd: Random): (Finish, Snapshot)
    requires Get(formData, "email").Str? && Get(formData, "password").Str?
  {
    FinishSteps(s, faults, start, Get(formData, "email").s, NewUser(P, formData, hashRnd, nowMs, randomPart, now),
                SignupHealthRow(P, formData, nowMs, randomPart, now, saltRnd, ivRnd),
                SignupAnalytics(formData, nowMs, randomPart, now))
  }

  /** `Onboarded` put together from its parts: the signup of the form, which
      finished exactly when `ok`, left `signedUp`; after a finished one the
      event's request, request `start + 3`, was rejected when `rejected` and
      left `tracked`. */
  lemma OnboardedOfParts(s: Snapshot, faults: nat -> bool, start: nat, P: Primitives, formData: Record, hashRnd: Random,
                         nowMs: int, randomPart: string, now: string, saltRnd: Random, ivRnd: Random,
                         ok: bool, signedUp: Snapshot, rejected: bool, tracked: Snapshot)
    requires Get(formData, "email").Str? && Get(formData, "password").Str?
    requires var su := SignupOfForm(s, faults, start, P, formData, hashRnd, nowMs, randomPart, now, saltRnd, ivRnd);
      (ok <==> su.0 == Auth.SignedIn) && signedUp == su.1
    requires ok ==> rejected == faults(start + 3)
                    && tracked == Tracked(signedUp, rejected, SignupAnalytics(formData, nowMs, randomPart, now))
    ensures Onboarded(s, faults, start, P, formData, hashRnd, nowMs, randomPart, now, saltRnd, ivRnd)
      == (if ok then (Navigated("/dashboard"), tracked) else (Alerted(SignupFailed), signedUp))
  {
  }

  /** `handleComplete` navigates exactly when the signup finished, and only then
      can the event be recorded; a refused signup changes nothing, and one
      stopped after `createUser` keeps just the new user row; the check-ins,
      partnerships and milestones are never touched. */
  lemma OnboardedSpec(s: Snapshot, faults: nat -> bool, start: nat, P: Primitives, formData: Record, hashRnd: Random,
                      nowMs: int, randomPart: string, now: string, saltRnd: Random, ivRnd: Random)
    requires Get(formData, "email").Str? && Get(formData, "password").Str?
    ensures var (stage, signedUp) := SignupOfForm(s, faults, start, P, formData, hashRnd, nowMs, randomPart, now, saltRnd, ivRnd);
      var (f, after) := Onboarded(s, faults, start, P, formData, hashRnd, nowMs, randomPart, now, saltRnd, ivRnd);
      && (f == Navigated("/dashboard") || f == Alerted(SignupFailed))
      && (f.Navigated? <==> stage == Auth.SignedIn)
      && (stage == Auth.Refused ==> after == s)
      && (stage == Auth.UserOnly ==>
            && Add(s.users, NewUser(P, formData, hashRnd, nowMs, randomPart, now)).Ok?
            && after == s.(users := Add(s.users, NewUser(P, formData, hashRnd, nowMs, randomPart, now)).value.0))
      && after.(analytics := s.analytics) == signedUp.(analytics := s.analytics)
      && (after.analytics != s.analytics ==> f.Navigated?)
      && after.checkIns == s.checkIns && after.partnerships == s.partnerships && after.milestones == s.milestones
  {
    FinishStepsSpec(s, faults, start, Get(formData, "email").s, NewUser(P, formData, hashRnd, nowMs, randomPart, now),
                    SignupHealthRow(P, formData, nowMs, randomPart, now, saltRnd, ivRnd),
                    SignupAnalytics(formData, nowMs, randomPart, now));
  }

  /** When none of the four requests is rejected and the email is free, the
      user, the health data and the event are all added. */
  lemma OnboardedWhenAdded(s: Snapshot, faults: nat -> bool, start: nat, P: Primitives, formData: Record, hashRnd: Random,
                           nowMs: int, randomPart: string, now: string, saltRnd: Random, ivRnd: Random)
    requires Get(formData, "email").Str? && Get(formData, "password").Str?
    requires s.analytics.autoIncrement && s.analytics.keyPath == "id"
    requires !faults(start) && !faults(start + 1) && !faults(start + 2) && !faults(start + 3)
    requires UserByEmail(s.users, Get(formData, "email").s).None?
    requires Add(s.users, NewUser(P, formData, hashRnd, nowMs, randomPart, now)).Ok?
    requires Add(s.healthData, SignupHealthRow(P, formData, nowMs, randomPart, now, saltRnd, ivRnd)).Ok?
    ensures Add(s.analytics, SignupAnalytics(formData, nowMs, randomPart, now)).Ok?
    ensures Onboarded(s, faults, start, P, formData, hashRnd, nowMs, randomPart, now, saltRnd, ivRnd)
      == (Navigated("/dashboard"),
          s.(users := Add(s.users, NewUser(P, formData, hashRnd, nowMs, randomPart, now)).value.0,
             healthData := Add(s.healthData, SignupHealthRow(P, formData, nowMs, randomPart, now, saltRnd, ivRnd)).value.0,
             analytics := Add(s.analytics, SignupAnalytics(formData, nowMs, randomPart, now)).value.0))
  {
    EventIsAdded(s.analytics, Str(UserId(nowMs, randomPart)), formData, now);
  }

  /** A signup stopped after `createUser` leaves the user row behind, so the
      email is taken: completing the same form again, whichever requests then
      fail, ends in the alert and changes nothing. */
  lemma StoppedOnboardingBlocksRetry(s: Snapshot, faults: nat -> bool, start: nat, P: Primitives, formData: Record,
                                     hashRnd: Random, nowMs: int, randomPart: string, now: string, saltRnd: Random,
                                     ivRnd: Random, faults2: nat -> bool, start2: nat, hashRnd2: Random, nowMs2: int,
                                     randomPart2: string, now2: string, saltRnd2: Random, ivRnd2: Random)
    requires Get(formData, "email").Str? && Get(formData, "password").Str?
    requires Table.Valid(s.users) && s.users.keyPath == "id" && !s.users.autoIncrement
    requires SignupOfForm(s, faults, start, P, formData, hashRnd, nowMs, randomPart, now, saltRnd, ivRnd).0 == Auth.UserOnly
    ensures var stopped := SignupOfForm(s, faults, start, P, formData, hashRnd, nowMs, randomPart, now, saltRnd, ivRnd).1;
      Onboarded(stopped, faults2, start2, P, formData, hashRnd2, nowMs2, randomPart2, now2, saltRnd2, ivRnd2)
        == (Alerted(SignupFailed), stopped)
  {
    SignupDataSpec(formData, now);
    SignupUserRow(P, formData, hashRnd, nowMs, randomPart, now);
    Auth.StoppedSignupBlocksRetry(s, faults, start, P, Get(formData, "email").s, Get(formData, "password").s,
                                  SignupData(formData, now), hashRnd, nowMs, randomPart, now,
                                  SignupHealthRow(P, formData, nowMs, randomPart, now, saltRnd, ivRnd),
                                  faults2, start2, NewUser(P, formData, hashRnd2, nowMs2, randomPart2, now2),
                                  SignupHealthRow(P, formData, nowMs2, randomPart2, now2, saltRnd2, ivRnd2));
  }

  /** The wizard's state. */
  class OnboardingFlowView {
    var step: int
    var formData: Record

    constructor ()
      ensures step == 1 && formData == InitialForm
    {
      step := 1;
      formData := InitialForm;
    }

    /** `updateFormData(data)`: the keys of `data` are overwritten and every
        other field of the form is kept. */
    method UpdateFormData(data: Record)
      modifies this
      ensures step == old(step)
      ensures formData.Keys == old(formData).Keys + data.Keys
      ensures forall k :: k in data ==> formData[k] == data[k]
      ensures forall k :: k in old(formData) && k !in data ==> formData[k] == old(formData)[k]
    {
      formData := Spread(formData, data);
    }

    method NextStep()
      modifies this
      ensures step == Apply(old(step), Next) == old(step) + 1 && formData == old(formData)
    {
      step := step + 1;
    }

    method PrevStep()
      modifies this
      ensures step == Apply(old(step), Back) == old(step) - 1 && formData == old(formData)
    {
      step := step - 1;
    }

    /** `handleComplete()` on the wizard's form; see `CompleteOnboarding`. */
    method HandleComplete(auth: Auth.AuthProvider, hashRnd: Random, nowMs: int, randomPart: string,
                          now: string, saltRnd: Random, ivRnd: Random)
      returns (f: Finish)
      requires auth.Valid()
      requires Get(formData, "email").Str? && Get(formData, "password").Str?
      modifies auth, auth.db, auth.db.backend
      ensures auth.Valid()
      ensures (f, auth.db.State())
        == Onboarded(old(auth.db.State()), auth.db.backend.faults, old(auth.db.backend.requests), auth.P, formData,
                     hashRnd, nowMs, randomPart, now, saltRnd, ivRnd)
      ensures var stage := SignupOfForm(old(auth.db.State()), auth.db.backend.faults, old(auth.db.backend.requests), auth.P,
                                       formData, hashRnd, nowMs, randomPart, now, saltRnd, ivRnd).0;
        && auth.user == (if stage == Auth.SignedIn then Some(NewUser(auth.P, formData, hashRnd, nowMs, randomPart, now)) else old(auth.user))
        && auth.password == (if stage == Auth.Refused then old(auth.password) else Some(Get(formData, "password").s))
    {
      f := CompleteOnboarding(auth, formData, hashRnd, nowMs, randomPart, now, saltRnd, ivRnd);
    }
  }

  /** The `signup` call of `handleComplete` for a form, as `SignupOfForm` says:
      `ok` exactly when the new user is signed in; a password is kept from the
      moment the user row exists. */
  method SignUpWithForm(auth: Auth.AuthProvider, form: Record, hashRnd: Random, nowMs: int, randomPart: string,
                        now: string, saltRnd: Random, ivRnd: Random)
    returns (ok: bool)
    requires auth.Valid()
    requires Get(form, "email").Str? && Get(form, "password").Str?
    modifies auth, auth.db, auth.db.backend
    ensures auth.Valid()
    ensures auth.db.State() == SignupOfForm(old(auth.db.State()), auth.db.backend.faults, old(auth.db.backend.requests),
                                            auth.P, form, hashRnd, nowMs, randomPart, now, saltRnd, ivRnd).1
    ensures var stage := SignupOfForm(old(auth.db.State()), auth.db.backend.faults, old(auth.db.backend.requests), auth.P,
                                     form, hashRnd, nowMs, randomPart, now, saltRnd, ivRnd).0;
      && (ok <==> stage == Auth.SignedIn)
      && (stage == Auth.SignedIn ==> auth.db.backend.requests == old(auth.db.backend.requests) + 3)
    ensures var stage := SignupOfForm(old(auth.db.State()), auth.db.backend.faults, old(auth.db.backend.requests), auth.P,
                                     form, hashRnd, nowMs, randomPart, now, saltRnd, ivRnd).0;
      && auth.user == (if stage == Auth.SignedIn then Some(NewUser(auth.P, form, hashRnd, nowMs, randomPart, now)) else old(auth.user))
      && auth.password == (if stage == Auth.Refused then old(auth.password) else Some(Get(form, "password").s))
  {
    SignupUserRow(auth.P, form, hashRnd, nowMs, randomPart, now);
    SignupHealthRowOfData(auth.P, form, nowMs, randomPart, now, saltRnd, ivRnd);
    var data := SignupData(form, now);
    var r := auth.Signup(Get(form, "email").s, Get(form, "password").s, data, hashRnd, nowMs, randomPart, now,
                         saltRnd, ivRnd);
    ok := r.Ok?;
  }

  /** The `trackAnalytics` call of `handleComplete`, for the new user's id: the
      event row is added unless the request is rejected, and nothing else
      changes. */
  method RecordSignup(auth: Auth.AuthProvider, form: Record, nowMs: int, randomPart: string, now: string)
    requires auth.Valid()
    modifies auth.db, auth.db.backend
    ensures auth.Valid()
    ensures auth.db.backend.requests == old(auth.db.backend.requests) + 1
    ensures auth.db.State() == Tracked(old(auth.db.State()), old(auth.db.Fails(0)), SignupAnalytics(form, nowMs, randomPart, now))
    ensures auth.user == old(auth.user) && auth.password == old(auth.password)
  {
    auth.db.TrackAnalytics(Str(UserId(nowMs, randomPart)), "signup_completed", SignupEvent(form), now);
  }

  /** The rest of `handleComplete` after the `signup` call: an unfinished
      signup ends in the alert; a finished one records the event (request
      `start + 3`) and shows the dashboard. Either way this is how `Onboarded`
      ends for the form. */
  method FinishOnboarding(auth: Auth.AuthProvider, ok: bool, form: Record, hashRnd: Random, nowMs: int, randomPart: string,
                          now: string, saltRnd: Random, ivRnd: Random, ghost s0: Snapshot, ghost start: nat)
    returns (f: Finish)
    requires auth.Valid()
    requires Get(form, "email").Str? && Get(form, "password").Str?
    requires var su := SignupOfForm(s0, auth.db.backend.faults, start, auth.P, form, hashRnd, nowMs, randomPart, now,
                                    saltRnd, ivRnd);
      && auth.db.State() == su.1
      && (ok <==> su.0 == Auth.SignedIn)
      && (su.0 == Auth.SignedIn ==> auth.db.backend.requests == start + 3)
    modifies auth.db, auth.db.backend
    ensures auth.Valid()
    ensures (f, auth.db.State())
      == Onboarded(s0, auth.db.backend.faults, start, auth.P, form, hashRnd, nowMs, randomPart, now, saltRnd, ivRnd)
    ensures auth.user == old(auth.user) && auth.password == old(auth.password)
  {
    if !ok {
      OnboardedOfParts(s0, auth.db.backend.faults, start, auth.P, form, hashRnd, nowMs, randomPart, now, saltRnd, ivRnd,
                       ok, auth.db.State(), false, auth.db.State());
      return Alerted(SignupFailed);
    }
    ghost var signedUp := auth.db.State();
    ghost var rejected := auth.db.Fails(0);
    RecordSignup(auth, form, nowMs, randomPart, now);
    OnboardedOfParts(s0, auth.db.backend.faults, start, auth.P, form, hashRnd, nowMs, randomPart, now, saltRnd, ivRnd,
                     true, signedUp, rejected, auth.db.State());
    f := Navigated("/dashboard");
  }

  /** `handleComplete()` for a form: signs up with the form's email, password
      and signup data, then records the `signup_completed` event. The route
      taken and the database left are those of `Onboarded`: an unfinished
      signup ends in the alert, possibly with the user row already written;
      a finished one signs the new user in and reaches the dashboard, with or
      without the event. */
  method CompleteOnboarding(auth: Auth.AuthProvider, form: Record, hashRnd: Random, nowMs: int, randomPart: string,
                            now: string, saltRnd: Random, ivRnd: Random)
    returns (f: Finish)
    requires auth.Valid()
    requires Get(form, "email").Str? && Get(form, "password").Str?
    modifies auth, auth.db, auth.db.backend
    ensures auth.Valid()
    ensures (f, auth.db.State())
      == Onboarded(old(auth.db.State()), auth.db.backend.faults, old(auth.db.backend.requests), auth.P, form,
                   hashRnd, nowMs, randomPart, now, saltRnd, ivRnd)
    ensures var stage := SignupOfForm(old(auth.db.State()), auth.db.backend.faults, old(auth.db.backend.requests), auth.P,
                                     form, hashRnd, nowMs, randomPart, now, saltRnd, ivRnd).0;
      && auth.user == (if stage == Auth.SignedIn then Some(NewUser(auth.P, form, hashRnd, nowMs, randomPart, now)) else old(auth.user))
      && auth.password == (if stage == Auth.Refused then old(auth.password) else Some(Get(form, "password").s))
  {
    var ok := SignUpWithForm(auth, form, hashRnd, nowMs, randomPart, now, saltRnd, ivRnd);
    f := FinishOnboarding(auth, ok, form, hashRnd, nowMs, randomPart, now, saltRnd, ivRnd,
                          old(auth.db.State()), old(auth.db.backend.requests));
  }
}
