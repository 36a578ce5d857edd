# Fertility wellness tracker — a Dafny model of its core

The application is a single-page React app. Prospective parents use it to track a
74-day (male) or 90-day (female) preparation cycle. Everything it stores stays in
the browser, in an IndexedDB database (through Dexie) with six stores:

- users
- healthData
- checkIns
- partnerships
- milestones
- analytics

Health fields are encrypted with a key derived from the user's password. Passwords
are stored as a salted PBKDF2 hash. Two partners link their accounts with a
six-character pairing code and then see each other's completion rates.

This project models, in Dafny:

- Value formats and codecs:
  - the storage layer (`Db`, over `Table`, Dexie's add, update and where semantics on a primary key);
  - base64 as used by the crypto helpers (`Base64`);
  - password hashing, health-data envelopes and pairing codes (`Crypto`).
- The authentication provider: restore, signup, login, logout and health-data access (`Auth`).
- The computations of the dashboard, premium, pages and onboarding components:
  - completion rates (`Completion`), the day in the programme (`Cycle`);
  - the longest streak (`Dashboard`);
  - today's check-in, the current streak and milestones (`DailyCheckIn`);
  - programme phases (`Timeline`);
  - pairing (`PartnerPairing`);
  - synergy scores (`Synergy`);
  - the premium dashboard (`Premium`), the progress calendar (`Progress`);
  - the ritual grid (`Rituals`);
  - the onboarding wizard and its three input steps (`OnboardingFlow`, `EmailPassword`, `BasicInfo`, `HealthBaseline`).

JavaScript's dynamic objects are `JsValue.Value`, and records are `map<string, Value>`.
`JsText` holds the string built-ins the code relies on: `trim`, `toUpperCase`,
`parseInt`, `Number(...)` and `replace`.

Components and the database are classes whose fields the operations update. The
computations they call are functions, and each function has lemmas stating what it
promises.

Storage failures come from `Db.Backend`, the browser storage behind the database.
Each call of a `db.js` helper is one numbered request, and a fixed schedule
(`faults`, a function from request number to bool) says which requests are
rejected. A rejected request fails as a thrown error would and changes nothing.
Because the schedule is per request, a handler can fail between two of its
writes. For example, signup can create the user row and then fail to save the
health data. Contracts name the k-th request a handler makes as `old(db.Fails(k))`.

The clock, the random source and date parsing are parameters:

- times as milliseconds;
- ISO strings as strings;
- check-in dates as day numbers;
- random bytes as a function from index to byte.

The Web Crypto primitives are function-valued fields of `Crypto.Primitives`:

- UTF-8 encoding and decoding;
- PBKDF2 bits;
- AES-GCM encryption and decryption;
- JSON stringify and parse.

What they are assumed to satisfy is the predicate `Crypto.Sound`, which results that
need them take as a precondition.

## Model

| member | source | states |
|---|---|---|
| JsValue.Or | src/components/onboarding/HealthBaseline.jsx:9 | `a \|\| b` yields the first operand exactly when it is truthy, else the second |
| JsValue.Spread | src/components/onboarding/OnboardingFlow.jsx:30-32 | `{...base, ...over}` has the keys of both; the later object wins on shared keys and the rest keep the base's values |
| JsText.TrimShape | src/components/onboarding/HealthBaseline.jsx:13-14 | `trim` returns a contiguous slice of its input with only white space cut on either side, and a non-empty result starts and ends with a non-space character |
| JsText.TrimEmptyIff | src/components/onboarding/HealthBaseline.jsx:13 | a trimmed text is empty exactly when the input is all white space |
| JsText.ToUpper | src/components/dashboard/PartnerPairing.jsx:92 | upper-casing maps each ASCII lower-case letter to its capital and keeps every other character, so the length is kept (ASCII only, see Left out) |
| JsText.ReplaceFirstAt | src/components/pages/ProgressPage.jsx:146 | a string `replace` of a character changes only its first occurrence |
| JsText.ReplaceFirstAbsent | src/components/pages/ProgressPage.jsx:146 | a text without the character is left as it is |
| JsText.ParseInt | src/components/onboarding/BasicInfo.jsx:22 | `parseInt` gives an integer or NaN and nothing else |
| Table.KeyLessIsStrictTotalOrder | src/db.js:5-12 | the order the stores keep primary keys in (numbers before strings, strings by code unit) is irreflexive, transitive and total |
| Table.InsertSortedOrdered | src/db.js:19-27 | adding a row with a fresh key keeps a store's rows ordered by primary key |
| Table.WithFieldOrdered | src/db.js:99-111 | `where(field).equals(v)` keeps exactly the rows with that value, in key order |
| Table.Reverse | src/db.js:104-108 | `reverse()` lists the same rows in the opposite order |
| Table.Limit | src/db.js:104-108 | `limit(n)` keeps the first n rows, or all of them when there are fewer |
| Table.Merge | src/db.js:77-83 | an update sets each changed field, deletes a field set to undefined and keeps every other field |
| Table.AsKey | src/db.js:5-12 | only numbers and strings are valid primary keys |
| Table.Add | src/db.js:19-27 | `add` fails exactly when no valid key can be chosen for the row or its key is already present, with that error, and otherwise returns the key and keeps the store's key path and kind |
| Table.AddSpec | src/db.js:19-27 | a successful `add` keeps the store ordered, grows it by one row under a key not present before and keeps every earlier row |
| Table.IndexOf | src/db.js:77-83 | a key is found exactly when some row has it |
| Table.Update | src/db.js:77-83 | `update` of a missing key changes nothing and reports 0 rows; it fails exactly when the change would move the row to another key |
| Table.UpdateSpec | src/db.js:77-83 | a successful `update` keeps the store ordered and its size, merges the changes into the row with that key and leaves every other row as it was |
| Table.Empty | src/db.js:5-12 | a freshly declared store is empty and well formed |
| Db.UserId | src/db.js:18 | generated user ids start with `user_` |
| Db.UserRecord | src/db.js:19-27 | the stored user row has exactly id, email, createdAt, passwordHash, name, age and sex, and never a passwordSalt or a startDate |
| Db.UserRecordWithSalt | src/db.js:19-27 | the corrected row is the stored one plus the passwordSalt it was given |
| Db.UserByEmail | src/db.js:36-43 | a user is found exactly when some row has that email, and the row found has it |
| Db.SaveThenLatestHealthData | src/db.js:45-65 | after saving health data for a user, `getHealthData` returns that very row |
| Db.TodayRows | src/db.js:113-124 | today's rows are the user's rows dated today |
| Db.SaveCheckInUpdatesExisting | src/db.js:67-83 | saving over an existing row of today updates that row in place under its own key, stamps updatedAt and leaves every other row alone |
| Db.SaveCheckInAddsNew | src/db.js:84-91 | saving the first check-in of a day adds one row under a new key, stamped with createdAt and dated today |
| Db.UpsertKeepsValid | src/db.js:67-97 | a successful save keeps the checkIns store well formed |
| Db.SaveCheckInExactlyOne | src/db.js:67-97 | if a user had at most one row for today, after a save there is exactly one, and rows of other days and users are untouched |
| Db.CheckInsOfSpec | src/db.js:99-111 | `getCheckIns` returns at most `limit` of the user's rows, newest (greatest key) first |
| Db.SaveThenMilestonesNewestFirst | src/db.js:126-151 | a saved milestone comes first in the user's milestone list |
| Db.PartnershipByCode | src/db.js:177-184 | a partnership is found by code exactly when some row has that code |
| Db.CreatePartnershipNeverOverwrites | src/db.js:153-166 | creating a partnership for a user who already has one is a ConstraintError and never replaces that row; otherwise the new row joins all the old ones |
| Db.PartnershipOfFindsOwnRow | src/db.js:168-175 | `getPartnership` finds the row keyed by the user, since partnerships are keyed by userId |
| Db.Attempt | src/db.js:16-197 | a rejected request raises a storage failure, and an accepted one gives the operation's own result |
| Db.Backend.constructor | src/db.js:5-12 | the storage starts with no request made and a fixed schedule of rejected requests |
| Db.Backend.Request | src/db.js:16-197 | each request advances the request counter by one and is rejected exactly when the schedule says so |
| Db.Database.constructor | src/db.js:5-12 | a new database has six empty, well-formed stores over the given storage |
| Db.Database.CreateUser | src/db.js:16-34 | `createUser` makes one request; it adds the user row and returns it, or fails with the store unchanged |
| Db.Database.GetUserByEmail | src/db.js:36-43 | the lookup makes one request and returns the user with that email, or fails when the request is rejected |
| Db.Database.SaveHealthData | src/db.js:45-56 | adds one health-data row and returns its key, or fails with nothing changed |
| Db.Database.GetHealthData | src/db.js:58-65 | returns the user's latest health-data row, or fails when the request is rejected |
| Db.Database.SaveCheckIn | src/db.js:67-97 | the save is the upsert on today's row and changes nothing else; a failure changes nothing |
| Db.Database.GetCheckIns | src/db.js:99-111 | returns the user's newest check-ins, 90 by default, or fails when the request is rejected |
| Db.Database.GetTodayCheckIn | src/db.js:113-124 | returns today's row, and none when the request is rejected (the error is swallowed) |
| Db.Database.SaveMilestone | src/db.js:126-138 | adds one milestone row, or fails with nothing changed |
| Db.Database.GetMilestones | src/db.js:140-151 | returns the user's milestones, newest first, or fails when the request is rejected |
| Db.Database.CreatePartnership | src/db.js:153-166 | adds one partnership row keyed by the user, or fails with nothing changed |
| Db.Database.UpdatePartnership | src/components/dashboard/PartnerPairing.jsx:116-126 | the update of the original partnership that the second write stands for: the changes are merged into the row keyed by that user and no other, or it fails with nothing changed |
| Db.Database.GetPartnership | src/db.js:168-175 | returns the user's own partnership row, and none when the request is rejected |
| Db.Database.FindPartnershipByCode | src/db.js:177-184 | returns a row with that pairing code, and none when the request is rejected |
| Db.Database.TrackAnalytics | src/db.js:186-197 | logs one event row, and a rejected request is swallowed with nothing changed |
| Base64.CharIsAlphabet | src/crypto.js:16-18 | each sextet's character is its letter of the base64 alphabet, never `=`, and decodes back to the sextet |
| Base64.ValueThenChar | src/crypto.js:21-28 | decoding then encoding an alphabet character gives it back |
| Base64.Sextets | src/crypto.js:16-18 | n bytes make 4⌊n/3⌋ sextets plus one more than the remainder |
| Base64.BinaryString | src/crypto.js:16-18 | `String.fromCharCode(...bytes)` keeps one character per byte with that code |
| Base64.CharCodes | src/crypto.js:24-26 | `charCodeAt` turns a binary string back into its bytes |
| Base64.Ab2Base64Spec | src/crypto.js:16-18 | `ab2base64` is `btoa` of the binary string: length 4⌈n/3⌉, alphabet characters only, `=` only in the last two places |
| Base64.Atob | src/crypto.js:21-28 | `atob` returns characters below 256 only |
| Base64.Base642Ab | src/crypto.js:21-28 | the byte-copy loop returns the decoded bytes, or the DOMException `atob` raises |
| Base64.BytesOfSextets | src/crypto.js:21-28 | joining the sextets of some bytes gives the bytes back |
| Base64.StripPaddingOfEncode | src/crypto.js:21-28 | decoding strips exactly the padding the encoder added |
| Base64.RoundTrip | src/crypto.js:16-28 | `base642ab(ab2base64(b)) == b` for every byte sequence |
| Base64.RejectsRemainderOne | src/crypto.js:21-28 | a text of length 1 mod 4 is rejected with InvalidCharacterError |
| Crypto.RandomBytes | src/crypto.js:58-60 | `getRandomValues` fills n bytes from the random source |
| Crypto.GenerateSalt | src/crypto.js:58-60 | a salt is 16 random bytes |
| Crypto.HashPasswordSpec | src/crypto.js:63-93 | `hashPassword` returns the base64 of a fresh 16-byte salt (24 characters) and of the PBKDF2 key derived from the password and that salt (then 44 characters) |
| Crypto.DecodeEncoded | src/crypto.js:96-121 | a stored base64 field decodes back to the bytes it was made from |
| Crypto.VerifyPasswordIff | src/crypto.js:96-121 | with the salt it was hashed with, a password verifies exactly when its derived bits encode to the stored hash |
| Crypto.VerifyOwnHash | src/crypto.js:63-121 | a password verifies against its own hash and salt |
| Crypto.VerifyMissingSaltThrows | src/crypto.js:96-121 | verifying against a missing salt (undefined) throws in base64 decoding |
| Crypto.EnvelopeSpec | src/crypto.js:124-145 | `encryptData` returns exactly encrypted, iv and salt: a fresh 16-byte salt, a 12-byte iv, and the AES-GCM ciphertext of the JSON under the derived key |
| Crypto.DecryptData | src/crypto.js:148-171 | destructuring fails exactly on a missing (null or undefined) envelope |
| Crypto.DecryptEncrypt | src/crypto.js:124-171 | decrypting an envelope with the password it was made with gives back the JSON-safe data |
| Crypto.DecryptFailureKinds | src/crypto.js:148-171 | a field that is not base64 throws outside the try; a failed decryption or parse is the "Invalid password or corrupted data" error |
| Crypto.PairingAlphabetIsUpperAndDigits | src/crypto.js:174-184 | every code character is an upper-case letter or a digit |
| Crypto.PairingCodeOf | src/crypto.js:174-184 | a pairing code is six characters, each the alphabet at its random byte mod 36 |
| Crypto.GeneratePairingCode | src/crypto.js:174-184 | the loop builds that code, and it is a valid pairing code |
| Crypto.UpperPairingCode | src/components/dashboard/PartnerPairing.jsx:92 | upper-casing a generated code leaves it unchanged |
| Auth.SessionAfterSignIn | src/AuthContext.jsx:56-57 | signing in sets userId and userEmail in the session and keeps the other entries |
| Auth.LoginOfCreatedUserFails | src/AuthContext.jsx:41-46 | the row signup stores has no salt, so logging into it always throws in base64 decoding |
| Auth.LoginOfCorrectedUserSucceeds | src/AuthContext.jsx:41-46 | with the salt kept, logging in with the signup password succeeds |
| Auth.LoginOutcome | src/AuthContext.jsx:67-95 | login fails for a missing user, a crypto failure or a wrong password, and succeeds exactly when the stored user's password verifies |
| Auth.LoginOfStoredUserFails | src/AuthContext.jsx:67-95 | while no stored user has a salt, no login can succeed |
| Auth.OrphanUserBlocksRetry | src/AuthContext.jsx:31-44 | once `createUser` has stored a user, that user's email is found by `getUserByEmail` |
| Auth.SignupStepsSpec | src/AuthContext.jsx:29-65 | a refused signup changes nothing; one stopped after `createUser` has added exactly the user row; a finished one has added the user row and the health row |
| Auth.StoppedSignupBlocksRetry | src/AuthContext.jsx:31-53 | after a signup stopped by a failed health-data save, signing up again with the same email is refused before any write, whatever requests then fail |
| Auth.SignupRows | src/AuthContext.jsx:41-53 | the user row signup builds carries the id made from the clock and the random part, and the health row is filed under that id |
| Auth.AuthProvider.constructor | src/AuthContext.jsx:7-10 | the provider starts signed out and loading |
| Auth.AuthProvider.IsAuthenticated | src/AuthContext.jsx:138 | authenticated exactly when a user is set |
| Auth.AuthProvider.Restore | src/AuthContext.jsx:12-27 | with both session keys set the user stored under that email is restored and loading ends; without them loading ends with the user unchanged; a rejected lookup leaves loading set; the password is never restored |
| Auth.AuthProvider.CreateAccount | src/AuthContext.jsx:29-46 | a failed lookup or a taken email rejects the signup after one request with nothing stored; otherwise `createUser` is the second request, and it adds exactly the new user row or fails with nothing stored |
| Auth.AuthProvider.Signup | src/AuthContext.jsx:29-65 | the database left is the one `SignupSteps` gives for the three requests. A failed lookup, a taken email or a failed `createUser` is an error with nothing changed. A failed health-data save is an error that keeps the new user row and the password, with the user and session unchanged. Success adds the user and the encrypted health row, signs the new user in and writes the session keys |
| Auth.AuthProvider.FinishSignup | src/AuthContext.jsx:49-59 | after `createUser` has stored the row, the health-data save decides: the result is the user exactly when it goes through, the password is kept either way, and the session is opened only on success |
| Auth.AuthProvider.KeepPasswordAndSaveHealth | src/AuthContext.jsx:49-53 | the password is kept, and the encrypted health data is saved or the store is left as it was |
| Auth.AuthProvider.Login | src/AuthContext.jsx:67-95 | the result is the login outcome of the stored user; a failure leaves user, password and session as they were |
| Auth.AuthProvider.SignIn | src/AuthContext.jsx:83-89 | a sign-in sets the user, the password and the session entries |
| Auth.AuthProvider.OpenSession | src/AuthContext.jsx:56-59 | the session entries and the user are set, and the password is untouched |
| Auth.AuthProvider.Logout | src/AuthContext.jsx:97-102 | logging out forgets the user and password and removes the two session entries, and nothing else |
| Auth.AuthProvider.GetEncryptedHealthData | src/AuthContext.jsx:104-116 | signed out gives nothing; otherwise the user's latest health row is decrypted with the kept password |
| Auth.AuthProvider.UpdateHealthData | src/AuthContext.jsx:118-128 | signed out does nothing; otherwise a new encrypted health row is added under the user's id |
| Completion.FieldsOf | src/components/dashboard/Dashboard.jsx:88-104 | a check-in scores 0 to 6 done habits, 6 exactly when all are done and 0 exactly when none is |
| Completion.TotalFields | src/components/dashboard/Dashboard.jsx:88-104 | the total is at most six per check-in and reaches it exactly when every check-in is complete |
| Completion.RoundIsNearest | src/components/dashboard/Dashboard.jsx:103 | `Math.round` gives the nearest integer, halves rounding up |
| Completion.CompletionRate | src/components/dashboard/Dashboard.jsx:88-104 | a rate is a percentage from 0 to 100, and 0 for no check-ins |
| Completion.CompletionRateIsRoundedShare | src/components/dashboard/Dashboard.jsx:88-104 | the rate is the nearest integer to 100 × done ÷ (6 × check-ins) |
| Completion.RateIs100Iff | src/components/dashboard/Dashboard.jsx:88-104 | for up to 33 check-ins the rate is 100 exactly when every check-in is complete |
| Completion.RateRoundsToHundredAt34 | src/components/dashboard/Dashboard.jsx:88-104 | from 34 check-ins on, 100 can show with a habit missed |
| Completion.RateIsZeroIff | src/components/dashboard/Dashboard.jsx:88-104 | for up to 33 check-ins the rate is 0 exactly when nothing is done |
| Completion.SingleRate | src/components/pages/ProgressPage.jsx:85-87 | one check-in's rate is 0, 17, 33, 50, 67, 83 or 100 according to the habits done |
| Completion.Slice | src/components/dashboard/Dashboard.jsx:66-70 | `slice(from, to)` is the clamped window of the list |
| Cycle.CycleLength | src/components/dashboard/Timeline.jsx:100 | the cycle is 74 days for `male` and 90 for anything else |
| Cycle.DayInProgram | src/components/dashboard/Dashboard.jsx:28-31 | the day is the least whole number of days covering the distance from the start date, 0 only on the start instant |
| Cycle.DaysLeft | src/components/dashboard/Timeline.jsx:103 | days left reach the end of the cycle, and are 0 exactly once the cycle is over |
| Cycle.DaysLeftOf | src/components/premium/PremiumDashboard.jsx:99 | an unknown day gives unknown days left (NaN) |
| Cycle.MissingStartDateIsNaN | src/components/premium/PremiumDashboard.jsx:98-99 | a user row without a start date has no day in the programme and no days left |
| Dashboard.RunEndingAt | src/components/dashboard/Dashboard.jsx:38-63 | a run ending at a check-in is at least one day and no longer than the list so far |
| Dashboard.LongestRun | src/components/dashboard/Dashboard.jsx:38-63 | the longest run is at most the number of check-ins and at least one when there are any |
| Dashboard.LongestStreak | src/components/dashboard/Dashboard.jsx:38-63 | the loop over the oldest-first history computes the longest run of consecutive days |
| Dashboard.RunEndingAtIsRun | src/components/dashboard/Dashboard.jsx:45-60 | the counted run is a run of consecutive days |
| Dashboard.RunIsAtMostRunEndingAt | src/components/dashboard/Dashboard.jsx:45-60 | no run ending at a day is longer than the counted one |
| Dashboard.LongestRunIsMaximal | src/components/dashboard/Dashboard.jsx:38-63 | among the first m check-ins some run has the computed length and no run is longer |
| Dashboard.LongestStreakSpec | src/components/dashboard/Dashboard.jsx:38-63 | the longest streak is 0 exactly for no check-ins, the length of a real run, and at least every run's length |
| Dashboard.CompletionChangeSpec | src/components/dashboard/Dashboard.jsx:108 | the week-on-week change lies between -100 and 100, and the current week is the rate of the newest seven check-ins |
| Dashboard.DashboardState.constructor | src/components/dashboard/Dashboard.jsx:9-16 | the stats start at zero with no history |
| Dashboard.DashboardState.LoadStats | src/components/dashboard/Dashboard.jsx:25-86 | the stats are those of the user's 90 newest check-ins and milestones. A failed check-in fetch leaves history and stats as they were. A failed milestone fetch after it leaves the new history with the old stats |
| DailyCheckIn.Normalise | src/components/dashboard/DailyCheckIn.jsx:32-39 | the loaded check-in has exactly the six habits, each with its stored value when truthy and its default otherwise |
| DailyCheckIn.NormaliseKeepsFields | src/components/dashboard/DailyCheckIn.jsx:32-39 | normalising keeps the number of habits done |
| DailyCheckIn.NormaliseIdempotent | src/components/dashboard/DailyCheckIn.jsx:32-39 | normalising twice is normalising once |
| DailyCheckIn.CardFor | src/components/dashboard/DailyCheckIn.jsx:75-97 | a card is shown exactly when sleep or stress is unticked, and it is that habit's card |
| DailyCheckIn.StreakFrom | src/components/dashboard/DailyCheckIn.jsx:57-67 | the count never runs past the rows |
| DailyCheckIn.CalculateStreak | src/components/dashboard/DailyCheckIn.jsx:49-73 | the loop returns the streak of consecutive days ending today |
| DailyCheckIn.StreakFromSpec | src/components/dashboard/DailyCheckIn.jsx:57-67 | each counted row is dated one day before the previous one, and counting stops at the first gap |
| DailyCheckIn.StreakSpec | src/components/dashboard/DailyCheckIn.jsx:49-73 | the streak is the length of the prefix of rows dated today, yesterday and so on; without a row for today it is 0 |
| DailyCheckIn.TypesOf | src/components/dashboard/DailyCheckIn.jsx:114-120 | the list of awarded types follows the milestones one for one |
| DailyCheckIn.MilestoneTypes | src/components/dashboard/DailyCheckIn.jsx:114-120 | the milestones are named streak_7, streak_14, streak_30, streak_60 and streak_90 |
| DailyCheckIn.AwardedMilestoneNotDueAgain | src/components/dashboard/DailyCheckIn.jsx:114-121 | once a milestone is saved it is not due again |
| DailyCheckIn.StaleStreakMissesSeventhDay | src/components/dashboard/DailyCheckIn.jsx:107-120 | with six earlier days and no save yet today, the stale `streak + 1` awards nothing although the new streak is 7 |
| DailyCheckIn.MilestoneStepSpec | src/components/dashboard/DailyCheckIn.jsx:110-123 | `MilestoneStep`, the milestone step on values, adds `streak_n` exactly when the milestones were read, it is due and its save goes through, and alerts exactly when one of its two requests fails |
| DailyCheckIn.CheckInForm.constructor | src/components/dashboard/DailyCheckIn.jsx:8-15 | the form starts with the default check-in, loading, unsaved and with no card |
| DailyCheckIn.CheckInForm.HandleCheckboxChange | src/components/dashboard/DailyCheckIn.jsx:75-97 | one field changes, the form is marked unsaved and the card follows the field |
| DailyCheckIn.CheckInForm.LoadTodayCheckIn | src/components/dashboard/DailyCheckIn.jsx:26-47 | today's stored check-in, normalised, is shown as saved; without one (or when the request is rejected) the form stays as it was |
| DailyCheckIn.CheckInForm.CalculateStreakOf | src/components/dashboard/DailyCheckIn.jsx:49-73 | the shown streak is the streak of the user's stored check-ins; a failed fetch is logged and keeps the old streak |
| DailyCheckIn.CheckInForm.AwardMilestone | src/components/dashboard/DailyCheckIn.jsx:110-123 | `streak_n` with data `{ streak: n }` is added to the milestones exactly when they were read, it is due and its save goes through; otherwise the milestones are unchanged; the alert shows exactly when one of the two requests fails; no other store changes |
| DailyCheckIn.CheckInForm.RecountAndAward | src/components/dashboard/DailyCheckIn.jsx:108-123 | after the save, the streak is the recount of the stored check-ins (kept when that request fails), and the milestones and alert are those of `MilestoneStep` for the given streak or, without one, the recounted streak; nothing else changes |
| DailyCheckIn.CheckInForm.HandleSave | src/components/dashboard/DailyCheckIn.jsx:99-128 | a failed save alerts with nothing changed. Otherwise today's row is upserted and the form marked saved, and the streak is recomputed (kept when that fetch fails). Then `streak_n` for the stale streak plus one is added exactly when the milestones are read, it is due and its save goes through. The alert shows exactly when a milestone request fails, with the check-in still saved. Users, health data, partnerships and analytics never change |
| DailyCheckIn.CheckInForm.HandleSaveCorrected | src/components/dashboard/DailyCheckIn.jsx:99-128 | the same save with the same failure behaviour, testing the recomputed streak for the milestone |
| Timeline.Phases | src/components/dashboard/Timeline.jsx:34-98 | four phases that start at day 1, follow each other without gap or overlap, and whose third ends with the cycle; the last is the open Optimized Window |
| Timeline.ActiveAndPast | src/components/dashboard/Timeline.jsx:152-154 | no phase is both active and past; before the active phase all are past, after it none is |
| Timeline.ExactlyOnePhase | src/components/dashboard/Timeline.jsx:21-26 | from day 1 on exactly one phase is active, on day 0 none |
| Timeline.CurrentPhase | src/components/dashboard/Timeline.jsx:21-30 | the loop finds the active phase, none on day 0, and past the cycle the last phase |
| Timeline.OverrideAgrees | src/components/dashboard/Timeline.jsx:28-30 | the override past the cycle picks the phase the loop had found anyway |
| Timeline.RemainingText | src/components/dashboard/Timeline.jsx:118-120 | "In optimized window!" shows exactly when no days are left or they are unknown |
| Timeline.RemainingTextSpec | src/components/dashboard/Timeline.jsx:103-120 | the message agrees with the days left of the cycle |
| Timeline.TimelineView.constructor | src/components/dashboard/Timeline.jsx:6-7 | day 0 and no phase at first |
| Timeline.TimelineView.Load | src/components/dashboard/Timeline.jsx:9-32 | with a start date the day is computed; from day 1 on the phase shown is the active one, while on day 0 or a NaN day the phase is not set and keeps its old value; without a start date nothing changes |
| Timeline.StoredUserNeverStartsTimeline | src/db.js:19-27 | a stored user row never has a start date, so the timeline effect never runs for it |
| PartnerPairing.CombinedStreak | src/components/dashboard/PartnerPairing.jsx:289 | the combined figure is the smaller weekly count, and 0 without both stats |
| PartnerPairing.CombinedStreakAtMostAWeek | src/components/dashboard/PartnerPairing.jsx:42-62 | the combined figure is at most 7 and both weekly rates at most 100 |
| PartnerPairing.SecondAddAlwaysRejected | src/components/dashboard/PartnerPairing.jsx:117-126 | the second `createPartnership` reuses the key of the row just found, so it is always rejected |
| PartnerPairing.AddPartnerRow | src/components/dashboard/PartnerPairing.jsx:105-114 | the partner's new row is added and the owner's row kept |
| PartnerPairing.LinkOwnerRow | src/components/dashboard/PartnerPairing.jsx:117-126 | updating the owner's row links it to the partner and keeps the other rows |
| PartnerPairing.CorrectedPairLinksBoth | src/components/dashboard/PartnerPairing.jsx:87-136 | adding the partner's row and then updating the owner's links each partner to the other |
| PartnerPairing.BothFound | src/components/dashboard/PartnerPairing.jsx:26-40 | two rows pointing at each other are what each partner's lookup finds |
| PartnerPairing.PairingView.constructor | src/components/dashboard/PartnerPairing.jsx:14-20 | no partnership, no codes, loading, the form hidden and no stats |
| PartnerPairing.PairingView.LoadStats | src/components/dashboard/PartnerPairing.jsx:42-62 | both stats are taken from each user's seven newest check-ins; the user's own fetch failing keeps both stats, the partner's failing keeps the partner's |
| PartnerPairing.PairingView.LoadPartnership | src/components/dashboard/PartnerPairing.jsx:26-40 | the user's partnership row is loaded and loading ends; a rejected lookup reads as no partnership. With a row found, the user's week of check-ins sets `myStats` unless request 1 fails, and the partner's week sets `partnerStats` unless request 1 or 2 fails or the partner id is not a string; a failed fetch leaves that stat as it was |
| PartnerPairing.PairingView.GenerateCode | src/components/dashboard/PartnerPairing.jsx:82-85 | the shown code is the code drawn from the random source, a valid pairing code; nothing else changes |
| PartnerPairing.PairingView.HandleGenerateAndSave | src/components/dashboard/PartnerPairing.jsx:138-153 | a fresh code is shown and saved with no partner, or an alert shows and nothing changes; loading, the pair form and both stats are never touched |
| PartnerPairing.PairingView.HandlePair | src/components/dashboard/PartnerPairing.jsx:87-136 | an unknown code (or a rejected lookup) and a used code are reported with nothing changed. Otherwise the pairing always fails, leaving at most the partner's own row: with the first add's error, or with the second add's ConstraintError (StorageFailure when that request is rejected). It never succeeds. The shown code, loading and both stats are never touched |
| PartnerPairing.PairingView.LinkPartners | src/components/dashboard/PartnerPairing.jsx:105-126 | when both requests go through and the partner has no row yet, each partner is linked to the other. A failed first write changes nothing. A failed second write keeps the partner's new row. Only partnerships change |
| PartnerPairing.PairingView.HandlePairCorrected | src/components/dashboard/PartnerPairing.jsx:87-136 | when the lookup and both writes go through, the corrected pairing links both partners and resets the form; an unknown or used code changes nothing |
| Synergy.AverageSpec | src/components/premium/PartnerSynergy.jsx:5 | the average is symmetric, lies between the two scores, and equals a score given twice |
| Synergy.SynergySpec | src/components/premium/PartnerSynergy.jsx:6 | synergy is symmetric, at most the lower score, 0 if either is 0, and a partner at 100 leaves the other score as it is |
| Synergy.Tier | src/components/premium/PartnerSynergy.jsx:8-13 | there are four tiers |
| Synergy.SynergyMessageSpec | src/components/premium/PartnerSynergy.jsx:8-13 | each score gets the one message of its tier, and a higher score never gets a lower tier |
| Synergy.GapSpec | src/components/premium/PartnerSynergy.jsx:181 | the gap is symmetric, 0 exactly for equal scores, and bridges the lower score to the higher |
| Synergy.Encouragement | src/components/premium/PartnerSynergy.jsx:197-199 | the thriving message shows exactly from synergy 70 on |
| Synergy.HighTiersNeedBoth | src/components/premium/PartnerSynergy.jsx:6-13 | thriving needs both partners at 70 or more, and the top tier both at 80 or more |
| Premium.TimeOfDayOf | src/components/premium/PremiumDashboard.jsx:25-28 | morning before 12, afternoon from 12 to 16, evening from 17 |
| Premium.TimeOfDayMonotone | src/components/premium/PremiumDashboard.jsx:25-28 | later hours never give an earlier time of day |
| Premium.PremiumStatsSpec | src/components/premium/PremiumDashboard.jsx:33-72 | the vitality score is the weekly rate of the 7 newest check-ins, rates stay within 100, an unpaired user's partner rate is 0 and the history is at most 30 long |
| Premium.CollectiveVitalitySpec | src/components/premium/PremiumDashboard.jsx:102-104 | collective vitality is at most 100: the rounded mean of both weekly rates when paired, the own rate otherwise |
| Premium.CountOf | src/components/premium/PremiumDashboard.jsx:202-210 | a habit count is 0 exactly when no day counts and full exactly when every day does |
| Premium.HabitPercentSpec | src/components/premium/PremiumDashboard.jsx:202-210 | a habit's weekly percentage is 0 exactly when no day of the week counts, and 100 exactly for seven days that all count |
| Premium.NoneCountsOnlyForRate | src/components/premium/PremiumDashboard.jsx:74-90 | exercise "none" counts as done for the rate but not as movement in the breakdown |
| Premium.PremiumDashboardView.constructor | src/components/premium/PremiumDashboard.jsx:13-21 | the stats start at their initial values with no partnership |
| Premium.PremiumDashboardView.Load | src/components/premium/PremiumDashboard.jsx:33-72 | loading sets the time of day and the stats of the user and partner. A failed own fetch, or a failed partner fetch, leaves stats and partnership as they were. A failed partnership lookup reads as unpaired |
| Progress.MonthlyRateSpec | src/components/pages/ProgressPage.jsx:17-47 | the monthly rate covers at most 30 of the user's own check-ins and is 100 exactly when all of them are complete |
| Progress.CalendarDays | src/components/pages/ProgressPage.jsx:78-81 | the calendar shows 30 consecutive days ending today |
| Progress.FindByDate | src/components/pages/ProgressPage.jsx:83 | a day's check-in is found exactly when one is dated that day |
| Progress.DayColourSpec | src/components/pages/ProgressPage.jsx:83-100 | grey for no check-in or nothing done, orange for 1 or 2 habits, yellow for 3 or 4, green from 5 |
| Progress.DayRateValues | src/components/pages/ProgressPage.jsx:85-87 | a day's rate is one of the seven possible percentages |
| Progress.MilestoneLabelSpec | src/components/pages/ProgressPage.jsx:146 | the label replaces only the first underscore with a space and upper-cases the rest |
| Progress.MilestoneLabelWithoutUnderscore | src/components/pages/ProgressPage.jsx:146 | a type without an underscore is just upper-cased |
| Progress.StreakMilestoneLabel | src/components/pages/ProgressPage.jsx:146 | a streak milestone is labelled STREAK n |
| Rituals.RitualTable | src/components/premium/DailyRituals.jsx:6-69 | six rituals, one for each habit field with none repeated; only exercise is special and only temperature is marked female-only |
| Rituals.Toggle | src/components/premium/DailyRituals.jsx:95-96 | toggling flips the field's truthiness and keeps every other field |
| Rituals.ToggleTwice | src/components/premium/DailyRituals.jsx:95-96 | toggling twice brings the field's truthiness back, and a boolean field exactly back |
| Rituals.StoredRowOvercounts | src/components/premium/DailyRituals.jsx:109-119 | a complete stored check-in counts at least 10 truthy values against the header's 6 |
| Rituals.ToggleMovesCountByOne | src/components/premium/DailyRituals.jsx:95-109 | each toggle moves the completed count by exactly one, up or down |
| Rituals.DailyRitualsView.constructor | src/components/premium/DailyRituals.jsx:72-73 | an empty check-in, loading |
| Rituals.DailyRitualsView.LoadTodayCheckIn | src/components/premium/DailyRituals.jsx:79-92 | today's stored check-in is shown and loading ends (a rejected request reads as none); without a user id nothing happens |
| Rituals.DailyRitualsView.ToggleRitual | src/components/premium/DailyRituals.jsx:94-105 | the toggled check-in is saved and shown; a failed save restores the old one and changes nothing stored |
| Rituals.DailyRitualsView.Click | src/components/premium/DailyRituals.jsx:140-142 | the exercise button does nothing; any other ritual is toggled |
| EmailPassword.IndexOf | src/components/onboarding/EmailPassword.jsx:18 | the first position of a character, or the length when it is absent |
| EmailPassword.ValidEmailIsPattern | src/components/onboarding/EmailPassword.jsx:18 | the email check accepts exactly what `/^[^\s@]+@[^\s@]+\.[^\s@]+$/` accepts |
| EmailPassword.HandleNextSpec | src/components/onboarding/EmailPassword.jsx:10-40 | each error shows exactly when its check is the first to fail; the step advances exactly when all pass and passes on only the email and password |
| EmailPassword.PasswordLengthBoundary | src/components/onboarding/EmailPassword.jsx:23 | eight characters are enough and seven are not |
| BasicInfo.HandleNextSpec | src/components/onboarding/BasicInfo.jsx:9-24 | a missing field is reported first, an out-of-range age second, and the step advances exactly when neither is shown |
| BasicInfo.HandleNextUpdate | src/components/onboarding/BasicInfo.jsx:22-23 | only the name, the parsed age and the sex are passed on |
| BasicInfo.TypedAgeAccepted | src/components/onboarding/BasicInfo.jsx:17-22 | a typed age is accepted exactly from 18 to 100 and stored as that integer |
| BasicInfo.NonNumericAgePasses | src/components/onboarding/BasicInfo.jsx:17-22 | an age that is not a number passes the check and is stored as NaN |
| HealthBaseline.InitialSupplements | src/components/onboarding/HealthBaseline.jsx:9 | the list starts from the stored supplements, or empty |
| HealthBaseline.AddSupplementSpec | src/components/onboarding/HealthBaseline.jsx:12-17 | a non-blank input is appended trimmed and cleared; a blank one changes nothing |
| HealthBaseline.AddedSupplementIsTrimmed | src/components/onboarding/HealthBaseline.jsx:13-14 | an added supplement neither starts nor ends with white space |
| HealthBaseline.RemoveAtSpec | src/components/onboarding/HealthBaseline.jsx:19-21 | removing at a position in range drops exactly that one and keeps the order; any other position changes nothing |
| HealthBaseline.RemoveUndoesAdd | src/components/onboarding/HealthBaseline.jsx:12-21 | removing what was just added gives the list back |
| HealthBaseline.HandleNextSpec | src/components/onboarding/HealthBaseline.jsx:23-27 | the step is blocked, with the alert, exactly when exercise or sleep is missing |
| HealthBaseline.HandleNextUpdate | src/components/onboarding/HealthBaseline.jsx:29-36 | exactly the six health fields are passed on, the sleep hours parsed |
| OnboardingFlow.HealthDataOf | src/components/onboarding/OnboardingFlow.jsx:47-54 | the health data is exactly the six health fields of the form |
| OnboardingFlow.SignupDataSpec | src/components/onboarding/OnboardingFlow.jsx:44-63 | signup gets name, age, sex, the health data and a start date, and never the email or password |
| OnboardingFlow.StartDateNotStored | src/components/onboarding/OnboardingFlow.jsx:62 | the start date handed to signup is not kept in the stored user row |
| OnboardingFlow.RenderStepSpec | src/components/onboarding/OnboardingFlow.jsx:79-126 | steps 1 to 5 render a screen, anything else nothing; only step 1 lacks Back and only step 5 completes |
| OnboardingFlow.OfferedMovesStayInRange | src/components/onboarding/OnboardingFlow.jsx:34-40 | moving only through the buttons shown never leaves steps 1 to 5 |
| OnboardingFlow.EventIsAdded | src/components/onboarding/OnboardingFlow.jsx:66-69 | the signup_completed event can always be logged |
| OnboardingFlow.SignupUserRow | src/components/onboarding/OnboardingFlow.jsx:57-63 | the user row stored is the one made from the form's email, hashed password and signup data |
| OnboardingFlow.SignupHealthRowOfData | src/components/onboarding/OnboardingFlow.jsx:47-63 | the health row stored encrypts the form's health data under its password |
| OnboardingFlow.OnboardedSpec | src/components/onboarding/OnboardingFlow.jsx:42-77 | onboarding navigates exactly when the signup finished, and only then can the event be recorded. A refused signup changes nothing. One stopped after `createUser` keeps just the user row. Check-ins, partnerships and milestones never change |
| OnboardingFlow.FinishStepsSpec | src/components/onboarding/OnboardingFlow.jsx:42-77 | for any user, health and event rows: onboarding navigates exactly when the signup finished; a refused signup changes nothing; one stopped after `createUser` keeps only the user row; a finished one keeps both rows and the event unless its request fails |
| OnboardingFlow.OnboardedOfParts | src/components/onboarding/OnboardingFlow.jsx:42-77 | the onboarding outcome is the alert with the signup's database when the signup did not finish, and the dashboard with the tracked database when it did |
| OnboardingFlow.OnboardedWhenAdded | src/components/onboarding/OnboardingFlow.jsx:42-72 | when no request fails and the three rows can be added, onboarding adds exactly them and navigates |
| OnboardingFlow.StoppedOnboardingBlocksRetry | src/components/onboarding/OnboardingFlow.jsx:42-77 | after a signup stopped at the health-data save, completing the same form again always ends in the alert and changes nothing |
| OnboardingFlow.OnboardingFlowView.constructor | src/components/onboarding/OnboardingFlow.jsx:12-25 | the wizard starts at step 1 with the initial form |
| OnboardingFlow.OnboardingFlowView.UpdateFormData | src/components/onboarding/OnboardingFlow.jsx:30-32 | the new values override the form and every other field stays |
| OnboardingFlow.OnboardingFlowView.NextStep | src/components/onboarding/OnboardingFlow.jsx:34-36 | one step forward, the form untouched |
| OnboardingFlow.OnboardingFlowView.PrevStep | src/components/onboarding/OnboardingFlow.jsx:38-40 | one step back, the form untouched |
| OnboardingFlow.OnboardingFlowView.HandleComplete | src/components/onboarding/OnboardingFlow.jsx:42-77 | the route and the database are those of `Onboarded` for the four requests. An unfinished signup alerts, keeping a user row written before the failure. A finished one signs the new user in, keeps the password and navigates, with or without the event. The password is kept from the moment the user row exists |
| OnboardingFlow.SignUpWithForm | src/components/onboarding/OnboardingFlow.jsx:44-63 | the form's signup leaves the database of `SignupOfForm`; it succeeds exactly when that signup finished, and then signs the new user in |
| OnboardingFlow.RecordSignup | src/components/onboarding/OnboardingFlow.jsx:66-69 | the signup_completed event is added unless its request is rejected, and nothing else changes |
| OnboardingFlow.FinishOnboarding | src/components/onboarding/OnboardingFlow.jsx:64-76 | after the signup call, an unfinished signup ends in the alert and a finished one records the event and navigates, which is how `Onboarded` ends; the user and password stay as the signup left them |
| OnboardingFlow.CompleteOnboarding | src/components/onboarding/OnboardingFlow.jsx:42-77 | the complete onboarding outcome, as for HandleComplete |

## Left out

- Crypto primitives. UTF-8, PBKDF2-SHA-256, AES-GCM-256 and JSON are abstract functions. The only properties assumed of them are the inverse laws in `Crypto.Sound`. Nothing is claimed about secrecy or strength. The UTF-8 law is assumed only for `JSON.stringify` output, which never holds a lone surrogate.
- Floating point. Rates round exactly as (2a + b) div 2b. JavaScript's floating-point `Math.round` can differ at exact halves: for 20, 40, 60 or 80 check-ins whose share is 0.575, JavaScript shows 57 and the model 58.
- `progressPercentage` (src/components/dashboard/Timeline.jsx:101, src/components/dashboard/Dashboard.jsx:107) is not modelled. It is a floating-point display value.
- The consistency ratio of src/components/premium/PremiumDashboard.jsx:237 is not modelled. It is a floating-point display value.
- Completion.CompletionRate: the four copies of `calculateCompletionRate` are one function. The copies are src/components/dashboard/Dashboard.jsx:88-104, src/components/dashboard/PartnerPairing.jsx:64-80, src/components/premium/PremiumDashboard.jsx:74-90 and src/components/pages/ProgressPage.jsx:29-45, and they are identical.
- Dates and time zones. Check-in dates are day numbers, and a date's ISO string is a parameter. The mismatch between the UTC dates stored and the local `toDateString` used by `calculateStreak` is not modelled: it needs a time zone.
- `new Date(...)` parsing is a parameter: a function from string to optional milliseconds.
- Clock and randomness are parameters.
- Rendering, `alert`, `navigate`, React's asynchronous state updates and effect scheduling are not modelled. Each handler is one atomic step.
- The HealthWaveChart, FlippableVitalityCard, VitalityRing and GlassCard components, and the week strip of the Movement card, only draw values.
- App.jsx routing, Settings.jsx, CheckInPage.jsx, PartnerPage.jsx, DashboardPreview.jsx, TimelineGeneration.jsx and tailwind.config.js hold no logic the model needs. TimelineGeneration's "74+" label does not match the 75 at src/components/dashboard/Timeline.jsx:60. That is display text and is not modelled.
- `exportUserData` (src/db.js:199-219) is not modelled. No component calls it.
- Base64 decoding does not strip white space. The encoder never produces any.
- JsText.ParseInt and JsText.StringToNumber: `Number(...)` (`StringToNumber`, `ToNumber`) gives exact rationals (`Finite(num, den)`), `Infinity` and NaN. Only the stored `Value.Num` is an integer, which is all `parseInt` produces. Rounding to double precision and overflow of large literals to Infinity are not modelled.
- JsText.ToUpper: only ASCII case mapping is modelled. JavaScript's `toUpperCase` also maps other letters, some of them to more than one character ("ß" becomes "SS"), so it can change the length. Pairing codes are ASCII, and there the models agree.
- Strings are sequences of Dafny `char`, which are Unicode scalar values. JavaScript's UTF-16 code units, lone surrogates and the `length` of characters outside the Basic Multilingual Plane are not modelled.
- Table.Update: an `update` whose changes would move a row to another primary key is rejected with PrimaryKeyChange. Dexie would instead delete the row and add it again under the new key. The application never changes a primary key in an update.
- Dexie internals are not modelled: transactions, indexes other than the primary key, and versioning.
- A storage failure is a rejected request of `Db.Backend`. It stands for any thrown IndexedDB error. Each helper call is one request. `saveCheckIn` reads and then writes, but a failure at either step writes nothing, so one request covers both.
- PartnerPairing.PairingView.LoadStats and Premium.PremiumDashboardView.Load: for a partner id that is not a string, the model fails the partner's `getCheckIns` without making a request. LoadStats then leaves `partnerStats` unchanged; Load leaves `stats` and `partnership` unchanged, as for any failed fetch. The browser rejects a `null` key too, but would query a number id and get no rows. Stored partner ids are always strings or `null`, so the difference is not reachable from the application's own writes. It is the handler's last request, so no later request is renumbered.
- `null` and `undefined` are distinct values. Optional chaining on a missing object is an `Option` in the caller.
- A partner id is tested only for truthiness before the partner's fetch. A truthy id that is not a string makes that fetch fail with the state unchanged (see the line on LoadStats and Load above).

## Findings

| source | as written | input that shows it | evidently intended | confidence | as-written member | corrected member |
|---|---|---|---|---|---|---|
| src/db.js:19-27 | `createUser` builds the user row without `passwordSalt`, although signup passes one (src/AuthContext.jsx:44) | any signup followed by a login with the same password: `atob("undefined")` has length 9, which is 1 mod 4, so it throws | the salt is stored with the hash, so that the password verifies at login | not executed | Auth.LoginOfCreatedUserFails | Auth.LoginOfCorrectedUserSucceeds |
| src/components/dashboard/PartnerPairing.jsx:117-126 | the second `createPartnership` is an `add` with the user id of the row just found, which is the table's primary key | any valid unused code: that key is present, so the add raises ConstraintError and the pairing always alerts | the owner's existing row is updated to point at the partner | not executed | PartnerPairing.SecondAddAlwaysRejected | PartnerPairing.PairingView.HandlePairCorrected |
| src/components/dashboard/DailyCheckIn.jsx:107-110 | the milestone check uses the streak shown before saving, plus one | check-ins on the six previous days and a first save today: the shown streak is 0, so 0 + 1 is checked and streak_7 is not awarded on that save, although the streak after it is 7 | the streak is recomputed after saving and that value is checked | not executed | DailyCheckIn.StaleStreakMissesSeventhDay | DailyCheckIn.CheckInForm.HandleSaveCorrected |
