# Love Alarm: the declaration and match engine

Love Alarm lets a user secretly "declare" another person by Instagram handle.
When two people have declared each other, the service creates a match and
tells both. This project models that engine and proves its rules. It covers:

- **Matching service** (`Matching`). It finds the user who owns a handle and
  looks for that user's alarm pointing back at the caller. When one exists it
  creates the match row once and marks both alarms `matched`.
- **Alarm routes** (`AlarmRoutes`):
  - list a user's active alarms, newest first;
  - declare: create, restore a soft-deleted alarm, or refuse an active
    duplicate with 409, then run the match check and emit a `matched` event;
  - withdraw: a soft delete that reverts the other side's alarm to `waiting`,
    deletes the match rows and emits `matchCanceled`.
- **Socket registry** (`Sessions`): the user-to-socket map, with `register`
  and the `disconnect` loop.
- **User, auth and feedback routes** (`UserRoutes`, `AuthRoutes`,
  `FeedbackRoutes`):
  - profile handle, notification settings and slot purchase;
  - find-or-create login that only fills empty profile fields, and the
    account-deleting disconnect callback;
  - the feedback validation chain and insert.
- **Offline prototype's alarm store** (`AlarmService`): a list in key/value
  storage with add, remove, pairwise matching and a bulk rescan.
- **The two "add alarm" pages:**
  - the web front end (`AddAlarmPage`): handle validators, submit chain,
    normalised request and navigation;
  - the prototype (`ProtoAddAlarmPage`): character-set check, paywall, and a
    second match check that chooses the next screen.

**How the database is modelled.** The backend's tables are sequences of
records in `Tables.DbState`, held by the mutable `Store.Database`.
- Each route is a method on the database whose `ensures` ties its result and
  the new state to a pure function of the old state (`...Spec`).
- The lemmas state the route's promises about that function.
- Every route keeps `Tables.Inv`: one alarm per `(userId, targetInstagramId)`,
  unique ids, creation order, and one match row per pair of users.
- A `findFirst` with no `orderBy` returns the first matching row in table
  (insertion) order.
- A Prisma `update` of a missing row throws and becomes the handler's 500
  (`Http.ServerError`).
- A body field that is absent or empty is `None` or `Some("")`; the sources'
  `!x` tests are `!Truthy(x)`.

**Behaviours the model keeps as written:**
- The declare route calls `checkMatching` with four arguments, but the
  service takes three. The service therefore looks up the user owning the
  *declarer's own* handle, so two people who declare each other do not match
  through the route (`AlarmRoutes.MutualDeclarationsDoNotMatch`).
- The self-target check is exact, case-sensitive equality.
- The reverse-alarm lookup and the status update ignore `deletedAt`.
- Unmatch on withdrawal keys on the alarm's own handle strings.
- In the prototype, `addAlarm` already runs the match check, so the page's
  second check cannot see the pair it just matched. A single mutual pair
  therefore lands on the alarm list, not the match screen
  (`ProtoAddAlarmPage.SinglePairGoesToAlarmList`).
- The feedback router is modelled, but the server never mounts it
  (backend/src/index.js:69-72 mount only auth, users and alarms).

## Model

| member | source | states |
|---|---|---|
| Matching.CheckMatching | backend/src/services/matching.js:10-78 | The check as a method on the database: result and new state are those of `CheckMatchingSpec`, and the database invariant is kept |
| Matching.TargetNotRegisteredIff | backend/src/services/matching.js:13-20 | `target_not_registered` exactly when no user has profile handle `t`; then `matched` is false and nothing is written |
| Matching.NoOwnHandleNoMatch | backend/src/services/matching.js:23-26 | A current user with no handle of their own never matches and nothing is written |
| Matching.NoMatchWritesNothing | backend/src/services/matching.js:17-40 | Every `matched: false` outcome leaves the database unchanged and carries no match row and no target user |
| Matching.MatchedIff | backend/src/services/matching.js:13-40 | Matched iff the first user with handle `t` exists, the current user has a handle, and some alarm of that user targets it |
| Matching.SoftDeletedReverseStillMatches | backend/src/services/matching.js:28-35 | A soft-deleted reverse alarm still produces a match: the lookup has no `deletedAt` filter |
| Matching.ExistingMatchIsReused | backend/src/services/matching.js:44-55 | If a match row exists for the pair in either order, the result is `already_matched` with that same row, and nothing is written |
| Matching.NewMatchAppendsOneRow | backend/src/services/matching.js:57-63 | A new match appends exactly one row `{user1Id: current, user2Id: target}` for a pair that had none; users and feedback are untouched |
| Matching.OnlyKeyedAlarmsChange | backend/src/services/matching.js:66-74 | Only alarms keyed `(current, t)` or `(target, current handle)` change, and only their status, which becomes `matched` |
| Matching.NewMatchMarksBothKeys | backend/src/services/matching.js:66-74 | A new match marks every alarm keyed `(current, t)` or `(target, current handle)`: the reverse alarm the check found, and the declarer's own alarm on `t` if any, are then looked up as `matched` |
| Matching.MarkedKeyLookup | backend/src/services/matching.js:66-74 | After the marking, a key lookup for either marked key finds the row it found before, with status `matched` |
| Matching.RowsKeepIdentity | backend/src/services/matching.js:66-74 | Every alarm row keeps its position and every field except its status |
| Matching.MatchedNamesTargetUser | backend/src/services/matching.js:54-77 | Every `matched: true` result names the first user whose handle is `t` |
| Matching.RepeatIsIdempotent | backend/src/services/matching.js:44-63 | A second check right after a success writes nothing and returns the same match as `already_matched` |
| Matching.CheckMatchingKeepsInv | backend/src/services/matching.js:57-74 | The check keeps the invariant, in particular at most one match row per unordered pair |
| Matching.MatchBetweenAppended | backend/src/services/matching.js:44-63 | A row appended for a pair that had none is the one the `findFirst` lookup then returns |
| Matching.MarkMatchedKeepsKeys | backend/src/services/matching.js:66-74 | Marking alarms matched keeps every `(userId, targetInstagramId)` key findable |
| AlarmRoutes.List | backend/src/routes/alarms.js:10-34 | 400 iff `userId` is missing; otherwise exactly that user's alarms with no `deletedAt`, strictly newest first |
| AlarmRoutes.ActiveAlarmsOf | backend/src/routes/alarms.js:18-25 | The filter keeps exactly the user's active alarms and preserves creation order |
| AlarmRoutes.Create | backend/src/routes/alarms.js:40-119 | POST as a method on the database and registry: result, emission and new state are those of `CreateSpec`, and the invariant is kept |
| AlarmRoutes.CreateWritePath | backend/src/routes/alarms.js:63-114 | Past the three rejections and the conflict, POST answers 201 with the restored or inserted row and the match check's `matched` and `match` on the state after that write, emitting only as `MatchedEmission` says |
| AlarmRoutes.CreateRejections | backend/src/routes/alarms.js:43-60 | Rejections in order: 400 for a missing field, 404 for an unknown user, 400 for an exactly equal handle; none writes or emits |
| AlarmRoutes.CreateConflictIff | backend/src/routes/alarms.js:63-87 | 409 exactly when an active alarm with the key exists; nothing is written then |
| AlarmRoutes.CreateRestoresInPlace | backend/src/routes/alarms.js:71-83 | A soft-deleted alarm for the key is restored in place: same id and creation time, `deletedAt` cleared, `fromInstagramId` overwritten, status `waiting`, no row added |
| AlarmRoutes.CreateInsertsOne | backend/src/routes/alarms.js:88-93 | With no alarm for the key, exactly one new `waiting` alarm is appended under a fresh id |
| AlarmRoutes.CreateKeepsInv | backend/src/routes/alarms.js:63-96 | Every outcome of POST keeps at most one alarm per `(userId, targetInstagramId)`, unique ids and one match per pair |
| AlarmRoutes.DeclareKeepsInv | backend/src/routes/alarms.js:63-93 | Restoring or inserting keeps the alarm table well formed |
| AlarmRoutes.RestoreKeepsInv | backend/src/routes/alarms.js:71-83 | Restoring a soft-deleted row rewrites it in place with its id, key and creation time, so the table stays well formed |
| AlarmRoutes.InsertKeepsInv | backend/src/routes/alarms.js:88-92 | Inserting for an unused key appends a row with a fresh id and the latest creation time, so the table stays well formed |
| AlarmRoutes.KeyedAlarmIsFound | backend/src/routes/alarms.js:63-66 | With unique keys, the `findUnique` on an alarm's key returns that alarm |
| AlarmRoutes.CreateEmitsOnlyToMatchedUser | backend/src/routes/alarms.js:96-108 | `matched` is emitted only on a match, only to the socket registered for the matched user, and names the declarer's profile handle |
| AlarmRoutes.MutualDeclarationsDoNotMatch | backend/src/routes/alarms.js:96 | Two users declaring each other get no match through POST, because the service receives the declarer's own handle; called with the target handle it would match |
| AlarmRoutes.CreatedRowIsActive | backend/src/routes/alarms.js:40-96 | After a successful POST the request was complete and the declared row is in the table, active and keyed by the request |
| AlarmRoutes.DeclaredRowIndex | backend/src/routes/alarms.js:63-93 | The declared row sits at the returned index, active and keyed `(uid, target)` |
| AlarmRoutes.Delete | backend/src/routes/alarms.js:126-196 | DELETE as a method on the database and registry: result, emission and new state are those of `DeleteSpec`, and the invariant is kept |
| AlarmRoutes.UnmatchWrite | backend/src/routes/alarms.js:144-182 | The unmatch half of DELETE written in place: the rows it writes and the event it emits are those of `Unmatch` |
| AlarmRoutes.UnmatchOnlyChangesStatus | backend/src/routes/alarms.js:144-182 | The unmatch half changes only the `status` of alarm rows, never their number, ids or keys, and no user row |
| AlarmRoutes.DeleteNotFoundIff | backend/src/routes/alarms.js:131-141 | 404 with no write exactly when no active alarm has the id (absent or already withdrawn) |
| AlarmRoutes.DeleteIsSoft | backend/src/routes/alarms.js:184-188 | A successful DELETE removes no row; every row keeps id, key and creation time, and the withdrawn row gets `deletedAt` |
| AlarmRoutes.DeleteRevertsReverse | backend/src/routes/alarms.js:144-182 | Withdrawing a matched alarm that has its own handle, when an active reverse alarm exists: that reverse returns to `waiting`, no match between the owners remains, and only the reverse owner is sent `matchCanceled` |
| AlarmRoutes.DeleteTouchesOnlyTwoRows | backend/src/routes/alarms.js:144-188 | In that case the withdrawn row only gains its `deletedAt`, the reverse row only returns to `waiting`, and every other alarm, every user and the feedback stay as they were |
| AlarmRoutes.DeleteWithoutReverseOnlySoftDeletes | backend/src/routes/alarms.js:144-188 | Otherwise DELETE only soft-deletes: no other row and no match row changes, and nothing is emitted |
| AlarmRoutes.DeleteKeepsInv | backend/src/routes/alarms.js:144-188 | DELETE keeps the database invariant |
| AlarmRoutes.SetStatusKeepsAlarmsWellFormed | backend/src/routes/alarms.js:157-188 | Setting a status or `deletedAt` by id keeps the alarm table well formed |
| AlarmRoutes.WithdrawnRowIsRestored | backend/src/routes/alarms.js:71-83 | Withdrawing an active alarm and declaring its key again restores that row |
| AlarmRoutes.RedeclareAfterWithdrawKeepsId | backend/src/routes/alarms.js:63-188 | Declare, withdraw, declare again: the second declaration restores the first row under the same id |
| Sessions.Registry.Lookup | backend/src/index.js:30 | `userSockets.get(u)` is `None` exactly when no entry has key `u`, and otherwise a socket registered for `u` |
| Sessions.Registry.Register | backend/src/index.js:36-38 | `register` stores `Set(entries, u, socket)` and keeps keys distinct |
| Sessions.Registry.Disconnect | backend/src/index.js:42-51 | The loop leaves exactly `RemoveFirstValue(entries, socket)` and keeps keys distinct |
| Sessions.GetAfterSet | backend/src/index.js:36-38 | After `register(u)` from `s`, `u` looks up `s`; every other user looks up what it did before |
| Sessions.SetPlacement | backend/src/index.js:36-38 | A new user is appended at the end of insertion order; a registered one is overwritten in place |
| Sessions.RemoveFirstValueAt | backend/src/index.js:44-50 | Exactly the first entry holding the socket, in insertion order, is removed |
| Sessions.RemoveAbsentValue | backend/src/index.js:44-51 | A socket held by no entry leaves the map unchanged |
| Sessions.SharedSocketKeepsLaterUsers | backend/src/index.js:46-49 | When one socket registered several users, every user after the first keeps its entry, because of the `break` |
| Sessions.LookupSurvivesOtherDisconnect | backend/src/index.js:37-47 | A user's lookup survives the disconnect of any other socket |
| UserRoutes.GetUser | backend/src/routes/users.js:9-26 | 404 exactly when no user has the id; otherwise that user's row, with no write |
| UserRoutes.PutInstagram | backend/src/routes/users.js:37-56 | PUT as a method on the database: result and new state are those of `PutInstagramSpec`, and the invariant is kept |
| UserRoutes.PutInstagramRejections | backend/src/routes/users.js:42-49 | A missing or empty handle is 400 and an unknown id is 500, with no write |
| UserRoutes.PutInstagramWritesOnlyHandle | backend/src/routes/users.js:46-51 | A successful PUT changes only the user's `instagramId`; every other column, row and table stays as it was |
| UserRoutes.HandlesMayBeShared | backend/src/routes/users.js:34-49 | Two users can end up with the same handle: PUT has no uniqueness check |
| UserRoutes.PatchSettings | backend/src/routes/users.js:64-90 | PATCH as a method: result and new state are those of `PatchSettingsSpec` |
| UserRoutes.PatchSettingsRejections | backend/src/routes/users.js:69-81 | Neither flag supplied is 400, and an unknown id is 500; neither writes |
| UserRoutes.PatchChangesOnlySuppliedFlags | backend/src/routes/users.js:74-81 | Exactly the supplied flags are set; an unsupplied flag keeps its value, and nothing else changes |
| UserRoutes.PurchaseSlot | backend/src/routes/users.js:99-124 | purchase-slot as a method: result and new state are those of `PurchaseSlotSpec` |
| UserRoutes.PurchaseSlotAddsOne | backend/src/routes/users.js:103-119 | Unknown user: 404 with no write; otherwise stored `maxSlots` is old + 1, `newMaxSlots` equals it, and nothing else changes |
| UserRoutes.PutInstagramKeepsInv | backend/src/routes/users.js:46-49 | PUT keeps the database invariant |
| UserRoutes.PatchSettingsKeepsInv | backend/src/routes/users.js:78-81 | PATCH keeps the database invariant |
| UserRoutes.PurchaseSlotKeepsInv | backend/src/routes/users.js:112-115 | purchase-slot keeps the database invariant |
| AuthRoutes.Login | backend/src/routes/auth.js:17-65 | Login as a method: result and new state are those of `LoginSpec`, and the invariant is kept |
| AuthRoutes.Fill | backend/src/routes/auth.js:47-48 | A stored name or gender is replaced only when it is empty and the supplied value is not |
| AuthRoutes.FillDate | backend/src/routes/auth.js:49 | A stored birthday is replaced only when it is null and a value is supplied |
| AuthRoutes.LoginNeedsTossId | backend/src/routes/auth.js:21-23 | No `tossUserId`: 400 with no write; with one, login always succeeds |
| AuthRoutes.LoginCreatesUnknown | backend/src/routes/auth.js:32-43 | An unknown Toss account gets one new row under a fresh id, unsent fields null, no handle, and `isNewUser` true |
| AuthRoutes.LoginFillsOnlyMissing | backend/src/routes/auth.js:45-58 | A known account is never new, and no stored profile value is overwritten; other columns and rows stay as they were |
| AuthRoutes.LoginWithNothingToFillWritesNothing | backend/src/routes/auth.js:51-57 | A known account with nothing to fill is not written |
| AuthRoutes.RepeatedLoginCreatesNoSecondUser | backend/src/routes/auth.js:26-34 | A second login with the same Toss id finds the same account, not new, and adds no row |
| AuthRoutes.LoginLeavesAccountFindable | backend/src/routes/auth.js:26-34 | After a login the Toss id finds exactly the account the login returned |
| AuthRoutes.LoginOfKnownAccount | backend/src/routes/auth.js:26-34 | A login with a known Toss id reports that account's id, not as new, and adds no row |
| AuthRoutes.Disconnect | backend/src/routes/auth.js:72-97 | Disconnect as a method: result and new state are those of `DisconnectSpec`, and the invariant is kept |
| AuthRoutes.DisconnectRejectsAndIgnores | backend/src/routes/auth.js:76-92 | No Toss id is 400; an unknown account is a success that writes nothing |
| AuthRoutes.DisconnectCascades | backend/src/routes/auth.js:80-90 | A known account's row, its alarms and every match naming it are removed; every other row is kept |
| AuthRoutes.LoginAfterDisconnectIsNew | backend/src/routes/auth.js:26-43 | After a disconnect, logging in again creates a new account under a new id |
| AuthRoutes.LoginKeepsInv | backend/src/routes/auth.js:32-58 | Login keeps the database invariant |
| AuthRoutes.DisconnectKeepsInv | backend/src/routes/auth.js:85-90 | Disconnect keeps the database invariant |
| FeedbackRoutes.Submit | backend/src/routes/feedback.js:11-67 | The handler as a method: result and new state are those of `SubmitSpec`, and the invariant is kept |
| FeedbackRoutes.SubmitRejections | backend/src/routes/feedback.js:16-33 | A missing or empty field, an unknown category, trimmed content under 10, or raw content over 500 is a 400 with no write |
| FeedbackRoutes.ValidationPrecedesLookup | backend/src/routes/feedback.js:16-42 | An invalid body gets the same 400 whatever the database holds; a valid body from an unknown user gets 404 |
| FeedbackRoutes.StoredFeedbackIsTrimmed | backend/src/routes/feedback.js:44-61 | The stored row holds the trimmed content (10 to 500 characters, no surrounding space) and a listed category; the receipt exposes only id, category and time |
| FeedbackRoutes.SubmitKeepsInv | backend/src/routes/feedback.js:45-51 | The insert keeps the database invariant |
| AlarmService.LocalAlarmStore.GetAllAlarms | src/utils/alarm.js:8-10 | The stored list, or the empty list when the key is absent |
| AlarmService.LocalAlarmStore.IsFirstAlarmFree | src/utils/alarm.js:103-105 | True exactly when the first-alarm flag is not stored as true |
| AlarmService.LocalAlarmStore.GetAlarmCount | src/utils/alarm.js:108-110 | The stored counter, or 0 when absent |
| AlarmService.LocalAlarmStore.AddAlarm | src/utils/alarm.js:13-39 | Stores `AfterAdd` of the old list and the new alarm (trimmed handles, unmatched), sets the flag, counts one more |
| AlarmService.LocalAlarmStore.RemoveAlarm | src/utils/alarm.js:42-46 | Stores the list without the alarms carrying the id; the counters do not change |
| AlarmService.LocalAlarmStore.CheckMatching | src/utils/alarm.js:49-73 | True iff the list holds an unmatched reverse of the alarm; then it stores the list with both ids marked, otherwise nothing is written |
| AlarmService.LocalAlarmStore.CheckAllMatchings | src/utils/alarm.js:76-100 | The loop reports and stores what `LastRescanWrite` gives for the unmatched alarms of the snapshot |
| AlarmService.FindReverse | src/utils/alarm.js:53-58 | `None` iff no alarm is an unmatched reverse; otherwise one that is |
| AlarmService.MatchWriteMarksPair | src/utils/alarm.js:60-68 | A successful check marks exactly the alarms carrying the new id or the first reverse's id and keeps every other alarm |
| AlarmService.SelfTargetMatchesItself | src/utils/alarm.js:53-67 | A stored, unmatched, self-targeting alarm is its own reverse and gets marked |
| AlarmService.AddAppendsOne | src/utils/alarm.js:13-23 | `addAlarm` keeps the earlier alarms in order (only their matched flag may turn true) and appends one alarm with the trimmed handles and the clock reading as id |
| AlarmService.AddMatchesIff | src/utils/alarm.js:36 | The new alarm ends up matched exactly when the old list held an unmatched reverse, or it targets itself |
| AlarmService.SecondCheckIff | src/utils/alarm.js:49-73 | A second check after a success matches only through another unmatched reverse, with neither marked id |
| AlarmService.RemoveDropsId | src/utils/alarm.js:42-46 | Removing keeps exactly the alarms with another id, every copy of each, in their order: any relation between an earlier and a later alarm still holds between the survivors |
| AlarmService.RescanReportsIff | src/utils/alarm.js:80-99 | The rescan reports true iff some unmatched alarm of the snapshot has a reverse among the unmatched ones |
| AlarmService.RescanKeepsOnlyLastPair | src/utils/alarm.js:89-95 | With two reverse pairs, each write starts from the snapshot, so only the last pair ends up matched |
| AddAlarmPage.BlankIsNotInvalid | frontend/src/pages/AddAlarmPage.jsx:106-108 | Text that is blank after trimming shows no format error |
| AddAlarmPage.InvalidIff | frontend/src/pages/AddAlarmPage.jsx:106-111 | Non-blank text is invalid iff its trimmed, lower-cased form is over 30 characters or leaves `[a-z0-9._]` |
| AddAlarmPage.UpperCaseAccepted | frontend/src/pages/AddAlarmPage.jsx:106-111 | A trimmed handle of `[a-zA-Z0-9._]`, at most 30 long, is valid: upper case is accepted |
| AddAlarmPage.SubmitChecksInOrder | frontend/src/pages/AddAlarmPage.jsx:37-65 | Submit rejects blank first, then a format error on either field, then the same handle, in agreement with the field validators |
| AddAlarmPage.SentHandlesAreWellFormed | frontend/src/pages/AddAlarmPage.jsx:69-78 | The handles sent are trimmed and lower-cased, match `[a-z0-9._]{1,30}`, and differ |
| AddAlarmPage.EnabledIffProceed | frontend/src/pages/AddAlarmPage.jsx:333 | With no submit running, the save button is enabled exactly when a submit would proceed |
| AddAlarmPage.FieldErrorDisablesSave | frontend/src/pages/AddAlarmPage.jsx:117-136 | A field error on screen always disables the save button |
| AddAlarmPage.SentHandlesPassBackendChecks | frontend/src/pages/AddAlarmPage.jsx:69-78 | The handles a passing submit sends never get the backend's 400 (missing field or self-target) |
| AddAlarmPage.AddAlarmForm.constructor | frontend/src/pages/AddAlarmPage.jsx:23-28 | Mounting pre-fills the own handle from local storage when one is saved |
| AddAlarmPage.AddAlarmForm.HandleSubmit | frontend/src/pages/AddAlarmPage.jsx:37-65 | A rejected submit shows its toast and changes nothing else; a passing one saves the handle, sends both normalised handles and navigates or shows the error |
| AddAlarmPage.AddAlarmForm.AddAlarm | frontend/src/pages/AddAlarmPage.jsx:67-92 | Saves the normalised own handle, sends both, then goes to the match screen with the alarm id, to the list with the added toast, or shows the error message |
| ProtoAddAlarmPage.PaywallIff | src/pages/AddAlarmPage.jsx:19-37 | The paywall shows exactly for well-formed handles once the free alarm is used and the count is positive; otherwise they go to the add |
| ProtoAddAlarmPage.WebAcceptsOnlyWhatPrototypeAccepts | src/pages/AddAlarmPage.jsx:25-29 | Every handle pair the web page accepts passes the prototype's character-set check |
| ProtoAddAlarmPage.SameHandleOnlyPrototypeAccepts | src/pages/AddAlarmPage.jsx:19-37 | The prototype adds the same handle on both sides; the web page refuses it |
| ProtoAddAlarmPage.Page.HandleSubmit | src/pages/AddAlarmPage.jsx:18-38 | Alert for blank or malformed handles, payment sheet behind the paywall, otherwise the add, with the store untouched on the first three |
| ProtoAddAlarmPage.Page.AddAlarm | src/pages/AddAlarmPage.jsx:40-59 | The store adds the raw handles, the page checks again, and it navigates on that second answer |
| ProtoAddAlarmPage.Page.HandlePaymentSuccess | src/pages/AddAlarmPage.jsx:61-64 | Closes the payment sheet and performs the add |
| ProtoAddAlarmPage.MatchScreenIff | src/pages/AddAlarmPage.jsx:43-52 | The match screen shows iff the store's own check matched and another unmatched reverse with neither marked id exists |
| ProtoAddAlarmPage.SinglePairGoesToAlarmList | src/pages/AddAlarmPage.jsx:43-52 | A single mutual pair is matched in storage but the page goes to the alarm list |
| Text.LowerOfHandle | src/pages/AddAlarmPage.jsx:25 | `[a-zA-Z0-9._]+` holds iff the lower-cased text satisfies `[a-z0-9._]+` |
| Text.TrimShape | src/utils/alarm.js:17-18 | `trim` returns an infix of its input that neither starts nor ends with a space, only white space is dropped on either side, and the result is empty exactly when the input is all white space |
| Text.NormalizeIdempotent | frontend/src/pages/AddAlarmPage.jsx:71-72 | Trimming and lower-casing twice is the same as once |

## Left out

- Push notifications (the Toss API client and its preference gate), Toss login token exchange and decryption, the front end's API and socket client, and all other React UI: network, cryptography and rendering only.
- Socket delivery: an emission is recorded as the pair (socket id, event), and `io.on` wiring and Express middleware are not modelled.
- Timestamps: `new Date()` is a logical clock in the database and a `now` parameter in the prototype. Birthday parsing is not modelled: the birthday is kept as the text sent.
- Concurrency: handlers run one at a time, so the unguarded read-then-write race on mutual declarations is not modelled.
- Column defaults come from a `UserDefaults` parameter, because the schema is not part of this model. The account-deletion cascade follows the route's own comment (alarms and matches go with the user). Feedback rows are not cascaded.
- `updatedAt` bumps are not modelled. Errors other than updating a missing row (500) are not modelled. Settings values are booleans.
- Unicode: `trim` and `toLowerCase` are modelled on ASCII, and length counts characters, not UTF-16 units.
- Ids are natural numbers from one counter rather than generated strings.
- The prototype's storage wrapper is not part of this model. An absent or unreadable key reads as absent, and a failed write (quota) is not modelled, so the page's error alert is unreachable here.
- Sessions.Registry.Disconnect: returns at the removed entry where the source breaks out of the loop; the effect is the same.
- ProtoAddAlarmPage.Page.HandleSubmit: reads the free-alarm flag and count from the store when called, where the page uses the values from its last render; the two agree once the page has re-rendered after each add.
- AlarmService.LocalAlarmStore.AddAlarm: two alarms added at the same clock reading share an id, as in the source; nothing is proved about distinct ids.
- Tables.FirstUserWithHandle and Tables.FirstActiveReverse: Prisma's `findFirst` without `orderBy` may return any matching row; the model always returns the first in insertion order. When several users share a handle (which the user routes allow), or several active alarms point back, `Matching.MatchedNamesTargetUser`, `AlarmRoutes.DeleteRevertsReverse` and `AlarmRoutes.DeleteTouchesOnlyTwoRows` speak of that first row, and the model does not cover the database choosing another.
