/**
 * The rows of the backend's Prisma tables (`user`, `alarm`, `match`, `feedback`)
 * as values, the whole database as one value `DbState`, the queries the route
 * handlers issue against it, and the invariant the handlers keep.
 *
 * Tables are sequences in insertion order; `findFirst` returns the first row in
 * that order. Row ids come from one counter (`nextId`) and timestamps from a
 * logical clock (`clock`) that every write advances.
 */
module Tables {
  import opened Wrappers
  import opened Seqs

  type UserId = nat
  type AlarmId = nat
  type Timestamp = nat

  datatype Status = Waiting | Matched

  /** A `user` row. `birthday` is kept as the text the client sent: date parsing is not modelled. */
  datatype User = User(
    id: UserId,
    tossUserId: string,
    name: Option<string>,
    gender: Option<string>,
    birthday: Option<string>,
    instagramId: Option<string>,
    pushEnabled: bool,
    tossAppEnabled: bool,
    maxSlots: int)

  /** An `alarm` row: one user's declaration of interest in `targetInstagramId`. */
  datatype Alarm = Alarm(
    id: AlarmId,
    userId: UserId,
    fromInstagramId: Option<string>,
    targetInstagramId: string,
    status: Status,
    createdAt: Timestamp,
    updatedAt: Timestamp,
    deletedAt: Option<Timestamp>)
  {
    /** Not soft-deleted. */
    predicate Active() { deletedAt.None? }
  }

  /** A `match` row, stored as an ordered pair. */
  datatype Match = Match(id: nat, user1Id: UserId, user2Id: UserId, createdAt: Timestamp)
  {
    /** The row names `a` and `b`, in either stored order. */
    predicate Between(a: UserId, b: UserId) {
      (user1Id == a && user2Id == b) || (user1Id == b && user2Id == a)
    }
  }

  datatype Feedback = Feedback(id: nat, userId: UserId, category: string, content: string, createdAt: Timestamp)

  /** The column defaults of a freshly created user (they live in the Prisma schema). */
  datatype UserDefaults = UserDefaults(pushEnabled: bool, tossAppEnabled: bool, maxSlots: int)

  datatype DbState = DbState(
    users: seq<User>,
    alarms: seq<Alarm>,
    matches: seq<Match>,
    feedback: seq<Feedback>,
    clock: Timestamp,
    nextId: nat,
    defaults: UserDefaults)

  /** What a handler returns together with the database after it. */
  datatype Step<R> = Step(result: R, post: DbState)

  /** JavaScript truthiness of a nullable string: present and not "". */
  predicate Truthy(s: Option<string>) {
    s.Some? && s.value != ""
  }

  /** Two alarms share the unique key `(userId, targetInstagramId)`. */
  predicate SameKey(a: Alarm, b: Alarm) {
    a.userId == b.userId && a.targetInstagramId == b.targetInstagramId
  }

  // ---------------------------------------------------------------- queries

  /** `user.findUnique({ where: { id } })` */
  function UserById(users: seq<User>, id: UserId): (r: Option<User>)
    ensures r.None? <==> forall i :: 0 <= i < |users| ==> users[i].id != id
    ensures r.Some? ==> r.value in users && r.value.id == id
  {
    if users == [] then None
    else if users[0].id == id then Some(users[0])
    else UserById(users[1..], id)
  }

  /** `user.findUnique({ where: { tossUserId } })` */
  function UserByToss(users: seq<User>, toss: string): (r: Option<User>)
    ensures r.None? <==> forall i :: 0 <= i < |users| ==> users[i].tossUserId != toss
    ensures r.Some? ==> r.value in users && r.value.tossUserId == toss
  {
    if users == [] then None
    else if users[0].tossUserId == toss then Some(users[0])
    else UserByToss(users[1..], toss)
  }

  /** `user.findFirst({ where: { instagramId: h } })`: the first user whose profile handle is `h`. */
  function FirstUserWithHandle(users: seq<User>, h: string): (r: Option<User>)
    ensures r.None? <==> forall i :: 0 <= i < |users| ==> users[i].instagramId != Some(h)
    ensures r.Some? ==> exists i :: 0 <= i < |users| && users[i] == r.value && r.value.instagramId == Some(h)
                                    && forall j :: 0 <= j < i ==> users[j].instagramId != Some(h)
  {
    FirstUserWithHandleFrom(users, h, 0)
  }

  /** The scan behind `FirstUserWithHandle`, from position `k` on. */
  function FirstUserWithHandleFrom(users: seq<User>, h: string, k: nat): (r: Option<User>)
    requires k <= |users|
    decreases |users| - k
    ensures r.None? <==> forall i :: k <= i < |users| ==> users[i].instagramId != Some(h)
    ensures r.Some? ==> exists i :: k <= i < |users| && users[i] == r.value && r.value.instagramId == Some(h)
                                    && forall j :: k <= j < i ==> users[j].instagramId != Some(h)
  {
    if k == |users| then None
    else if users[k].instagramId == Some(h) then Some(users[k])
    else FirstUserWithHandleFrom(users, h, k + 1)
  }

  /**
   * `alarm.findUnique({ where: { userId_targetInstagramId } })`: the alarm with
   * this key, soft-deleted or not.
   */
  function AlarmByKey(alarms: seq<Alarm>, userId: UserId, target: string): (r: Option<Alarm>)
    ensures r.None? <==> forall i :: 0 <= i < |alarms| ==> !(alarms[i].userId == userId && alarms[i].targetInstagramId == target)
    ensures r.Some? ==> r.value in alarms && r.value.userId == userId && r.value.targetInstagramId == target
  {
    if alarms == [] then None
    else if alarms[0].userId == userId && alarms[0].targetInstagramId == target then Some(alarms[0])
    else AlarmByKey(alarms[1..], userId, target)
  }

  /** `alarm.findFirst({ where: { id, deletedAt: null } })` */
  function ActiveAlarmById(alarms: seq<Alarm>, id: AlarmId): (r: Option<Alarm>)
    ensures r.None? <==> forall i :: 0 <= i < |alarms| ==> !(alarms[i].id == id && alarms[i].Active())
    ensures r.Some? ==> r.value in alarms && r.value.id == id && r.value.Active()
  {
    if alarms == [] then None
    else if alarms[0].id == id && alarms[0].Active() then Some(alarms[0])
    else ActiveAlarmById(alarms[1..], id)
  }

  /**
   * `alarm.findFirst({ where: { fromInstagramId: from, targetInstagramId: target, deletedAt: null } })`:
   * the first active alarm declared from handle `from` towards handle `target`.
   */
  function FirstActiveReverse(alarms: seq<Alarm>, from: string, target: string): (r: Option<Alarm>)
    ensures r.None? <==> forall i :: 0 <= i < |alarms| ==>
              !(alarms[i].fromInstagramId == Some(from) && alarms[i].targetInstagramId == target && alarms[i].Active())
    ensures r.Some? ==> r.value in alarms && r.value.fromInstagramId == Some(from)
                        && r.value.targetInstagramId == target && r.value.Active()
  {
    if alarms == [] then None
    else if alarms[0].fromInstagramId == Some(from) && alarms[0].targetInstagramId == target && alarms[0].Active()
    then Some(alarms[0])
    else FirstActiveReverse(alarms[1..], from, target)
  }

  /** `match.findFirst({ where: { OR: [{ user1Id: a, user2Id: b }, { user1Id: b, user2Id: a }] } })` */
  function MatchBetween(matches: seq<Match>, a: UserId, b: UserId): (r: Option<Match>)
    ensures r.None? <==> forall i :: 0 <= i < |matches| ==> !matches[i].Between(a, b)
    ensures r.Some? ==> r.value in matches && r.value.Between(a, b)
  {
    if matches == [] then None
    else if matches[0].Between(a, b) then Some(matches[0])
    else MatchBetween(matches[1..], a, b)
  }

  // ---------------------------------------------------------------- writes

  /**
   * Prisma's `update({ where: { id }, data })` on a table whose rows `idOf`
   * identifies, with `x` the whole row after the update: every row with that
   * id becomes `x`, and every other row stays.
   */
  function ReplaceById<T>(rows: seq<T>, idOf: T -> nat, x: T): (r: seq<T>)
    ensures |r| == |rows|
    ensures forall i :: 0 <= i < |rows| ==> r[i] == if idOf(rows[i]) == idOf(x) then x else rows[i]
  {
    seq(|rows|, i requires 0 <= i < |rows| => if idOf(rows[i]) == idOf(x) then x else rows[i])
  }

  function AlarmRowId(a: Alarm): nat { a.id }

  function UserRowId(u: User): nat { u.id }

  /** `alarm.update({ where: { id: a.id }, data })` */
  function ReplaceAlarm(alarms: seq<Alarm>, a: Alarm): (r: seq<Alarm>)
    ensures |r| == |alarms|
    ensures forall i :: 0 <= i < |alarms| ==> r[i] == if alarms[i].id == a.id then a else alarms[i]
  {
    ReplaceById(alarms, AlarmRowId, a)
  }

  /** The `where` of the `alarm.updateMany` that marks a new match. */
  predicate KeyedBy(a: Alarm, u1: UserId, t1: string, u2: UserId, t2: string) {
    (a.userId == u1 && a.targetInstagramId == t1) || (a.userId == u2 && a.targetInstagramId == t2)
  }

  /** `alarm.updateMany({ where: { OR: [key1, key2] }, data: { status: 'matched' } })`, soft-deleted rows included. */
  function MarkMatched(alarms: seq<Alarm>, u1: UserId, t1: string, u2: UserId, t2: string): (r: seq<Alarm>)
    ensures |r| == |alarms|
    ensures forall i :: 0 <= i < |alarms| ==>
              r[i] == if KeyedBy(alarms[i], u1, t1, u2, t2) then alarms[i].(status := Matched) else alarms[i]
  {
    seq(|alarms|, i requires 0 <= i < |alarms| =>
      if KeyedBy(alarms[i], u1, t1, u2, t2) then alarms[i].(status := Matched) else alarms[i])
  }

  /** `match.deleteMany` of every row between `a` and `b`, in either stored order. */
  function WithoutMatchesBetween(matches: seq<Match>, a: UserId, b: UserId): (r: seq<Match>)
    ensures forall m :: m in r <==> m in matches && !m.Between(a, b)
    ensures |r| <= |matches|
  {
    Filter(matches, (m: Match) => !m.Between(a, b))
  }

  /** `user.update({ where: { id: u.id }, data })` */
  function ReplaceUser(users: seq<User>, u: User): (r: seq<User>)
    ensures |r| == |users|
    ensures forall i :: 0 <= i < |users| ==> r[i] == if users[i].id == u.id then u else users[i]
  {
    ReplaceById(users, UserRowId, u)
  }

  // ---------------------------------------------------------------- invariant

  /** At most one row per user id and per Toss account id; every id was issued by the counter. */
  ghost predicate UsersWellFormed(users: seq<User>, nextId: nat) {
    && (forall i, j :: 0 <= i < j < |users| ==> users[i].id != users[j].id && users[i].tossUserId != users[j].tossUserId)
    && (forall i :: 0 <= i < |users| ==> users[i].id < nextId)
  }

  /** At most one alarm per `(userId, targetInstagramId)`, soft-deleted ones included. */
  ghost predicate KeysUnique(alarms: seq<Alarm>) {
    forall i, j :: 0 <= i < j < |alarms| ==> !SameKey(alarms[i], alarms[j])
  }

  /**
   * Alarm ids are unique and issued by the counter, and the table is in
   * creation order: `createdAt` strictly increases along it and stays below the clock.
   */
  ghost predicate AlarmsWellFormed(alarms: seq<Alarm>, nextId: nat, clock: Timestamp) {
    && KeysUnique(alarms)
    && (forall i, j :: 0 <= i < j < |alarms| ==> alarms[i].id != alarms[j].id && alarms[i].createdAt < alarms[j].createdAt)
    && (forall i :: 0 <= i < |alarms| ==> alarms[i].id < nextId && alarms[i].createdAt < clock)
  }

  /** At most one match row per unordered pair of users. */
  ghost predicate PairsUnique(matches: seq<Match>) {
    forall i, j :: 0 <= i < j < |matches| ==> !matches[j].Between(matches[i].user1Id, matches[i].user2Id)
  }

  ghost predicate Inv(s: DbState) {
    && UsersWellFormed(s.users, s.nextId)
    && AlarmsWellFormed(s.alarms, s.nextId, s.clock)
    && PairsUnique(s.matches)
  }

  /** Deleting match rows keeps the pairs unique. */
  lemma WithoutMatchesKeepsPairsUnique(matches: seq<Match>, a: UserId, b: UserId)
    requires PairsUnique(matches)
    ensures PairsUnique(WithoutMatchesBetween(matches, a, b))
  {
    var rel := (m1: Match, m2: Match) => !m2.Between(m1.user1Id, m1.user2Id);
    assert Pairwise(matches, rel);
    FilterKeepsPairwise(matches, (m: Match) => !m.Between(a, b), rel);
  }

  /** Updating a user row in place, without touching its ids, keeps the user table well formed. */
  lemma ReplaceUserKeepsWellFormed(users: seq<User>, nextId: nat, u: User, k: nat)
    requires UsersWellFormed(users, nextId)
    requires k < |users| && users[k].id == u.id && users[k].tossUserId == u.tossUserId
    ensures UsersWellFormed(ReplaceUser(users, u), nextId)
    ensures forall i :: 0 <= i < |users| && i != k ==> ReplaceUser(users, u)[i] == users[i]
  {
  }

  /** The database right after a fresh install: empty tables. */
  function Empty(defaults: UserDefaults): (s: DbState)
    ensures Inv(s)
  {
    DbState([], [], [], [], 0, 0, defaults)
  }
}
