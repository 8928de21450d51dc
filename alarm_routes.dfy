/**
 * The backend's `/api/alarms` router: list a user's active alarms newest
 * first, declare (create, or restore a soft-deleted alarm, then run the match
 * check), and withdraw (soft delete, reverting a match on the other side).
 */
module AlarmRoutes {
  import opened Wrappers
  import opened Tables
  import opened Http
  import Store
  import Matching
  import Sessions

  datatype CreateRequest = CreateRequest(userId: Option<UserId>, fromInstagramId: Option<string>, targetInstagramId: Option<string>)

  /** The 201 body `{ alarm, matched, match }`. */
  datatype Created = Created(alarm: Alarm, matched: bool, matchRow: Option<Match>)

  /** A response together with the socket event the handler emitted, if any. */
  datatype Reply<T> = Reply(response: Result<T>, emitted: Option<Sessions.Emission>)

  // ---------------------------------------------------------------- GET /

  /** `findMany({ where: { userId, deletedAt: null } })`, in table order. */
  function ActiveAlarmsOf(alarms: seq<Alarm>, u: UserId): (r: seq<Alarm>)
    ensures forall a :: a in r <==> a in alarms && a.userId == u && a.Active()
    ensures (forall i, j :: 0 <= i < j < |alarms| ==> alarms[i].createdAt < alarms[j].createdAt) ==>
            (forall i, j :: 0 <= i < j < |r| ==> r[i].createdAt < r[j].createdAt)
  {
    if alarms == [] then []
    else
      var rest := ActiveAlarmsOf(alarms[1..], u);
      if alarms[0].userId == u && alarms[0].Active() then
        assert forall a :: a in rest ==> a in alarms[1..];
        [alarms[0]] + rest
      else rest
  }

  function Reversed(s: seq<Alarm>): (r: seq<Alarm>)
    ensures |r| == |s| && forall i :: 0 <= i < |s| ==> r[i] == s[|s| - 1 - i]
  {
    seq(|s|, i requires 0 <= i < |s| => s[|s| - 1 - i])
  }

  /**
   * GET /?userId=u: 400 without `userId`; otherwise exactly the user's alarms
   * that are not soft-deleted, newest (`createdAt`) first.
   */
  method List(db: Store.Database, userId: Option<UserId>) returns (r: Result<seq<Alarm>>)
    requires db.Valid()
    ensures r.Fail? <==> userId.None?
    ensures r.Fail? ==> r.error == BadRequest
    ensures r.Ok? ==> forall a :: a in r.value <==> a in db.alarms && a.userId == userId.value && a.Active()
    ensures r.Ok? ==> forall i, j :: 0 <= i < j < |r.value| ==> r.value[i].createdAt > r.value[j].createdAt
  {
    if userId.None? {
      return Fail(BadRequest);
    }
    var active := ActiveAlarmsOf(db.alarms, userId.value);
    var newestFirst := Reversed(active);
    assert forall a :: a in newestFirst <==> a in active by {
      forall a | a in active ensures a in newestFirst {
        var k :| 0 <= k < |active| && active[k] == a;
        assert newestFirst[|active| - 1 - k] == a;
      }
    }
    r := Ok(newestFirst);
  }

  // ---------------------------------------------------------------- POST /

  /**
   * The write half of POST: restore the soft-deleted alarm with this key in
   * place, or insert a new one. Returns the row as the write returned it.
   */
  function Declare(s: DbState, uid: UserId, from: string, target: string): Step<Alarm>
  {
    var existing := AlarmByKey(s.alarms, uid, target);
    if existing.Some? then
      var a := existing.value.(deletedAt := None, fromInstagramId := Some(from), status := Waiting, updatedAt := s.clock);
      Step(a, s.(alarms := ReplaceAlarm(s.alarms, a), clock := s.clock + 1))
    else
      var a := Alarm(s.nextId, uid, Some(from), target, Waiting, s.clock, s.clock, None);
      Step(a, s.(alarms := s.alarms + [a], nextId := s.nextId + 1, clock := s.clock + 1))
  }

  /** The `matched` event, sent only on a match with a target user, only to that user's socket. */
  function MatchedEmission(sockets: Sessions.Entries, m: Matching.MatchResult, user: User): Option<Sessions.Emission>
  {
    if m.matched && m.targetUserId.Some? then
      var socket := Sessions.Get(sockets, m.targetUserId.value);
      if socket.Some? then Some(Sessions.Emission(socket.value, Sessions.MatchedEvent(user.instagramId))) else None
    else None
  }

  /**
   * POST / as a function of the database and the socket map. The match check
   * receives `fromInstagramId`: the route passes four arguments to a
   * three-parameter function, so the declarer's own handle lands in
   * `targetInstagramId`.
   */
  function CreateSpec(s: DbState, sockets: Sessions.Entries, req: CreateRequest): Step<Reply<Created>>
  {
    if !(req.userId.Some? && Truthy(req.fromInstagramId) && Truthy(req.targetInstagramId)) then
      Step(Reply(Fail(BadRequest), None), s)
    else
      var uid, from, target := req.userId.value, req.fromInstagramId.value, req.targetInstagramId.value;
      var user := UserById(s.users, uid);
      if user.None? then Step(Reply(Fail(NotFound), None), s)
      else if from == target then Step(Reply(Fail(BadRequest), None), s)
      else
        var existing := AlarmByKey(s.alarms, uid, target);
        if existing.Some? && existing.value.Active() then Step(Reply(Fail(Conflict), None), s)
        else
          var saved := Declare(s, uid, from, target);
          var m := Matching.CheckMatchingSpec(saved.post, user.value, from);
          Step(Reply(Ok(Created(saved.result, m.result.matched, m.result.matchRow)),
                     MatchedEmission(sockets, m.result, user.value)),
               m.post)
  }

  method Create(db: Store.Database, sessions: Sessions.Registry, req: CreateRequest) returns (r: Reply<Created>)
    requires db.Valid()
    modifies db
    ensures Step(r, db.State()) == CreateSpec(old(db.State()), sessions.entries, req)
    ensures db.Valid()
  {
    if !(req.userId.Some? && Truthy(req.fromInstagramId) && Truthy(req.targetInstagramId)) {
      return Reply(Fail(BadRequest), None);
    }
    var uid, from, target := req.userId.value, req.fromInstagramId.value, req.targetInstagramId.value;
    var user := UserById(db.users, uid);
    if user.None? {
      return Reply(Fail(NotFound), None);
    }
    if from == target {
      return Reply(Fail(BadRequest), None);
    }
    ghost var s0 := db.State();
    DeclareKeepsInv(s0, uid, from, target);
    var existing := AlarmByKey(db.alarms, uid, target);
    var alarm: Alarm;
    if existing.Some? {
      if existing.value.deletedAt.Some? {
        alarm := existing.value.(deletedAt := None, fromInstagramId := Some(from), status := Waiting, updatedAt := db.clock);
        db.alarms := ReplaceAlarm(db.alarms, alarm);
        db.clock := db.clock + 1;
      } else {
        return Reply(Fail(Conflict), None);
      }
    } else {
      alarm := Alarm(db.nextId, uid, Some(from), target, Waiting, db.clock, db.clock, None);
      db.alarms := db.alarms + [alarm];
      db.nextId := db.nextId + 1;
      db.clock := db.clock + 1;
    }
    assert db.State() == Declare(s0, uid, from, target).post;
    CreateWritePath(s0, sessions.entries, req);
    var matchResult := Matching.CheckMatching(db, user.value, from);
    var emitted: Option<Sessions.Emission> := None;
    if matchResult.matched && matchResult.targetUserId.Some? {
      var socket := sessions.Lookup(matchResult.targetUserId.value);
      if socket.Some? {
        emitted := Some(Sessions.Emission(socket.value, Sessions.MatchedEvent(user.value.instagramId)));
      }
    }
    r := Reply(Ok(Created(alarm, matchResult.matched, matchResult.matchRow)), emitted);
  }

  /** Past the rejections, POST returns the declared row and the match check's answer on the declared state. */
  lemma CreateWritePath(s: DbState, sockets: Sessions.Entries, req: CreateRequest)
    requires FieldsPresent(req) && UserById(s.users, req.userId.value).Some?
    requires req.fromInstagramId != req.targetInstagramId
    requires var existing := AlarmByKey(s.alarms, req.userId.value, req.targetInstagramId.value);
      !(existing.Some? && existing.value.Active())
    ensures var user := UserById(s.users, req.userId.value).value;
      var saved := Declare(s, req.userId.value, req.fromInstagramId.value, req.targetInstagramId.value);
      var m := Matching.CheckMatchingSpec(saved.post, user, req.fromInstagramId.value);
      CreateSpec(s, sockets, req)
        == Step(Reply(Ok(Created(saved.result, m.result.matched, m.result.matchRow)), MatchedEmission(sockets, m.result, user)), m.post)
  {
  }

  // ---------------------------------------------------------------- DELETE /:id

  /** `alarm.update({ where: { id }, data: { status } })` */
  function SetStatusById(alarms: seq<Alarm>, id: AlarmId, status: Status): (r: seq<Alarm>)
    ensures |r| == |alarms|
    ensures forall i :: 0 <= i < |alarms| ==> r[i] == if alarms[i].id == id then alarms[i].(status := status) else alarms[i]
  {
    seq(|alarms|, i requires 0 <= i < |alarms| => if alarms[i].id == id then alarms[i].(status := status) else alarms[i])
  }

  /** `alarm.update({ where: { id }, data: { deletedAt: now } })` */
  function SoftDeleteById(alarms: seq<Alarm>, id: AlarmId, now: Timestamp): (r: seq<Alarm>)
    ensures |r| == |alarms|
    ensures forall i :: 0 <= i < |alarms| ==> r[i] == if alarms[i].id == id then alarms[i].(deletedAt := Some(now)) else alarms[i]
  {
    seq(|alarms|, i requires 0 <= i < |alarms| => if alarms[i].id == id then alarms[i].(deletedAt := Some(now)) else alarms[i])
  }

  /**
   * The unmatch half of DELETE for the alarm `a` being withdrawn: when it is
   * matched and carries its own handle, the first active alarm declared from
   * its target towards that handle goes back to `waiting`, the match rows
   * between the two owners go, and that owner's socket hears `matchCanceled`.
   */
  function Unmatch(s: DbState, sockets: Sessions.Entries, a: Alarm): Step<Option<Sessions.Emission>>
  {
    if a.status == Matched && Truthy(a.fromInstagramId) then
      var reverse := FirstActiveReverse(s.alarms, a.targetInstagramId, a.fromInstagramId.value);
      if reverse.Some? then
        var owner := reverse.value.userId;
        var socket := Sessions.Get(sockets, owner);
        Step(if socket.Some? then Some(Sessions.Emission(socket.value, Sessions.MatchCanceledEvent(a.fromInstagramId))) else None,
             s.(alarms := SetStatusById(s.alarms, reverse.value.id, Waiting),
                matches := WithoutMatchesBetween(s.matches, a.userId, owner)))
      else Step(None, s)
    else Step(None, s)
  }

  /** DELETE /:id as a function of the database and the socket map. */
  function DeleteSpec(s: DbState, sockets: Sessions.Entries, id: AlarmId): Step<Reply<bool>>
  {
    var target := ActiveAlarmById(s.alarms, id);
    if target.None? then Step(Reply(Fail(NotFound), None), s)
    else
      var un := Unmatch(s, sockets, target.value);
      Step(Reply(Ok(true), un.result),
           un.post.(alarms := SoftDeleteById(un.post.alarms, id, un.post.clock), clock := un.post.clock + 1))
  }

  /** The unmatch half of DELETE, written in place as `Unmatch` describes. */
  method UnmatchWrite(db: Store.Database, sessions: Sessions.Registry, a: Alarm) returns (emitted: Option<Sessions.Emission>)
    modifies db
    ensures Step(emitted, db.State()) == Unmatch(old(db.State()), sessions.entries, a)
  {
    emitted := None;
    if a.status == Matched && Truthy(a.fromInstagramId) {
      var reverseAlarm := FirstActiveReverse(db.alarms, a.targetInstagramId, a.fromInstagramId.value);
      if reverseAlarm.Some? {
        db.alarms := SetStatusById(db.alarms, reverseAlarm.value.id, Waiting);
        db.matches := WithoutMatchesBetween(db.matches, a.userId, reverseAlarm.value.userId);
        var socket := sessions.Lookup(reverseAlarm.value.userId);
        if socket.Some? {
          emitted := Some(Sessions.Emission(socket.value, Sessions.MatchCanceledEvent(a.fromInstagramId)));
        }
      }
    }
  }

  method Delete(db: Store.Database, sessions: Sessions.Registry, id: AlarmId) returns (r: Reply<bool>)
    requires db.Valid()
    modifies db
    ensures Step(r, db.State()) == DeleteSpec(old(db.State()), sessions.entries, id)
    ensures db.Valid()
  {
    ghost var s0 := db.State();
    DeleteKeepsInv(s0, sessions.entries, id);
    var alarmToDelete := ActiveAlarmById(db.alarms, id);
    if alarmToDelete.None? {
      return Reply(Fail(NotFound), None);
    }
    var emitted := UnmatchWrite(db, sessions, alarmToDelete.value);
    db.alarms := SoftDeleteById(db.alarms, id, db.clock);
    db.clock := db.clock + 1;
    r := Reply(Ok(true), emitted);
  }

  // ---------------------------------------------------------------- invariant

  /** Restoring or inserting keeps one alarm per key, unique ids and creation order. */
  lemma DeclareKeepsInv(s: DbState, uid: UserId, from: string, target: string)
    requires Inv(s)
    ensures Inv(Declare(s, uid, from, target).post)
  {
    if AlarmByKey(s.alarms, uid, target).Some? {
      RestoreKeepsInv(s, uid, from, target);
    } else {
      InsertKeepsInv(s, uid, from, target);
    }
  }

  /** Restoring rewrites one row in place, keeping its id, key and creation time. */
  lemma RestoreKeepsInv(s: DbState, uid: UserId, from: string, target: string)
    requires Inv(s) && AlarmByKey(s.alarms, uid, target).Some?
    ensures Inv(Declare(s, uid, from, target).post)
  {
    var existing := AlarmByKey(s.alarms, uid, target);
    var post := Declare(s, uid, from, target).post;
    var k :| 0 <= k < |s.alarms| && s.alarms[k] == existing.value;
    forall i | 0 <= i < |s.alarms|
      ensures post.alarms[i].id == s.alarms[i].id && SameKey(post.alarms[i], s.alarms[i])
      ensures post.alarms[i].createdAt == s.alarms[i].createdAt
    {
      if s.alarms[i].id == existing.value.id {
        assert i == k;
      }
    }
  }

  /** Inserting appends a row with a fresh id, a fresh key and the latest creation time. */
  lemma InsertKeepsInv(s: DbState, uid: UserId, from: string, target: string)
    requires Inv(s) && AlarmByKey(s.alarms, uid, target).None?
    ensures Inv(Declare(s, uid, from, target).post)
  {
  }

  lemma {:induction false} SetStatusKeepsAlarmsWellFormed(alarms: seq<Alarm>, id: AlarmId, status: Status, nextId: nat, clock: Timestamp)
    requires AlarmsWellFormed(alarms, nextId, clock)
    ensures AlarmsWellFormed(SetStatusById(alarms, id, status), nextId, clock)
    ensures AlarmsWellFormed(SoftDeleteById(alarms, id, clock), nextId, clock + 1)
  {
    var r := SetStatusById(alarms, id, status);
    assert forall i :: 0 <= i < |alarms| ==> r[i].id == alarms[i].id && SameKey(r[i], alarms[i]) && r[i].createdAt == alarms[i].createdAt;
    var d := SoftDeleteById(alarms, id, clock);
    assert forall i :: 0 <= i < |alarms| ==> d[i].id == alarms[i].id && SameKey(d[i], alarms[i]) && d[i].createdAt == alarms[i].createdAt;
  }

  lemma DeleteKeepsInv(s: DbState, sockets: Sessions.Entries, id: AlarmId)
    requires Inv(s)
    ensures Inv(DeleteSpec(s, sockets, id).post)
  {
    var target := ActiveAlarmById(s.alarms, id);
    if target.Some? {
      var un := Unmatch(s, sockets, target.value);
      var a := target.value;
      if a.status == Matched && Truthy(a.fromInstagramId) {
        var reverse := FirstActiveReverse(s.alarms, a.targetInstagramId, a.fromInstagramId.value);
        if reverse.Some? {
          SetStatusKeepsAlarmsWellFormed(s.alarms, reverse.value.id, Waiting, s.nextId, s.clock);
          WithoutMatchesKeepsPairsUnique(s.matches, a.userId, reverse.value.userId);
        }
      }
      SetStatusKeepsAlarmsWellFormed(un.post.alarms, id, Waiting, s.nextId, s.clock);
    }
  }

  /** Creating keeps the invariant: at most one alarm per `(userId, targetInstagramId)` in every case. */
  lemma CreateKeepsInv(s: DbState, sockets: Sessions.Entries, req: CreateRequest)
    requires Inv(s)
    ensures Inv(CreateSpec(s, sockets, req).post)
  {
    if req.userId.Some? && Truthy(req.fromInstagramId) && Truthy(req.targetInstagramId) {
      var uid, from, target := req.userId.value, req.fromInstagramId.value, req.targetInstagramId.value;
      var user := UserById(s.users, uid);
      if user.Some? {
        DeclareKeepsInv(s, uid, from, target);
        Matching.CheckMatchingKeepsInv(Declare(s, uid, from, target).post, user.value, from);
      }
    }
  }

  // ---------------------------------------------------------------- properties

  predicate FieldsPresent(req: CreateRequest) {
    req.userId.Some? && Truthy(req.fromInstagramId) && Truthy(req.targetInstagramId)
  }

  /**
   * POST rejects in order: 400 for a missing field, 404 for an unknown user,
   * 400 when `fromInstagramId === targetInstagramId` (exact, case-sensitive);
   * every rejection writes nothing and emits nothing.
   */
  lemma CreateRejections(s: DbState, sockets: Sessions.Entries, req: CreateRequest)
    ensures var st := CreateSpec(s, sockets, req);
      && (!FieldsPresent(req) ==> st.result.response == Fail(BadRequest))
      && (FieldsPresent(req) && UserById(s.users, req.userId.value).None? ==> st.result.response == Fail(NotFound))
      && (FieldsPresent(req) && UserById(s.users, req.userId.value).Some?
          && req.fromInstagramId == req.targetInstagramId
          ==> st.result.response == Fail(BadRequest))
      && (st.result.response.Fail? ==> st.post == s && st.result.emitted.None?)
  {
  }

  /** The alarm with a key, if any, is the row that `findUnique` returns for it. */
  lemma {:induction false} KeyedAlarmIsFound(alarms: seq<Alarm>, i: nat)
    requires KeysUnique(alarms) && i < |alarms|
    ensures AlarmByKey(alarms, alarms[i].userId, alarms[i].targetInstagramId) == Some(alarms[i])
  {
    var r := AlarmByKey(alarms, alarms[i].userId, alarms[i].targetInstagramId).value;
    var k :| 0 <= k < |alarms| && alarms[k] == r;
    assert SameKey(alarms[k], alarms[i]);
  }

  /** 409 exactly when an active alarm with the key exists; nothing is written then. */
  lemma CreateConflictIff(s: DbState, sockets: Sessions.Entries, req: CreateRequest)
    requires Inv(s) && FieldsPresent(req)
    requires UserById(s.users, req.userId.value).Some? && req.fromInstagramId != req.targetInstagramId
    ensures var st := CreateSpec(s, sockets, req);
      && (st.result.response == Fail(Conflict) <==>
            exists i :: 0 <= i < |s.alarms| && s.alarms[i].userId == req.userId.value
                     && s.alarms[i].targetInstagramId == req.targetInstagramId.value && s.alarms[i].Active())
      && (st.result.response == Fail(Conflict) ==> st.post == s)
  {
    var uid, target := req.userId.value, req.targetInstagramId.value;
    if exists i :: 0 <= i < |s.alarms| && s.alarms[i].userId == uid && s.alarms[i].targetInstagramId == target && s.alarms[i].Active() {
      var i :| 0 <= i < |s.alarms| && s.alarms[i].userId == uid && s.alarms[i].targetInstagramId == target && s.alarms[i].Active();
      KeyedAlarmIsFound(s.alarms, i);
    }
  }

  /**
   * Declaring again after a withdrawal restores the same row in place: same id,
   * same creation time, `deletedAt` cleared, `fromInstagramId` overwritten,
   * status `waiting`; no row is added.
   */
  lemma CreateRestoresInPlace(s: DbState, sockets: Sessions.Entries, req: CreateRequest, i: nat)
    requires Inv(s) && FieldsPresent(req)
    requires UserById(s.users, req.userId.value).Some? && req.fromInstagramId != req.targetInstagramId
    requires i < |s.alarms| && s.alarms[i].userId == req.userId.value
    requires s.alarms[i].targetInstagramId == req.targetInstagramId.value && s.alarms[i].deletedAt.Some?
    ensures var st := CreateSpec(s, sockets, req);
      && st.result.response.Ok?
      && var a := st.result.response.value.alarm;
      && a.id == s.alarms[i].id && a.createdAt == s.alarms[i].createdAt
      && a.deletedAt.None? && a.fromInstagramId == req.fromInstagramId && a.status == Waiting
      && |st.post.alarms| == |s.alarms|
      && st.post.alarms[i].id == a.id && st.post.alarms[i].Active() && st.post.alarms[i].fromInstagramId == req.fromInstagramId
  {
    KeyedAlarmIsFound(s.alarms, i);
    CreateWritePath(s, sockets, req);
    var uid, from, target := req.userId.value, req.fromInstagramId.value, req.targetInstagramId.value;
    var saved := Declare(s, uid, from, target);
    assert saved.post.alarms[i] == saved.result;
    Matching.RowsKeepIdentity(saved.post, UserById(s.users, uid).value, from, i);
  }

  /** With no alarm for the key, exactly one new active `waiting` alarm is appended under a fresh id. */
  lemma CreateInsertsOne(s: DbState, sockets: Sessions.Entries, req: CreateRequest)
    requires Inv(s) && FieldsPresent(req)
    requires UserById(s.users, req.userId.value).Some? && req.fromInstagramId != req.targetInstagramId
    requires forall i :: 0 <= i < |s.alarms| ==>
               !(s.alarms[i].userId == req.userId.value && s.alarms[i].targetInstagramId == req.targetInstagramId.value)
    ensures var st := CreateSpec(s, sockets, req);
      && st.result.response.Ok?
      && var a := st.result.response.value.alarm;
      && a == Alarm(s.nextId, req.userId.value, req.fromInstagramId, req.targetInstagramId.value, Waiting, s.clock, s.clock, None)
      && (forall i :: 0 <= i < |s.alarms| ==> s.alarms[i].id != a.id)
      && |st.post.alarms| == |s.alarms| + 1
      && st.post.alarms[|s.alarms|].id == a.id && st.post.alarms[|s.alarms|].Active()
  {
    CreateWritePath(s, sockets, req);
    var uid, from, target := req.userId.value, req.fromInstagramId.value, req.targetInstagramId.value;
    var saved := Declare(s, uid, from, target);
    Matching.RowsKeepIdentity(saved.post, UserById(s.users, uid).value, from, |s.alarms|);
  }

  /**
   * The `matched` event goes out only on a match, only to the socket
   * registered for the matched user, and names the declarer's profile handle.
   */
  lemma CreateEmitsOnlyToMatchedUser(s: DbState, sockets: Sessions.Entries, req: CreateRequest)
    ensures var st := CreateSpec(s, sockets, req);
      st.result.emitted.Some? ==>
        && st.result.response.Ok? && st.result.response.value.matched
        && FirstUserWithHandle(s.users, req.fromInstagramId.value).Some?
        && Sessions.Get(sockets, FirstUserWithHandle(s.users, req.fromInstagramId.value).value.id)
             == Some(st.result.emitted.value.socket)
        && st.result.emitted.value.event == Sessions.MatchedEvent(UserById(s.users, req.userId.value).value.instagramId)
  {
    var st := CreateSpec(s, sockets, req);
    if st.result.emitted.Some? {
      var uid, from, target := req.userId.value, req.fromInstagramId.value, req.targetInstagramId.value;
      var saved := Declare(s, uid, from, target);
      Matching.MatchedNamesTargetUser(saved.post, UserById(s.users, uid).value, from);
    }
  }

  /**
   * Two users who declare each other (user 0 has handle `bob`
   * and targets `alice`, user 1 has handle `alice` and targets `bob`) do not
   * match through POST as written, because the check looks up the declarer's
   * own handle; the service called with the target handle would match.
   */
  lemma MutualDeclarationsDoNotMatch(defaults: UserDefaults)
    ensures
      var bob := User(0, "toss-0", None, None, None, Some("bob"), true, true, 1);
      var alice := User(1, "toss-1", None, None, None, Some("alice"), true, true, 1);
      var s0 := DbState([bob, alice], [], [], [], 0, 2, defaults);
      var first := CreateSpec(s0, [], CreateRequest(Some(0), Some("bob"), Some("alice")));
      var second := CreateSpec(first.post, [], CreateRequest(Some(1), Some("alice"), Some("bob")));
      && first.result.response.Ok? && !first.result.response.value.matched
      && second.result.response.Ok? && !second.result.response.value.matched
      && second.post.matches == []
      && Matching.CheckMatchingSpec(first.post, alice, "bob").result.matched
  {
    var bob := User(0, "toss-0", None, None, None, Some("bob"), true, true, 1);
    var alice := User(1, "toss-1", None, None, None, Some("alice"), true, true, 1);
    var a0 := Alarm(2, 0, Some("bob"), "alice", Waiting, 0, 0, None);
    var s1 := DbState([bob, alice], [a0], [], [], 1, 3, defaults);
    BobDeclaresAlice(defaults);
    AliceDeclaresBob(defaults);
    assert FirstUserWithHandle(s1.users, "bob") == Some(bob) by {
      assert s1.users[0].instagramId == Some("bob");
    }
    assert AlarmByKey(s1.alarms, 0, "alice") == Some(a0);
  }

  /** The first POST of the scenario: bob's alarm on `alice` is inserted and does not match. */
  lemma BobDeclaresAlice(defaults: UserDefaults)
    ensures
      var bob := User(0, "toss-0", None, None, None, Some("bob"), true, true, 1);
      var alice := User(1, "toss-1", None, None, None, Some("alice"), true, true, 1);
      var a0 := Alarm(2, 0, Some("bob"), "alice", Waiting, 0, 0, None);
      CreateSpec(DbState([bob, alice], [], [], [], 0, 2, defaults), [], CreateRequest(Some(0), Some("bob"), Some("alice")))
        == Step(Reply(Ok(Created(a0, false, None)), None), DbState([bob, alice], [a0], [], [], 1, 3, defaults))
  {
    var bob := User(0, "toss-0", None, None, None, Some("bob"), true, true, 1);
    var alice := User(1, "toss-1", None, None, None, Some("alice"), true, true, 1);
    var s0 := DbState([bob, alice], [], [], [], 0, 2, defaults);
    var a0 := Alarm(2, 0, Some("bob"), "alice", Waiting, 0, 0, None);
    var s1 := DbState([bob, alice], [a0], [], [], 1, 3, defaults);
    assert UserById(s0.users, 0) == Some(bob);
    CreateWritePath(s0, [], CreateRequest(Some(0), Some("bob"), Some("alice")));
    assert Declare(s0, 0, "bob", "alice") == Step(a0, s1);
    assert FirstUserWithHandle(s1.users, "bob") == Some(bob) by {
      assert s1.users[0].instagramId == Some("bob");
    }
    assert AlarmByKey(s1.alarms, 0, "bob").None?;
  }

  /** The second POST of the scenario: alice's alarm on `bob` is inserted and does not match either. */
  lemma AliceDeclaresBob(defaults: UserDefaults)
    ensures
      var bob := User(0, "toss-0", None, None, None, Some("bob"), true, true, 1);
      var alice := User(1, "toss-1", None, None, None, Some("alice"), true, true, 1);
      var a0 := Alarm(2, 0, Some("bob"), "alice", Waiting, 0, 0, None);
      var a1 := Alarm(3, 1, Some("alice"), "bob", Waiting, 1, 1, None);
      CreateSpec(DbState([bob, alice], [a0], [], [], 1, 3, defaults), [], CreateRequest(Some(1), Some("alice"), Some("bob")))
        == Step(Reply(Ok(Created(a1, false, None)), None), DbState([bob, alice], [a0, a1], [], [], 2, 4, defaults))
  {
    var bob := User(0, "toss-0", None, None, None, Some("bob"), true, true, 1);
    var alice := User(1, "toss-1", None, None, None, Some("alice"), true, true, 1);
    var a0 := Alarm(2, 0, Some("bob"), "alice", Waiting, 0, 0, None);
    var a1 := Alarm(3, 1, Some("alice"), "bob", Waiting, 1, 1, None);
    var s1 := DbState([bob, alice], [a0], [], [], 1, 3, defaults);
    var s2 := DbState([bob, alice], [a0, a1], [], [], 2, 4, defaults);
    assert UserById(s1.users, 1) == Some(alice);
    assert AlarmByKey(s1.alarms, 1, "bob").None?;
    CreateWritePath(s1, [], CreateRequest(Some(1), Some("alice"), Some("bob")));
    assert Declare(s1, 1, "alice", "bob") == Step(a1, s2);
    assert FirstUserWithHandle(s2.users, "alice") == Some(alice) by {
      assert s2.users[0].instagramId != Some("alice");
      assert s2.users[1].instagramId == Some("alice");
    }
    assert AlarmByKey(s2.alarms, 1, "alice").None?;
  }

  /** DELETE of an id with no active alarm (absent or already withdrawn) is 404 and writes nothing. */
  lemma DeleteNotFoundIff(s: DbState, sockets: Sessions.Entries, id: AlarmId)
    ensures var st := DeleteSpec(s, sockets, id);
      && (st.result.response == Fail(NotFound) <==> forall i :: 0 <= i < |s.alarms| ==> !(s.alarms[i].id == id && s.alarms[i].Active()))
      && (st.result.response.Fail? ==> st.post == s && st.result.emitted.None?)
  {
  }

  /**
   * A successful DELETE removes no row: every row keeps its id, key and
   * creation time, and the row with this id becomes soft-deleted.
   */
  lemma DeleteIsSoft(s: DbState, sockets: Sessions.Entries, id: AlarmId)
    requires DeleteSpec(s, sockets, id).result.response.Ok?
    ensures var st := DeleteSpec(s, sockets, id);
      && |st.post.alarms| == |s.alarms|
      && (forall i :: 0 <= i < |s.alarms| ==>
            && st.post.alarms[i].id == s.alarms[i].id && SameKey(st.post.alarms[i], s.alarms[i])
            && st.post.alarms[i].createdAt == s.alarms[i].createdAt)
      && (forall i :: 0 <= i < |s.alarms| && s.alarms[i].id == id ==> st.post.alarms[i].deletedAt == Some(s.clock))
      && (forall i :: 0 <= i < |s.alarms| && s.alarms[i].id != id ==> st.post.alarms[i].deletedAt == s.alarms[i].deletedAt)
      && st.post.users == s.users
  {
    var a := ActiveAlarmById(s.alarms, id).value;
    UnmatchOnlyChangesStatus(s, sockets, a);
  }

  /** The unmatch half changes only the status of alarm rows, and no user. */
  lemma UnmatchOnlyChangesStatus(s: DbState, sockets: Sessions.Entries, a: Alarm)
    ensures var post := Unmatch(s, sockets, a).post;
      && |post.alarms| == |s.alarms|
      && (forall i :: 0 <= i < |s.alarms| ==> post.alarms[i] == s.alarms[i].(status := post.alarms[i].status))
      && post.users == s.users && post.clock == s.clock
  {
  }

  /**
   * Withdrawing a matched alarm that carries its own handle, when an active
   * reverse alarm exists: the first such reverse alarm returns to `waiting`,
   * no match row between the two owners remains, and only the reverse owner's
   * socket hears `matchCanceled`.
   */
  lemma DeleteRevertsReverse(s: DbState, sockets: Sessions.Entries, id: AlarmId)
    requires ActiveAlarmById(s.alarms, id).Some?
    requires var a := ActiveAlarmById(s.alarms, id).value;
      a.status == Matched && Truthy(a.fromInstagramId)
      && FirstActiveReverse(s.alarms, a.targetInstagramId, a.fromInstagramId.value).Some?
    ensures var a := ActiveAlarmById(s.alarms, id).value;
      var reverse := FirstActiveReverse(s.alarms, a.targetInstagramId, a.fromInstagramId.value).value;
      var st := DeleteSpec(s, sockets, id);
      && st.result.response.Ok?
      && (forall i :: 0 <= i < |s.alarms| && s.alarms[i].id == reverse.id ==> st.post.alarms[i].status == Waiting)
      && (forall m :: m in st.post.matches ==> !m.Between(a.userId, reverse.userId))
      && (forall m :: m in s.matches && !m.Between(a.userId, reverse.userId) ==> m in st.post.matches)
      && (st.result.emitted.Some? <==> Sessions.Get(sockets, reverse.userId).Some?)
      && (st.result.emitted.Some? ==>
            st.result.emitted.value == Sessions.Emission(Sessions.Get(sockets, reverse.userId).value,
                                                         Sessions.MatchCanceledEvent(a.fromInstagramId)))
  {
  }

  /**
   * In the same case, nothing else changes: the withdrawn row only gains its
   * `deletedAt`, the reverse row only goes back to `waiting`, every other
   * alarm and every user stays as it was, and the clock advances once.
   */
  lemma DeleteTouchesOnlyTwoRows(s: DbState, sockets: Sessions.Entries, id: AlarmId)
    requires ActiveAlarmById(s.alarms, id).Some?
    requires var a := ActiveAlarmById(s.alarms, id).value;
      a.status == Matched && Truthy(a.fromInstagramId)
      && FirstActiveReverse(s.alarms, a.targetInstagramId, a.fromInstagramId.value).Some?
    ensures var a := ActiveAlarmById(s.alarms, id).value;
      var reverse := FirstActiveReverse(s.alarms, a.targetInstagramId, a.fromInstagramId.value).value;
      var st := DeleteSpec(s, sockets, id);
      && |st.post.alarms| == |s.alarms|
      && (forall i :: 0 <= i < |s.alarms| && s.alarms[i].id != reverse.id && s.alarms[i].id != id ==>
            st.post.alarms[i] == s.alarms[i])
      && (forall i :: 0 <= i < |s.alarms| && s.alarms[i].id == id && s.alarms[i].id != reverse.id ==>
            st.post.alarms[i] == s.alarms[i].(deletedAt := Some(s.clock)))
      && (forall i :: 0 <= i < |s.alarms| && s.alarms[i].id == reverse.id && s.alarms[i].id != id ==>
            st.post.alarms[i] == s.alarms[i].(status := Waiting))
      && st.post.users == s.users && st.post.feedback == s.feedback && st.post.clock == s.clock + 1
  {
  }

  /** Without a matched, handle-carrying alarm and an active reverse one, DELETE only soft-deletes. */
  lemma DeleteWithoutReverseOnlySoftDeletes(s: DbState, sockets: Sessions.Entries, id: AlarmId)
    requires ActiveAlarmById(s.alarms, id).Some?
    requires var a := ActiveAlarmById(s.alarms, id).value;
      !(a.status == Matched && Truthy(a.fromInstagramId)
        && FirstActiveReverse(s.alarms, a.targetInstagramId, a.fromInstagramId.value).Some?)
    ensures var st := DeleteSpec(s, sockets, id);
      && st.result == Reply(Ok(true), None)
      && st.post == s.(alarms := SoftDeleteById(s.alarms, id, s.clock), clock := s.clock + 1)
  {
  }

  /** The declared row sits in the table at the returned index, active and keyed `(uid, target)`. */
  lemma DeclaredRowIndex(s: DbState, uid: UserId, from: string, target: string) returns (k: nat)
    requires Inv(s)
    ensures var saved := Declare(s, uid, from, target);
      && k < |saved.post.alarms| && saved.post.alarms[k] == saved.result
      && saved.result.Active() && saved.result.userId == uid && saved.result.targetInstagramId == target
      && saved.post.users == s.users
  {
    var existing := AlarmByKey(s.alarms, uid, target);
    if existing.Some? {
      k :| 0 <= k < |s.alarms| && s.alarms[k] == existing.value;
    } else {
      k := |s.alarms|;
    }
  }

  /** After a successful POST the declared row is in the table, active and keyed by the request. */
  lemma CreatedRowIsActive(s: DbState, sockets: Sessions.Entries, req: CreateRequest) returns (k: nat)
    requires Inv(s)
    requires CreateSpec(s, sockets, req).result.response.Ok?
    ensures FieldsPresent(req) && req.fromInstagramId != req.targetInstagramId
    ensures UserById(s.users, req.userId.value).Some?
    ensures var st := CreateSpec(s, sockets, req);
      && st.post.users == s.users
      && k < |st.post.alarms| && st.post.alarms[k].id == st.result.response.value.alarm.id
      && st.post.alarms[k].Active()
      && st.post.alarms[k].userId == req.userId.value
      && st.post.alarms[k].targetInstagramId == req.targetInstagramId.value
  {
    var uid, from, target := req.userId.value, req.fromInstagramId.value, req.targetInstagramId.value;
    var saved := Declare(s, uid, from, target);
    var user := UserById(s.users, uid).value;
    var m := Matching.CheckMatchingSpec(saved.post, user, from);
    assert CreateSpec(s, sockets, req).post == m.post;
    assert CreateSpec(s, sockets, req).result.response.value.alarm == saved.result;
    k := DeclaredRowIndex(s, uid, from, target);
    Matching.RowsKeepIdentity(saved.post, user, from, k);
  }

  /** Withdrawing an active row and then declaring its key again restores that row. */
  lemma WithdrawnRowIsRestored(s: DbState, sockets: Sessions.Entries, req: CreateRequest, k: nat)
    requires Inv(s) && FieldsPresent(req)
    requires UserById(s.users, req.userId.value).Some? && req.fromInstagramId != req.targetInstagramId
    requires k < |s.alarms| && s.alarms[k].Active()
    requires s.alarms[k].userId == req.userId.value && s.alarms[k].targetInstagramId == req.targetInstagramId.value
    ensures var withdrawn := DeleteSpec(s, sockets, s.alarms[k].id);
      var again := CreateSpec(withdrawn.post, sockets, req);
      && withdrawn.result.response.Ok?
      && again.result.response.Ok?
      && again.result.response.value.alarm.id == s.alarms[k].id
      && |again.post.alarms| == |s.alarms|
  {
    var id := s.alarms[k].id;
    assert ActiveAlarmById(s.alarms, id).Some?;
    DeleteIsSoft(s, sockets, id);
    DeleteKeepsInv(s, sockets, id);
    CreateRestoresInPlace(DeleteSpec(s, sockets, id).post, sockets, req, k);
  }

  /**
   * Declare, withdraw, declare again: the second declaration restores the
   * first row (same id) instead of adding one.
   */
  lemma RedeclareAfterWithdrawKeepsId(s: DbState, sockets: Sessions.Entries, req: CreateRequest)
    requires Inv(s)
    requires CreateSpec(s, sockets, req).result.response.Ok?
    ensures var first := CreateSpec(s, sockets, req);
      var id := first.result.response.value.alarm.id;
      var withdrawn := DeleteSpec(first.post, sockets, id);
      var again := CreateSpec(withdrawn.post, sockets, req);
      && withdrawn.result.response.Ok?
      && again.result.response.Ok?
      && again.result.response.value.alarm.id == id
      && |again.post.alarms| == |first.post.alarms|
  {
    var k := CreatedRowIsActive(s, sockets, req);
    CreateKeepsInv(s, sockets, req);
    WithdrawnRowIsRestored(CreateSpec(s, sockets, req).post, sockets, req, k);
  }
}
