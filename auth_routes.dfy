/**
 * The auth routes (`/api/auth`): find-or-create login keyed on the Toss
 * account id, filling profile fields only where they are still empty, and the
 * Toss "disconnect" callback that deletes the account.
 */
module AuthRoutes {
  import opened Wrappers
  import opened Seqs
  import opened Tables
  import opened Http
  import Store

  /** Body of POST /login; a missing or empty field is `None` or `Some("")`. */
  datatype LoginRequest = LoginRequest(
    tossUserId: Option<string>,
    name: Option<string>,
    gender: Option<string>,
    birthday: Option<string>)

  /** Response body of POST /login. */
  datatype LoggedIn = LoggedIn(user: User, isNewUser: bool)

  /** `x || null` */
  function OrNull(x: Option<string>): (r: Option<string>)
    ensures Truthy(x) ==> r == x
    ensures !Truthy(x) ==> r.None?
  {
    if Truthy(x) then x else None
  }

  /**
   * The fill-only-missing rule for `name` and `gender`: the supplied value is
   * written only when it is non-empty and the stored one is empty.
   */
  function Fill(stored: Option<string>, supplied: Option<string>): (r: Option<string>)
    ensures Truthy(stored) ==> r == stored
    ensures !Truthy(supplied) ==> r == stored
    ensures !Truthy(stored) && Truthy(supplied) ==> r == supplied
  {
    if Truthy(supplied) && !Truthy(stored) then supplied else stored
  }

  /**
   * The same rule for `birthday`, a `Date` column: any stored date is truthy,
   * so only a null birthday is filled.
   */
  function FillDate(stored: Option<string>, supplied: Option<string>): (r: Option<string>)
    ensures stored.Some? ==> r == stored
    ensures !Truthy(supplied) ==> r == stored
    ensures stored.None? && Truthy(supplied) ==> r == supplied
  {
    if Truthy(supplied) && stored.None? then supplied else stored
  }

  /** Some field of a known user would be filled by this request. */
  predicate HasUpdate(u: User, req: LoginRequest) {
    || (Truthy(req.name) && !Truthy(u.name))
    || (Truthy(req.gender) && !Truthy(u.gender))
    || (Truthy(req.birthday) && u.birthday.None?)
  }

  /** The row created for an unknown Toss account: absent profile fields are null, the rest are column defaults. */
  function NewUser(s: DbState, toss: string, req: LoginRequest): User {
    User(s.nextId, toss, OrNull(req.name), OrNull(req.gender), OrNull(req.birthday), None,
         s.defaults.pushEnabled, s.defaults.tossAppEnabled, s.defaults.maxSlots)
  }

  /** The known user's row after the fill-only-missing update. */
  function Filled(u: User, req: LoginRequest): User {
    u.(name := Fill(u.name, req.name), gender := Fill(u.gender, req.gender), birthday := FillDate(u.birthday, req.birthday))
  }

  /** POST /login */
  function LoginSpec(s: DbState, req: LoginRequest): Step<Result<LoggedIn>>
  {
    if !Truthy(req.tossUserId) then Step(Fail(BadRequest), s)
    else
      var toss := req.tossUserId.value;
      var user := UserByToss(s.users, toss);
      if user.None? then
        var created := NewUser(s, toss, req);
        Step(Ok(LoggedIn(created, true)), s.(users := s.users + [created], nextId := s.nextId + 1))
      else if HasUpdate(user.value, req) then
        var updated := Filled(user.value, req);
        Step(Ok(LoggedIn(updated, false)), s.(users := ReplaceUser(s.users, updated)))
      else Step(Ok(LoggedIn(user.value, false)), s)
  }

  method Login(db: Store.Database, req: LoginRequest) returns (r: Result<LoggedIn>)
    requires db.Valid()
    modifies db
    ensures Step(r, db.State()) == LoginSpec(old(db.State()), req)
    ensures db.Valid()
  {
    LoginKeepsInv(db.State(), req);
    if !Truthy(req.tossUserId) {
      return Fail(BadRequest);
    }
    var toss := req.tossUserId.value;
    var user := UserByToss(db.users, toss);
    if user.None? {
      var created := User(db.nextId, toss, OrNull(req.name), OrNull(req.gender), OrNull(req.birthday), None,
                          db.defaults.pushEnabled, db.defaults.tossAppEnabled, db.defaults.maxSlots);
      db.users, db.nextId := db.users + [created], db.nextId + 1;
      return Ok(LoggedIn(created, true));
    }
    var u := user.value;
    var changed := false;
    if Truthy(req.name) && !Truthy(u.name) {
      u, changed := u.(name := req.name), true;
    }
    if Truthy(req.gender) && !Truthy(u.gender) {
      u, changed := u.(gender := req.gender), true;
    }
    if Truthy(req.birthday) && u.birthday.None? {
      u, changed := u.(birthday := req.birthday), true;
    }
    if changed {
      db.users := ReplaceUser(db.users, u);
    }
    r := Ok(LoggedIn(u, false));
  }

  // ---------------------------------------------------------------- POST /disconnect

  /**
   * `user.delete` of the account, with the cascade the schema declares: the
   * user's alarms and every match row naming the user go with it.
   */
  function DeleteAccount(s: DbState, u: User): DbState {
    s.(users := Filter(s.users, (v: User) => v.tossUserId != u.tossUserId),
       alarms := Filter(s.alarms, (a: Alarm) => a.userId != u.id),
       matches := Filter(s.matches, (m: Match) => m.user1Id != u.id && m.user2Id != u.id))
  }

  /** POST /disconnect: 400 without a Toss id; success whether or not the account existed. */
  function DisconnectSpec(s: DbState, tossUserId: Option<string>): Step<Result<bool>>
  {
    if !Truthy(tossUserId) then Step(Fail(BadRequest), s)
    else
      var user := UserByToss(s.users, tossUserId.value);
      if user.None? then Step(Ok(true), s)
      else Step(Ok(true), DeleteAccount(s, user.value))
  }

  method Disconnect(db: Store.Database, tossUserId: Option<string>) returns (r: Result<bool>)
    requires db.Valid()
    modifies db
    ensures Step(r, db.State()) == DisconnectSpec(old(db.State()), tossUserId)
    ensures db.Valid()
  {
    DisconnectKeepsInv(db.State(), tossUserId);
    if !Truthy(tossUserId) {
      return Fail(BadRequest);
    }
    var user := UserByToss(db.users, tossUserId.value);
    if user.Some? {
      var u := user.value;
      db.users := Filter(db.users, (v: User) => v.tossUserId != u.tossUserId);
      db.alarms := Filter(db.alarms, (a: Alarm) => a.userId != u.id);
      db.matches := Filter(db.matches, (m: Match) => m.user1Id != u.id && m.user2Id != u.id);
    }
    r := Ok(true);
  }

  // ---------------------------------------------------------------- properties

  /** Login without a Toss id is 400 and writes nothing; with one it always succeeds. */
  lemma LoginNeedsTossId(s: DbState, req: LoginRequest)
    ensures var st := LoginSpec(s, req);
      && (st.result.Fail? <==> !Truthy(req.tossUserId))
      && (st.result.Fail? ==> st.result.error == BadRequest && st.post == s)
  {
  }

  /**
   * An unknown Toss account gets one new row under a fresh id, with the
   * fields that were not sent set to null and no handle, and `isNewUser`.
   */
  lemma LoginCreatesUnknown(s: DbState, req: LoginRequest)
    requires Inv(s) && Truthy(req.tossUserId)
    requires UserByToss(s.users, req.tossUserId.value).None?
    ensures var st := LoginSpec(s, req);
      && st.result.Ok? && st.result.value.isNewUser
      && var u := st.result.value.user;
      && st.post.users == s.users + [u]
      && UserById(s.users, u.id).None?
      && u.tossUserId == req.tossUserId.value && u.instagramId.None?
      && (Truthy(req.name) ==> u.name == req.name) && (!Truthy(req.name) ==> u.name.None?)
      && (Truthy(req.gender) ==> u.gender == req.gender) && (!Truthy(req.gender) ==> u.gender.None?)
      && (Truthy(req.birthday) ==> u.birthday == req.birthday) && (!Truthy(req.birthday) ==> u.birthday.None?)
      && u.maxSlots == s.defaults.maxSlots
  {
  }

  /**
   * A known account is never reported new, and none of its stored profile
   * values is overwritten: a field changes only from empty to the value sent.
   * Columns other than the three profile fields, and other rows, stay as they were.
   */
  lemma LoginFillsOnlyMissing(s: DbState, req: LoginRequest)
    requires Inv(s) && Truthy(req.tossUserId)
    requires UserByToss(s.users, req.tossUserId.value).Some?
    ensures var st := LoginSpec(s, req);
      var old_ := UserByToss(s.users, req.tossUserId.value).value;
      && st.result.Ok? && !st.result.value.isNewUser
      && var u := st.result.value.user;
      && (Truthy(old_.name) ==> u.name == old_.name)
      && (!Truthy(old_.name) && Truthy(req.name) ==> u.name == req.name)
      && (!Truthy(req.name) ==> u.name == old_.name)
      && (Truthy(old_.gender) ==> u.gender == old_.gender)
      && (!Truthy(old_.gender) && Truthy(req.gender) ==> u.gender == req.gender)
      && (!Truthy(req.gender) ==> u.gender == old_.gender)
      && (old_.birthday.Some? ==> u.birthday == old_.birthday)
      && (old_.birthday.None? && Truthy(req.birthday) ==> u.birthday == req.birthday)
      && u == old_.(name := u.name, gender := u.gender, birthday := u.birthday)
      && |st.post.users| == |s.users|
      && (forall i :: 0 <= i < |s.users| ==> st.post.users[i] == if s.users[i].id == old_.id then u else s.users[i])
      && st.post == s.(users := st.post.users)
  {
  }

  /** A known account with nothing to fill is not written at all. */
  lemma LoginWithNothingToFillWritesNothing(s: DbState, req: LoginRequest)
    requires Truthy(req.tossUserId)
    requires UserByToss(s.users, req.tossUserId.value).Some?
    requires !HasUpdate(UserByToss(s.users, req.tossUserId.value).value, req)
    ensures var st := LoginSpec(s, req);
      st.post == s && st.result == Ok(LoggedIn(UserByToss(s.users, req.tossUserId.value).value, false))
  {
  }

  /**
   * Logging in again with the same Toss id finds the account the first login
   * created or updated: it is not new, its id is the same, and no row is added.
   */
  lemma RepeatedLoginCreatesNoSecondUser(s: DbState, req: LoginRequest, again: LoginRequest)
    requires Inv(s) && Truthy(req.tossUserId) && again.tossUserId == req.tossUserId
    ensures var first := LoginSpec(s, req);
      var second := LoginSpec(first.post, again);
      && second.result.Ok? && !second.result.value.isNewUser
      && second.result.value.user.id == first.result.value.user.id
      && |second.post.users| == |first.post.users|
  {
    LoginLeavesAccountFindable(s, req);
    LoginOfKnownAccount(LoginSpec(s, req).post, again);
  }

  /** After a successful login the Toss id finds exactly the account the login returned. */
  lemma LoginLeavesAccountFindable(s: DbState, req: LoginRequest)
    requires Inv(s) && Truthy(req.tossUserId)
    ensures var st := LoginSpec(s, req);
      st.result.Ok? && UserByToss(st.post.users, req.tossUserId.value) == Some(st.result.value.user)
  {
    var first := LoginSpec(s, req);
    var toss := req.tossUserId.value;
    var u := first.result.value.user;
    LoginKeepsInv(s, req);
    var k: nat;
    if UserByToss(s.users, toss).None? {
      k := |s.users|;
    } else {
      k :| 0 <= k < |s.users| && s.users[k] == UserByToss(s.users, toss).value;
    }
    assert first.post.users[k] == u;
    var found := UserByToss(first.post.users, toss).value;
    var j :| 0 <= j < |first.post.users| && first.post.users[j] == found;
    assert j == k;
  }

  /** A login with the Toss id of a known account keeps that account's id, reports it as not new and adds no row. */
  lemma LoginOfKnownAccount(s: DbState, req: LoginRequest)
    requires Truthy(req.tossUserId) && UserByToss(s.users, req.tossUserId.value).Some?
    ensures var st := LoginSpec(s, req);
      && st.result.Ok? && !st.result.value.isNewUser
      && st.result.value.user.id == UserByToss(s.users, req.tossUserId.value).value.id
      && |st.post.users| == |s.users|
  {
  }

  /** Disconnect without a Toss id is 400; an unknown account is a success that writes nothing. */
  lemma DisconnectRejectsAndIgnores(s: DbState, tossUserId: Option<string>)
    ensures var st := DisconnectSpec(s, tossUserId);
      && (st.result.Fail? <==> !Truthy(tossUserId))
      && (st.result.Fail? ==> st.result.error == BadRequest && st.post == s)
      && (Truthy(tossUserId) && UserByToss(s.users, tossUserId.value).None? ==> st.post == s)
  {
  }

  /**
   * Disconnecting a known account removes its row, its alarms and every match
   * row naming it; every other user, alarm and match row is kept.
   */
  lemma DisconnectCascades(s: DbState, toss: string)
    requires Inv(s) && toss != ""
    requires UserByToss(s.users, toss).Some?
    ensures var uid := UserByToss(s.users, toss).value.id;
      var st := DisconnectSpec(s, Some(toss));
      && st.result == Ok(true)
      && UserByToss(st.post.users, toss).None?
      && UserById(st.post.users, uid).None?
      && (forall v :: v in st.post.users <==> v in s.users && v.id != uid)
      && (forall a :: a in st.post.alarms <==> a in s.alarms && a.userId != uid)
      && (forall m :: m in st.post.matches <==> m in s.matches && m.user1Id != uid && m.user2Id != uid)
      && st.post.feedback == s.feedback
  {
    var u := UserByToss(s.users, toss).value;
    var k :| 0 <= k < |s.users| && s.users[k] == u;
    forall v | v in s.users ensures v.tossUserId == toss <==> v.id == u.id {
      var i :| 0 <= i < |s.users| && s.users[i] == v;
    }
  }

  /** After a disconnect, logging in with the same Toss id creates a new account under a new id. */
  lemma LoginAfterDisconnectIsNew(s: DbState, toss: string, req: LoginRequest)
    requires Inv(s) && toss != "" && req.tossUserId == Some(toss)
    requires UserByToss(s.users, toss).Some?
    ensures var gone := DisconnectSpec(s, Some(toss));
      var back := LoginSpec(gone.post, req);
      && back.result.Ok? && back.result.value.isNewUser
      && back.result.value.user.id != UserByToss(s.users, toss).value.id
  {
    DisconnectCascades(s, toss);
  }

  // ---------------------------------------------------------------- invariant

  lemma LoginKeepsInv(s: DbState, req: LoginRequest)
    requires Inv(s)
    ensures Inv(LoginSpec(s, req).post)
  {
    if Truthy(req.tossUserId) {
      var user := UserByToss(s.users, req.tossUserId.value);
      if user.Some? && HasUpdate(user.value, req) {
        var k :| 0 <= k < |s.users| && s.users[k] == user.value;
        ReplaceUserKeepsWellFormed(s.users, s.nextId, Filled(user.value, req), k);
      }
    }
  }

  lemma DisconnectKeepsInv(s: DbState, tossUserId: Option<string>)
    requires Inv(s)
    ensures Inv(DisconnectSpec(s, tossUserId).post)
  {
    if Truthy(tossUserId) && UserByToss(s.users, tossUserId.value).Some? {
      var u := UserByToss(s.users, tossUserId.value).value;
      var post := DeleteAccount(s, u);
      var userRel := (a: User, b: User) => a.id != b.id && a.tossUserId != b.tossUserId;
      assert Pairwise(s.users, userRel);
      FilterKeepsPairwise(s.users, (v: User) => v.tossUserId != u.tossUserId, userRel);
      var alarmRel := (a: Alarm, b: Alarm) => !SameKey(a, b) && a.id != b.id && a.createdAt < b.createdAt;
      assert Pairwise(s.alarms, alarmRel);
      FilterKeepsPairwise(s.alarms, (a: Alarm) => a.userId != u.id, alarmRel);
      var matchRel := (m1: Match, m2: Match) => !m2.Between(m1.user1Id, m1.user2Id);
      assert Pairwise(s.matches, matchRel);
      FilterKeepsPairwise(s.matches, (m: Match) => m.user1Id != u.id && m.user2Id != u.id, matchRel);
      assert UsersWellFormed(post.users, post.nextId) by {
        assert Pairwise(post.users, userRel);
        forall i | 0 <= i < |post.users| ensures post.users[i].id < post.nextId {
          assert post.users[i] in s.users;
        }
      }
      assert AlarmsWellFormed(post.alarms, post.nextId, post.clock) by {
        assert Pairwise(post.alarms, alarmRel);
        forall i | 0 <= i < |post.alarms| ensures post.alarms[i].id < post.nextId && post.alarms[i].createdAt < post.clock {
          assert post.alarms[i] in s.alarms;
        }
      }
      assert Pairwise(post.matches, matchRel);
    }
  }
}
