/**
 * The user routes (`/api/users/:id`): read a profile, set the Instagram
 * handle, change the two notification flags, and buy one more alarm slot.
 * Each handler is a function of the database (the specification) and a method
 * on `Store.Database` that performs the same reads and writes in place.
 */
module UserRoutes {
  import opened Wrappers
  import opened Tables
  import opened Http
  import Store

  // ---------------------------------------------------------------- GET /:id

  /** GET /:id: the row with this id, or 404. */
  method GetUser(db: Store.Database, id: UserId) returns (r: Result<User>)
    ensures r.Fail? <==> forall i :: 0 <= i < |db.users| ==> db.users[i].id != id
    ensures r.Fail? ==> r.error == NotFound
    ensures r.Ok? ==> r.value in db.users && r.value.id == id
  {
    var user := UserById(db.users, id);
    if user.None? {
      return Fail(NotFound);
    }
    r := Ok(user.value);
  }

  // ---------------------------------------------------------------- PUT /:id/instagram

  /**
   * PUT /:id/instagram: 400 without a (non-empty) handle; otherwise
   * `user.update` of `instagramId` alone, which throws (500) when the row is
   * missing. No uniqueness check: several users may carry one handle.
   */
  function PutInstagramSpec(s: DbState, id: UserId, instagramId: Option<string>): Step<Result<User>>
  {
    if !Truthy(instagramId) then Step(Fail(BadRequest), s)
    else
      var user := UserById(s.users, id);
      if user.None? then Step(Fail(ServerError), s)
      else
        var updated := user.value.(instagramId := instagramId);
        Step(Ok(updated), s.(users := ReplaceUser(s.users, updated)))
  }

  method PutInstagram(db: Store.Database, id: UserId, instagramId: Option<string>) returns (r: Result<User>)
    requires db.Valid()
    modifies db
    ensures Step(r, db.State()) == PutInstagramSpec(old(db.State()), id, instagramId)
    ensures db.Valid()
  {
    PutInstagramKeepsInv(db.State(), id, instagramId);
    if !Truthy(instagramId) {
      return Fail(BadRequest);
    }
    var user := UserById(db.users, id);
    if user.None? {
      return Fail(ServerError);
    }
    var updated := user.value.(instagramId := instagramId);
    db.users := ReplaceUser(db.users, updated);
    r := Ok(updated);
  }

  // ---------------------------------------------------------------- PATCH /:id/settings

  /** The `updateData` object: a flag that was not sent (`undefined`) keeps its value. */
  function ApplySettings(u: User, pushEnabled: Option<bool>, tossAppEnabled: Option<bool>): (r: User)
    ensures r.pushEnabled == (if pushEnabled.Some? then pushEnabled.value else u.pushEnabled)
    ensures r.tossAppEnabled == (if tossAppEnabled.Some? then tossAppEnabled.value else u.tossAppEnabled)
    ensures r.(pushEnabled := u.pushEnabled, tossAppEnabled := u.tossAppEnabled) == u
  {
    var u1 := if pushEnabled.Some? then u.(pushEnabled := pushEnabled.value) else u;
    if tossAppEnabled.Some? then u1.(tossAppEnabled := tossAppEnabled.value) else u1
  }

  /** PATCH /:id/settings: 400 when neither flag is sent; 500 when the row is missing. */
  function PatchSettingsSpec(s: DbState, id: UserId, pushEnabled: Option<bool>, tossAppEnabled: Option<bool>): Step<Result<User>>
  {
    if pushEnabled.None? && tossAppEnabled.None? then Step(Fail(BadRequest), s)
    else
      var user := UserById(s.users, id);
      if user.None? then Step(Fail(ServerError), s)
      else
        var updated := ApplySettings(user.value, pushEnabled, tossAppEnabled);
        Step(Ok(updated), s.(users := ReplaceUser(s.users, updated)))
  }

  method PatchSettings(db: Store.Database, id: UserId, pushEnabled: Option<bool>, tossAppEnabled: Option<bool>)
    returns (r: Result<User>)
    requires db.Valid()
    modifies db
    ensures Step(r, db.State()) == PatchSettingsSpec(old(db.State()), id, pushEnabled, tossAppEnabled)
    ensures db.Valid()
  {
    PatchSettingsKeepsInv(db.State(), id, pushEnabled, tossAppEnabled);
    if pushEnabled.None? && tossAppEnabled.None? {
      return Fail(BadRequest);
    }
    var user := UserById(db.users, id);
    if user.None? {
      return Fail(ServerError);
    }
    var updated := user.value;
    if pushEnabled.Some? {
      updated := updated.(pushEnabled := pushEnabled.value);
    }
    if tossAppEnabled.Some? {
      updated := updated.(tossAppEnabled := tossAppEnabled.value);
    }
    db.users := ReplaceUser(db.users, updated);
    r := Ok(updated);
  }

  // ---------------------------------------------------------------- POST /:id/purchase-slot

  /** The response body: the updated row and `newMaxSlots`. */
  datatype Purchased = Purchased(user: User, newMaxSlots: int)

  /** POST /:id/purchase-slot: 404 for an unknown user; otherwise `maxSlots` goes up by one. */
  function PurchaseSlotSpec(s: DbState, id: UserId): Step<Result<Purchased>>
  {
    var user := UserById(s.users, id);
    if user.None? then Step(Fail(NotFound), s)
    else
      var updated := user.value.(maxSlots := user.value.maxSlots + 1);
      Step(Ok(Purchased(updated, updated.maxSlots)), s.(users := ReplaceUser(s.users, updated)))
  }

  method PurchaseSlot(db: Store.Database, id: UserId) returns (r: Result<Purchased>)
    requires db.Valid()
    modifies db
    ensures Step(r, db.State()) == PurchaseSlotSpec(old(db.State()), id)
    ensures db.Valid()
  {
    PurchaseSlotKeepsInv(db.State(), id);
    var user := UserById(db.users, id);
    if user.None? {
      return Fail(NotFound);
    }
    var updated := user.value.(maxSlots := user.value.maxSlots + 1);
    db.users := ReplaceUser(db.users, updated);
    r := Ok(Purchased(updated, updated.maxSlots));
  }

  // ---------------------------------------------------------------- properties

  /** PUT without a handle is 400 and an unknown id is 500; neither writes. */
  lemma PutInstagramRejections(s: DbState, id: UserId, instagramId: Option<string>)
    ensures var st := PutInstagramSpec(s, id, instagramId);
      && (!Truthy(instagramId) ==> st.result == Fail(BadRequest))
      && (Truthy(instagramId) && UserById(s.users, id).None? ==> st.result == Fail(ServerError))
      && (st.result.Fail? ==> st.post == s)
  {
  }

  /**
   * A successful PUT changes the `instagramId` of the row with this id and
   * nothing else: no other column, no other row, no other table.
   */
  lemma PutInstagramWritesOnlyHandle(s: DbState, id: UserId, instagramId: Option<string>)
    requires Inv(s)
    requires PutInstagramSpec(s, id, instagramId).result.Ok?
    ensures var st := PutInstagramSpec(s, id, instagramId);
      && st.result.value.instagramId == instagramId
      && st.result.value == UserById(s.users, id).value.(instagramId := instagramId)
      && st.post == s.(users := st.post.users)
      && |st.post.users| == |s.users|
      && (forall i :: 0 <= i < |s.users| ==>
            st.post.users[i] == if s.users[i].id == id then s.users[i].(instagramId := instagramId) else s.users[i])
      && UserById(st.post.users, id) == Some(st.result.value)
  {
    var st := PutInstagramSpec(s, id, instagramId);
    var k :| 0 <= k < |s.users| && s.users[k] == UserById(s.users, id).value;
    forall i | 0 <= i < |s.users| && s.users[i].id == id ensures i == k { }
    assert st.post.users[k] == st.result.value;
  }

  /** Two users may end up with the same handle: PUT does not check uniqueness. */
  lemma HandlesMayBeShared(s: DbState, i: nat, j: nat)
    requires Inv(s) && i < |s.users| && j < |s.users| && i != j
    requires Truthy(s.users[i].instagramId)
    ensures var st := PutInstagramSpec(s, s.users[j].id, s.users[i].instagramId);
      && st.result.Ok?
      && st.post.users[i].instagramId == st.post.users[j].instagramId
      && Inv(st.post)
  {
    PutInstagramKeepsInv(s, s.users[j].id, s.users[i].instagramId);
  }

  /** PATCH with neither flag is 400, and an unknown id is 500; neither writes. */
  lemma PatchSettingsRejections(s: DbState, id: UserId, pushEnabled: Option<bool>, tossAppEnabled: Option<bool>)
    ensures var st := PatchSettingsSpec(s, id, pushEnabled, tossAppEnabled);
      && (pushEnabled.None? && tossAppEnabled.None? ==> st.result == Fail(BadRequest))
      && (!(pushEnabled.None? && tossAppEnabled.None?) && UserById(s.users, id).None? ==> st.result == Fail(ServerError))
      && (st.result.Fail? ==> st.post == s)
  {
  }

  /**
   * A successful PATCH sets exactly the flags that were sent; a flag not sent
   * keeps its value, and every other column, row and table is unchanged.
   */
  lemma PatchChangesOnlySuppliedFlags(s: DbState, id: UserId, pushEnabled: Option<bool>, tossAppEnabled: Option<bool>)
    requires Inv(s)
    requires PatchSettingsSpec(s, id, pushEnabled, tossAppEnabled).result.Ok?
    ensures var st := PatchSettingsSpec(s, id, pushEnabled, tossAppEnabled);
      var old_ := UserById(s.users, id).value;
      var u := st.result.value;
      && u.pushEnabled == (if pushEnabled.Some? then pushEnabled.value else old_.pushEnabled)
      && u.tossAppEnabled == (if tossAppEnabled.Some? then tossAppEnabled.value else old_.tossAppEnabled)
      && u.id == old_.id && u.tossUserId == old_.tossUserId && u.name == old_.name && u.gender == old_.gender
      && u.birthday == old_.birthday && u.instagramId == old_.instagramId && u.maxSlots == old_.maxSlots
      && st.post == s.(users := st.post.users)
      && (forall i :: 0 <= i < |s.users| && s.users[i].id != id ==> st.post.users[i] == s.users[i])
      && UserById(st.post.users, id) == Some(u)
  {
    var st := PatchSettingsSpec(s, id, pushEnabled, tossAppEnabled);
    var k :| 0 <= k < |s.users| && s.users[k] == UserById(s.users, id).value;
    forall i | 0 <= i < |s.users| && s.users[i].id == id ensures i == k { }
    assert st.post.users[k] == st.result.value;
  }

  /**
   * purchase-slot: 404 for an unknown user with no write; otherwise the stored
   * `maxSlots` is the old value plus one, `newMaxSlots` reports exactly that
   * stored value, and nothing else changes.
   */
  lemma PurchaseSlotAddsOne(s: DbState, id: UserId)
    requires Inv(s)
    ensures var st := PurchaseSlotSpec(s, id);
      && (st.result.Fail? <==> UserById(s.users, id).None?)
      && (st.result.Fail? ==> st.result.error == NotFound && st.post == s)
      && (st.result.Ok? ==>
            && st.result.value.newMaxSlots == UserById(s.users, id).value.maxSlots + 1
            && UserById(st.post.users, id).Some?
            && UserById(st.post.users, id).value.maxSlots == st.result.value.newMaxSlots
            && UserById(st.post.users, id).value == UserById(s.users, id).value.(maxSlots := st.result.value.newMaxSlots)
            && st.post == s.(users := st.post.users)
            && (forall i :: 0 <= i < |s.users| && s.users[i].id != id ==> st.post.users[i] == s.users[i]))
  {
    var st := PurchaseSlotSpec(s, id);
    if st.result.Ok? {
      var k :| 0 <= k < |s.users| && s.users[k] == UserById(s.users, id).value;
      forall i | 0 <= i < |s.users| && s.users[i].id == id ensures i == k { }
      assert st.post.users[k] == st.result.value.user;
    }
  }

  // ---------------------------------------------------------------- invariant

  lemma PutInstagramKeepsInv(s: DbState, id: UserId, instagramId: Option<string>)
    requires Inv(s)
    ensures Inv(PutInstagramSpec(s, id, instagramId).post)
  {
    var user := UserById(s.users, id);
    if Truthy(instagramId) && user.Some? {
      var k :| 0 <= k < |s.users| && s.users[k] == user.value;
      ReplaceUserKeepsWellFormed(s.users, s.nextId, user.value.(instagramId := instagramId), k);
    }
  }

  lemma PatchSettingsKeepsInv(s: DbState, id: UserId, pushEnabled: Option<bool>, tossAppEnabled: Option<bool>)
    requires Inv(s)
    ensures Inv(PatchSettingsSpec(s, id, pushEnabled, tossAppEnabled).post)
  {
    var user := UserById(s.users, id);
    if !(pushEnabled.None? && tossAppEnabled.None?) && user.Some? {
      var k :| 0 <= k < |s.users| && s.users[k] == user.value;
      ReplaceUserKeepsWellFormed(s.users, s.nextId, ApplySettings(user.value, pushEnabled, tossAppEnabled), k);
    }
  }

  lemma PurchaseSlotKeepsInv(s: DbState, id: UserId)
    requires Inv(s)
    ensures Inv(PurchaseSlotSpec(s, id).post)
  {
    var user := UserById(s.users, id);
    if user.Some? {
      var k :| 0 <= k < |s.users| && s.users[k] == user.value;
      var updated := user.value.(maxSlots := user.value.maxSlots + 1);
      ReplaceUserKeepsWellFormed(s.users, s.nextId, updated, k);
      assert PurchaseSlotSpec(s, id).post == s.(users := ReplaceUser(s.users, updated));
    }
  }
}
