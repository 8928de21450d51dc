/**
 * `checkMatching(prisma, currentUser, targetInstagramId)` of the backend's
 * matching service: find the user whose profile handle is `targetInstagramId`,
 * look for that user's alarm on the current user's own handle, and on success
 * create the match (once) and mark both alarms `matched`.
 */
module Matching {
  import opened Wrappers
  import opened Tables
  import Store

  datatype Reason = TargetNotRegistered | CurrentUserNoInstagram | NoReverseAlarm | AlreadyMatched | NewMatch

  datatype MatchResult = MatchResult(matched: bool, matchRow: Option<Match>, reason: Reason, targetUserId: Option<UserId>)

  function NoMatch(reason: Reason): MatchResult {
    MatchResult(false, None, reason, None)
  }

  /** The matching service as a function of the database before the call. */
  function CheckMatchingSpec(s: DbState, currentUser: User, targetInstagramId: string): Step<MatchResult>
  {
    var targetUser := FirstUserWithHandle(s.users, targetInstagramId);
    if targetUser.None? then Step(NoMatch(TargetNotRegistered), s)
    else if !Truthy(currentUser.instagramId) then Step(NoMatch(CurrentUserNoInstagram), s)
    else
      var own := currentUser.instagramId.value;
      var tu := targetUser.value;
      if AlarmByKey(s.alarms, tu.id, own).None? then Step(NoMatch(NoReverseAlarm), s)
      else
        var existing := MatchBetween(s.matches, currentUser.id, tu.id);
        if existing.Some? then Step(MatchResult(true, existing, AlreadyMatched, Some(tu.id)), s)
        else
          var m := Match(s.nextId, currentUser.id, tu.id, s.clock);
          Step(MatchResult(true, Some(m), NewMatch, Some(tu.id)),
               s.(matches := s.matches + [m], nextId := s.nextId + 1, clock := s.clock + 1,
                  alarms := MarkMatched(s.alarms, currentUser.id, targetInstagramId, tu.id, own)))
  }

  method CheckMatching(db: Store.Database, currentUser: User, targetInstagramId: string) returns (r: MatchResult)
    requires db.Valid()
    modifies db
    ensures Step(r, db.State()) == CheckMatchingSpec(old(db.State()), currentUser, targetInstagramId)
    ensures db.Valid()
  {
    ghost var s0 := db.State();
    CheckMatchingKeepsInv(s0, currentUser, targetInstagramId);
    var targetUser := FirstUserWithHandle(db.users, targetInstagramId);
    if targetUser.None? {
      return NoMatch(TargetNotRegistered);
    }
    if !Truthy(currentUser.instagramId) {
      return NoMatch(CurrentUserNoInstagram);
    }
    var own := currentUser.instagramId.value;
    var reverseAlarm := AlarmByKey(db.alarms, targetUser.value.id, own);
    if reverseAlarm.None? {
      return NoMatch(NoReverseAlarm);
    }
    var existing := MatchBetween(db.matches, currentUser.id, targetUser.value.id);
    if existing.Some? {
      return MatchResult(true, existing, AlreadyMatched, Some(targetUser.value.id));
    }
    var m := Match(db.nextId, currentUser.id, targetUser.value.id, db.clock);
    db.matches, db.nextId, db.clock := db.matches + [m], db.nextId + 1, db.clock + 1;
    db.alarms := MarkMatched(db.alarms, currentUser.id, targetInstagramId, targetUser.value.id, own);
    r := MatchResult(true, Some(m), NewMatch, Some(targetUser.value.id));
  }

  // ---------------------------------------------------------------- properties

  /** No user carries the handle: `target_not_registered`, and nothing is written. */
  lemma TargetNotRegisteredIff(s: DbState, currentUser: User, t: string)
    ensures var st := CheckMatchingSpec(s, currentUser, t);
      && (st.result.reason == TargetNotRegistered <==> forall i :: 0 <= i < |s.users| ==> s.users[i].instagramId != Some(t))
      && (st.result.reason == TargetNotRegistered ==> !st.result.matched && st.post == s)
  {
  }

  /** Every `matched: false` outcome writes nothing and carries no match and no target user. */
  lemma NoMatchWritesNothing(s: DbState, currentUser: User, t: string)
    ensures var st := CheckMatchingSpec(s, currentUser, t);
      !st.result.matched ==> st.post == s && st.result.matchRow.None? && st.result.targetUserId.None?
  {
  }

  /** A current user without a handle of their own never matches. */
  lemma NoOwnHandleNoMatch(s: DbState, currentUser: User, t: string)
    requires !Truthy(currentUser.instagramId)
    ensures var st := CheckMatchingSpec(s, currentUser, t);
      !st.result.matched && st.post == s
  {
  }

  /**
   * The match condition: a user with handle `t` exists and the first such user
   * owns an alarm keyed on the current user's handle, whether or not that alarm
   * is soft-deleted.
   */
  lemma MatchedIff(s: DbState, currentUser: User, t: string)
    ensures CheckMatchingSpec(s, currentUser, t).result.matched <==>
      && FirstUserWithHandle(s.users, t).Some?
      && Truthy(currentUser.instagramId)
      && exists i :: 0 <= i < |s.alarms| && s.alarms[i].userId == FirstUserWithHandle(s.users, t).value.id
                                       && s.alarms[i].targetInstagramId == currentUser.instagramId.value
  {
  }

  /** The reverse lookup has no `deletedAt` filter: a withdrawn reverse alarm still produces a match. */
  lemma SoftDeletedReverseStillMatches(s: DbState, currentUser: User, t: string, i: nat)
    requires FirstUserWithHandle(s.users, t).Some? && Truthy(currentUser.instagramId)
    requires i < |s.alarms| && s.alarms[i].deletedAt.Some?
    requires s.alarms[i].userId == FirstUserWithHandle(s.users, t).value.id
    requires s.alarms[i].targetInstagramId == currentUser.instagramId.value
    ensures CheckMatchingSpec(s, currentUser, t).result.matched
  {
    MatchedIff(s, currentUser, t);
  }

  /** A match row between the two users, in either order, is returned as it is and nothing is written. */
  lemma ExistingMatchIsReused(s: DbState, currentUser: User, t: string)
    requires CheckMatchingSpec(s, currentUser, t).result.matched
    requires exists i :: 0 <= i < |s.matches| && s.matches[i].Between(currentUser.id, FirstUserWithHandle(s.users, t).value.id)
    ensures var st := CheckMatchingSpec(s, currentUser, t);
      && st.result.reason == AlreadyMatched && st.post == s
      && st.result.matchRow.Some? && st.result.matchRow.value in s.matches
      && st.result.matchRow.value.Between(currentUser.id, st.result.targetUserId.value)
  {
  }

  /**
   * A new match appends exactly one row `{ user1Id: current, user2Id: target }`
   * for a pair that had none, and touches no user and no feedback.
   */
  lemma NewMatchAppendsOneRow(s: DbState, currentUser: User, t: string)
    requires CheckMatchingSpec(s, currentUser, t).result.reason == NewMatch
    ensures var st := CheckMatchingSpec(s, currentUser, t);
      && st.result.matchRow.Some?
      && st.post.matches == s.matches + [st.result.matchRow.value]
      && st.result.matchRow.value.user1Id == currentUser.id
      && Some(st.result.matchRow.value.user2Id) == st.result.targetUserId
      && (forall i :: 0 <= i < |s.matches| ==> !s.matches[i].Between(currentUser.id, st.result.matchRow.value.user2Id))
      && st.post.users == s.users && st.post.feedback == s.feedback
  {
  }

  /**
   * Only the alarms keyed `(current, t)` or `(target user, current handle)`
   * change, and only their status, which becomes `matched`.
   */
  lemma OnlyKeyedAlarmsChange(s: DbState, currentUser: User, t: string)
    requires CheckMatchingSpec(s, currentUser, t).result.matched
    ensures var st := CheckMatchingSpec(s, currentUser, t);
      && |st.post.alarms| == |s.alarms|
      && forall i :: 0 <= i < |s.alarms| ==>
           || st.post.alarms[i] == s.alarms[i]
           || (&& st.post.alarms[i] == s.alarms[i].(status := Matched)
               && KeyedBy(s.alarms[i], currentUser.id, t, st.result.targetUserId.value, currentUser.instagramId.value))
  {
  }

  /**
   * A new match marks both sides: every alarm keyed `(current, t)` or
   * `(target user, current handle)` is `matched` afterwards, so the reverse
   * alarm the check found, and the declarer's own alarm on `t` if there is
   * one, are both looked up as `matched`.
   */
  lemma NewMatchMarksBothKeys(s: DbState, currentUser: User, t: string)
    requires CheckMatchingSpec(s, currentUser, t).result.reason == NewMatch
    ensures var st := CheckMatchingSpec(s, currentUser, t);
      var tu := st.result.targetUserId.value;
      var own := currentUser.instagramId.value;
      && (forall i :: 0 <= i < |s.alarms| && KeyedBy(s.alarms[i], currentUser.id, t, tu, own) ==>
            st.post.alarms[i] == s.alarms[i].(status := Matched))
      && AlarmByKey(s.alarms, tu, own).Some?
      && AlarmByKey(st.post.alarms, tu, own) == Some(AlarmByKey(s.alarms, tu, own).value.(status := Matched))
      && (AlarmByKey(s.alarms, currentUser.id, t).Some? ==>
            AlarmByKey(st.post.alarms, currentUser.id, t) == Some(AlarmByKey(s.alarms, currentUser.id, t).value.(status := Matched)))
  {
    var st := CheckMatchingSpec(s, currentUser, t);
    var tu := FirstUserWithHandle(s.users, t).value.id;
    var own := currentUser.instagramId.value;
    assert st.result.targetUserId == Some(tu) && AlarmByKey(s.alarms, tu, own).Some?;
    assert st.post.alarms == MarkMatched(s.alarms, currentUser.id, t, tu, own);
    MarkedKeyLookup(s.alarms, currentUser.id, t, tu, own, tu, own);
    if AlarmByKey(s.alarms, currentUser.id, t).Some? {
      MarkedKeyLookup(s.alarms, currentUser.id, t, tu, own, currentUser.id, t);
    }
  }

  /** Looking up a marked key finds the row it found before, now `matched`. */
  lemma {:induction false} MarkedKeyLookup(alarms: seq<Alarm>, u1: UserId, t1: string, u2: UserId, t2: string, u: UserId, k: string)
    requires (u == u1 && k == t1) || (u == u2 && k == t2)
    requires AlarmByKey(alarms, u, k).Some?
    ensures AlarmByKey(MarkMatched(alarms, u1, t1, u2, t2), u, k) == Some(AlarmByKey(alarms, u, k).value.(status := Matched))
  {
    var marked := MarkMatched(alarms, u1, t1, u2, t2);
    if alarms[0].userId != u || alarms[0].targetInstagramId != k {
      assert marked[1..] == MarkMatched(alarms[1..], u1, t1, u2, t2);
      MarkedKeyLookup(alarms[1..], u1, t1, u2, t2, u, k);
    }
  }

  /** Whatever the outcome, every alarm row keeps its place, id, key, handle and withdrawal state. */
  lemma RowsKeepIdentity(s: DbState, currentUser: User, t: string, k: nat)
    requires k < |s.alarms|
    ensures var post := CheckMatchingSpec(s, currentUser, t).post;
      && |post.alarms| == |s.alarms|
      && post.alarms[k] == s.alarms[k].(status := post.alarms[k].status)
  {
    if CheckMatchingSpec(s, currentUser, t).result.matched {
      OnlyKeyedAlarmsChange(s, currentUser, t);
    }
  }

  /** Every successful result names the first user whose handle is `t`. */
  lemma MatchedNamesTargetUser(s: DbState, currentUser: User, t: string)
    requires CheckMatchingSpec(s, currentUser, t).result.matched
    ensures var st := CheckMatchingSpec(s, currentUser, t);
      && FirstUserWithHandle(s.users, t).Some?
      && st.result.targetUserId == Some(FirstUserWithHandle(s.users, t).value.id)
      && FirstUserWithHandle(s.users, t).value.instagramId == Some(t)
  {
  }

  /** Marking alarms keeps every key present. */
  lemma {:induction false} MarkMatchedKeepsKeys(alarms: seq<Alarm>, u1: UserId, t1: string, u2: UserId, t2: string, u: UserId, t: string)
    requires AlarmByKey(alarms, u, t).Some?
    ensures AlarmByKey(MarkMatched(alarms, u1, t1, u2, t2), u, t).Some?
  {
    var i :| 0 <= i < |alarms| && alarms[i] == AlarmByKey(alarms, u, t).value;
    assert MarkMatched(alarms, u1, t1, u2, t2)[i].userId == u;
  }

  /** A row appended to a table with no row between `a` and `b` is the one `findFirst` returns. */
  lemma {:induction false} MatchBetweenAppended(matches: seq<Match>, m: Match, a: UserId, b: UserId)
    requires MatchBetween(matches, a, b).None? && m.Between(a, b)
    ensures MatchBetween(matches + [m], a, b) == Some(m)
  {
    if matches != [] {
      assert (matches + [m])[1..] == matches[1..] + [m];
      MatchBetweenAppended(matches[1..], m, a, b);
    }
  }

  /**
   * Running the check again right after a success changes nothing and reports
   * `already_matched` with the same match: repeated requests never add a second row.
   */
  lemma RepeatIsIdempotent(s: DbState, currentUser: User, t: string)
    requires CheckMatchingSpec(s, currentUser, t).result.matched
    ensures var first := CheckMatchingSpec(s, currentUser, t);
      var again := CheckMatchingSpec(first.post, currentUser, t);
      && again.post == first.post
      && again.result == first.result.(reason := AlreadyMatched)
  {
    var first := CheckMatchingSpec(s, currentUser, t);
    if first.result.reason == NewMatch {
      var tu := FirstUserWithHandle(s.users, t).value;
      var own := currentUser.instagramId.value;
      MarkMatchedKeepsKeys(s.alarms, currentUser.id, t, tu.id, own, tu.id, own);
      MatchBetweenAppended(s.matches, first.result.matchRow.value, currentUser.id, tu.id);
    }
  }

  /** The check keeps the database invariant; in particular one match row per pair. */
  lemma CheckMatchingKeepsInv(s: DbState, currentUser: User, t: string)
    requires Inv(s)
    ensures Inv(CheckMatchingSpec(s, currentUser, t).post)
  {
    var st := CheckMatchingSpec(s, currentUser, t);
    if st.result.reason == NewMatch {
      var m := st.result.matchRow.value;
      var ms := st.post.matches;
      forall i, j | 0 <= i < j < |ms| ensures !ms[j].Between(ms[i].user1Id, ms[i].user2Id) {
        if j == |ms| - 1 {
          assert !ms[i].Between(m.user1Id, m.user2Id);
        }
      }
    }
  }
}
