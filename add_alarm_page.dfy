/**
 * The web front end's "add alarm" page: the handle validators that drive the
 * field errors and the save button, the submit chain (blank, then format, then
 * same handle), and what a submit does: remember the user's own handle,
 * send the normalised handles to the backend, and navigate on the reply.
 */
module AddAlarmPage {
  import opened Wrappers
  import opened Text
  import opened Tables
  import Http
  import Sessions
  import AlarmRoutes

  /** Longest handle Instagram allows, after trimming. */
  const MaxHandleLength: nat := 30

  /**
   * `isInvalidInstagramId`: blank text is not reported (the blank check is
   * separate); otherwise the trimmed, lower-cased text is invalid when it is
   * too long or has a character outside `[a-z0-9._]`.
   */
  function IsInvalidInstagramId(text: string): bool {
    var t := Normalize(text);
    if t == [] then false
    else if |t| > MaxHandleLength then true
    else !MatchesLowerHandle(t)
  }

  /** `isSameId`: both handles non-blank and equal after trimming and lower-casing. */
  predicate IsSameId(myId: string, targetId: string) {
    Trim(myId) != [] && Trim(targetId) != [] && Normalize(myId) == Normalize(targetId)
  }

  datatype FieldError = FormatError | SameIdError

  /** `getMyIdErrorMessage` */
  function MyIdError(myId: string): Option<FieldError> {
    if IsInvalidInstagramId(myId) then Some(FormatError) else None
  }

  /** `getTargetIdErrorMessage`: the format error wins over the same-handle error. */
  function TargetIdError(myId: string, targetId: string): Option<FieldError> {
    if IsInvalidInstagramId(targetId) then Some(FormatError)
    else if IsSameId(myId, targetId) then Some(SameIdError)
    else None
  }

  /** The `disabled` condition of the save button. */
  predicate SaveDisabled(myId: string, targetId: string, isSubmitting: bool) {
    || Trim(myId) == [] || Trim(targetId) == [] || isSubmitting
    || IsInvalidInstagramId(myId)
    || IsInvalidInstagramId(targetId) || IsSameId(myId, targetId)
  }

  /** The error toasts; a failed add shows the error's message, or the default text when it has none. */
  datatype Toast = MissingIds | BadFormat | SameIds | AddFailed(message: Option<string>)

  /** `error.message || default`: an empty message falls back to the default text. */
  function FailureToast(message: Option<string>): (r: Toast)
    ensures r.AddFailed? && (r.message.Some? <==> Truthy(message))
    ensures r.message.Some? ==> r.message == message
  {
    AddFailed(if Truthy(message) then message else None)
  }

  /** Outcome of `handleSubmit`'s checks: a toast, or the normalised handles to send. */
  datatype Check = Rejected(toast: Toast) | Proceed(myId: string, targetId: string)

  /** `handleSubmit`'s checks, in order. */
  function SubmitCheck(myId: string, targetId: string): Check {
    if Trim(myId) == [] || Trim(targetId) == [] then Rejected(MissingIds)
    else
      var my, target := Normalize(myId), Normalize(targetId);
      if !MatchesLowerHandle(my) || |my| > MaxHandleLength || !MatchesLowerHandle(target) || |target| > MaxHandleLength
      then Rejected(BadFormat)
      else if my == target then Rejected(SameIds)
      else Proceed(my, target)
  }

  /** What `api.createAlarm` resolves or rejects with: the reply is an input to the page. */
  datatype ApiReply = Created(matched: bool, alarmId: nat) | Failed(message: Option<string>)

  datatype Navigation = ToMatchSuccess(alarmId: nat) | ToAlarmList(showAddedToast: bool)

  /** The page's state, the handle it keeps in local storage, and what it sent and where it went. */
  class AddAlarmForm {
    var myId: string
    var targetId: string
    var isSubmitting: bool
    var toast: Option<Toast>
    /** Local storage key `love_alarm_my_instagram_id`. */
    var savedMyId: Option<string>
    /** The `(fromInstagramId, targetInstagramId)` of the last `createAlarm` call. */
    var sent: Option<(string, string)>
    var navigation: Option<Navigation>

    /** Mounting the page pre-fills the user's own handle from local storage. */
    constructor (saved: Option<string>)
      ensures myId == (if Truthy(saved) then saved.value else "") && targetId == ""
      ensures !isSubmitting && toast.None? && savedMyId == saved && sent.None? && navigation.None?
    {
      myId := if Truthy(saved) then saved.value else "";
      targetId := "";
      isSubmitting, toast, savedMyId, sent, navigation := false, None, saved, None, None;
    }

    /**
     * `handleSubmit`, then `addAlarm` when the checks pass. A rejected submit
     * shows its toast and changes nothing else; a submit that passes stores
     * the own handle, sends both normalised handles, and navigates to the
     * match screen or the list, or shows the error.
     */
    method HandleSubmit(reply: ApiReply)
      modifies this
      ensures myId == old(myId) && targetId == old(targetId)
      ensures var check := SubmitCheck(old(myId), old(targetId));
        && (check.Rejected? ==>
              && toast == Some(check.toast) && isSubmitting == old(isSubmitting)
              && savedMyId == old(savedMyId) && sent == old(sent) && navigation == old(navigation))
        && (check.Proceed? ==>
              && !isSubmitting
              && savedMyId == Some(check.myId) && sent == Some((check.myId, check.targetId))
              && (reply.Created? ==>
                    && toast == old(toast)
                    && navigation == Some(if reply.matched then ToMatchSuccess(reply.alarmId) else ToAlarmList(true)))
              && (reply.Failed? ==> toast == Some(FailureToast(reply.message)) && navigation == old(navigation)))
    {
      if Trim(myId) == [] || Trim(targetId) == [] {
        toast := Some(MissingIds);
        return;
      }
      var myIdLower := Normalize(myId);
      var targetIdLower := Normalize(targetId);
      if !MatchesLowerHandle(myIdLower) || |myIdLower| > MaxHandleLength
         || !MatchesLowerHandle(targetIdLower) || |targetIdLower| > MaxHandleLength {
        toast := Some(BadFormat);
        return;
      }
      if Normalize(myId) == Normalize(targetId) {
        toast := Some(SameIds);
        return;
      }
      AddAlarm(reply);
    }

    /** `addAlarm`: the request goes out with the handles normalised again. */
    method AddAlarm(reply: ApiReply)
      modifies this
      ensures myId == old(myId) && targetId == old(targetId) && !isSubmitting
      ensures savedMyId == Some(Normalize(myId)) && sent == Some((Normalize(myId), Normalize(targetId)))
      ensures reply.Created? ==>
                toast == old(toast) && navigation == Some(if reply.matched then ToMatchSuccess(reply.alarmId) else ToAlarmList(true))
      ensures reply.Failed? ==> toast == Some(FailureToast(reply.message)) && navigation == old(navigation)
    {
      isSubmitting := true;
      var myIdTrimmed := Normalize(myId);
      var targetIdTrimmed := Normalize(targetId);
      savedMyId := Some(myIdTrimmed);
      sent := Some((myIdTrimmed, targetIdTrimmed));
      match reply {
        case Created(matched, alarmId) =>
          if matched {
            navigation := Some(ToMatchSuccess(alarmId));
          } else {
            navigation := Some(ToAlarmList(true));
          }
        case Failed(message) =>
          toast := Some(FailureToast(message));
      }
      isSubmitting := false;
    }
  }

  // ---------------------------------------------------------------- properties

  /** Blank text never shows a format error. */
  lemma BlankIsNotInvalid(text: string)
    requires Trim(text) == []
    ensures !IsInvalidInstagramId(text) && MyIdError(text).None?
  {
  }

  /**
   * Non-blank text is invalid exactly when, trimmed and lower-cased, it is
   * longer than 30 characters or leaves `[a-z0-9._]`.
   */
  lemma InvalidIff(text: string)
    requires Trim(text) != []
    ensures IsInvalidInstagramId(text) <==> |Normalize(text)| > MaxHandleLength || !MatchesLowerHandle(Normalize(text))
  {
  }

  /** Upper-case letters are accepted: a trimmed handle of `[a-zA-Z0-9._]`, at most 30 long, is valid. */
  lemma UpperCaseAccepted(text: string)
    requires MatchesHandle(Trim(text)) && |Trim(text)| <= MaxHandleLength
    ensures !IsInvalidInstagramId(text)
  {
    LowerOfHandle(Trim(text));
  }

  /**
   * The submit chain agrees with the field validators: blank first, then a
   * format error on either field, then the same handle twice; otherwise it proceeds.
   */
  lemma SubmitChecksInOrder(myId: string, targetId: string)
    ensures var check := SubmitCheck(myId, targetId);
      && (Trim(myId) == [] || Trim(targetId) == [] <==> check == Rejected(MissingIds))
      && (Trim(myId) != [] && Trim(targetId) != [] ==>
            (check == Rejected(BadFormat) <==> IsInvalidInstagramId(myId) || IsInvalidInstagramId(targetId)))
      && (check == Rejected(SameIds) <==>
            !IsInvalidInstagramId(myId) && !IsInvalidInstagramId(targetId) && IsSameId(myId, targetId))
  {
  }

  /**
   * The handles a passing submit sends are already normal, match
   * `[a-z0-9._]{1,30}`, and differ from each other.
   */
  lemma SentHandlesAreWellFormed(myId: string, targetId: string)
    requires SubmitCheck(myId, targetId).Proceed?
    ensures var check := SubmitCheck(myId, targetId);
      && check.myId == Normalize(myId) && check.targetId == Normalize(targetId)
      && Normalize(check.myId) == check.myId && Normalize(check.targetId) == check.targetId
      && MatchesLowerHandle(check.myId) && |check.myId| <= MaxHandleLength
      && MatchesLowerHandle(check.targetId) && |check.targetId| <= MaxHandleLength
      && check.myId != check.targetId
  {
    NormalizeIdempotent(myId);
    NormalizeIdempotent(targetId);
  }

  /** When no submit is running, the save button is enabled exactly when a submit would proceed. */
  lemma EnabledIffProceed(myId: string, targetId: string)
    ensures !SaveDisabled(myId, targetId, false) <==> SubmitCheck(myId, targetId).Proceed?
  {
    SubmitChecksInOrder(myId, targetId);
  }

  /** A field error on screen always disables the save button. */
  lemma FieldErrorDisablesSave(myId: string, targetId: string, isSubmitting: bool)
    requires MyIdError(myId).Some? || TargetIdError(myId, targetId).Some?
    ensures SaveDisabled(myId, targetId, isSubmitting)
  {
  }

  /**
   * The handles a passing submit sends never trip the backend's self-target
   * check or its missing-field check.
   */
  lemma SentHandlesPassBackendChecks(myId: string, targetId: string, s: DbState, sockets: Sessions.Entries, uid: UserId)
    requires SubmitCheck(myId, targetId).Proceed?
    ensures var check := SubmitCheck(myId, targetId);
      AlarmRoutes.CreateSpec(s, sockets, AlarmRoutes.CreateRequest(Some(uid), Some(check.myId), Some(check.targetId)))
        .result.response != Http.Fail(Http.BadRequest)
  {
    SentHandlesAreWellFormed(myId, targetId);
  }
}
