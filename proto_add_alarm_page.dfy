/**
 * The offline prototype's "add alarm" page: a blank check, a character-set
 * check, a paywall after the first free alarm, and an add that runs the
 * store's match check a second time to choose the next screen.
 */
module ProtoAddAlarmPage {
  import opened Wrappers
  import opened Text
  import opened AlarmService
  import AddAlarmPage

  /** What `handleSubmit` does with the current fields and counters. */
  datatype Decision = Blank | BadFormat | NeedPayment | Add

  /**
   * `handleSubmit`'s checks: both handles non-blank, both trimmed handles in
   * `[a-zA-Z0-9._]+`, then the paywall once the free alarm is used and at
   * least one alarm was added.
   */
  function SubmitDecision(myId: string, targetId: string, isFirstAlarmFree: bool, alarmCount: int): Decision {
    if Trim(myId) == [] || Trim(targetId) == [] then Blank
    else if !MatchesHandle(Trim(myId)) || !MatchesHandle(Trim(targetId)) then BadFormat
    else if !isFirstAlarmFree && alarmCount > 0 then NeedPayment
    else Add
  }

  datatype Route = ToMatchSuccess | ToAlarmList

  /** The list the store holds after the page's `addAlarm`: the store's add, then the second check. */
  function StoredAfterPageAdd(alarms: seq<LocalAlarm>, a: LocalAlarm): seq<LocalAlarm> {
    var added := AfterAdd(alarms, a);
    var second := MatchWrite(added, a);
    if second.Some? then second.value else added
  }

  /** The screen the page's `addAlarm` navigates to: the second check's answer decides. */
  function RouteAfterPageAdd(alarms: seq<LocalAlarm>, a: LocalAlarm): Route {
    if MatchWrite(AfterAdd(alarms, a), a).Some? then ToMatchSuccess else ToAlarmList
  }

  class Page {
    const service: LocalAlarmStore
    var myId: string
    var targetId: string
    var showPayment: bool
    var isSubmitting: bool
    /** The decision whose alert was shown last. */
    var alerted: Option<Decision>
    var route: Option<Route>

    constructor (service: LocalAlarmStore)
      ensures this.service == service
      ensures myId == "" && targetId == "" && !showPayment && !isSubmitting && alerted.None? && route.None?
    {
      this.service := service;
      myId, targetId := "", "";
      showPayment, isSubmitting := false, false;
      alerted, route := None, None;
    }

    /**
     * `addAlarm` at clock reading `now`: the store adds the raw handles (and
     * checks once), the page checks the returned alarm again and navigates
     * on that second answer.
     */
    method AddAlarm(now: nat)
      modifies this, service
      ensures myId == old(myId) && targetId == old(targetId) && showPayment == old(showPayment) && alerted == old(alerted)
      ensures !isSubmitting
      ensures var a := NewAlarm(old(myId), old(targetId), now);
        && service.alarms == Some(StoredAfterPageAdd(old(service.GetAllAlarms()), a))
        && service.firstUsed == Some(true)
        && service.count == Some(old(service.GetAlarmCount()) + 1)
        && route == Some(RouteAfterPageAdd(old(service.GetAllAlarms()), a))
    {
      assert this as object != service as object;
      ghost var before := service.GetAllAlarms();
      isSubmitting := true;
      var newAlarm := service.AddAlarm(myId, targetId, now);
      ghost var added := service.GetAllAlarms();
      var isMatched := service.CheckMatching(newAlarm);
      SecondCheckOutcome(before, newAlarm, added, isMatched, service.alarms);
      if isMatched {
        route := Some(ToMatchSuccess);
      } else {
        route := Some(ToAlarmList);
      }
      isSubmitting := false;
    }

    /** `handleSubmit`: an alert, the payment sheet, or the add, as `SubmitDecision` says. */
    method HandleSubmit(now: nat)
      modifies this, service
      ensures myId == old(myId) && targetId == old(targetId)
      ensures var d := SubmitDecision(old(myId), old(targetId), old(service.IsFirstAlarmFree()), old(service.GetAlarmCount()));
        && (d == Blank || d == BadFormat ==>
              && alerted == Some(d) && unchanged(service)
              && showPayment == old(showPayment) && isSubmitting == old(isSubmitting) && route == old(route))
        && (d == NeedPayment ==>
              && showPayment && unchanged(service)
              && alerted == old(alerted) && isSubmitting == old(isSubmitting) && route == old(route))
        && (d == Add ==>
              var a := NewAlarm(old(myId), old(targetId), now);
              && service.alarms == Some(StoredAfterPageAdd(old(service.GetAllAlarms()), a))
              && service.firstUsed == Some(true) && service.count == Some(old(service.GetAlarmCount()) + 1)
              && route == Some(RouteAfterPageAdd(old(service.GetAllAlarms()), a))
              && !isSubmitting && showPayment == old(showPayment) && alerted == old(alerted))
    {
      var isFirstAlarmFree := service.IsFirstAlarmFree();
      var alarmCount := service.GetAlarmCount();
      if Trim(myId) == [] || Trim(targetId) == [] {
        alerted := Some(Blank);
        return;
      }
      if !MatchesHandle(Trim(myId)) || !MatchesHandle(Trim(targetId)) {
        alerted := Some(BadFormat);
        return;
      }
      if !isFirstAlarmFree && alarmCount > 0 {
        showPayment := true;
        return;
      }
      AddAlarm(now);
    }

    /** `handlePaymentSuccess`: closes the payment sheet and adds the alarm. */
    method HandlePaymentSuccess(now: nat)
      modifies this, service
      ensures myId == old(myId) && targetId == old(targetId) && !showPayment && !isSubmitting && alerted == old(alerted)
      ensures var a := NewAlarm(old(myId), old(targetId), now);
        && service.alarms == Some(StoredAfterPageAdd(old(service.GetAllAlarms()), a))
        && service.firstUsed == Some(true)
        && service.count == Some(old(service.GetAlarmCount()) + 1)
        && route == Some(RouteAfterPageAdd(old(service.GetAllAlarms()), a))
    {
      showPayment := false;
      AddAlarm(now);
    }
  }

  /** What the page's second check leaves in storage and reports, in terms of the list before the add. */
  lemma SecondCheckOutcome(before: seq<LocalAlarm>, a: LocalAlarm, added: seq<LocalAlarm>, matched: bool, stored: Option<seq<LocalAlarm>>)
    requires added == AfterAdd(before, a)
    requires matched == MatchWrite(added, a).Some?
    requires matched ==> stored == MatchWrite(added, a)
    requires !matched ==> stored == Some(added)
    ensures stored == Some(StoredAfterPageAdd(before, a))
    ensures matched <==> RouteAfterPageAdd(before, a) == ToMatchSuccess
  {
  }

  // ---------------------------------------------------------------- properties

  /**
   * The paywall shows exactly for well-formed handles once the free alarm is
   * used and the counter is positive; well-formed handles otherwise go
   * straight to the add.
   */
  lemma PaywallIff(myId: string, targetId: string, isFirstAlarmFree: bool, alarmCount: int)
    ensures var d := SubmitDecision(myId, targetId, isFirstAlarmFree, alarmCount);
      && (d == NeedPayment <==>
            MatchesHandle(Trim(myId)) && MatchesHandle(Trim(targetId)) && !isFirstAlarmFree && alarmCount > 0)
      && (d == Add <==>
            MatchesHandle(Trim(myId)) && MatchesHandle(Trim(targetId)) && (isFirstAlarmFree || alarmCount <= 0))
  {
  }

  /**
   * The prototype checks only the character set: a handle the web page
   * accepts always passes here, but the prototype also lets the same handle
   * twice through, which the web page refuses.
   */
  lemma WebAcceptsOnlyWhatPrototypeAccepts(myId: string, targetId: string, isFirstAlarmFree: bool, alarmCount: int)
    requires AddAlarmPage.SubmitCheck(myId, targetId).Proceed?
    ensures SubmitDecision(myId, targetId, isFirstAlarmFree, alarmCount) in {NeedPayment, Add}
  {
    LowerOfHandle(Trim(myId));
    LowerOfHandle(Trim(targetId));
  }

  /** The same handle on both sides: the prototype adds it, the web page shows its same-handle toast. */
  lemma SameHandleOnlyPrototypeAccepts()
    ensures SubmitDecision("me", "me", true, 0) == Add
    ensures AddAlarmPage.SubmitCheck("me", "me") == AddAlarmPage.Rejected(AddAlarmPage.SameIds)
  {
    assert Trim("me") == "me";
    assert Lower("me") == "me";
  }

  /**
   * The page shows the match screen exactly when the store's own check
   * matched and the page's second check finds another unmatched reverse,
   * one carrying neither the new alarm's id nor the first reverse's id.
   */
  lemma MatchScreenIff(alarms: seq<LocalAlarm>, a: LocalAlarm)
    requires !a.matched
    ensures var added := alarms + [a];
      RouteAfterPageAdd(alarms, a) == ToMatchSuccess <==>
        && MatchWrite(added, a).Some?
        && exists i :: 0 <= i < |added| && IsOpenReverse(added[i], a)
                     && added[i].id != a.id && added[i].id != FindReverse(added, a).value.id
  {
    var added := alarms + [a];
    if MatchWrite(added, a).Some? {
      assert AfterAdd(alarms, a) == MatchWrite(added, a).value;
      SecondCheckIff(added, a);
    } else {
      assert AfterAdd(alarms, a) == added;
    }
  }

  /**
   * A single matching pair never reaches the match screen: the store's check
   * marks both alarms, so the page's second check finds nothing and the page
   * goes to the alarm list, while the stored pair is matched.
   */
  lemma SinglePairGoesToAlarmList()
    ensures var reverse := LocalAlarm(1, "you", "me", 1, false);
      var a := NewAlarm("me", "you", 2);
      && RouteAfterPageAdd([reverse], a) == ToAlarmList
      && |StoredAfterPageAdd([reverse], a)| == 2
      && StoredAfterPageAdd([reverse], a)[0].matched && StoredAfterPageAdd([reverse], a)[1].matched
  {
    var reverse := LocalAlarm(1, "you", "me", 1, false);
    assert Trim("me") == "me";
    assert Trim("you") == "you";
    var a := NewAlarm("me", "you", 2);
    assert a == LocalAlarm(2, "me", "you", 2, false);
    var added := [reverse, a];
    assert [reverse] + [a] == added;
    assert IsOpenReverse(added[0], a);
    assert FindReverse(added, a) == Some(reverse);
    var marked := MatchWrite(added, a).value;
    assert marked[0].matched && marked[1].matched;
    assert AfterAdd([reverse], a) == marked;
    assert FindReverse(marked, a).None?;
  }
}
