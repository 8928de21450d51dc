/**
 * The offline prototype's alarm store (`alarmService`): a list of alarms and
 * two counters kept in the browser's key/value storage, with add, remove,
 * pairwise matching on insert, and a bulk rescan.
 *
 * A storage key that is absent (or unreadable) reads as `None`. Alarm ids and
 * creation times both come from the wall clock at the moment of the add; the
 * clock is a parameter here, and nothing makes two ids distinct.
 */
module AlarmService {
  import opened Wrappers
  import opened Seqs
  import opened Text

  /** `{ id, myId, targetId, createdAt, matched }`; `id` and `createdAt` are the clock reading. */
  datatype LocalAlarm = LocalAlarm(id: nat, myId: string, targetId: string, createdAt: nat, matched: bool)

  /** `a` points back at `n`: `a.myId === n.targetId && a.targetId === n.myId`. */
  predicate IsReverse(a: LocalAlarm, n: LocalAlarm) {
    a.myId == n.targetId && a.targetId == n.myId
  }

  /** `a` is an unmatched alarm pointing back at `n`. */
  predicate IsOpenReverse(a: LocalAlarm, n: LocalAlarm) {
    IsReverse(a, n) && !a.matched
  }

  /** `alarms.find(a => reverse of n && !a.matched)`: the first such alarm. */
  function FindReverse(alarms: seq<LocalAlarm>, n: LocalAlarm): (r: Option<LocalAlarm>)
    ensures r.None? <==> forall i :: 0 <= i < |alarms| ==> !IsOpenReverse(alarms[i], n)
    ensures r.Some? ==> exists i :: 0 <= i < |alarms| && alarms[i] == r.value && IsOpenReverse(r.value, n)
                                    && forall j :: 0 <= j < i ==> !IsOpenReverse(alarms[j], n)
  {
    FindReverseFrom(alarms, n, 0)
  }

  /** The scan behind `FindReverse`, from position `k` on. */
  function FindReverseFrom(alarms: seq<LocalAlarm>, n: LocalAlarm, k: nat): (r: Option<LocalAlarm>)
    requires k <= |alarms|
    decreases |alarms| - k
    ensures r.None? <==> forall i :: k <= i < |alarms| ==> !IsOpenReverse(alarms[i], n)
    ensures r.Some? ==> exists i :: k <= i < |alarms| && alarms[i] == r.value && IsOpenReverse(r.value, n)
                                    && forall j :: k <= j < i ==> !IsOpenReverse(alarms[j], n)
  {
    if k == |alarms| then None
    else if IsOpenReverse(alarms[k], n) then Some(alarms[k])
    else FindReverseFrom(alarms, n, k + 1)
  }

  /** `alarms.map(a => a.id === id1 || a.id === id2 ? { ...a, matched: true } : a)` */
  function MarkIds(alarms: seq<LocalAlarm>, id1: nat, id2: nat): (r: seq<LocalAlarm>)
    ensures |r| == |alarms|
    ensures forall i :: 0 <= i < |alarms| ==>
              r[i] == if alarms[i].id == id1 || alarms[i].id == id2 then alarms[i].(matched := true) else alarms[i]
  {
    seq(|alarms|, i requires 0 <= i < |alarms| =>
      if alarms[i].id == id1 || alarms[i].id == id2 then alarms[i].(matched := true) else alarms[i])
  }

  /** The list `checkMatching(n)` stores, or `None` when it finds no reverse and writes nothing. */
  function MatchWrite(alarms: seq<LocalAlarm>, n: LocalAlarm): Option<seq<LocalAlarm>> {
    var reverse := FindReverse(alarms, n);
    if reverse.Some? then Some(MarkIds(alarms, n.id, reverse.value.id)) else None
  }

  /** The alarm `addAlarm` builds. */
  function NewAlarm(myId: string, targetId: string, now: nat): LocalAlarm {
    LocalAlarm(now, Trim(myId), Trim(targetId), now, false)
  }

  /** The stored list after `addAlarm`: the new alarm appended, then the match check run on it. */
  function AfterAdd(alarms: seq<LocalAlarm>, a: LocalAlarm): seq<LocalAlarm> {
    var added := alarms + [a];
    var w := MatchWrite(added, a);
    if w.Some? then w.value else added
  }

  predicate IsUnmatched(a: LocalAlarm) {
    !a.matched
  }

  /** The unmatched alarms of the rescan's snapshot, in order. */
  function Unmatched(alarms: seq<LocalAlarm>): (r: seq<LocalAlarm>)
    ensures forall a :: a in r <==> a in alarms && !a.matched
  {
    Filter(alarms, IsUnmatched)
  }

  /**
   * The write the rescan makes for `unmatched[k]`: the snapshot with that alarm
   * and its first reverse among `unmatched` marked, or `None` if it has none.
   */
  function RescanWrite(snapshot: seq<LocalAlarm>, unmatched: seq<LocalAlarm>, k: nat): Option<seq<LocalAlarm>>
    requires k < |unmatched|
  {
    var reverse := FindReverse(unmatched, unmatched[k]);
    if reverse.Some? then Some(MarkIds(snapshot, unmatched[k].id, reverse.value.id)) else None
  }

  /** The last write the rescan has made after visiting the first `k` unmatched alarms. */
  function LastRescanWrite(snapshot: seq<LocalAlarm>, unmatched: seq<LocalAlarm>, k: nat): Option<seq<LocalAlarm>>
    requires k <= |unmatched|
  {
    if k == 0 then None
    else if RescanWrite(snapshot, unmatched, k - 1).Some? then RescanWrite(snapshot, unmatched, k - 1)
    else LastRescanWrite(snapshot, unmatched, k - 1)
  }

  /** The store: the three storage keys the service uses. */
  class LocalAlarmStore {
    var alarms: Option<seq<LocalAlarm>>
    var firstUsed: Option<bool>
    var count: Option<int>

    /** Empty storage. */
    constructor ()
      ensures alarms.None? && firstUsed.None? && count.None?
    {
      alarms, firstUsed, count := None, None, None;
    }

    /** `storage.get(ALARMS) || []` */
    function GetAllAlarms(): (r: seq<LocalAlarm>)
      reads this
      ensures alarms.None? ==> r == []
      ensures alarms.Some? ==> r == alarms.value
    {
      if alarms.Some? then alarms.value else []
    }

    /** `!storage.get(FIRST_ALARM_USED)` */
    function IsFirstAlarmFree(): (r: bool)
      reads this
      ensures r <==> firstUsed != Some(true)
    {
      !(firstUsed.Some? && firstUsed.value)
    }

    /** `storage.get(ALARM_COUNT) || 0` */
    function GetAlarmCount(): (r: int)
      reads this
      ensures count.None? ==> r == 0
      ensures count.Some? ==> r == count.value
    {
      if count.Some? then count.value else 0
    }

    /**
     * `checkMatching(n)`: true iff the stored list holds an unmatched reverse
     * of `n`; then the list is stored again with `n`'s id and that reverse's
     * id marked; otherwise storage is untouched.
     */
    method CheckMatching(n: LocalAlarm) returns (matched: bool)
      modifies this
      ensures matched == MatchWrite(old(GetAllAlarms()), n).Some?
      ensures matched <==> exists i :: 0 <= i < |old(GetAllAlarms())| && IsOpenReverse(old(GetAllAlarms())[i], n)
      ensures matched ==> alarms == MatchWrite(old(GetAllAlarms()), n)
      ensures !matched ==> alarms == old(alarms)
      ensures firstUsed == old(firstUsed) && count == old(count)
    {
      var list := GetAllAlarms();
      var reverse := FindReverse(list, n);
      if reverse.Some? {
        alarms := Some(MarkIds(list, n.id, reverse.value.id));
        return true;
      }
      return false;
    }

    /**
     * `addAlarm(myId, targetId)` at clock reading `now`: appends one alarm with
     * the trimmed handles, marks the first free alarm used, counts one more
     * alarm, and runs the match check on the new alarm.
     */
    method AddAlarm(myId: string, targetId: string, now: nat) returns (a: LocalAlarm)
      modifies this
      ensures a == NewAlarm(myId, targetId, now)
      ensures alarms == Some(AfterAdd(old(GetAllAlarms()), a))
      ensures firstUsed == Some(true) && !IsFirstAlarmFree()
      ensures count == Some(old(GetAlarmCount()) + 1)
    {
      var list := GetAllAlarms();
      ghost var before := list;
      a := NewAlarm(myId, targetId, now);
      list := list + [a];
      alarms := Some(list);
      var used := firstUsed;
      if !(used.Some? && used.value) {
        firstUsed := Some(true);
      }
      var c := GetAlarmCount();
      count := Some(c + 1);
      var matched := CheckMatching(a);
      assert alarms == Some(AfterAdd(before, a));
    }

    /** `removeAlarm(id)`: stores the list without the alarms carrying `id`; the counters stay. */
    method RemoveAlarm(id: nat)
      modifies this
      ensures alarms == Some(Filter(old(GetAllAlarms()), (a: LocalAlarm) => a.id != id))
      ensures firstUsed == old(firstUsed) && count == old(count)
    {
      var list := GetAllAlarms();
      alarms := Some(Filter(list, (a: LocalAlarm) => a.id != id));
    }

    /**
     * `checkAllMatchings()`: for each unmatched alarm of a snapshot, if it has a
     * reverse among the unmatched ones, store the snapshot with the two marked.
     * Every write starts again from the snapshot, so only the last one stays.
     */
    method CheckAllMatchings() returns (hasNewMatch: bool)
      modifies this
      ensures var snapshot := old(GetAllAlarms());
        var last := LastRescanWrite(snapshot, Unmatched(snapshot), |Unmatched(snapshot)|);
        && hasNewMatch == last.Some?
        && alarms == if hasNewMatch then last else old(alarms)
      ensures firstUsed == old(firstUsed) && count == old(count)
    {
      var snapshot := GetAllAlarms();
      hasNewMatch := false;
      var unmatched := Filter(snapshot, IsUnmatched);
      for k := 0 to |unmatched|
        invariant hasNewMatch == LastRescanWrite(snapshot, unmatched, k).Some?
        invariant alarms == if hasNewMatch then LastRescanWrite(snapshot, unmatched, k) else old(alarms)
        invariant firstUsed == old(firstUsed) && count == old(count)
      {
        var alarm := unmatched[k];
        var reverse := FindReverse(unmatched, alarm);
        if reverse.Some? {
          hasNewMatch := true;
          alarms := Some(MarkIds(snapshot, alarm.id, reverse.value.id));
        }
      }
    }
  }

  // ---------------------------------------------------------------- properties

  /**
   * A successful check marks exactly the alarms carrying the new alarm's id or
   * the id of the first unmatched reverse; every other alarm is kept as it was.
   */
  lemma MatchWriteMarksPair(alarms: seq<LocalAlarm>, n: LocalAlarm)
    requires MatchWrite(alarms, n).Some?
    ensures var r := MatchWrite(alarms, n).value;
      var reverse := FindReverse(alarms, n).value;
      && IsOpenReverse(reverse, n) && reverse in alarms
      && |r| == |alarms|
      && (forall i :: 0 <= i < |alarms| && (alarms[i].id == n.id || alarms[i].id == reverse.id) ==>
            r[i] == alarms[i].(matched := true))
      && (forall i :: 0 <= i < |alarms| && alarms[i].id != n.id && alarms[i].id != reverse.id ==> r[i] == alarms[i])
  {
  }

  /**
   * Nothing stops an alarm from being its own reverse: an unmatched alarm whose
   * two handles are equal matches itself and is marked.
   */
  lemma SelfTargetMatchesItself(alarms: seq<LocalAlarm>, n: LocalAlarm, k: nat)
    requires k < |alarms| && alarms[k] == n && !n.matched && n.myId == n.targetId
    ensures MatchWrite(alarms, n).Some?
    ensures MatchWrite(alarms, n).value[k].matched
  {
    assert IsOpenReverse(alarms[k], n);
  }

  /**
   * `addAlarm` appends exactly one alarm at the end, with the trimmed handles
   * and the clock reading as id; the earlier alarms keep their ids, handles
   * and order, and only their `matched` flag can change (to true).
   */
  lemma AddAppendsOne(alarms: seq<LocalAlarm>, myId: string, targetId: string, now: nat)
    ensures var a := NewAlarm(myId, targetId, now);
      var r := AfterAdd(alarms, a);
      && |r| == |alarms| + 1
      && r[|alarms|].id == now && r[|alarms|].myId == Trim(myId) && r[|alarms|].targetId == Trim(targetId)
      && (forall i :: 0 <= i < |alarms| ==> r[i] == alarms[i] || r[i] == alarms[i].(matched := true))
  {
    var a := NewAlarm(myId, targetId, now);
    var added := alarms + [a];
    assert forall i :: 0 <= i < |alarms| ==> added[i] == alarms[i];
  }

  /**
   * The new alarm comes out matched exactly when an earlier unmatched alarm
   * points back at it, or when its two handles are equal (it is its own reverse).
   */
  lemma AddMatchesIff(alarms: seq<LocalAlarm>, a: LocalAlarm)
    requires !a.matched
    ensures AfterAdd(alarms, a)[|alarms|].matched <==>
              (exists i :: 0 <= i < |alarms| && IsOpenReverse(alarms[i], a)) || a.myId == a.targetId
  {
    var added := alarms + [a];
    var w := MatchWrite(added, a);
    assert AfterAdd(alarms, a)[|alarms|].matched <==> w.Some? by {
      if w.Some? {
        assert w.value[|alarms|] == added[|alarms|].(matched := true);
      }
    }
    if (exists i :: 0 <= i < |alarms| && IsOpenReverse(alarms[i], a)) || a.myId == a.targetId {
      if a.myId == a.targetId {
        assert IsOpenReverse(added[|alarms|], a);
      } else {
        var i :| 0 <= i < |alarms| && IsOpenReverse(alarms[i], a);
        assert IsOpenReverse(added[i], a);
      }
    } else {
      forall i | 0 <= i < |added| ensures !IsOpenReverse(added[i], a) {
        if i < |alarms| {
          assert added[i] == alarms[i];
        }
      }
    }
  }

  /**
   * Running the check again with the same alarm after a success finds a match
   * only through another unmatched reverse, one that carries neither of the
   * two ids the first check marked.
   */
  lemma SecondCheckIff(alarms: seq<LocalAlarm>, n: LocalAlarm)
    requires MatchWrite(alarms, n).Some?
    ensures var reverse := FindReverse(alarms, n).value;
      MatchWrite(MatchWrite(alarms, n).value, n).Some? <==>
        exists i :: 0 <= i < |alarms| && IsOpenReverse(alarms[i], n) && alarms[i].id != n.id && alarms[i].id != reverse.id
  {
    var reverse := FindReverse(alarms, n).value;
    var r := MatchWrite(alarms, n).value;
    if exists i :: 0 <= i < |alarms| && IsOpenReverse(alarms[i], n) && alarms[i].id != n.id && alarms[i].id != reverse.id {
      var i :| 0 <= i < |alarms| && IsOpenReverse(alarms[i], n) && alarms[i].id != n.id && alarms[i].id != reverse.id;
      assert IsOpenReverse(r[i], n);
    } else {
      forall i | 0 <= i < |r| ensures !IsOpenReverse(r[i], n) { }
    }
  }

  /**
   * `removeAlarm(id)` drops every alarm with that id and keeps every copy of
   * every other alarm, in their order: any relation that held between an
   * earlier and a later alarm still holds between the survivors.
   */
  lemma RemoveDropsId(alarms: seq<LocalAlarm>, id: nat)
    ensures var r := Filter(alarms, (a: LocalAlarm) => a.id != id);
      && (forall a :: a in r <==> a in alarms && a.id != id)
      && (forall a :: multiset(r)[a] == if a.id != id then multiset(alarms)[a] else 0)
      && (forall rel: (LocalAlarm, LocalAlarm) -> bool :: Pairwise(alarms, rel) ==> Pairwise(r, rel))
  {
    var keep := (a: LocalAlarm) => a.id != id;
    FilterCounts(alarms, keep);
    forall rel: (LocalAlarm, LocalAlarm) -> bool | Pairwise(alarms, rel)
      ensures Pairwise(Filter(alarms, keep), rel)
    {
      FilterKeepsPairwise(alarms, keep, rel);
    }
  }

  /**
   * The rescan reports a new match exactly when some unmatched alarm has an
   * unmatched reverse in the snapshot.
   */
  lemma {:induction false} RescanReportsIff(snapshot: seq<LocalAlarm>, unmatched: seq<LocalAlarm>, k: nat)
    requires k <= |unmatched|
    ensures LastRescanWrite(snapshot, unmatched, k).Some? <==>
      exists i, j :: 0 <= i < k && 0 <= j < |unmatched| && IsOpenReverse(unmatched[j], unmatched[i])
  {
    if k > 0 {
      RescanReportsIff(snapshot, unmatched, k - 1);
      if FindReverse(unmatched, unmatched[k - 1]).None? {
        forall i, j | 0 <= i < k && 0 <= j < |unmatched| && IsOpenReverse(unmatched[j], unmatched[i])
          ensures i < k - 1
        {
        }
      }
    }
  }

  /**
   * Last write wins: the rescan's stored list is the snapshot with only the
   * last visited pair marked. With `a`/`b` and `c`/`d` declaring each other,
   * `c` and `d` end up matched and `a` and `b` stay unmatched.
   */
  lemma RescanKeepsOnlyLastPair()
    ensures
      var a := LocalAlarm(1, "a", "b", 1, false);
      var b := LocalAlarm(2, "b", "a", 2, false);
      var c := LocalAlarm(3, "c", "d", 3, false);
      var d := LocalAlarm(4, "d", "c", 4, false);
      var snapshot := [a, b, c, d];
      var last := LastRescanWrite(snapshot, Unmatched(snapshot), |Unmatched(snapshot)|);
      && last.Some? && |last.value| == 4
      && last.value[0] == a && last.value[1] == b
      && last.value[2] == c.(matched := true) && last.value[3] == d.(matched := true)
  {
    var a := LocalAlarm(1, "a", "b", 1, false);
    var b := LocalAlarm(2, "b", "a", 2, false);
    var c := LocalAlarm(3, "c", "d", 3, false);
    var d := LocalAlarm(4, "d", "c", 4, false);
    var snapshot := [a, b, c, d];
    LastRescanOfTwoPairs();
    var marked := MarkIds(snapshot, 4, 3);
    assert snapshot[0].id == 1 && snapshot[1].id == 2 && snapshot[2].id == 3 && snapshot[3].id == 4;
    assert marked[0] == a;
    assert marked[1] == b;
    assert marked[2] == c.(matched := true);
    assert marked[3] == d.(matched := true);
  }

  /** The rescan of the two-pair snapshot writes last for `d`, whose first reverse is `c`. */
  lemma LastRescanOfTwoPairs()
    ensures
      var snapshot := [LocalAlarm(1, "a", "b", 1, false), LocalAlarm(2, "b", "a", 2, false),
                       LocalAlarm(3, "c", "d", 3, false), LocalAlarm(4, "d", "c", 4, false)];
      LastRescanWrite(snapshot, Unmatched(snapshot), |Unmatched(snapshot)|) == Some(MarkIds(snapshot, 4, 3))
  {
    var snapshot := [LocalAlarm(1, "a", "b", 1, false), LocalAlarm(2, "b", "a", 2, false),
                     LocalAlarm(3, "c", "d", 3, false), LocalAlarm(4, "d", "c", 4, false)];
    var d := snapshot[3];
    FilterKeepsAll(snapshot, IsUnmatched);
    assert Unmatched(snapshot) == snapshot;
    assert FindReverseFrom(snapshot, d, 2) == Some(snapshot[2]);
    assert FindReverseFrom(snapshot, d, 1) == FindReverseFrom(snapshot, d, 2);
    assert FindReverseFrom(snapshot, d, 0) == FindReverseFrom(snapshot, d, 1);
  }
}
