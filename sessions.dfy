/**
 * The backend's in-memory `userSockets` map (user id to socket id) and its two
 * socket.io handlers: `register` sets an entry, `disconnect` removes the first
 * entry whose value is the closing socket.
 *
 * A JavaScript `Map` iterates in insertion order and `set` on a present key
 * keeps the key's position, so the map is a sequence of entries.
 */
module Sessions {
  import opened Wrappers
  import opened Tables

  type SocketId = string
  type Entries = seq<(UserId, SocketId)>

  /** The two events the backend pushes over a socket. */
  datatype Event = MatchedEvent(matchedWith: Option<string>) | MatchCanceledEvent(canceledBy: Option<string>)

  /** `io.to(socket).emit(event)` */
  datatype Emission = Emission(socket: SocketId, event: Event)

  ghost predicate KeysDistinct(m: Entries) {
    forall i, j :: 0 <= i < j < |m| ==> m[i].0 != m[j].0
  }

  /** `userSockets.get(u)` */
  function Get(m: Entries, u: UserId): (r: Option<SocketId>)
    ensures r.None? <==> forall i :: 0 <= i < |m| ==> m[i].0 != u
    ensures r.Some? ==> (u, r.value) in m
  {
    if m == [] then None
    else if m[0].0 == u then Some(m[0].1)
    else Get(m[1..], u)
  }

  /** `userSockets.set(u, s)` */
  function Set(m: Entries, u: UserId, s: SocketId): (r: Entries)
  {
    if m == [] then [(u, s)]
    else if m[0].0 == u then [(u, s)] + m[1..]
    else [m[0]] + Set(m[1..], u, s)
  }

  /** The `for ... of userSockets.entries()` loop with `delete` and `break`. */
  function RemoveFirstValue(m: Entries, s: SocketId): (r: Entries)
  {
    if m == [] then []
    else if m[0].1 == s then m[1..]
    else [m[0]] + RemoveFirstValue(m[1..], s)
  }

  // ---------------------------------------------------------------- register

  /** After `register(u)` from socket `s`, `u` looks up `s` and every other user looks up what it did before. */
  lemma {:induction false} GetAfterSet(m: Entries, u: UserId, s: SocketId, v: UserId)
    ensures Get(Set(m, u, s), u) == Some(s)
    ensures v != u ==> Get(Set(m, u, s), v) == Get(m, v)
  {
    if m != [] && m[0].0 != u {
      GetAfterSet(m[1..], u, s, v);
    }
  }

  /** A new user is appended; a registered one is overwritten in place. */
  lemma {:induction false} SetPlacement(m: Entries, u: UserId, s: SocketId)
    requires KeysDistinct(m)
    ensures (forall i :: 0 <= i < |m| ==> m[i].0 != u) ==> Set(m, u, s) == m + [(u, s)]
    ensures forall i :: 0 <= i < |m| && m[i].0 == u ==> Set(m, u, s) == m[i := (u, s)]
  {
    if m != [] && m[0].0 != u {
      SetPlacement(m[1..], u, s);
      forall i | 0 <= i < |m| && m[i].0 == u ensures Set(m, u, s) == m[i := (u, s)] {
        assert m[1..][i - 1].0 == u;
        assert [m[0]] + m[1..][i - 1 := (u, s)] == m[i := (u, s)];
      }
      assert [m[0]] + (m[1..] + [(u, s)]) == m + [(u, s)];
    }
  }

  lemma {:induction false} SetKeepsKeysDistinct(m: Entries, u: UserId, s: SocketId)
    requires KeysDistinct(m)
    ensures KeysDistinct(Set(m, u, s))
  {
    SetPlacement(m, u, s);
    if exists i :: 0 <= i < |m| && m[i].0 == u {
      var i :| 0 <= i < |m| && m[i].0 == u;
      assert Set(m, u, s) == m[i := (u, s)];
    } else {
      assert Set(m, u, s) == m + [(u, s)];
    }
  }

  // ---------------------------------------------------------------- disconnect

  /** A socket that no entry holds leaves the map as it is. */
  lemma {:induction false} RemoveAbsentValue(m: Entries, s: SocketId)
    requires forall i :: 0 <= i < |m| ==> m[i].1 != s
    ensures RemoveFirstValue(m, s) == m
  {
    if m != [] {
      RemoveAbsentValue(m[1..], s);
    }
  }

  /** Exactly the first entry holding `s`, in insertion order, is removed. */
  lemma {:induction false} RemoveFirstValueAt(m: Entries, s: SocketId, k: nat)
    requires k < |m| && m[k].1 == s
    requires forall j :: 0 <= j < k ==> m[j].1 != s
    ensures RemoveFirstValue(m, s) == m[..k] + m[k + 1..]
  {
    if k > 0 {
      RemoveFirstValueAt(m[1..], s, k - 1);
      assert [m[0]] + (m[1..][..k - 1] + m[1..][k..]) == m[..k] + m[k + 1..];
    }
  }

  lemma RemoveKeepsKeysDistinct(m: Entries, s: SocketId, k: nat)
    requires KeysDistinct(m) && k < |m|
    ensures KeysDistinct(m[..k] + m[k + 1..])
  {
    var r := m[..k] + m[k + 1..];
    forall i, j | 0 <= i < j < |r| ensures r[i].0 != r[j].0 {
      var i' := if i < k then i else i + 1;
      var j' := if j < k then j else j + 1;
      assert r[i] == m[i'] && r[j] == m[j'];
    }
  }

  /**
   * When one socket registered several users, `disconnect` unregisters only the
   * first of them: every later user keeps its entry.
   */
  lemma {:induction false} SharedSocketKeepsLaterUsers(m: Entries, s: SocketId, i: nat, j: nat)
    requires KeysDistinct(m)
    requires i < j < |m| && m[i].1 == s && m[j].1 == s
    ensures Get(RemoveFirstValue(m, s), m[j].0) == Some(s)
  {
    TailKeysDistinct(m);
    assert m[1..][j - 1] == m[j];
    if m[0].1 == s {
      GetOfDistinct(m[1..], j - 1);
    } else {
      assert m[1..][i - 1] == m[i];
      SharedSocketKeepsLaterUsers(m[1..], s, i - 1, j - 1);
      assert m[0].0 != m[j].0;
    }
  }

  lemma TailKeysDistinct(m: Entries)
    requires KeysDistinct(m) && m != []
    ensures KeysDistinct(m[1..])
  {
    forall i, j | 0 <= i < j < |m[1..]| ensures m[1..][i].0 != m[1..][j].0 {
      assert m[1..][i] == m[i + 1] && m[1..][j] == m[j + 1];
    }
  }

  /** A lookup whose socket is not the one closing survives `disconnect`. */
  lemma {:induction false} LookupSurvivesOtherDisconnect(m: Entries, u: UserId, s: SocketId)
    requires Get(m, u).Some? && Get(m, u).value != s
    ensures Get(RemoveFirstValue(m, s), u) == Get(m, u)
  {
    if m[0].0 != u && m[0].1 != s {
      LookupSurvivesOtherDisconnect(m[1..], u, s);
    }
  }

  lemma {:induction false} GetOfDistinct(m: Entries, k: nat)
    requires KeysDistinct(m) && k < |m|
    ensures Get(m, m[k].0) == Some(m[k].1)
  {
    if k > 0 {
      TailKeysDistinct(m);
      GetOfDistinct(m[1..], k - 1);
    }
  }

  // ---------------------------------------------------------------- the registry object

  class Registry {
    var entries: Entries

    ghost predicate Valid()
      reads this
    {
      KeysDistinct(entries)
    }

    constructor ()
      ensures Valid() && entries == []
    {
      entries := [];
    }

    /** `userSockets.get(u)` */
    function Lookup(u: UserId): (r: Option<SocketId>)
      reads this
      ensures r.None? <==> forall i :: 0 <= i < |entries| ==> entries[i].0 != u
      ensures r.Some? ==> (u, r.value) in entries
    {
      Get(entries, u)
    }

    /** `socket.on('register', userId => userSockets.set(userId, socket.id))` */
    method Register(u: UserId, socket: SocketId)
      requires Valid()
      modifies this
      ensures Valid()
      ensures entries == Set(old(entries), u, socket)
    {
      SetKeepsKeysDistinct(entries, u, socket);
      entries := Set(entries, u, socket);
    }

    /** `socket.on('disconnect', ...)`: delete the first entry holding `socket`, then stop. */
    method Disconnect(socket: SocketId)
      requires Valid()
      modifies this
      ensures Valid()
      ensures entries == RemoveFirstValue(old(entries), socket)
    {
      var i := 0;
      while i < |entries|
        invariant 0 <= i <= |entries|
        invariant entries == old(entries)
        invariant forall j :: 0 <= j < i ==> entries[j].1 != socket
      {
        if entries[i].1 == socket {
          RemoveFirstValueAt(entries, socket, i);
          RemoveKeepsKeysDistinct(entries, socket, i);
          entries := entries[..i] + entries[i + 1..];
          return;
        }
        i := i + 1;
      }
      RemoveAbsentValue(entries, socket);
    }
  }
}
