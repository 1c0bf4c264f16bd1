/**
 * The seat-lock registry of server.js: a nested map event -> seat -> lock
 * kept in memory, changed by the `lockSeat` and `unlockSeat` socket
 * handlers and by a sweep that runs every minute, and read by `joinEvent`.
 * A lock lasts five minutes. The clock is the `now` parameter; what the
 * handlers send is returned as a list of emissions.
 */
module LockRegistry {
  import opened Wrappers
  import opened JsText

  /** How long a lock lasts, in milliseconds. */
  const LockExpiry: int := 5 * 60 * 1000

  /** One lock: who holds the seat and when the lock was taken or last refreshed. */
  datatype SeatLock = SeatLock(holder: int, since: int)

  /** A lock is in force while no more than `LockExpiry` has passed since it was taken or refreshed. */
  predicate Active(l: SeatLock, now: int)
  {
    now - l.since <= LockExpiry
  }

  datatype FailReason = InvalidRequest | AlreadyLocked

  /** The socket messages the registry sends. */
  datatype Message =
    | SeatLocked(seat: int, user: int)
    | SeatUnlocked(seat: int)
    | SeatLockFailed(failedSeat: Option<int>, reason: FailReason)
    | LockedSeats(holders: map<int, int>)

  /** Who receives a message: the requesting socket, or everyone in the event's room. */
  datatype Audience = Requester | Room(eventId: int)

  datatype Emit = Emit(to: Audience, msg: Message)

  /** The payload of `lockSeat` and `unlockSeat`; an absent field is None. */
  datatype SeatRequest = SeatRequest(eventId: Option<int>, seatIndex: Option<int>, userId: Option<int>)

  /** The seats of one event's inner map whose locks are still in force. */
  function ActivePart(inner: map<int, SeatLock>, now: int): (r: map<int, SeatLock>)
    ensures forall s :: s in r <==> s in inner && Active(inner[s], now)
    ensures forall s :: s in r ==> r[s] == inner[s]
  {
    map s | s in inner && Active(inner[s], now) :: inner[s]
  }

  /** The sweep of one event part-way: the seats still to visit, and the visited ones whose locks are in force. */
  function Kept(inner: map<int, SeatLock>, toVisit: set<int>, now: int): map<int, SeatLock>
  {
    map s | s in inner && (s in toVisit || Active(inner[s], now)) :: inner[s]
  }

  /** The registry after a sweep at `now`: every expired lock removed, inner maps kept even when emptied. */
  function Swept(m: map<int, map<int, SeatLock>>, now: int): (r: map<int, map<int, SeatLock>>)
    ensures r.Keys == m.Keys
    ensures forall e :: e in r ==> r[e] == ActivePart(m[e], now)
  {
    map e | e in m :: ActivePart(m[e], now)
  }

  /** What `joinEvent` sends: each seat of the event under a lock in force, mapped to its holder. */
  function Snapshot(m: map<int, map<int, SeatLock>>, e: int, now: int): (r: map<int, int>)
    ensures forall s :: s in r <==> e in m && s in m[e] && Active(m[e][s], now)
    ensures forall s :: s in r ==> r[s] == m[e][s].holder
  {
    if e in m then map s | s in m[e] && Active(m[e][s], now) :: m[e][s].holder else map[]
  }

  /** `lockSeat`: the registry afterwards and the messages sent. */
  function LockResult(m: map<int, map<int, SeatLock>>, req: SeatRequest, now: int)
    : (map<int, map<int, SeatLock>>, seq<Emit>)
  {
    if !Truthy(req.eventId) || req.seatIndex.None? || !Truthy(req.userId) then
      (m, [Emit(Requester, SeatLockFailed(req.seatIndex, InvalidRequest))])
    else
      var e, s, u := req.eventId.value, req.seatIndex.value, req.userId.value;
      var inner := if e in m then m[e] else map[];
      if s in inner && Active(inner[s], now) then
        if inner[s].holder != u then (m, [Emit(Requester, SeatLockFailed(Some(s), AlreadyLocked))])
        else (m[e := inner[s := SeatLock(u, now)]], [])
      else (m[e := inner[s := SeatLock(u, now)]], [Emit(Room(e), SeatLocked(s, u))])
  }

  /** `unlockSeat`: the registry afterwards and the messages sent. */
  function UnlockResult(m: map<int, map<int, SeatLock>>, req: SeatRequest, now: int)
    : (map<int, map<int, SeatLock>>, seq<Emit>)
  {
    if !Truthy(req.eventId) || req.seatIndex.None? then (m, [])
    else
      var e, s := req.eventId.value, req.seatIndex.value;
      if e in m && s in m[e] && (!Truthy(req.userId) || m[e][s].holder == req.userId.value || !Active(m[e][s], now))
      then (m[e := m[e] - {s}], [Emit(Room(e), SeatUnlocked(s))])
      else (m, [])
  }

  /** A non-empty set of keys has a member to visit next. */
  lemma NonEmptyHasMember(keys: set<int>)
    requires keys != {}
    ensures exists k :: k in keys
  {
    if forall k :: k !in keys {
      assert false;
    }
  }

  /** No message appears twice. */
  predicate NoRepeats(out: seq<Emit>)
  {
    forall i, j :: 0 <= i < j < |out| ==> out[i] != out[j]
  }

  /** The module-level `lockedSeats` object. */
  class SeatLocks {
    var locked: map<int, map<int, SeatLock>>

    /** The registry starts empty when the server starts. */
    constructor ()
      ensures locked == map[]
    {
      locked := map[];
    }

    /** The `lockSeat` handler. */
    method LockSeat(req: SeatRequest, now: int) returns (out: seq<Emit>)
      modifies this
      ensures (locked, out) == LockResult(old(locked), req, now)
    {
      if !Truthy(req.eventId) || req.seatIndex.None? || !Truthy(req.userId) {
        return [Emit(Requester, SeatLockFailed(req.seatIndex, InvalidRequest))];
      }
      var e, s, u := req.eventId.value, req.seatIndex.value, req.userId.value;
      ghost var inner := if e in locked then locked[e] else map[];
      if e !in locked {
        locked := locked[e := map[]];
      }
      assert locked == old(locked)[e := inner];
      if s in locked[e] && now - locked[e][s].since <= LockExpiry {
        assert e in old(locked) && locked == old(locked);
        if locked[e][s].holder != u {
          return [Emit(Requester, SeatLockFailed(Some(s), AlreadyLocked))];
        }
        locked := locked[e := locked[e][s := locked[e][s].(since := now)]];
        out := [];
        assert (locked, out) == LockResult(old(locked), req, now);
      } else {
        locked := locked[e := locked[e][s := SeatLock(u, now)]];
        out := [Emit(Room(e), SeatLocked(s, u))];
        assert locked == old(locked)[e := inner[s := SeatLock(u, now)]];
        assert (locked, out) == LockResult(old(locked), req, now);
      }
    }

    /** The `unlockSeat` handler. */
    method UnlockSeat(req: SeatRequest, now: int) returns (out: seq<Emit>)
      modifies this
      ensures (locked, out) == UnlockResult(old(locked), req, now)
    {
      out := [];
      if !Truthy(req.eventId) || req.seatIndex.None? {
        return;
      }
      var e, s := req.eventId.value, req.seatIndex.value;
      if e in locked && s in locked[e] {
        var lock := locked[e][s];
        if !Truthy(req.userId) || lock.holder == req.userId.value || now - lock.since > LockExpiry {
          locked := locked[e := locked[e] - {s}];
          out := [Emit(Room(e), SeatUnlocked(s))];
        }
      }
    }

    /** The `joinEvent` handler: the snapshot of the event's locks in force, sent to the joining socket. */
    method JoinEvent(eventId: int, now: int) returns (out: Emit)
      ensures out == Emit(Requester, LockedSeats(Snapshot(locked, eventId, now)))
    {
      var activeLocks: map<int, int> := map[];
      if eventId in locked {
        var inner := locked[eventId];
        var keys := inner.Keys;
        while keys != {}
          decreases |keys|
          invariant keys <= inner.Keys
          invariant activeLocks == map s | s in inner && s !in keys && Active(inner[s], now) :: inner[s].holder
        {
          NonEmptyHasMember(keys);
          var s :| s in keys;
          var lock := inner[s];
          if now - lock.since <= LockExpiry {
            activeLocks := activeLocks[s := lock.holder];
          }
          keys := keys - {s};
        }
      }
      assert activeLocks == Snapshot(locked, eventId, now);
      out := Emit(Requester, LockedSeats(activeLocks));
    }

    /** The sweep's inner loop over one event's seats. */
    method SweepEvent(e: int, now: int) returns (out: seq<Emit>)
      requires e in locked
      modifies this
      ensures locked == old(locked)[e := ActivePart(old(locked)[e], now)]
      ensures forall s :: Emit(Room(e), SeatUnlocked(s)) in out <==> s in old(locked)[e] && !Active(old(locked)[e][s], now)
      ensures forall i :: 0 <= i < |out| ==> out[i].to == Room(e) && out[i].msg.SeatUnlocked?
      ensures NoRepeats(out)
    {
      ghost var orig := locked[e];
      out := [];
      var seats := locked[e].Keys;
      assert Kept(orig, seats, now) == (map s | s in orig :: orig[s]) == orig;
      while seats != {}
        decreases |seats|
        invariant seats <= orig.Keys
        invariant locked == old(locked)[e := Kept(orig, seats, now)]
        invariant forall s :: Emit(Room(e), SeatUnlocked(s)) in out <==> s in orig && s !in seats && !Active(orig[s], now)
        invariant forall i :: 0 <= i < |out| ==> out[i].to == Room(e) && out[i].msg.SeatUnlocked? && out[i].msg.seat !in seats
        invariant NoRepeats(out)
      {
        NonEmptyHasMember(seats);
        var s :| s in seats;
        if now - locked[e][s].since > LockExpiry {
          assert Kept(orig, seats, now) - {s} == Kept(orig, seats - {s}, now);
          locked := locked[e := locked[e] - {s}];
          out := out + [Emit(Room(e), SeatUnlocked(s))];
        } else {
          assert Kept(orig, seats, now) == Kept(orig, seats - {s}, now);
        }
        seats := seats - {s};
      }
      assert seats == {};
      assert Kept(orig, seats, now) == ActivePart(orig, now);
    }

    /**
     * The periodic sweep: every expired lock is removed, and its event's
     * room told once; every other lock stays as it was.
     */
    method Sweep(now: int) returns (out: seq<Emit>)
      modifies this
      ensures locked == Swept(old(locked), now)
      ensures forall e, s :: Emit(Room(e), SeatUnlocked(s)) in out <==>
        e in old(locked) && s in old(locked)[e] && !Active(old(locked)[e][s], now)
      ensures forall i :: 0 <= i < |out| ==> out[i].to.Room? && out[i].msg.SeatUnlocked?
      ensures NoRepeats(out)
    {
      ghost var m0 := locked;
      out := [];
      var events := locked.Keys;
      assert locked == SweptExcept(m0, events, now) by {
        assert SweptExcept(m0, events, now) == (map e | e in m0 :: m0[e]) == m0;
      }
      while events != {}
        decreases |events|
        invariant events <= m0.Keys
        invariant locked == SweptExcept(m0, events, now)
        invariant forall e, s :: Emit(Room(e), SeatUnlocked(s)) in out <==>
          e in m0 && e !in events && s in m0[e] && !Active(m0[e][s], now)
        invariant forall i :: 0 <= i < |out| ==> out[i].to.Room? && out[i].to.eventId !in events && out[i].msg.SeatUnlocked?
        invariant NoRepeats(out)
      {
        NonEmptyHasMember(events);
        var e :| e in events;
        SweptStep(m0, events, e, now);
        var more := SweepEvent(e, now);
        JoinNoRepeats(out, more, e);
        forall x | x in out + more
          ensures x in out || x in more
        {
        }
        out := out + more;
        events := events - {e};
      }
      assert SweptExcept(m0, {}, now) == Swept(m0, now);
    }
  }

  /** The registry part-way through a sweep: the events still to visit keep their locks. */
  function SweptExcept(m: map<int, map<int, SeatLock>>, toVisit: set<int>, now: int): map<int, map<int, SeatLock>>
  {
    map e | e in m :: if e in toVisit then m[e] else ActivePart(m[e], now)
  }

  /** Sweeping one more event moves it from the unvisited to the swept part. */
  lemma SweptStep(m: map<int, map<int, SeatLock>>, toVisit: set<int>, e: int, now: int)
    requires e in toVisit && e in m
    ensures SweptExcept(m, toVisit, now)[e := ActivePart(m[e], now)] == SweptExcept(m, toVisit - {e}, now)
  {
  }

  /** Two message lists without repeats, sent to different rooms, joined still have none. */
  lemma JoinNoRepeats(a: seq<Emit>, b: seq<Emit>, e: int)
    requires NoRepeats(a) && NoRepeats(b)
    requires forall i :: 0 <= i < |a| ==> a[i].to != Room(e)
    requires forall i :: 0 <= i < |b| ==> b[i].to == Room(e)
    ensures NoRepeats(a + b)
  {
    forall i, j | 0 <= i < j < |a + b|
      ensures (a + b)[i] != (a + b)[j]
    {
      if j < |a| {
        assert (a + b)[i] == a[i] && (a + b)[j] == a[j];
      } else if i >= |a| {
        assert (a + b)[i] == b[i - |a|] && (a + b)[j] == b[j - |a|];
      } else {
        assert (a + b)[i] == a[i] && (a + b)[j] == b[j - |a|];
      }
    }
  }

  // ---------------------------------------------------------------------------
  // Laws of the registry

  /** A request without an event, a seat or a user is refused to the requester alone, and nothing changes. */
  lemma LockInvalidRequest(m: map<int, map<int, SeatLock>>, req: SeatRequest, now: int)
    requires !Truthy(req.eventId) || req.seatIndex.None? || !Truthy(req.userId)
    ensures LockResult(m, req, now) == (m, [Emit(Requester, SeatLockFailed(req.seatIndex, InvalidRequest))])
  {
  }

  /**
   * The lock request, case by case, for a well-formed request: a seat under
   * another user's lock in force is refused and nothing changes; the holder
   * of a lock in force only refreshes it, silently; a free or expired seat
   * is locked for the requester and the event's room is told.
   */
  lemma LockCases(m: map<int, map<int, SeatLock>>, e: int, s: int, u: int, now: int)
    requires e != 0 && u != 0
    ensures var (m', out) := LockResult(m, SeatRequest(Some(e), Some(s), Some(u)), now);
      && (e in m && s in m[e] && Active(m[e][s], now) && m[e][s].holder != u ==>
            m' == m && out == [Emit(Requester, SeatLockFailed(Some(s), AlreadyLocked))])
      && (e in m && s in m[e] && Active(m[e][s], now) && m[e][s].holder == u ==>
            m' == m[e := m[e][s := SeatLock(u, now)]] && out == [])
      && (!(e in m && s in m[e] && Active(m[e][s], now)) ==>
            m' == m[e := (if e in m then m[e] else map[])[s := SeatLock(u, now)]]
            && out == [Emit(Room(e), SeatLocked(s, u))])
  {
  }

  /**
   * Only the seat asked for can change: every other lock, of this event or
   * any other, is exactly as before.
   */
  lemma LockTouchesOneSeat(m: map<int, map<int, SeatLock>>, req: SeatRequest, now: int, e: int, s: int)
    requires e in m && s in m[e]
    requires !(req.eventId == Some(e) && req.seatIndex == Some(s))
    ensures var m' := LockResult(m, req, now).0;
      e in m' && s in m'[e] && m'[e][s] == m[e][s]
  {
  }

  /**
   * Mutual exclusion: while a lock is in force, a lock request by anyone
   * else leaves it with its holder; after any lock request the seat asked
   * for is held by the requester exactly when the request succeeded.
   */
  lemma LockExclusive(m: map<int, map<int, SeatLock>>, req: SeatRequest, now: int)
    requires Truthy(req.eventId) && req.seatIndex.Some? && Truthy(req.userId)
    ensures var e, s, u := req.eventId.value, req.seatIndex.value, req.userId.value;
      var (m', out) := LockResult(m, req, now);
      && (e in m && s in m[e] && Active(m[e][s], now) && m[e][s].holder != u ==> m'[e][s] == m[e][s])
      && (out == [] || out == [Emit(Room(e), SeatLocked(s, u))] <==> e in m' && s in m'[e] && m'[e][s] == SeatLock(u, now))
  {
  }

  /**
   * The unlock request deletes the entry and tells the event's room exactly
   * when the entry exists and the request names no user, names its holder,
   * or the lock has expired; otherwise nothing happens and nothing is sent.
   */
  lemma UnlockRule(m: map<int, map<int, SeatLock>>, req: SeatRequest, now: int)
    ensures var (m', out) := UnlockResult(m, req, now);
      (out != [] <==>
        && Truthy(req.eventId) && req.seatIndex.Some?
        && req.eventId.value in m && req.seatIndex.value in m[req.eventId.value]
        && var l := m[req.eventId.value][req.seatIndex.value];
           !Truthy(req.userId) || l.holder == req.userId.value || !Active(l, now))
    ensures var (m', out) := UnlockResult(m, req, now);
      out == [] ==> m' == m
    ensures var (m', out) := UnlockResult(m, req, now);
      out != [] ==>
        && m' == m[req.eventId.value := m[req.eventId.value] - {req.seatIndex.value}]
        && out == [Emit(Room(req.eventId.value), SeatUnlocked(req.seatIndex.value))]
  {
  }

  /** A request that names no user releases anyone's lock, even one in force. */
  lemma AnonymousUnlockReleasesAnyLock(m: map<int, map<int, SeatLock>>, e: int, s: int, now: int)
    requires e != 0 && e in m && s in m[e] && Active(m[e][s], now)
    ensures UnlockResult(m, SeatRequest(Some(e), Some(s), None), now).0 == m[e := m[e] - {s}]
  {
  }

  /**
   * One boundary everywhere: a lock shows in a join snapshot exactly when
   * it survives a sweep, exactly when it refuses another user's lock
   * request, exactly when it refuses another user's unlock request.
   */
  lemma SameBoundary(m: map<int, map<int, SeatLock>>, e: int, s: int, v: int, now: int)
    requires e != 0 && v != 0 && e in m && s in m[e] && m[e][s].holder != v
    ensures s in Snapshot(m, e, now) <==> s in Swept(m, now)[e]
    ensures s in Swept(m, now)[e] <==>
      LockResult(m, SeatRequest(Some(e), Some(s), Some(v)), now).0 == m
    ensures s in Swept(m, now)[e] <==>
      UnlockResult(m, SeatRequest(Some(e), Some(s), Some(v)), now).0 == m
  {
    var m1 := LockResult(m, SeatRequest(Some(e), Some(s), Some(v)), now).0;
    if !Active(m[e][s], now) {
      assert m1[e][s] != m[e][s];
    }
    var m2 := UnlockResult(m, SeatRequest(Some(e), Some(s), Some(v)), now).0;
    if !Active(m[e][s], now) {
      assert s !in m2[e];
    }
  }

  /** A sweep does not change what a join at the same instant sees. */
  lemma SweepKeepsSnapshot(m: map<int, map<int, SeatLock>>, e: int, now: int)
    ensures Snapshot(Swept(m, now), e, now) == Snapshot(m, e, now)
  {
  }

  /** Sweeping twice at the same instant removes nothing more. */
  lemma SweepIdempotent(m: map<int, map<int, SeatLock>>, now: int)
    ensures Swept(Swept(m, now), now) == Swept(m, now)
  {
    var once := Swept(m, now);
    forall e | e in once
      ensures ActivePart(once[e], now) == once[e]
    {
    }
  }

  /** A lock that has expired for a sweep has also expired for every later sweep. */
  lemma SweepMonotone(m: map<int, map<int, SeatLock>>, now: int, later: int, e: int)
    requires now <= later && e in m
    ensures Swept(m, later)[e].Keys <= Swept(m, now)[e].Keys
  {
  }

  /**
   * A lock taken at `now` is in force for exactly five minutes: a join at
   * `now + LockExpiry` still shows it, one a millisecond later does not.
   */
  lemma LockLastsFiveMinutes(m: map<int, map<int, SeatLock>>, e: int, s: int, u: int, now: int)
    requires e != 0 && u != 0
    requires !(e in m && s in m[e] && Active(m[e][s], now))
    ensures var m' := LockResult(m, SeatRequest(Some(e), Some(s), Some(u)), now).0;
      && Snapshot(m', e, now + LockExpiry) == Snapshot(m, e, now + LockExpiry)[s := u]
      && s !in Snapshot(m', e, now + LockExpiry + 1)
  {
    var m' := LockResult(m, SeatRequest(Some(e), Some(s), Some(u)), now).0;
    var t := now + LockExpiry;
    var lhs := Snapshot(m', e, t);
    var rhs := Snapshot(m, e, t)[s := u];
    assert forall x :: x in lhs <==> x in rhs;
    assert forall x :: x in lhs ==> lhs[x] == rhs[x];
  }
}
