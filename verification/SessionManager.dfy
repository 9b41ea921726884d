/**
 The session manager as the object its callers see, one call at a time. What several
 calls at once can do to each other is the subject of `SessionProtocol`.
 */
module SessionManager {
  import opened Wrappers

  datatype Error = SessionCap | Stopped

  class Session {
    const id: string
    const clientAddr: string
    const createdAt: int
    var lastSeen: int
    var cancelled: bool   // whether this session's own cancel has run

    constructor (id: string, clientAddr: string, now: int)
      ensures this.id == id && this.clientAddr == clientAddr && createdAt == now && lastSeen == now && !cancelled
    {
      this.id, this.clientAddr, createdAt, lastSeen, cancelled := id, clientAddr, now, now, false;
    }
  }

  class SessionManager {
    const idleTimeout: int
    const maxSessions: nat
    var parentCancelled: bool
    var sessions: map<string, Session>
    var stopped: bool

    /** Registered sessions sit under their own id, are not cancelled, and respect the cap. */
    ghost predicate Valid()
      reads this, sessions.Values
    {
      && |sessions| <= maxSessions
      && (forall id :: id in sessions ==> sessions[id].id == id && !sessions[id].cancelled)
      && (parentCancelled ==> stopped)
    }

    ghost predicate Live(s: Session)
      reads this, s
    {
      !s.cancelled && !parentCancelled
    }

    constructor (idleTimeout: int, maxSessions: nat)
      ensures Valid() && sessions == map[] && !stopped
      ensures this.idleTimeout == idleTimeout && this.maxSessions == maxSessions
    {
      this.idleTimeout, this.maxSessions := idleTimeout, maxSessions;
      parentCancelled, sessions, stopped := false, map[], false;
    }

    /** `id` stands for the random session id, not in use. */
    method Allocate(clientAddr: string, id: string, now: int) returns (r: Result<Session, Error>)
      requires Valid() && id !in sessions
      modifies this`sessions
      ensures Valid()
      ensures r.Ok? <==> !stopped && |old(sessions)| < maxSessions
      ensures r.Err? ==> sessions == old(sessions) && r.error == if stopped then Stopped else SessionCap
      ensures r.Ok? ==> fresh(r.value) && sessions == old(sessions)[id := r.value] && Live(r.value)
      ensures r.Ok? ==> r.value.id == id && r.value.lastSeen == now
    {
      if stopped {
        return Err(Stopped);
      }
      if |sessions| >= maxSessions {
        return Err(SessionCap);
      }
      var s := new Session(id, clientAddr, now);
      sessions := sessions[id := s];
      return Ok(s);
    }

    method Touch(id: string, now: int)
      requires Valid()
      modifies (if id in sessions then {sessions[id]} else {})`lastSeen
      ensures Valid()
      ensures id in sessions ==> sessions[id].lastSeen == now
    {
      if id in sessions {
        sessions[id].lastSeen := now;
      }
    }

    method Delete(id: string)
      requires Valid()
      modifies this`sessions, (if id in sessions then {sessions[id]} else {})`cancelled
      ensures Valid()
      ensures sessions == old(sessions) - {id}
      ensures id in old(sessions) ==> old(sessions)[id].cancelled
    {
      if id in sessions {
        var s := sessions[id];
        sessions := sessions - {id};
        s.cancelled := true;
      }
    }

    /** The ids idle since before the cutoff. */
    ghost function Idle(cutoff: int): set<string>
      reads this, sessions.Values
    {
      set id | id in sessions && sessions[id].lastSeen < cutoff
    }

    method Scan(cutoff: int) returns (toDelete: seq<string>)
      requires Valid()
      ensures forall id :: id in toDelete <==> id in Idle(cutoff)
      ensures |toDelete| == |Idle(cutoff)|
    {
      toDelete := [];
      var todo := sessions.Keys;
      ghost var seen: set<string> := {};
      while todo != {}
        invariant todo <= sessions.Keys
        invariant seen == set id | id in sessions && id !in todo && sessions[id].lastSeen < cutoff
        invariant forall id :: id in toDelete <==> id in seen
        invariant |toDelete| == |seen|
        decreases todo
      {
        var id :| id in todo;
        todo := todo - {id};
        if sessions[id].lastSeen < cutoff {
          toDelete := toDelete + [id];
          seen := seen + {id};
        }
      }
      assert seen == Idle(cutoff);
    }

    /** Deletes the listed ids one after the other. */
    method DeleteAll(toDelete: seq<string>)
      requires Valid()
      requires forall id :: id in sessions ==> sessions[id].id == id && !sessions[id].cancelled
      modifies this`sessions, sessions.Values`cancelled
      ensures Valid()
      ensures sessions == old(sessions) - (set j | 0 <= j < |toDelete| :: toDelete[j])
      ensures forall id :: id in old(sessions) ==> (old(sessions)[id].cancelled <==> id in toDelete)
    {
      hide Valid;
      ghost var before := sessions;
      ghost var gone: set<string> := {};
      for i := 0 to |toDelete|
        invariant Valid()
        invariant forall id :: id in gone <==> id in toDelete[..i]
        invariant sessions == before - gone
        invariant forall id :: id in before && id in gone ==> before[id].cancelled
        invariant forall id :: id in before && id !in gone ==> !before[id].cancelled
      {
        assert toDelete[..i + 1] == toDelete[..i] + [toDelete[i]];
        DeleteOne(toDelete[i], before);
        gone := gone + {toDelete[i]};
      }
      assert toDelete[..|toDelete|] == toDelete;
      assert gone == set j | 0 <= j < |toDelete| :: toDelete[j];
    }

    /** `Delete`, seen against the map a caller started from. */
    method DeleteOne(id: string, ghost before: map<string, Session>)
      requires Valid() && forall x :: x in sessions ==> x in before && before[x] == sessions[x]
      requires forall x :: x in before ==> before[x].id == x
      modifies this`sessions, before.Values`cancelled
      ensures Valid() && sessions == old(sessions) - {id}
      ensures id in old(sessions) ==> before[id].cancelled
      ensures forall x :: x in before && x != id ==> before[x].cancelled == old(before[x].cancelled)
      ensures id in before && id !in old(sessions) ==> before[id].cancelled == old(before[id].cancelled)
    {
      hide Valid;
      if id in sessions {
        assert before[id] in before.Values;
      }
      Delete(id);
    }

    /** Removes and cancels exactly the sessions idle for longer than the timeout, and counts them. */
    method Reap(now: int) returns (n: nat)
      requires Valid()
      modifies this`sessions, sessions.Values`cancelled
      ensures Valid()
      ensures sessions == old(sessions) - old(Idle(now - idleTimeout))
      ensures forall id :: id in old(sessions) ==>
        (old(sessions)[id].cancelled <==> id in old(Idle(now - idleTimeout)))
      ensures n == |old(Idle(now - idleTimeout))|
    {
      ghost var idle := Idle(now - idleTimeout);
      var toDelete := Scan(now - idleTimeout);
      DeleteAll(toDelete);
      assert idle == set j | 0 <= j < |toDelete| :: toDelete[j];
      n := |toDelete|;
    }

    /** Cancels the parent context, empties the map and cancels every session that was in it; later calls do nothing. */
    method Stop()
      requires Valid()
      modifies this`stopped, this`parentCancelled, this`sessions, sessions.Values`cancelled
      ensures Valid() && stopped
      ensures old(stopped) ==> sessions == old(sessions) && parentCancelled == old(parentCancelled)
      ensures !old(stopped) ==> parentCancelled && sessions == map[]
      ensures !old(stopped) ==> forall id :: id in old(sessions) ==> old(sessions)[id].cancelled
    {
      if stopped {
        return;
      }
      stopped := true;
      parentCancelled := true;
      var taken := sessions;
      sessions := map[];
      var todo := taken.Keys;
      while todo != {}
        invariant todo <= taken.Keys
        invariant sessions == map[] && stopped && parentCancelled
        invariant forall id :: id in taken && id !in todo ==> taken[id].cancelled
        decreases todo
      {
        var id :| id in todo;
        todo := todo - {id};
        taken[id].cancelled := true;
      }
    }
  }
}
