/**
 The HTTP session manager (`internal/mcp/transport/http/session.go`) as a step system.
 One step is one atomic action: a critical section under `mu`, an atomic load or swap, a
 context cancellation, a clock reading. Any number of calls of Allocate, Touch, Delete,
 Reap and Stop interleave. Session ids are fresh, and a session's context is done as
 soon as its own cancel or the manager's parent cancel has run.
 */
module SessionProtocol {
  type Id = nat
  type ThreadId = nat

  datatype Config = Config(maxSessions: nat, idleTimeout: nat)

  datatype Pc =
    | AllocateCheck                         // about to load `stopped`
    | AllocatePassed                        // past the check, about to lock
    | Allocated(id: Id)
    | AllocateFailed
    | TouchLock(id: Id)
    | DeleteLock(id: Id)                    // about to lock and remove
    | DeleteCancel(id: Id)                  // removed it, about to cancel it
    | ReapClock                             // about to read the clock
    | ReapScan(cutoff: int)                 // about to lock and scan
    | ReapLoop(cutoff: int, todo: seq<(Id, int)>, n: nat)            // about to delete the next scanned id
    | ReapCancel(id: Id, cutoff: int, todo: seq<(Id, int)>, n: nat)  // removed it, about to cancel it
    | Reaped(n: nat)
    | StopSwap                              // about to compare-and-swap `stopped`
    | StopParent                            // won it, about to cancel the parent context
    | StopLock                              // about to lock and take the map
    | StopCancel(taken: set<Id>)             // about to cancel what was in the map
    | Finished

  /** `sessions` maps a registered id to its `LastSeen`. */
  datatype State = State(
    now: int,
    sessions: map<Id, int>,
    created: set<Id>,
    cancelled: set<Id>,
    stopped: bool,
    parentCancelled: bool,
    threads: map<ThreadId, Pc>)

  datatype Action =
    | Tick(delta: nat)
    | Call(t: ThreadId, entry: Pc)
    | AllocateLoad(t: ThreadId)
    | AllocateRegister(t: ThreadId, id: Id)
    | TouchStep(t: ThreadId)
    | DeleteRemove(t: ThreadId)
    | CancelOwn(t: ThreadId)
    | ReapRead(t: ThreadId)
    | ReapCollect(t: ThreadId, found: seq<(Id, int)>)
    | ReapNext(t: ThreadId)
    | StopCas(t: ThreadId)
    | StopCancelParent(t: ThreadId)
    | StopTakeMap(t: ThreadId)
    | StopCancelOne(t: ThreadId, id: Id)
    | StopEnd(t: ThreadId)

  predicate IsEntry(pc: Pc) {
    pc.AllocateCheck? || pc.TouchLock? || pc.DeleteLock? || pc.ReapClock? || pc.StopSwap?
  }

  /** `found` lists, in some order, exactly the registered sessions idle since before the cutoff. */
  ghost predicate Collects(s: State, cutoff: int, found: seq<(Id, int)>) {
    && (forall i, j :: 0 <= i < j < |found| ==> found[i].0 != found[j].0)
    && (forall i :: 0 <= i < |found| ==>
          found[i].0 in s.sessions && s.sessions[found[i].0] == found[i].1 && found[i].1 < cutoff)
    && (forall id :: id in s.sessions && s.sessions[id] < cutoff ==> (id, s.sessions[id]) in found)
  }

  ghost predicate Enabled(s: State, a: Action) {
    match a
    case Tick(_) => true
    case Call(t, entry) => t !in s.threads && IsEntry(entry)
    case AllocateLoad(t) => t in s.threads && s.threads[t] == AllocateCheck
    case AllocateRegister(t, id) => t in s.threads && s.threads[t] == AllocatePassed && id !in s.created
    case TouchStep(t) => t in s.threads && s.threads[t].TouchLock?
    case DeleteRemove(t) => t in s.threads && s.threads[t].DeleteLock?
    case CancelOwn(t) => t in s.threads && (s.threads[t].DeleteCancel? || s.threads[t].ReapCancel?)
    case ReapRead(t) => t in s.threads && s.threads[t] == ReapClock
    case ReapCollect(t, found) => t in s.threads && s.threads[t].ReapScan? && Collects(s, s.threads[t].cutoff, found)
    case ReapNext(t) => t in s.threads && s.threads[t].ReapLoop?
    case StopCas(t) => t in s.threads && s.threads[t] == StopSwap
    case StopCancelParent(t) => t in s.threads && s.threads[t] == StopParent
    case StopTakeMap(t) => t in s.threads && s.threads[t] == StopLock
    case StopCancelOne(t, id) => t in s.threads && s.threads[t].StopCancel? && id in s.threads[t].taken
    case StopEnd(t) => t in s.threads && s.threads[t].StopCancel? && s.threads[t].taken == {}
  }

  function At(s: State, t: ThreadId, pc: Pc): State {
    s.(threads := s.threads[t := pc])
  }

  ghost function Apply(c: Config, s: State, a: Action): State
    requires Enabled(s, a)
  {
    match a
    case Tick(delta) => s.(now := s.now + delta)
    case Call(t, entry) => At(s, t, entry)
    case AllocateLoad(t) => At(s, t, if s.stopped then AllocateFailed else AllocatePassed)
    case AllocateRegister(t, id) =>
      if |s.sessions| >= c.maxSessions then At(s, t, AllocateFailed)
      else At(s, t, Allocated(id)).(sessions := s.sessions[id := s.now], created := s.created + {id})
    case TouchStep(t) =>
      var id := s.threads[t].id;
      At(s, t, Finished).(sessions := if id in s.sessions then s.sessions[id := s.now] else s.sessions)
    case DeleteRemove(t) =>
      var id := s.threads[t].id;
      if id in s.sessions then At(s, t, DeleteCancel(id)).(sessions := s.sessions - {id}) else At(s, t, Finished)
    case CancelOwn(t) =>
      var pc := s.threads[t];
      At(s, t, if pc.DeleteCancel? then Finished else ReapLoop(pc.cutoff, pc.todo, pc.n)).(cancelled := s.cancelled + {pc.id})
    case ReapRead(t) => At(s, t, ReapScan(s.now - c.idleTimeout))
    case ReapCollect(t, found) => At(s, t, ReapLoop(s.threads[t].cutoff, found, |found|))
    case ReapNext(t) =>
      var ReapLoop(cutoff, todo, n) := s.threads[t];
      if todo == [] then At(s, t, Reaped(n))
      else if todo[0].0 in s.sessions then
        At(s, t, ReapCancel(todo[0].0, cutoff, todo[1..], n)).(sessions := s.sessions - {todo[0].0})
      else At(s, t, ReapLoop(cutoff, todo[1..], n))
    case StopCas(t) => if s.stopped then At(s, t, Finished) else At(s, t, StopParent).(stopped := true)
    case StopCancelParent(t) => At(s, t, StopLock).(parentCancelled := true)
    case StopTakeMap(t) => At(s, t, StopCancel(s.sessions.Keys)).(sessions := map[])
    case StopCancelOne(t, id) => At(s, t, StopCancel(s.threads[t].taken - {id})).(cancelled := s.cancelled + {id})
    case StopEnd(t) => At(s, t, Finished)
  }

  predicate Initial(s: State) {
    s.sessions == map[] && s.created == {} && s.cancelled == {} && !s.stopped && !s.parentCancelled && s.threads == map[]
  }

  ghost predicate Reaches(c: Config, s0: State, run: seq<Action>, s: State) {
    if run == [] then s == s0
    else
      var before := run[..|run| - 1];
      exists m :: Reaches(c, s0, before, m) && Enabled(m, run[|run| - 1]) && s == Apply(c, m, run[|run| - 1])
  }

  // ----- the invariant

  /** The sessions a thread has taken out of the map and will cancel. */
  function Holds(pc: Pc): set<Id> {
    match pc
    case DeleteCancel(id) => {id}
    case ReapCancel(id, _, _, _) => {id}
    case StopCancel(taken) => taken
    case _ => {}
  }

  /** A session's context is not done. */
  predicate Live(s: State, id: Id) {
    id in s.created && id !in s.cancelled && !s.parentCancelled
  }

  predicate Capped(c: Config, s: State) {
    |s.sessions| <= c.maxSessions
  }

  ghost predicate Held(s: State, id: Id) {
    exists t :: t in s.threads && id in Holds(s.threads[t])
  }

  /** Each created session is registered, or held by one thread, or cancelled, and only one of these. */
  ghost predicate Owned(s: State) {
    && s.sessions.Keys <= s.created
    && s.cancelled <= s.created
    && (forall t :: t in s.threads ==> Holds(s.threads[t]) <= s.created - s.cancelled - s.sessions.Keys)
    && (forall t, u, id :: t in s.threads && u in s.threads && id in Holds(s.threads[t]) && id in Holds(s.threads[u]) ==> t == u)
    && (forall id :: id in s.created && id !in s.sessions && id !in s.cancelled ==> Held(s, id))
    && s.sessions.Keys !! s.cancelled
  }

  /** The parent context is cancelled only once `stopped` is set, and by the time a winner takes the map. */
  predicate StopOrdered(s: State) {
    && (s.parentCancelled ==> s.stopped)
    && (forall t :: t in s.threads && (s.threads[t].StopLock? || s.threads[t].StopCancel?) ==> s.parentCancelled)
    && (forall t :: t in s.threads && s.threads[t].StopParent? ==> s.stopped)
  }

  ghost predicate Inv(c: Config, s: State) {
    Capped(c, s) && Owned(s) && StopOrdered(s)
  }

  lemma StepSessions(c: Config, s: State, a: Action)
    requires Enabled(s, a)
    ensures
      var s' := Apply(c, s, a);
      s'.sessions.Keys <= s.sessions.Keys ||
      (a.AllocateRegister? && |s.sessions| < c.maxSessions && s'.sessions.Keys == s.sessions.Keys + {a.id})
  {
    hide Collects;
  }

  lemma StepKeepsCap(c: Config, s: State, a: Action)
    requires Capped(c, s) && Enabled(s, a)
    ensures Capped(c, Apply(c, s, a))
  {
    hide Enabled, Apply;
    StepSessions(c, s, a);
    var s' := Apply(c, s, a);
    if s'.sessions.Keys <= s.sessions.Keys {
      SubsetSize(s'.sessions.Keys, s.sessions.Keys);
    }
  }

  lemma SubsetSize(a: set<Id>, b: set<Id>)
    requires a <= b
    ensures |a| <= |b|
  {
    assert b == a + (b - a);
  }

  lemma StepKeepsOrder(c: Config, s: State, a: Action)
    requires StopOrdered(s) && Enabled(s, a)
    ensures StopOrdered(Apply(c, s, a))
  {
    hide Collects;
  }

  /** The thread that takes a step; a tick has none. */
  function Actor(a: Action): ThreadId {
    match a
    case Tick(_) => 0
    case Call(t, _) => t
    case AllocateLoad(t) => t
    case AllocateRegister(t, _) => t
    case TouchStep(t) => t
    case DeleteRemove(t) => t
    case CancelOwn(t) => t
    case ReapRead(t) => t
    case ReapCollect(t, _) => t
    case ReapNext(t) => t
    case StopCas(t) => t
    case StopCancelParent(t) => t
    case StopTakeMap(t) => t
    case StopCancelOne(t, _) => t
    case StopEnd(t) => t
  }

  /**
   What one step does to the three places a session can be: it leaves other threads'
   holdings alone, and what disappears from one place turns up in exactly one other.
   */
  ghost predicate Moves(s: State, t: ThreadId, s': State) {
    && s.threads.Keys <= s'.threads.Keys
    && (forall u :: u in s.threads && u != t ==> s'.threads[u] == s.threads[u])
    && (forall u :: u in s'.threads && u !in s.threads ==> Holds(s'.threads[u]) == {})
    && var before := if t in s.threads then Holds(s.threads[t]) else {};
    && var after := if t in s'.threads then Holds(s'.threads[t]) else {};
    && s'.created >= s.created && s'.cancelled >= s.cancelled
    && (forall id :: id in s'.created && id !in s.created <==> id in s'.sessions && id !in s.sessions)
    && (forall id :: id in after && id !in before <==> id in s.sessions && id !in s'.sessions)
    && (forall id :: id in before && id !in after <==> id in s'.cancelled && id !in s.cancelled)
  }

  lemma AllocateMoves(c: Config, s: State, a: Action)
    requires Enabled(s, a)
    requires s.sessions.Keys <= s.created
    requires Actor(a) in s.threads ==> Holds(s.threads[Actor(a)]) !! s.cancelled + s.sessions.Keys
    requires a.Tick? || a.Call? || a.AllocateLoad? || a.TouchStep?
    ensures Moves(s, Actor(a), Apply(c, s, a))
  {
  }

  lemma RegisterMoves(c: Config, s: State, a: Action)
    requires Enabled(s, a)
    requires s.sessions.Keys <= s.created
    requires a.AllocateRegister?
    ensures Moves(s, Actor(a), Apply(c, s, a))
  {
  }

  lemma DeleteMoves(c: Config, s: State, a: Action)
    requires Enabled(s, a)
    requires s.sessions.Keys <= s.created
    requires Actor(a) in s.threads ==> Holds(s.threads[Actor(a)]) !! s.cancelled + s.sessions.Keys
    requires a.DeleteRemove? || a.CancelOwn?
    ensures Moves(s, Actor(a), Apply(c, s, a))
  {
  }

  lemma ReapMoves(c: Config, s: State, a: Action)
    requires Enabled(s, a)
    requires Actor(a) in s.threads ==> Holds(s.threads[Actor(a)]) !! s.cancelled + s.sessions.Keys
    requires a.ReapRead? || a.ReapCollect?
    ensures Moves(s, Actor(a), Apply(c, s, a))
  {
    hide Collects;
  }

  lemma ReapNextMoves(c: Config, s: State, a: Action)
    requires Enabled(s, a)
    requires s.sessions.Keys <= s.created
    requires a.ReapNext?
    ensures Moves(s, Actor(a), Apply(c, s, a))
  {
  }

  lemma StopMoves(c: Config, s: State, a: Action)
    requires Enabled(s, a)
    requires s.sessions.Keys <= s.created
    requires Actor(a) in s.threads ==> Holds(s.threads[Actor(a)]) !! s.cancelled + s.sessions.Keys
    requires a.StopCas? || a.StopCancelParent? || a.StopTakeMap? || a.StopCancelOne? || a.StopEnd?
    ensures Moves(s, Actor(a), Apply(c, s, a))
  {
    hide Collects;
  }

  lemma StepMoves(c: Config, s: State, a: Action)
    requires Owned(s) && Enabled(s, a)
    ensures Moves(s, Actor(a), Apply(c, s, a))
  {
    hide Collects, Held, Enabled, Apply, Moves;
    match a {
      case Tick(_) | Call(_, _) | AllocateLoad(_) | TouchStep(_) => AllocateMoves(c, s, a);
      case AllocateRegister(_, _) => RegisterMoves(c, s, a);
      case DeleteRemove(_) | CancelOwn(_) => DeleteMoves(c, s, a);
      case ReapRead(_) | ReapCollect(_, _) => ReapMoves(c, s, a);
      case ReapNext(_) => ReapNextMoves(c, s, a);
      case _ => StopMoves(c, s, a);
    }
  }

  lemma MovesHeld(s: State, t: ThreadId, s': State, id: Id)
    requires Owned(s) && Moves(s, t, s')
    requires id in s'.created && id !in s'.sessions && id !in s'.cancelled
    ensures Held(s', id)
  {
    if id in s.sessions {
      assert t in s'.threads && id in Holds(s'.threads[t]);
    } else {
      assert id in s.created;
      var u :| u in s.threads && id in Holds(s.threads[u]);
      assert u in s'.threads && id in Holds(s'.threads[u]);
    }
  }

  lemma MovesKeepOwned(s: State, t: ThreadId, s': State)
    requires Owned(s) && Moves(s, t, s')
    ensures Owned(s')
  {
    hide Held;
    forall id | id in s'.created && id !in s'.sessions && id !in s'.cancelled ensures Held(s', id) {
      MovesHeld(s, t, s', id);
    }
  }

  lemma StepKeepsInv(c: Config, s: State, a: Action)
    requires Inv(c, s) && Enabled(s, a)
    ensures Inv(c, Apply(c, s, a))
  {
    hide Enabled, Apply, Owned, Capped, StopOrdered, Moves;
    StepKeepsCap(c, s, a);
    StepMoves(c, s, a);
    MovesKeepOwned(s, Actor(a), Apply(c, s, a));
    StepKeepsOrder(c, s, a);
  }

  lemma {:induction false} RunsKeepInv(c: Config, s0: State, run: seq<Action>, s: State)
    requires Initial(s0) && Reaches(c, s0, run, s)
    ensures Inv(c, s)
  {
    hide Enabled, Apply;
    if run != [] {
      var m :| Reaches(c, s0, run[..|run| - 1], m) && Enabled(m, run[|run| - 1]) && s == Apply(c, m, run[|run| - 1]);
      RunsKeepInv(c, s0, run[..|run| - 1], m);
      StepKeepsInv(c, m, run[|run| - 1]);
    }
  }

  lemma {:induction false} ReachesOnward(c: Config, s0: State, run: seq<Action>, s: State, a: Action)
    requires Reaches(c, s0, run, s) && Enabled(s, a)
    ensures Reaches(c, s0, run + [a], Apply(c, s, a))
  {
    assert (run + [a])[..|run + [a]| - 1] == run;
  }

  // ----- what every run guarantees

  lemma SessionsStayCapped(c: Config, s0: State, run: seq<Action>, s: State)
    requires Initial(s0) && Reaches(c, s0, run, s)
    ensures |s.sessions| <= c.maxSessions
  {
    RunsKeepInv(c, s0, run, s);
  }

  /** A created session is registered, or cancelled, or in the hands of exactly one thread that will cancel it. */
  lemma EverySessionIsAccountedFor(c: Config, s0: State, run: seq<Action>, s: State, id: Id)
    requires Initial(s0) && Reaches(c, s0, run, s)
    requires id in s.created
    ensures id in s.sessions ==> id !in s.cancelled && !Held(s, id)
    ensures id in s.cancelled ==> id !in s.sessions && !Held(s, id)
    ensures id !in s.sessions && id !in s.cancelled ==>
      exists t :: t in s.threads && id in Holds(s.threads[t]) &&
        forall u :: u in s.threads && id in Holds(s.threads[u]) ==> u == t
  {
    RunsKeepInv(c, s0, run, s);
    if id !in s.sessions && id !in s.cancelled {
      assert Held(s, id);
      var t :| t in s.threads && id in Holds(s.threads[t]);
    }
  }

  /** With no call in the middle of removing sessions, what was created is registered or cancelled. */
  lemma NothingLeaks(c: Config, s0: State, run: seq<Action>, s: State)
    requires Initial(s0) && Reaches(c, s0, run, s)
    requires forall t :: t in s.threads ==> Holds(s.threads[t]) == {}
    ensures s.created == s.sessions.Keys + s.cancelled
  {
    RunsKeepInv(c, s0, run, s);
    forall id | id in s.created ensures id in s.sessions || id in s.cancelled {
      if id !in s.sessions && id !in s.cancelled { EverySessionIsAccountedFor(c, s0, run, s, id); }
    }
  }

  lemma {:induction false} StoppedForGood(c: Config, s: State, more: seq<Action>, s': State)
    requires Reaches(c, s, more, s')
    ensures s.parentCancelled ==> s'.parentCancelled
    ensures s.stopped ==> s'.stopped
  {
    if more != [] {
      var m :| Reaches(c, s, more[..|more| - 1], m) && Enabled(m, more[|more| - 1]) && s' == Apply(c, m, more[|more| - 1]);
      StoppedForGood(c, s, more[..|more| - 1], m);
      StepsKeepStopped(c, m, more[|more| - 1]);
    }
  }

  lemma StepsKeepStopped(c: Config, s: State, a: Action)
    requires Enabled(s, a)
    ensures s.parentCancelled ==> Apply(c, s, a).parentCancelled
    ensures s.stopped ==> Apply(c, s, a).stopped
  {
    hide Collects;
  }

  /**
   Once a `Stop` has got as far as the map, and ever after, no session has a live context:
   neither those it found nor those an Allocate already past the `stopped` check adds later.
   */
  lemma NothingIsLiveAfterStop(c: Config, s0: State, run: seq<Action>, s: State, t: ThreadId, more: seq<Action>, s': State)
    requires Initial(s0) && Reaches(c, s0, run, s)
    requires t in s.threads && (s.threads[t].StopLock? || s.threads[t].StopCancel?)
    requires Reaches(c, s, more, s')
    ensures s'.stopped && forall id :: !Live(s', id)
  {
    RunsKeepInv(c, s0, run, s);
    StoppedForGood(c, s, more, s');
  }

  // ----- what `Stop` does not promise

  ghost predicate NoAllocateInside(s: State) {
    forall t :: t in s.threads ==> s.threads[t] != AllocatePassed
  }

  lemma StepStaysEmpty(c: Config, s: State, a: Action)
    requires Enabled(s, a)
    requires s.stopped && s.sessions == map[] && NoAllocateInside(s)
    ensures var s' := Apply(c, s, a); s'.stopped && s'.sessions == map[] && NoAllocateInside(s')
  {
    hide Collects;
  }

  lemma {:induction false} StaysEmpty(c: Config, s: State, more: seq<Action>, s': State)
    requires Reaches(c, s, more, s')
    requires s.stopped && s.sessions == map[] && NoAllocateInside(s)
    ensures s'.stopped && s'.sessions == map[] && NoAllocateInside(s')
  {
    hide NoAllocateInside, Enabled, Apply;
    if more != [] {
      var m :| Reaches(c, s, more[..|more| - 1], m) && Enabled(m, more[|more| - 1]) && s' == Apply(c, m, more[|more| - 1]);
      StaysEmpty(c, s, more[..|more| - 1], m);
      StepStaysEmpty(c, m, more[|more| - 1]);
    }
  }

  /**
   A stopped manager's emptied map stays empty in every continuation exactly when no
   Allocate was between its check and its lock; one that was may still register a session.
   */
  lemma EmptyAfterStopIff(c: Config, s: State)
    requires s.stopped && s.sessions == map[] && c.maxSessions > 0
    ensures NoAllocateInside(s) <==> forall more, s' :: Reaches(c, s, more, s') ==> s'.sessions == map[]
  {
    if NoAllocateInside(s) {
      forall more, s' | Reaches(c, s, more, s') ensures s'.sessions == map[] { StaysEmpty(c, s, more, s'); }
    } else {
      var t :| t in s.threads && s.threads[t] == AllocatePassed;
      var id := FreshId(s.created);
      var a := AllocateRegister(t, id);
      assert Reaches(c, s, [], s);
      ReachesOnward(c, s, [], s, a);
      assert Reaches(c, s, [] + [a], Apply(c, s, a));
      assert id in Apply(c, s, a).sessions;
    }
  }

  lemma FreshId(used: set<Id>) returns (id: Id)
    ensures id !in used
  {
    id := Bound(used);
  }

  lemma Bound(used: set<Id>) returns (b: Id)
    ensures forall x :: x in used ==> x < b
    decreases |used|
  {
    if used == {} { b := 0; }
    else {
      var x :| x in used;
      var r := Bound(used - {x});
      b := if x < r then r else x + 1;
      forall y | y in used ensures y < b { assert y == x || y in used - {x}; }
    }
  }

  // ----- what `Reap` takes

  /** A sighting a reaper will act on: old when scanned, and since then untouched or touched after the reaper read the clock. */
  predicate SightingFits(c: Config, s: State, cutoff: int, seen: (Id, int)) {
    && seen.1 < cutoff
    && seen.0 in s.created
    && (seen.0 in s.sessions ==> s.sessions[seen.0] == seen.1 || s.sessions[seen.0] >= cutoff + c.idleTimeout)
  }

  predicate ReaperFits(c: Config, s: State, pc: Pc) {
    match pc
    case ReapScan(cutoff) => cutoff <= s.now - c.idleTimeout
    case ReapLoop(cutoff, todo, _) => cutoff <= s.now - c.idleTimeout && forall i :: 0 <= i < |todo| ==> SightingFits(c, s, cutoff, todo[i])
    case ReapCancel(_, cutoff, todo, _) => cutoff <= s.now - c.idleTimeout && forall i :: 0 <= i < |todo| ==> SightingFits(c, s, cutoff, todo[i])
    case _ => true
  }

  ghost predicate ReapersFit(c: Config, s: State) {
    && s.sessions.Keys <= s.created
    && (forall id :: id in s.sessions ==> s.sessions[id] <= s.now)
    && (forall t :: t in s.threads ==> ReaperFits(c, s, s.threads[t]))
  }

  /** A registered session keeps its time stamp, or is stamped with the current time. */
  lemma StepStamps(c: Config, s: State, a: Action, id: Id)
    requires Enabled(s, a) && id in Apply(c, s, a).sessions
    ensures id in s.sessions || id !in s.created
    ensures (id in s.sessions && Apply(c, s, a).sessions[id] == s.sessions[id]) || Apply(c, s, a).sessions[id] == s.now
    ensures id in s.sessions || id in Apply(c, s, a).created
  {
    hide Collects;
  }

  lemma StepGrows(c: Config, s: State, a: Action)
    requires Enabled(s, a)
    ensures s.now <= Apply(c, s, a).now && s.created <= Apply(c, s, a).created
  {
    hide Collects;
  }

  /** Time does not run back, registered ids are not reused, and `LastSeen` is kept or set to the present. */
  lemma StepIsMonotone(c: Config, s: State, a: Action)
    requires ReapersFit(c, s) && Enabled(s, a)
    ensures
      var s' := Apply(c, s, a);
      && s.now <= s'.now && s.created <= s'.created
      && (forall id :: id in s.created && id in s'.sessions ==>
            id in s.sessions && (s'.sessions[id] == s.sessions[id] || s'.sessions[id] == s.now))
      && (forall id :: id in s'.sessions ==> s'.sessions[id] <= s'.now && id in s'.created)
  {
    hide Enabled, Apply, ReaperFits;
    var s' := Apply(c, s, a);
    StepGrows(c, s, a);
    forall id | id in s'.sessions
      ensures id in s.created ==> id in s.sessions && (s'.sessions[id] == s.sessions[id] || s'.sessions[id] == s.now)
      ensures s'.sessions[id] <= s'.now && id in s'.created
    {
      StepStamps(c, s, a, id);
    }
  }

  lemma ReaperStaysFit(c: Config, s: State, s': State, pc: Pc)
    requires ReaperFits(c, s, pc)
    requires s.now <= s'.now && s.created <= s'.created
    requires forall id :: id in s.created && id in s'.sessions ==>
      id in s.sessions && (s'.sessions[id] == s.sessions[id] || s'.sessions[id] == s.now)
    ensures ReaperFits(c, s', pc)
  {
    if pc.ReapLoop? || pc.ReapCancel? {
      forall i | 0 <= i < |pc.todo| ensures SightingFits(c, s', pc.cutoff, pc.todo[i]) {
        assert SightingFits(c, s, pc.cutoff, pc.todo[i]);
      }
    }
  }

  /** The acting thread's new place fits the old state, so it fits the new one. */
  lemma ActorFits(c: Config, s: State, a: Action)
    requires ReapersFit(c, s) && Enabled(s, a) && !a.Tick?
    ensures ReaperFits(c, s, Apply(c, s, a).threads[Actor(a)])
  {
    var t := Actor(a);
    assert t in s.threads ==> ReaperFits(c, s, s.threads[t]);
    match a
    case ReapCollect(_, found) =>
      forall i | 0 <= i < |found| ensures SightingFits(c, s, s.threads[t].cutoff, found[i]) {}
    case ReapNext(_) =>
    case CancelOwn(_) =>
    case _ => hide Collects;
  }

  lemma StepKeepsReapers(c: Config, s: State, a: Action)
    requires ReapersFit(c, s) && Enabled(s, a)
    ensures ReapersFit(c, Apply(c, s, a))
  {
    hide Collects, ReaperFits;
    var s' := Apply(c, s, a);
    StepIsMonotone(c, s, a);
    forall t | t in s'.threads ensures ReaperFits(c, s', s'.threads[t]) {
      if t == Actor(a) && !a.Tick? { ActorFits(c, s, a); }
      ReaperStaysFit(c, s, s', s'.threads[t]);
    }
  }

  lemma {:induction false} RunsKeepReapers(c: Config, s0: State, run: seq<Action>, s: State)
    requires Initial(s0) && Reaches(c, s0, run, s)
    ensures ReapersFit(c, s)
  {
    hide Enabled, Apply;
    if run != [] {
      var m :| Reaches(c, s0, run[..|run| - 1], m) && Enabled(m, run[|run| - 1]) && s == Apply(c, m, run[|run| - 1]);
      RunsKeepReapers(c, s0, run[..|run| - 1], m);
      StepKeepsReapers(c, m, run[|run| - 1]);
    }
  }

  /**
   A session a reaper is about to remove had been idle for longer than the timeout when
   it was scanned, and still is unless it was touched since.
   */
  lemma ReapTakesIdleSessions(c: Config, s0: State, run: seq<Action>, s: State, t: ThreadId)
    requires Initial(s0) && Reaches(c, s0, run, s)
    requires t in s.threads && s.threads[t].ReapLoop? && s.threads[t].todo != []
    requires s.threads[t].todo[0].0 in s.sessions
    ensures
      var (id, seen) := s.threads[t].todo[0];
      && s.now - seen > c.idleTimeout
      && seen <= s.sessions[id]
      && (s.sessions[id] == seen ==> s.now - s.sessions[id] > c.idleTimeout)
  {
    RunsKeepReapers(c, s0, run, s);
    assert ReaperFits(c, s, s.threads[t]);
    assert SightingFits(c, s, s.threads[t].cutoff, s.threads[t].todo[0]);
  }

  /**
   The reaper goes by its scan and does not look again. As long as it is no more than one more
   timeout behind its clock reading, a session it is about to remove is still idle beyond the
   timeout exactly when it has not been touched since the scan.
   */
  lemma ReapedIsIdleIff(c: Config, s0: State, run: seq<Action>, s: State, t: ThreadId)
    requires Initial(s0) && Reaches(c, s0, run, s)
    requires t in s.threads && s.threads[t].ReapLoop? && s.threads[t].todo != []
    requires s.threads[t].todo[0].0 in s.sessions
    requires s.now <= s.threads[t].cutoff + 2 * c.idleTimeout
    ensures
      var (id, seen) := s.threads[t].todo[0];
      s.now - s.sessions[id] > c.idleTimeout <==> s.sessions[id] == seen
  {
    RunsKeepReapers(c, s0, run, s);
    assert ReaperFits(c, s, s.threads[t]);
    assert SightingFits(c, s, s.threads[t].cutoff, s.threads[t].todo[0]);
  }

  lemma TakeStep(c: Config, s0: State, run: seq<Action>, s: State, a: Action) returns (run': seq<Action>, s': State)
    requires Reaches(c, s0, run, s) && Enabled(s, a)
    ensures s' == Apply(c, s, a) && run' == run + [a] && Reaches(c, s0, run', s')
  {
    run', s' := run + [a], Apply(c, s, a);
    ReachesOnward(c, s0, run, s, a);
  }


  // One step each, for concrete runs.

  lemma CallStep(c: Config, s0: State, run: seq<Action>, s: State, t: ThreadId, entry: Pc) returns (run': seq<Action>, s': State)
    requires Reaches(c, s0, run, s) && t !in s.threads && IsEntry(entry)
    ensures s' == At(s, t, entry) && run' == run + [Call(t, entry)] && Reaches(c, s0, run', s')
  {
    hide Reaches, Collects;
    run', s' := TakeStep(c, s0, run, s, Call(t, entry));
  }

  lemma PassCheck(c: Config, s0: State, run: seq<Action>, s: State, t: ThreadId) returns (run': seq<Action>, s': State)
    requires Reaches(c, s0, run, s) && t in s.threads && s.threads[t] == AllocateCheck && !s.stopped
    ensures s' == At(s, t, AllocatePassed) && Reaches(c, s0, run', s')
  {
    hide Reaches, Collects;
    run', s' := TakeStep(c, s0, run, s, AllocateLoad(t));
  }

  lemma RegisterStep(c: Config, s0: State, run: seq<Action>, s: State, t: ThreadId, id: Id) returns (run': seq<Action>, s': State)
    requires Reaches(c, s0, run, s) && t in s.threads && s.threads[t] == AllocatePassed
    requires id !in s.created && |s.sessions| < c.maxSessions
    ensures s' == At(s, t, Allocated(id)).(sessions := s.sessions[id := s.now], created := s.created + {id})
    ensures Reaches(c, s0, run', s')
  {
    hide Reaches, Collects;
    run', s' := TakeStep(c, s0, run, s, AllocateRegister(t, id));
  }

  lemma TickStep(c: Config, s0: State, run: seq<Action>, s: State, delta: nat) returns (run': seq<Action>, s': State)
    requires Reaches(c, s0, run, s)
    ensures s' == s.(now := s.now + delta) && Reaches(c, s0, run', s')
  {
    hide Reaches, Collects;
    run', s' := TakeStep(c, s0, run, s, Tick(delta));
  }

  lemma ReadClock(c: Config, s0: State, run: seq<Action>, s: State, t: ThreadId) returns (run': seq<Action>, s': State)
    requires Reaches(c, s0, run, s) && t in s.threads && s.threads[t] == ReapClock
    ensures s' == At(s, t, ReapScan(s.now - c.idleTimeout)) && Reaches(c, s0, run', s')
  {
    hide Reaches, Collects;
    run', s' := TakeStep(c, s0, run, s, ReapRead(t));
  }

  lemma ScanStep(c: Config, s0: State, run: seq<Action>, s: State, t: ThreadId, found: seq<(Id, int)>)
    returns (run': seq<Action>, s': State)
    requires Reaches(c, s0, run, s) && t in s.threads && s.threads[t].ReapScan? && Collects(s, s.threads[t].cutoff, found)
    ensures s' == At(s, t, ReapLoop(s.threads[t].cutoff, found, |found|)) && Reaches(c, s0, run', s')
  {
    hide Reaches, Collects;
    run', s' := TakeStep(c, s0, run, s, ReapCollect(t, found));
  }

  lemma TouchNow(c: Config, s0: State, run: seq<Action>, s: State, t: ThreadId, id: Id) returns (run': seq<Action>, s': State)
    requires Reaches(c, s0, run, s) && t in s.threads && s.threads[t] == TouchLock(id) && id in s.sessions
    ensures s' == At(s, t, Finished).(sessions := s.sessions[id := s.now]) && Reaches(c, s0, run', s')
  {
    hide Reaches, Collects;
    run', s' := TakeStep(c, s0, run, s, TouchStep(t));
  }

  function NewManager(): State {
    State(0, map[], {}, {}, false, false, map[])
  }

  lemma NewManagerRuns(c: Config)
    ensures Initial(NewManager()) && Reaches(c, NewManager(), [], NewManager())
  {
  }

  /** One session allocated at time zero, then left alone past the timeout. */
  lemma IdleSession(c: Config) returns (s0: State, run: seq<Action>, s: State)
    requires c.maxSessions > 0
    ensures Initial(s0) && Reaches(c, s0, run, s)
    ensures s == State(c.idleTimeout + 1, map[0 := 0], {0}, {}, false, false, map[0 := Allocated(0)])
  {
    hide Reaches;
    NewManagerRuns(c);
    s0, run, s := NewManager(), [], NewManager();
    run, s := CallStep(c, s0, run, s, 0, AllocateCheck);
    run, s := PassCheck(c, s0, run, s, 0);
    run, s := RegisterStep(c, s0, run, s, 0, 0);
    run, s := TickStep(c, s0, run, s, c.idleTimeout + 1);
  }

  lemma OldestCollected(s: State)
    requires s.sessions == map[0 := 0]
    ensures Collects(s, 1, [(0, 0)])
  {
    assert [(0, 0)][0] == (0, 0);
  }

  /** A reaper has scanned it. */
  lemma ScannedSession(c: Config) returns (s0: State, run: seq<Action>, s: State)
    requires c.maxSessions > 0
    ensures Initial(s0) && Reaches(c, s0, run, s)
    ensures s == State(c.idleTimeout + 1, map[0 := 0], {0}, {}, false, false,
                       map[0 := Allocated(0), 1 := ReapLoop(1, [(0, 0)], 1)])
  {
    s0, run, s := IdleSession(c);
    hide Reaches, Collects;
    run, s := CallStep(c, s0, run, s, 1, ReapClock);
    run, s := ReadClock(c, s0, run, s, 1);
    OldestCollected(s);
    run, s := ScanStep(c, s0, run, s, 1, [(0, 0)]);
  }

  /**
   The reaper does not look again: here is a run in which a session is touched at the
   current instant, between a reaper's scan and its removal, and removed all the same.
   */
  lemma TouchedSessionCanBeReaped(c: Config) returns (s0: State, run: seq<Action>, s: State)
    requires c.maxSessions > 0
    ensures Initial(s0) && Reaches(c, s0, run, s)
    ensures 0 in s.sessions && s.sessions[0] == s.now
    ensures 1 in s.threads && Enabled(s, ReapNext(1))
    ensures 0 !in Apply(c, s, ReapNext(1)).sessions && Holds(Apply(c, s, ReapNext(1)).threads[1]) == {0}
  {
    s0, run, s := ScannedSession(c);
    hide Reaches, Collects, Enabled, Apply;
    run, s := CallStep(c, s0, run, s, 2, TouchLock(0));
    run, s := TouchNow(c, s0, run, s, 2, 0);
    NextRemoves(c, s, 1);
  }

  lemma NextRemoves(c: Config, s: State, t: ThreadId)
    requires t in s.threads && s.threads[t].ReapLoop? && s.threads[t].todo != [] && s.threads[t].todo[0].0 in s.sessions
    ensures Enabled(s, ReapNext(t))
    ensures var id := s.threads[t].todo[0].0; var s' := Apply(c, s, ReapNext(t));
      id !in s'.sessions && t in s'.threads && Holds(s'.threads[t]) == {id}
  {
  }

  /**
   Such an Allocate is not a mere possibility: here is a run that ends with the manager stopped
   and its map emptied, and one more step that registers a session, dead from the start.
   */
  lemma StoppedManagerCanRegister(c: Config) returns (s0: State, run: seq<Action>, s: State)
    requires c.maxSessions > 0
    ensures Initial(s0) && Reaches(c, s0, run, s)
    ensures s.stopped && s.sessions == map[] && !NoAllocateInside(s)
    ensures Enabled(s, AllocateRegister(0, 0))
    ensures var s' := Apply(c, s, AllocateRegister(0, 0)); 0 in s'.sessions && !Live(s', 0)
  {
    NewManagerRuns(c);
    hide Reaches, Collects;
    s0, run, s := NewManager(), [], NewManager();
    run, s := CallStep(c, s0, run, s, 0, AllocateCheck);
    run, s := PassCheck(c, s0, run, s, 0);
    run, s := CallStep(c, s0, run, s, 1, StopSwap);
    run, s := StopSteps(c, s0, run, s, 1);
    assert s.threads[0] == AllocatePassed;
  }

  /** A `Stop` run alone up to its taking of the map. */
  lemma StopSteps(c: Config, s0: State, run: seq<Action>, s: State, t: ThreadId) returns (run': seq<Action>, s': State)
    requires Reaches(c, s0, run, s) && t in s.threads && s.threads[t] == StopSwap && !s.stopped
    ensures Reaches(c, s0, run', s')
    ensures s' == At(s, t, StopCancel(s.sessions.Keys)).(sessions := map[], stopped := true, parentCancelled := true)
  {
    hide Reaches, Collects;
    run', s' := TakeStep(c, s0, run, s, StopCas(t));
    assert s' == At(s, t, StopParent).(stopped := true);
    run', s' := TakeStep(c, s0, run', s', StopCancelParent(t));
    assert s' == At(s, t, StopLock).(stopped := true, parentCancelled := true);
    run', s' := TakeStep(c, s0, run', s', StopTakeMap(t));
  }
}
