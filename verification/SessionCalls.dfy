/** Every call of the session manager stays in its own method, and is never held up before its end. */
module SessionCalls {
  import opened SessionProtocol
  import opened SessionReaping

  /** The places a call that began at `entry` can be. */
  predicate Belongs(entry: Pc, pc: Pc) {
    match entry
    case AllocateCheck => pc == AllocateCheck || pc == AllocatePassed || pc.Allocated? || pc == AllocateFailed
    case TouchLock(_) => pc == entry || pc == Finished
    case DeleteLock(id) => pc == entry || pc == DeleteCancel(id) || pc == Finished
    case ReapClock => pc == ReapClock || pc.ReapScan? || pc.ReapLoop? || pc.ReapCancel? || pc.Reaped?
    case StopSwap => pc == StopSwap || pc == StopParent || pc == StopLock || pc.StopCancel? || pc == Finished
    case _ => false
  }

  predicate IsEnd(pc: Pc) {
    pc.Allocated? || pc == AllocateFailed || pc.Reaped? || pc == Finished
  }

  ghost predicate CallsBelong(run: seq<Action>, s: State) {
    forall a :: a in run && a.Call? ==> a.t in s.threads && Belongs(a.entry, s.threads[a.t])
  }

  lemma CallsAndDeletesBelong(c: Config, s: State, a: Action, entry: Pc)
    requires Enabled(s, a) && !a.Tick? && Actor(a) in s.threads && Belongs(entry, s.threads[Actor(a)])
    requires a.Call? || a.AllocateLoad? || a.AllocateRegister? || a.TouchStep? || a.DeleteRemove?
    ensures Actor(a) in Apply(c, s, a).threads && Belongs(entry, Apply(c, s, a).threads[Actor(a)])
  {
  }

  lemma ReapsBelong(c: Config, s: State, a: Action, entry: Pc)
    requires Enabled(s, a) && !a.Tick? && Actor(a) in s.threads && Belongs(entry, s.threads[Actor(a)])
    requires a.CancelOwn? || a.ReapRead? || a.ReapCollect? || a.ReapNext?
    ensures Actor(a) in Apply(c, s, a).threads && Belongs(entry, Apply(c, s, a).threads[Actor(a)])
  {
    hide Collects;
  }

  lemma StopsBelong(c: Config, s: State, a: Action, entry: Pc)
    requires Enabled(s, a) && !a.Tick? && Actor(a) in s.threads && Belongs(entry, s.threads[Actor(a)])
    requires a.StopCas? || a.StopCancelParent? || a.StopTakeMap? || a.StopCancelOne? || a.StopEnd?
    ensures Actor(a) in Apply(c, s, a).threads && Belongs(entry, Apply(c, s, a).threads[Actor(a)])
  {
  }

  lemma StepBelongs(c: Config, s: State, a: Action, t: ThreadId, entry: Pc)
    requires Enabled(s, a) && t in s.threads && Belongs(entry, s.threads[t])
    ensures t in Apply(c, s, a).threads && Belongs(entry, Apply(c, s, a).threads[t])
  {
    hide Enabled, Apply, Belongs;
    if a.Tick? || Actor(a) != t {
      OthersStay(c, s, a, t);
    } else {
      match a
      case CancelOwn(_) | ReapRead(_) | ReapCollect(_, _) | ReapNext(_) => ReapsBelong(c, s, a, entry);
      case StopCas(_) | StopCancelParent(_) | StopTakeMap(_) | StopCancelOne(_, _) | StopEnd(_) => StopsBelong(c, s, a, entry);
      case _ => CallsAndDeletesBelong(c, s, a, entry);
    }
  }

  lemma CallBegins(c: Config, s: State, a: Action)
    requires Enabled(s, a) && a.Call?
    ensures a.t in Apply(c, s, a).threads && Belongs(a.entry, Apply(c, s, a).threads[a.t])
  {
  }

  /** In every state a run reaches, a call is somewhere in the method it called; a reaper that ended has returned its count. */
  lemma {:induction false} CallsStayInTheirMethod(c: Config, s0: State, run: seq<Action>, s: State)
    requires Initial(s0) && Reaches(c, s0, run, s)
    ensures CallsBelong(run, s)
  {
    hide Enabled, Apply, Belongs;
    if run != [] {
      var before, a := run[..|run| - 1], run[|run| - 1];
      var m :| Reaches(c, s0, before, m) && Enabled(m, a) && s == Apply(c, m, a);
      CallsStayInTheirMethod(c, s0, before, m);
      assert run == before + [a];
      forall b | b in run && b.Call? ensures b.t in s.threads && Belongs(b.entry, s.threads[b.t]) {
        if b in before { StepBelongs(c, m, a, b.t, b.entry); } else { CallBegins(c, m, a); }
      }
    }
  }

  // ----- no call is held up

  /** Lists the idle sessions, in some order. */
  lemma {:induction false} FindIdle(s: State, cutoff: int, among: set<Id>) returns (found: seq<(Id, int)>)
    requires among <= s.sessions.Keys
    ensures forall i, j :: 0 <= i < j < |found| ==> found[i].0 != found[j].0
    ensures forall p :: p in found <==> p.0 in among && s.sessions[p.0] == p.1 && p.1 < cutoff
    decreases |among|
  {
    if among == {} {
      found := [];
    } else {
      var id :| id in among;
      var rest := FindIdle(s, cutoff, among - {id});
      found := if s.sessions[id] < cutoff then rest + [(id, s.sessions[id])] else rest;
      forall i, j | 0 <= i < j < |found| ensures found[i].0 != found[j].0 {
        assert rest[i] in rest;
      }
      forall p ensures p in found <==> p.0 in among && s.sessions[p.0] == p.1 && p.1 < cutoff {
        assert p in found <==> p in rest || (s.sessions[id] < cutoff && p == (id, s.sessions[id]));
      }
    }
  }

  lemma ScanIsPossible(s: State, cutoff: int) returns (found: seq<(Id, int)>)
    ensures Collects(s, cutoff, found)
  {
    found := FindIdle(s, cutoff, s.sessions.Keys);
    forall i | 0 <= i < |found|
      ensures found[i].0 in s.sessions && s.sessions[found[i].0] == found[i].1 && found[i].1 < cutoff
    {
      assert found[i] in found;
    }
    forall id | id in s.sessions && s.sessions[id] < cutoff ensures (id, s.sessions[id]) in found {
      assert (id, s.sessions[id]).0 in s.sessions.Keys;
    }
  }

  /** A call that has not ended has a step of its own, whatever the others are doing. */
  lemma CallsCanStep(s: State, t: ThreadId) returns (a: Action)
    requires t in s.threads && !IsEnd(s.threads[t])
    ensures Enabled(s, a) && !a.Tick? && Actor(a) == t
  {
    hide Collects;
    match s.threads[t]
    case AllocateCheck => a := AllocateLoad(t);
    case AllocatePassed =>
      var id := FreshId(s.created);
      a := AllocateRegister(t, id);
    case TouchLock(_) => a := TouchStep(t);
    case DeleteLock(_) => a := DeleteRemove(t);
    case DeleteCancel(_) => a := CancelOwn(t);
    case ReapClock => a := ReapRead(t);
    case ReapScan(cutoff) =>
      var found := ScanIsPossible(s, cutoff);
      a := ReapCollect(t, found);
    case ReapLoop(_, _, _) => a := ReapNext(t);
    case ReapCancel(_, _, _, _) => a := CancelOwn(t);
    case StopSwap => a := StopCas(t);
    case StopParent => a := StopCancelParent(t);
    case StopLock => a := StopTakeMap(t);
    case StopCancel(taken) =>
      if taken == {} {
        a := StopEnd(t);
      } else {
        var id :| id in taken;
        a := StopCancelOne(t, id);
      }
  }
}
