/** Any number of calls of `Stop` cancel the parent context once and take the map once. */
module SessionStops {
  import opened SessionProtocol
  import opened SessionReaping

  /** The threads that won the swap and have not cancelled the parent yet. */
  function Winners(s: State): set<ThreadId> {
    set t | t in s.threads && s.threads[t].StopParent?
  }

  /** The threads that have, and are about to take the map. */
  function Takers(s: State): set<ThreadId> {
    set t | t in s.threads && s.threads[t].StopLock?
  }

  function Cancels(run: seq<Action>): nat {
    if run == [] then 0 else Cancels(run[..|run| - 1]) + if run[|run| - 1].StopCancelParent? then 1 else 0
  }

  function Takes(run: seq<Action>): nat {
    if run == [] then 0 else Takes(run[..|run| - 1]) + if run[|run| - 1].StopTakeMap? then 1 else 0
  }

  /** Where a step takes its own thread, as far as stopping goes. */
  predicate StopMoves(s: State, a: Action, s': State, t: ThreadId) {
    && t in s'.threads
    && (s'.threads[t].StopParent? <==> a.StopCas? && !s.stopped)
    && (s'.threads[t].StopLock? <==> a.StopCancelParent?)
    && (a.StopCancelParent? ==> t in Winners(s))
    && (a.StopTakeMap? ==> t in Takers(s))
    && (t in Winners(s) ==> a.StopCancelParent?)
    && (t in Takers(s) ==> a.StopTakeMap?)
  }

  lemma StopStep(c: Config, s: State, a: Action)
    requires Enabled(s, a) && (a.StopCas? || a.StopCancelParent? || a.StopTakeMap? || a.StopCancelOne? || a.StopEnd?)
    ensures StopMoves(s, a, Apply(c, s, a), Actor(a))
  {
  }

  lemma ReapStep(c: Config, s: State, a: Action)
    requires Enabled(s, a) && (a.ReapRead? || a.ReapCollect? || a.ReapNext? || a.CancelOwn? || a.DeleteRemove?)
    ensures StopMoves(s, a, Apply(c, s, a), Actor(a))
  {
    hide Collects;
  }

  lemma CallStepMoves(c: Config, s: State, a: Action)
    requires Enabled(s, a) && (a.Call? || a.AllocateLoad? || a.AllocateRegister? || a.TouchStep?)
    ensures StopMoves(s, a, Apply(c, s, a), Actor(a))
  {
  }

  lemma StepWinner(c: Config, s: State, a: Action)
    requires Enabled(s, a) && !a.Tick?
    ensures StopMoves(s, a, Apply(c, s, a), Actor(a))
  {
    hide Enabled, Apply, StopMoves;
    match a
    case Call(_, _) | AllocateLoad(_) | AllocateRegister(_, _) | TouchStep(_) => CallStepMoves(c, s, a);
    case DeleteRemove(_) | CancelOwn(_) | ReapRead(_) | ReapCollect(_, _) | ReapNext(_) => ReapStep(c, s, a);
    case _ => StopStep(c, s, a);
  }

  lemma StepStopped(c: Config, s: State, a: Action)
    requires Enabled(s, a)
    ensures Apply(c, s, a).stopped <==> s.stopped || a.StopCas?
  {
    hide Collects;
  }

  /** What one step does to the two sets. */
  lemma StepSets(c: Config, s: State, a: Action)
    requires Enabled(s, a)
    ensures var s' := Apply(c, s, a);
      && Winners(s') == (if a.StopCas? && !s.stopped then Winners(s) + {a.t} else if a.StopCancelParent? then Winners(s) - {a.t} else Winners(s))
      && Takers(s') == (if a.StopCancelParent? then Takers(s) + {a.t} else if a.StopTakeMap? then Takers(s) - {a.t} else Takers(s))
      && (a.StopCancelParent? ==> a.t in Winners(s)) && (a.StopTakeMap? ==> a.t in Takers(s))
      && (a.StopCas? && !s.stopped ==> a.t !in Winners(s)) && (a.StopCancelParent? ==> a.t !in Takers(s))
  {
    hide Apply, Enabled;
    var s' := Apply(c, s, a);
    if !a.Tick? { StepWinner(c, s, a); }
    forall t ensures t in Winners(s') <==> (if !a.Tick? && t == Actor(a) then a.StopCas? && !s.stopped else t in Winners(s))
      ensures t in Takers(s') <==> (if !a.Tick? && t == Actor(a) then a.StopCancelParent? else t in Takers(s))
    {
      if a.Tick? || t != Actor(a) { OthersStay(c, s, a, t); }
    }
  }

  /** The count: whoever won is still to cancel the parent or has, and whoever has is still to take the map or has. */
  predicate Counted(s: State, cancels: nat, takes: nat) {
    && |Winners(s)| + cancels == (if s.stopped then 1 else 0)
    && |Takers(s)| + takes == cancels
  }

  lemma StepKeepsCount(c: Config, s: State, a: Action, cancels: nat, takes: nat)
    requires Enabled(s, a) && Counted(s, cancels, takes)
    ensures Counted(Apply(c, s, a), cancels + if a.StopCancelParent? then 1 else 0, takes + if a.StopTakeMap? then 1 else 0)
  {
    hide Apply, Enabled, Winners, Takers;
    StepSets(c, s, a);
    StepStopped(c, s, a);
  }

  /**
   However many calls of `Stop` overlap, one of them wins: the parent context is cancelled at most
   once and the map taken at most once, in that order, and both exactly once when no winner is left.
   */
  lemma {:induction false} OneStopWins(c: Config, s0: State, run: seq<Action>, s: State)
    requires Initial(s0) && Reaches(c, s0, run, s)
    ensures |Winners(s)| + Cancels(run) == if s.stopped then 1 else 0
    ensures |Takers(s)| + Takes(run) == Cancels(run)
    ensures Counted(s, Cancels(run), Takes(run))
  {
    hide Enabled, Apply, Counted;
    if run == [] {
      NobodyYet(s);
    } else {
      var before, a := run[..|run| - 1], run[|run| - 1];
      var m :| Reaches(c, s0, before, m) && Enabled(m, a) && s == Apply(c, m, a);
      OneStopWins(c, s0, before, m);
      StepKeepsCount(c, m, a, Cancels(before), Takes(before));
    }
    CountMeans(s, Cancels(run), Takes(run));
  }

  lemma NobodyYet(s: State)
    requires Initial(s)
    ensures Counted(s, 0, 0)
  {
    assert Winners(s) == {} && Takers(s) == {};
  }

  lemma CountMeans(s: State, cancels: nat, takes: nat)
    requires Counted(s, cancels, takes)
    ensures |Winners(s)| + cancels == if s.stopped then 1 else 0
    ensures |Takers(s)| + takes == cancels
  {
  }
}
