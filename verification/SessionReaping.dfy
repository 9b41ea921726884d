/** The number `Reap` returns, against the sessions it did remove. */
module SessionReaping {
  import opened SessionProtocol

  function Count(run: seq<Action>, a: Action): nat {
    if run == [] then 0 else Count(run[..|run| - 1], a) + if run[|run| - 1] == a then 1 else 0
  }

  /** The state a run ends in. */
  ghost function After(c: Config, s0: State, run: seq<Action>): State {
    if run == [] then s0
    else
      var m := After(c, s0, run[..|run| - 1]);
      if Enabled(m, run[|run| - 1]) then Apply(c, m, run[|run| - 1]) else m
  }

  lemma {:induction false} ReachesIsAfter(c: Config, s0: State, run: seq<Action>, s: State)
    requires Reaches(c, s0, run, s)
    ensures s == After(c, s0, run)
  {
    hide Enabled, Apply;
    if run != [] {
      var m :| Reaches(c, s0, run[..|run| - 1], m) && Enabled(m, run[|run| - 1]) && s == Apply(c, m, run[|run| - 1]);
      ReachesIsAfter(c, s0, run[..|run| - 1], m);
    }
  }

  /** Reaper `t` is about to delete a session it found, and the session is registered no more. */
  predicate FindsItGone(s: State, t: ThreadId) {
    t in s.threads && s.threads[t].ReapLoop? && s.threads[t].todo != [] && s.threads[t].todo[0].0 !in s.sessions
  }

  /** How many of the sessions reaper `t` found were removed by others before their turn came. */
  ghost function Gone(c: Config, s0: State, run: seq<Action>, t: ThreadId): nat {
    if run == [] then 0
    else
      var before := run[..|run| - 1];
      Gone(c, s0, before, t) + if run[|run| - 1] == ReapNext(t) && FindsItGone(After(c, s0, before), t) then 1 else 0
  }

  /** Of the sessions found, every one has been removed by this reaper, or was gone, or is still to come. */
  predicate Tallied(pc: Pc, removed: nat, gone: nat) {
    match pc
    case ReapClock => removed == 0 && gone == 0
    case ReapScan(_) => removed == 0 && gone == 0
    case ReapLoop(_, todo, n) => removed + gone + |todo| == n
    case ReapCancel(_, _, todo, n) => removed + gone + |todo| + 1 == n
    case Reaped(n) => removed + gone == n
    case _ => true
  }

  predicate TalliedAt(s: State, t: ThreadId, removed: nat, gone: nat) {
    if t in s.threads then Tallied(s.threads[t], removed, gone) else removed == 0 && gone == 0
  }

  predicate PlaceStays(s: State, s': State, t: ThreadId) {
    (t in s'.threads <==> t in s.threads) && (t in s.threads ==> s'.threads[t] == s.threads[t])
  }

  lemma CallsStay(c: Config, s: State, a: Action, t: ThreadId)
    requires Enabled(s, a) && (a.Tick? || Actor(a) != t)
    requires a.Tick? || a.Call? || a.AllocateLoad? || a.AllocateRegister? || a.TouchStep? || a.DeleteRemove? || a.CancelOwn?
    ensures PlaceStays(s, Apply(c, s, a), t)
  {
  }

  lemma ReapersStay(c: Config, s: State, a: Action, t: ThreadId)
    requires Enabled(s, a) && Actor(a) != t
    requires a.ReapRead? || a.ReapCollect? || a.ReapNext?
    ensures PlaceStays(s, Apply(c, s, a), t)
  {
    hide Collects;
  }

  lemma StopsStay(c: Config, s: State, a: Action, t: ThreadId)
    requires Enabled(s, a) && Actor(a) != t
    requires a.StopCas? || a.StopCancelParent? || a.StopTakeMap? || a.StopCancelOne? || a.StopEnd?
    ensures PlaceStays(s, Apply(c, s, a), t)
  {
  }

  /** A thread's place changes by its own steps only. */
  lemma OthersStay(c: Config, s: State, a: Action, t: ThreadId)
    requires Enabled(s, a) && (a.Tick? || Actor(a) != t)
    ensures PlaceStays(s, Apply(c, s, a), t)
  {
    hide Enabled, Apply, PlaceStays;
    match a
    case ReapRead(_) | ReapCollect(_, _) | ReapNext(_) => ReapersStay(c, s, a, t);
    case StopCas(_) | StopCancelParent(_) | StopTakeMap(_) | StopCancelOne(_, _) | StopEnd(_) => StopsStay(c, s, a, t);
    case _ => CallsStay(c, s, a, t);
  }

  lemma CancelTally(c: Config, s: State, t: ThreadId, removed: nat, gone: nat)
    requires Enabled(s, CancelOwn(t)) && TalliedAt(s, t, removed, gone)
    ensures TalliedAt(Apply(c, s, CancelOwn(t)), t, removed + 1, gone)
  {
  }

  lemma NextTally(c: Config, s: State, t: ThreadId, removed: nat, gone: nat)
    requires Enabled(s, ReapNext(t)) && TalliedAt(s, t, removed, gone)
    ensures TalliedAt(Apply(c, s, ReapNext(t)), t, removed, gone + if FindsItGone(s, t) then 1 else 0)
  {
  }

  lemma ScanTally(c: Config, s: State, a: Action, removed: nat, gone: nat)
    requires Enabled(s, a) && (a.Call? || a.ReapRead? || a.ReapCollect?) && TalliedAt(s, Actor(a), removed, gone)
    ensures TalliedAt(Apply(c, s, a), Actor(a), removed, gone)
  {
    hide Collects;
  }

  /** The steps of the other methods leave their thread where no tally is kept. */
  lemma OtherTally(c: Config, s: State, a: Action, removed: nat, gone: nat)
    requires Enabled(s, a)
    requires !a.Tick? && !a.Call? && !a.CancelOwn? && !a.ReapRead? && !a.ReapCollect? && !a.ReapNext?
    ensures TalliedAt(Apply(c, s, a), Actor(a), removed, gone)
  {
  }

  lemma StepKeepsTally(c: Config, s: State, a: Action, t: ThreadId, removed: nat, gone: nat)
    requires Enabled(s, a) && TalliedAt(s, t, removed, gone)
    ensures TalliedAt(Apply(c, s, a), t, removed + if a == CancelOwn(t) then 1 else 0,
                      gone + if a == ReapNext(t) && FindsItGone(s, t) then 1 else 0)
  {
    hide Enabled, Apply, FindsItGone, Tallied;
    if a.Tick? || Actor(a) != t {
      OthersStay(c, s, a, t);
    } else {
      match a
      case CancelOwn(_) => CancelTally(c, s, t, removed, gone);
      case ReapNext(_) => NextTally(c, s, t, removed, gone);
      case Call(_, _) | ReapRead(_) | ReapCollect(_, _) => ScanTally(c, s, a, removed, gone);
      case _ => OtherTally(c, s, a, removed, gone);
    }
  }

  lemma {:induction false} RunsKeepTally(c: Config, s0: State, run: seq<Action>, s: State, t: ThreadId)
    requires Initial(s0) && Reaches(c, s0, run, s)
    ensures TalliedAt(s, t, Count(run, CancelOwn(t)), Gone(c, s0, run, t))
  {
    hide Enabled, Apply, FindsItGone;
    if run != [] {
      hide TalliedAt;
      var before, a := run[..|run| - 1], run[|run| - 1];
      var m :| Reaches(c, s0, before, m) && Enabled(m, a) && s == Apply(c, m, a);
      RunsKeepTally(c, s0, before, m, t);
      ReachesIsAfter(c, s0, before, m);
      StepKeepsTally(c, m, a, t, Count(before, CancelOwn(t)), Gone(c, s0, before, t));
    }
  }

  /**
   A finished `Reap` returns the number of sessions it found, never less than it removed; it
   is the number removed exactly when none of them was gone when its turn came.
   */
  lemma ReapedIsRemovedIff(c: Config, s0: State, run: seq<Action>, s: State, t: ThreadId)
    requires Initial(s0) && Reaches(c, s0, run, s)
    requires t in s.threads && s.threads[t].Reaped?
    ensures Count(run, CancelOwn(t)) <= s.threads[t].n
    ensures s.threads[t].n == Count(run, CancelOwn(t)) <==> Gone(c, s0, run, t) == 0
  {
    hide Reaches, Initial, Gone, Count;
    RunsKeepTally(c, s0, run, s, t);
    FinishedTally(s, t, Count(run, CancelOwn(t)), Gone(c, s0, run, t));
  }

  lemma FinishedTally(s: State, t: ThreadId, removed: nat, gone: nat)
    requires t in s.threads && s.threads[t].Reaped? && TalliedAt(s, t, removed, gone)
    ensures s.threads[t].n == removed + gone
  {
  }

  lemma CountSnoc(run: seq<Action>, a: Action, b: Action)
    ensures Count(run + [a], b) == Count(run, b) + if a == b then 1 else 0
  {
    assert (run + [a])[..|run|] == run;
  }

  lemma NothingRemovedYet(s: State, removed: nat, gone: nat)
    requires 1 in s.threads && s.threads[1] == ReapLoop(1, [(0, 0)], 1) && TalliedAt(s, 1, removed, gone)
    ensures removed == 0
  {
  }

  lemma DeleteStep(c: Config, s0: State, run: seq<Action>, s: State, t: ThreadId) returns (run': seq<Action>, s': State)
    requires Reaches(c, s0, run, s) && t in s.threads && s.threads[t].DeleteLock? && s.threads[t].id in s.sessions
    ensures run' == run + [DeleteRemove(t)] && Reaches(c, s0, run', s')
    ensures s' == At(s, t, DeleteCancel(s.threads[t].id)).(sessions := s.sessions - {s.threads[t].id})
  {
    hide Reaches, Collects;
    run', s' := TakeStep(c, s0, run, s, DeleteRemove(t));
  }

  /** A run in which a client deletes the only session found, and the reaper returns one though it removed none. */
  lemma ReapCanOvercount(c: Config) returns (s0: State, run: seq<Action>, s: State)
    requires c.maxSessions > 0
    ensures Initial(s0) && Reaches(c, s0, run, s)
    ensures 1 in s.threads && s.threads[1] == Reaped(1)
    ensures Count(run, CancelOwn(1)) == 0
  {
    s0, run, s := ScannedSession(c);
    hide Reaches, Collects, Count, Enabled, Apply, Gone;
    RunsKeepTally(c, s0, run, s, 1);
    NothingRemovedYet(s, Count(run, CancelOwn(1)), Gone(c, s0, run, 1));
    CountSnoc(run, Call(2, DeleteLock(0)), CancelOwn(1));
    run, s := CallStep(c, s0, run, s, 2, DeleteLock(0));
    CountSnoc(run, DeleteRemove(2), CancelOwn(1));
    run, s := DeleteStep(c, s0, run, s, 2);
    assert s.sessions == map[] && s.threads[1] == ReapLoop(1, [(0, 0)], 1);
    run, s := TwoTurns(c, s0, run, s, 1);
  }

  /** A reaper's last session is gone: two turns later it has returned, and removed nothing. */
  lemma TwoTurns(c: Config, s0: State, run: seq<Action>, s: State, t: ThreadId) returns (run': seq<Action>, s': State)
    requires Reaches(c, s0, run, s) && t in s.threads && s.threads[t].ReapLoop? && |s.threads[t].todo| == 1 && FindsItGone(s, t)
    ensures Reaches(c, s0, run', s') && t in s'.threads && s'.threads[t] == Reaped(s.threads[t].n)
    ensures Count(run', CancelOwn(t)) == Count(run, CancelOwn(t))
  {
    hide Reaches, Collects, Count;
    CountSnoc(run, ReapNext(t), CancelOwn(t));
    run', s' := TakeStep(c, s0, run, s, ReapNext(t));
    assert s'.threads[t].ReapLoop? && s'.threads[t].todo == [];
    CountSnoc(run', ReapNext(t), CancelOwn(t));
    run', s' := TakeStep(c, s0, run', s', ReapNext(t));
  }
}
