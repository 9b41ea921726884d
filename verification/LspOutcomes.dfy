/** Why a call ended as it did, and what the reader still reads after `Close`. */
module LspOutcomes {
  import opened Wrappers
  import opened LspProtocol

  /** The step of the run that made `c` end with this outcome. */
  ghost predicate Caused(run: seq<Action>, s: State, c: CallId, out: Outcome) {
    match out
    case Reply(f) => Receive(c, true) in run && !f.isError
    case ServerError(f) => (Receive(c, true) in run || Receive(c, false) in run) && f.isError
    case DecodeError(f) => Receive(c, false) in run && !f.isError
    case WriteError => Write(c, false) in run
    case Closed => s.closed && (CheckClosed(c) in run || ((GiveUpToken(c, Closed) in run || GiveUpReply(c, Closed) in run) && s.closeCh))
    case _ => GiveUpToken(c, out) in run || GiveUpReply(c, out) in run
  }

  /** A step that ends a call, and whether the outcome is the one it gives. */
  predicate Decides(a: Action, out: Outcome) {
    match a
    case GiveUpToken(_, why) => out == why
    case GiveUpReply(_, why) => out == why
    case Write(_, ok) => !ok ==> out == WriteError
    case Receive(_, decodes) => if decodes then out.Reply? || out.ServerError? else out.DecodeError? || out.ServerError?
    case _ => true
  }

  predicate Ends(a: Action) {
    a.GiveUpToken? || a.GiveUpReply? || a.Receive? || (a.Write? && !a.ok)
  }

  ghost predicate Explained(run: seq<Action>, s: State) {
    && (s.closeCh ==> s.closed)
    && (forall c :: c in s.calls && OutcomeOf(s.calls[c]).Some? ==> Caused(run, s, c, OutcomeOf(s.calls[c]).value))
    && (forall a :: a in run && Ends(a) ==>
          a.c in s.calls && OutcomeOf(s.calls[a.c]).Some? && Decides(a, OutcomeOf(s.calls[a.c]).value))
  }

  /** An outcome, once there, stays; a new one comes from a step of its own call. */
  lemma StepOutcome(s: State, a: Action, c: CallId)
    requires Enabled(s, a) && c in Apply(s, a).calls && (s.closeCh ==> s.closed)
    ensures c in s.calls && OutcomeOf(s.calls[c]).Some? ==> OutcomeOf(Apply(s, a).calls[c]) == OutcomeOf(s.calls[c])
    ensures (c !in s.calls || OutcomeOf(s.calls[c]).None?) && OutcomeOf(Apply(s, a).calls[c]).Some? ==>
      Caused([a], Apply(s, a), c, OutcomeOf(Apply(s, a).calls[c]).value)
  {
    hide PendingAfter, InboxAfter, ReaderAfter, WriterAfter;
  }

  lemma StepEnds(s: State, a: Action)
    requires Enabled(s, a) && Ends(a)
    ensures a.c in Apply(s, a).calls && OutcomeOf(Apply(s, a).calls[a.c]).Some? && Decides(a, OutcomeOf(Apply(s, a).calls[a.c]).value)
  {
    hide PendingAfter, InboxAfter, ReaderAfter, WriterAfter;
  }

  lemma CausedLonger(run: seq<Action>, s: State, a: Action, s': State, c: CallId, out: Outcome)
    requires (s.closed ==> s'.closed) && (s.closeCh ==> s'.closeCh)
    ensures Caused(run, s, c, out) ==> Caused(run + [a], s', c, out)
    ensures Caused([a], s', c, out) ==> Caused(run + [a], s', c, out)
  {
  }

  lemma StepKeepsCalls(s: State, a: Action)
    requires Enabled(s, a)
    ensures s.calls.Keys <= Apply(s, a).calls.Keys
    ensures (s.closed ==> Apply(s, a).closed) && (s.closeCh ==> Apply(s, a).closeCh)
    ensures (s.closeCh ==> s.closed) ==> (Apply(s, a).closeCh ==> Apply(s, a).closed)
  {
    hide Next, PendingAfter, InboxAfter, ReaderAfter, WriterAfter;
  }

  lemma StepKeepsExplained(run: seq<Action>, s: State, a: Action)
    requires Explained(run, s) && Enabled(s, a)
    ensures Explained(run + [a], Apply(s, a))
  {
    hide Enabled, Apply, Caused, Decides, Ends, OutcomeOf;
    var s', all := Apply(s, a), run + [a];
    StepKeepsCalls(s, a);
    forall c | c in s'.calls && OutcomeOf(s'.calls[c]).Some? ensures Caused(all, s', c, OutcomeOf(s'.calls[c]).value) {
      StepOutcome(s, a, c);
      CausedLonger(run, s, a, s', c, OutcomeOf(s'.calls[c]).value);
    }
    forall b | b in all && Ends(b)
      ensures HasCall(b) && b.c in s'.calls && OutcomeOf(s'.calls[b.c]).Some? && Decides(b, OutcomeOf(s'.calls[b.c]).value)
    {
      EndsHasCall(b);
      if b == a { StepEnds(s, a); } else { assert b in run; StepOutcome(s, a, b.c); }
    }
  }

  predicate HasCall(a: Action) {
    a.GiveUpToken? || a.GiveUpReply? || a.Receive? || a.Write?
  }

  lemma EndsHasCall(a: Action)
    requires Ends(a)
    ensures HasCall(a)
  {
  }

  lemma {:induction false} RunsAreExplained(s0: State, run: seq<Action>, s: State)
    requires Initial(s0) && Reaches(s0, run, s)
    ensures Explained(run, s)
  {
    hide Enabled, Apply, Caused, Decides;
    if run != [] {
      hide Explained;
      var before, a := run[..|run| - 1], run[|run| - 1];
      var m :| Reaches(s0, before, m) && Enabled(m, a) && s == Apply(m, a);
      RunsAreExplained(s0, before, m);
      StepKeepsExplained(before, m, a);
      assert run == before + [a];
    }
  }

  /**
   The outcome of a call is that of the one step that ended it. It is a reply, the server's error
   or a failure to decode exactly if the call took a frame out of its channel (which of them, the
   frame and the decoder say), a write error exactly if its write failed, and a timeout or a
   cancellation exactly if it gave up for that; `ErrClosed` needs `closed` to be set.
   */
  lemma OutcomesHaveCauses(s0: State, run: seq<Action>, s: State, c: CallId)
    requires Initial(s0) && Reaches(s0, run, s)
    requires c in s.calls && s.calls[c].Returned?
    ensures var out := s.calls[c].out;
      && (out.Reply? || out.ServerError? || out.DecodeError? <==> Receive(c, true) in run || Receive(c, false) in run)
      && (out.Reply? ==> Receive(c, true) in run && !out.frame.isError)
      && (out.DecodeError? ==> Receive(c, false) in run && !out.frame.isError)
      && (out.ServerError? ==> out.frame.isError)
      && (out.WriteError? <==> Write(c, false) in run)
      && (out.Timeout? <==> GiveUpToken(c, Timeout) in run || GiveUpReply(c, Timeout) in run)
      && (out.Cancelled? <==> GiveUpToken(c, Cancelled) in run || GiveUpReply(c, Cancelled) in run)
      && (out.Closed? ==> s.closed)
  {
    RunsAreExplained(s0, run, s);
    assert Caused(run, s, c, s.calls[c].out);
    forall a | a in run && Ends(a) && a.c == c ensures Decides(a, s.calls[c].out) {}
    EndsAll(run, c, s.calls[c].out);
  }

  lemma EndsAll(run: seq<Action>, c: CallId, out: Outcome)
    requires forall a :: a in run && Ends(a) && a.c == c ==> Decides(a, out)
    ensures forall d: bool :: Receive(c, d) in run ==> out.Reply? || out.ServerError? || out.DecodeError?
    ensures Write(c, false) in run ==> out == WriteError
    ensures forall why :: GiveUpToken(c, why) in run || GiveUpReply(c, why) in run ==> out == why
  {
    assert forall d: bool :: Receive(c, d) in run ==> Decides(Receive(c, d), out);
    assert Write(c, false) in run ==> Decides(Write(c, false), out);
    forall why ensures GiveUpToken(c, why) in run || GiveUpReply(c, why) in run ==> out == why {
      assert GiveUpToken(c, why) in run ==> Decides(GiveUpToken(c, why), out);
      assert GiveUpReply(c, why) in run ==> Decides(GiveUpReply(c, why), out);
    }
  }

  // ----- the reader after `Close`

  function FramesRead(more: seq<Action>): nat {
    if more == [] then 0 else FramesRead(more[..|more| - 1]) + if more[|more| - 1].ReadFrame? then 1 else 0
  }

  /** How many frames the reader may still read once `closeCh` is closed. */
  function ReadsLeft(s: State): nat {
    if s.reader == Reading then 1 else 0
  }

  lemma StepReads(s: State, a: Action)
    requires Enabled(s, a) && s.closeCh
    ensures Apply(s, a).closeCh
    ensures ReadsLeft(Apply(s, a)) + (if a.ReadFrame? then 1 else 0) <= ReadsLeft(s)
  {
    hide Next, PendingAfter, InboxAfter, WriterAfter;
  }

  /** After `Close` the reader finishes the frame it is reading, if any, and reads no other. */
  lemma {:induction false} ReaderStopsAfterClose(s: State, more: seq<Action>, s': State)
    requires s.closeCh && Reaches(s, more, s')
    ensures s'.closeCh && FramesRead(more) + ReadsLeft(s') <= ReadsLeft(s) <= 1
  {
    hide Enabled, Apply;
    if more != [] {
      var before, a := more[..|more| - 1], more[|more| - 1];
      var m :| Reaches(s, before, m) && Enabled(m, a) && s' == Apply(m, a);
      ReaderStopsAfterClose(s, before, m);
      StepReads(m, a);
    }
  }
}
