/** Where a reply came from: when the frame was read, when it was looked up, and when the request was written. */
module LspProvenance {
  import opened Wrappers
  import opened LspProtocol

  /** The state a run ends in. */
  ghost function After(s0: State, run: seq<Action>): State {
    if run == [] then s0
    else
      var m := After(s0, run[..|run| - 1]);
      if Enabled(m, run[|run| - 1]) then Apply(m, run[|run| - 1]) else m
  }

  lemma {:induction false} ReachesIsAfter(s0: State, run: seq<Action>, s: State)
    requires Reaches(s0, run, s)
    ensures s == After(s0, run)
  {
    hide Enabled, Apply;
    if run != [] {
      var m :| Reaches(s0, run[..|run| - 1], m) && Enabled(m, run[|run| - 1]) && s == Apply(m, run[|run| - 1]);
      ReachesIsAfter(s0, run[..|run| - 1], m);
    }
  }

  /** The reader read `f` at step `r`, and held it from then up to step `j`. */
  ghost predicate HeldFrom(s0: State, run: seq<Action>, f: Frame, r: nat, j: nat) {
    && r < j <= |run| && run[r] == ReadFrame(f)
    && forall k :: r < k <= j ==> After(s0, run[..k]).reader == Lookup(f)
  }

  /** Call `c` registered at step `i`, and at step `j` the reader looked up the frame it had read at step `r`. */
  ghost predicate FoundAt(s0: State, run: seq<Action>, c: CallId, f: Frame, r: nat, i: nat, j: nat) {
    && i < j < |run| && run[i] == Register(c) && run[j] == ReaderLookup
    && HeldFrom(s0, run, f, r, j)
  }

  /** The frame is on its way from the lookup to `c`, or in its channel. */
  predicate Sits(s: State, c: CallId, f: Frame) {
    s.reader == Deliver(f, c) || (c in s.inbox && s.inbox[c] == [f])
  }

  /** After step `j` and up to step `m` the frame was with the reader for `c`, or in `c`'s channel. */
  ghost predicate Kept(s0: State, run: seq<Action>, c: CallId, f: Frame, j: nat, m: nat) {
    m <= |run| && forall k :: j < k <= m ==> Sits(After(s0, run[..k]), c, f)
  }

  ghost predicate Found(s0: State, run: seq<Action>, c: CallId, f: Frame) {
    exists r, i, j :: FoundAt(s0, run, c, f, r, i, j) && Kept(s0, run, c, f, j, |run|)
  }

  /** `c` registered at step `i` and ended its write well at step `w`. */
  predicate WroteAt(run: seq<Action>, c: CallId, i: nat, w: nat) {
    i < w < |run| && run[i] == Register(c) && run[w] == Write(c, true)
  }

  /** `c` took the frame out of its channel at step `m`, having written its request at step `w`. */
  ghost predicate GotAt(s0: State, run: seq<Action>, c: CallId, f: Frame, r: nat, i: nat, j: nat, w: nat, m: nat) {
    && FoundAt(s0, run, c, f, r, i, j) && WroteAt(run, c, i, w)
    && j < m < |run| && w < m && run[m].Receive? && run[m].c == c
    && Kept(s0, run, c, f, j, m)
  }

  ghost predicate Got(s0: State, run: seq<Action>, c: CallId, f: Frame) {
    exists r, i, j, w, m :: GotAt(s0, run, c, f, r, i, j, w, m)
  }

  ghost predicate Registering(run: seq<Action>, c: CallId) {
    exists i :: 0 <= i < |run| && run[i] == Register(c)
  }

  ghost predicate Wrote(run: seq<Action>, c: CallId) {
    exists i, w :: WroteAt(run, c, i, w)
  }

  function FrameOf(out: Outcome): Option<Frame> {
    match out
    case Reply(f) => Some(f)
    case ServerError(f) => Some(f)
    case DecodeError(f) => Some(f)
    case _ => None
  }

  // ----- a call registers once, and waits for its reply only when it has written

  /** A call whose registration is in the run is past it. */
  predicate PastRegistering(s: State, c: CallId) {
    c in s.calls && IdOf(s.calls[c]).Some? && !s.calls[c].Identified?
  }

  ghost predicate Lifecycle(run: seq<Action>, s: State) {
    && (forall i :: 0 <= i < |run| && run[i].Register? ==> PastRegistering(s, run[i].c))
    && (forall i, k :: 0 <= i < k < |run| && run[i].Register? ==> run[k] != run[i])
    && (forall c :: c in s.calls && IsPending(s.calls[c]) ==> Registering(run, c))
    && (forall c :: c in s.calls && s.calls[c].AwaitReply? ==> Wrote(run, c))
  }

  lemma StepPastRegistering(s: State, a: Action, c: CallId)
    requires Enabled(s, a)
    ensures PastRegistering(s, c) ==> PastRegistering(Apply(s, a), c) && a != Register(c)
    ensures a == Register(c) ==> PastRegistering(Apply(s, a), c)
  {
    hide PendingAfter, InboxAfter, ReaderAfter, WriterAfter;
  }

  lemma StepAwaits(s: State, a: Action, c: CallId)
    requires Enabled(s, a) && c in Apply(s, a).calls && Apply(s, a).calls[c].AwaitReply?
    ensures c in s.calls && IsPending(s.calls[c])
    ensures s.calls[c].AwaitReply? || a == Write(c, true)
  {
    hide PendingAfter, InboxAfter, ReaderAfter, WriterAfter;
  }

  lemma WroteLonger(run: seq<Action>, a: Action, c: CallId)
    ensures Wrote(run, c) ==> Wrote(run + [a], c)
    ensures Registering(run, c) && a == Write(c, true) ==> Wrote(run + [a], c)
  {
    var all := run + [a];
    if Wrote(run, c) {
      var i: nat, w: nat :| WroteAt(run, c, i, w);
      assert WroteAt(all, c, i, w);
    }
    if Registering(run, c) && a == Write(c, true) {
      var i :| 0 <= i < |run| && run[i] == Register(c);
      assert WroteAt(all, c, i, |run|);
    }
  }

  lemma StepKeepsLifecycle(run: seq<Action>, s: State, a: Action)
    requires Lifecycle(run, s) && Enabled(s, a)
    ensures Lifecycle(run + [a], Apply(s, a))
  {
    hide Apply, Enabled, PastRegistering, Registering, Wrote, IsPending;
    var s', all := Apply(s, a), run + [a];
    forall i | 0 <= i < |all| && all[i].Register? ensures PastRegistering(s', all[i].c) {
      StepPastRegistering(s, a, all[i].c);
    }
    forall i, k | 0 <= i < k < |all| && all[i].Register? ensures all[k] != all[i] {
      StepPastRegistering(s, a, all[i].c);
      assert all[i] == run[i] == Register(all[i].c);
    }
    forall c | c in s'.calls && IsPending(s'.calls[c]) ensures Registering(all, c) {
      StepRegisters(s, a, c);
      RegisteringLonger(run, a, c);
    }
    forall c | c in s'.calls && s'.calls[c].AwaitReply? ensures Wrote(all, c) {
      StepAwaits(s, a, c);
      WroteLonger(run, a, c);
    }
  }

  // ----- where each frame in the client came from

  ghost predicate ReaderTraced(s0: State, run: seq<Action>, s: State) {
    && (s.reader.Lookup? ==> exists r :: HeldFrom(s0, run, s.reader.frame, r, |run|))
    && (s.reader.Deliver? ==> Found(s0, run, s.reader.to, s.reader.frame))
  }

  ghost predicate ChannelsTraced(s0: State, run: seq<Action>, s: State) {
    forall c, k :: c in s.inbox && 0 <= k < |s.inbox[c]| ==> Found(s0, run, c, s.inbox[c][k])
  }

  ghost predicate OutcomeTraced(s0: State, run: seq<Action>, c: CallId, pc: Pc) {
    OutcomeOf(pc).Some? && FrameOf(OutcomeOf(pc).value).Some? ==> Got(s0, run, c, FrameOf(OutcomeOf(pc).value).value)
  }

  ghost predicate Traced(s0: State, run: seq<Action>, s: State) {
    && Lifecycle(run, s)
    && (forall id :: id in s.pending ==> Registering(run, s.pending[id]))
    && ReaderTraced(s0, run, s)
    && ChannelsTraced(s0, run, s)
    && (forall c :: c in s.calls ==> OutcomeTraced(s0, run, c, s.calls[c]))
  }

  lemma HeldLonger(s0: State, run: seq<Action>, a: Action, f: Frame, r: nat, j: nat)
    requires HeldFrom(s0, run, f, r, j)
    ensures HeldFrom(s0, run + [a], f, r, j)
  {
    assert forall k :: 0 <= k <= |run| ==> (run + [a])[..k] == run[..k];
  }

  lemma FoundAtLonger(s0: State, run: seq<Action>, a: Action, c: CallId, f: Frame, r: nat, i: nat, j: nat)
    requires FoundAt(s0, run, c, f, r, i, j)
    ensures FoundAt(s0, run + [a], c, f, r, i, j)
  {
    hide HeldFrom;
    HeldLonger(s0, run, a, f, r, j);
  }

  lemma KeptLonger(s0: State, run: seq<Action>, a: Action, c: CallId, f: Frame, j: nat, m: nat)
    requires Kept(s0, run, c, f, j, m)
    ensures Kept(s0, run + [a], c, f, j, m)
    ensures m == |run| && Sits(After(s0, run + [a]), c, f) ==> Kept(s0, run + [a], c, f, j, m + 1)
  {
    hide After, Sits;
    assert forall k :: 0 <= k <= |run| ==> (run + [a])[..k] == run[..k];
    assert (run + [a])[..|run| + 1] == run + [a];
  }

  lemma FoundLonger(s0: State, run: seq<Action>, a: Action, c: CallId, f: Frame)
    requires Found(s0, run, c, f) && Sits(After(s0, run + [a]), c, f)
    ensures Found(s0, run + [a], c, f)
  {
    hide HeldFrom, FoundAt, Kept, Sits, After;
    var r: nat, i: nat, j: nat :| FoundAt(s0, run, c, f, r, i, j) && Kept(s0, run, c, f, j, |run|);
    FoundAtLonger(s0, run, a, c, f, r, i, j);
    KeptLonger(s0, run, a, c, f, j, |run|);
    assert FoundAt(s0, run + [a], c, f, r, i, j) && Kept(s0, run + [a], c, f, j, |run + [a]|);
  }

  lemma GotLonger(s0: State, run: seq<Action>, a: Action, c: CallId, f: Frame)
    requires Got(s0, run, c, f)
    ensures Got(s0, run + [a], c, f)
  {
    hide FoundAt, Kept, After;
    var r: nat, i: nat, j: nat, w: nat, m: nat :| GotAt(s0, run, c, f, r, i, j, w, m);
    FoundAtLonger(s0, run, a, c, f, r, i, j);
    KeptLonger(s0, run, a, c, f, j, m);
    assert GotAt(s0, run + [a], c, f, r, i, j, w, m);
  }

  /** A call registers once, so it wrote its request after the registration the reader found. */
  lemma GotNow(s0: State, run: seq<Action>, s: State, a: Action, c: CallId, f: Frame)
    requires Lifecycle(run, s) && Found(s0, run, c, f) && Wrote(run, c)
    requires a.Receive? && a.c == c
    ensures Got(s0, run + [a], c, f)
  {
    hide HeldFrom, Kept, After;
    var r: nat, i: nat, j: nat :| FoundAt(s0, run, c, f, r, i, j) && Kept(s0, run, c, f, j, |run|);
    var i': nat, w: nat :| WroteAt(run, c, i', w);
    assert run[i] == run[i'] && run[i].Register?;
    assert i == i';
    FoundAtLonger(s0, run, a, c, f, r, i, j);
    KeptLonger(s0, run, a, c, f, j, |run|);
    assert GotAt(s0, run + [a], c, f, r, i, j, w, |run|);
  }

  lemma RegisteringLonger(run: seq<Action>, a: Action, c: CallId)
    ensures Registering(run + [a], c) <==> Registering(run, c) || a == Register(c)
  {
    if i :| 0 <= i < |run| && run[i] == Register(c) { assert (run + [a])[i] == Register(c); }
    if a == Register(c) { assert (run + [a])[|run|] == Register(c); }
    if i :| 0 <= i < |run + [a]| && (run + [a])[i] == Register(c) { assert i < |run| ==> run[i] == Register(c); }
  }

  /** What one step does to the parts of the state that carry frames. */
  lemma StepPendingOrigin(s: State, a: Action, id: int)
    requires Enabled(s, a) && id in Apply(s, a).pending
    ensures (id in s.pending && s.pending[id] == Apply(s, a).pending[id]) || a == Register(Apply(s, a).pending[id])
  {
  }

  lemma StepReaderOrigin(s: State, a: Action)
    requires Enabled(s, a)
    ensures var s' := Apply(s, a);
      && (s'.reader.Lookup? ==> s'.reader == s.reader || (a == ReadFrame(s'.reader.frame) && s.reader == Reading))
      && (s'.reader.Deliver? ==> s'.reader == s.reader || (a == ReaderLookup && s.reader == Lookup(s'.reader.frame)))
      && (s'.reader.Deliver? && s'.reader != s.reader ==>
            s'.reader.frame.id.Some? && s'.reader.frame.id.value in s.pending && s.pending[s'.reader.frame.id.value] == s'.reader.to)
  {
  }

  lemma StepChannelOrigin(s: State, a: Action, c: CallId, k: nat)
    requires InboxFits(s) && Enabled(s, a) && c in Apply(s, a).inbox && k < |Apply(s, a).inbox[c]|
    ensures var f := Apply(s, a).inbox[c][k];
      && Apply(s, a).inbox[c] == [f]
      && (s.reader == Deliver(f, c) || (c in s.inbox && s.inbox[c] == [f]))
  {
    hide Next, PendingAfter, ReaderAfter, WriterAfter;
    assert c in s.inbox ==> |s.inbox[c]| <= 1;
  }

  lemma StepOutcomeOrigin(s: State, a: Action, c: CallId)
    requires Enabled(s, a) && c in Apply(s, a).calls
    requires OutcomeOf(Apply(s, a).calls[c]).Some? && FrameOf(OutcomeOf(Apply(s, a).calls[c]).value).Some?
    ensures
      || (c in s.calls && OutcomeOf(s.calls[c]) == OutcomeOf(Apply(s, a).calls[c]))
      || (a.Receive? && a.c == c && c in s.calls && s.calls[c].AwaitReply? && c in s.inbox && s.inbox[c] != [] &&
            FrameOf(OutcomeOf(Apply(s, a).calls[c]).value).value == s.inbox[c][0])
  {
    hide PendingAfter, InboxAfter, ReaderAfter, WriterAfter;
  }

  lemma PendingRegistered(s0: State, run: seq<Action>, s: State, id: int)
    requires Traced(s0, run, s) && id in s.pending
    ensures Registering(run, s.pending[id])
  {
  }

  lemma ReaderStaysTraced(s0: State, run: seq<Action>, s: State, a: Action)
    requires Traced(s0, run, s) && Enabled(s, a) && s == After(s0, run)
    ensures ReaderTraced(s0, run + [a], Apply(s, a))
  {
    hide Apply, Enabled, Found, HeldFrom, ChannelsTraced, OutcomeTraced;
    var s', all := Apply(s, a), run + [a];
    StepReaderOrigin(s, a);
    if s'.reader.Lookup? {
      var f := s'.reader.frame;
      AfterSnoc(s0, run, s, a);
      if s'.reader == s.reader {
        var r: nat :| HeldFrom(s0, run, f, r, |run|);
        HeldOn(s0, run, a, f, r);
      } else {
        HeldFirst(s0, run, a, f);
      }
    }
    if s'.reader.Deliver? {
      var f, to := s'.reader.frame, s'.reader.to;
      if s'.reader == s.reader {
        AfterSnoc(s0, run, s, a);
        FoundLonger(s0, run, a, to, f);
      } else {
        var r: nat :| HeldFrom(s0, run, f, r, |run|);
        PendingRegistered(s0, run, s, f.id.value);
        AfterSnoc(s0, run, s, a);
        FoundNow(s0, run, to, f, r);
      }
    }
  }

  lemma AfterSnoc(s0: State, run: seq<Action>, s: State, a: Action)
    requires s == After(s0, run) && Enabled(s, a)
    ensures After(s0, run + [a]) == Apply(s, a)
  {
    hide Apply, Enabled;
    assert (run + [a])[..|run|] == run;
  }

  lemma HeldOn(s0: State, run: seq<Action>, a: Action, f: Frame, r: nat)
    requires HeldFrom(s0, run, f, r, |run|) && After(s0, run + [a]).reader == Lookup(f)
    ensures HeldFrom(s0, run + [a], f, r, |run| + 1)
  {
    assert forall k :: 0 <= k <= |run| ==> (run + [a])[..k] == run[..k];
    assert (run + [a])[..|run| + 1] == run + [a];
  }

  lemma HeldFirst(s0: State, run: seq<Action>, a: Action, f: Frame)
    requires a == ReadFrame(f) && After(s0, run + [a]).reader == Lookup(f)
    ensures HeldFrom(s0, run + [a], f, |run|, |run| + 1)
  {
    assert (run + [a])[..|run| + 1] == run + [a];
  }

  lemma FoundNow(s0: State, run: seq<Action>, c: CallId, f: Frame, r: nat)
    requires HeldFrom(s0, run, f, r, |run|) && Registering(run, c)
    requires Sits(After(s0, run + [ReaderLookup]), c, f)
    ensures Found(s0, run + [ReaderLookup], c, f)
  {
    hide HeldFrom, Sits, After;
    var i :| 0 <= i < |run| && run[i] == Register(c);
    HeldLonger(s0, run, ReaderLookup, f, r, |run|);
    var all := run + [ReaderLookup];
    assert all[..|run| + 1] == all;
    assert FoundAt(s0, all, c, f, r, i, |run|) && Kept(s0, all, c, f, |run|, |all|);
  }

  lemma ChannelsStayTraced(s0: State, run: seq<Action>, s: State, a: Action)
    requires Traced(s0, run, s) && Enabled(s, a) && s == After(s0, run) && InboxFits(s)
    ensures ChannelsTraced(s0, run + [a], Apply(s, a))
  {
    hide Apply, Enabled, Found, HeldFrom, Lifecycle, InboxFits, OutcomeTraced;
    var s' := Apply(s, a);
    AfterSnoc(s0, run, s, a);
    forall c, k | c in s'.inbox && 0 <= k < |s'.inbox[c]| ensures Found(s0, run + [a], c, s'.inbox[c][k]) {
      StepChannelOrigin(s, a, c, k);
      assert c in s.inbox && s.inbox[c] == [s'.inbox[c][k]] ==> s.inbox[c][0] == s'.inbox[c][k];
      FoundLonger(s0, run, a, c, s'.inbox[c][k]);
    }
  }

  lemma OutcomesStayTraced(s0: State, run: seq<Action>, s: State, a: Action, c: CallId)
    requires Traced(s0, run, s) && Enabled(s, a) && c in Apply(s, a).calls
    ensures OutcomeTraced(s0, run + [a], c, Apply(s, a).calls[c])
  {
    hide Apply, Enabled, Found, Got, Wrote, ReaderTraced, After;
    var pc := Apply(s, a).calls[c];
    if OutcomeOf(pc).Some? && FrameOf(OutcomeOf(pc).value).Some? {
      var f := FrameOf(OutcomeOf(pc).value).value;
      StepOutcomeOrigin(s, a, c);
      if c in s.calls && OutcomeOf(s.calls[c]) == OutcomeOf(pc) {
        assert OutcomeTraced(s0, run, c, s.calls[c]);
        GotLonger(s0, run, a, c, f);
      } else {
        assert Found(s0, run, c, s.inbox[c][0]);
        GotNow(s0, run, s, a, c, f);
      }
    }
  }

  lemma StepKeepsTraced(s0: State, run: seq<Action>, s: State, a: Action)
    requires Traced(s0, run, s) && Enabled(s, a) && s == After(s0, run) && InboxFits(s)
    ensures Traced(s0, run + [a], Apply(s, a))
  {
    hide Apply, Enabled, Registering, Lifecycle, ReaderTraced, ChannelsTraced, OutcomeTraced, InboxFits;
    var s', all := Apply(s, a), run + [a];
    StepKeepsLifecycle(run, s, a);
    ReaderStaysTraced(s0, run, s, a);
    ChannelsStayTraced(s0, run, s, a);
    forall id | id in s'.pending ensures Registering(all, s'.pending[id]) {
      StepPendingOrigin(s, a, id);
      RegisteringLonger(run, a, s'.pending[id]);
    }
    forall c | c in s'.calls ensures OutcomeTraced(s0, all, c, s'.calls[c]) { OutcomesStayTraced(s0, run, s, a, c); }
  }

  lemma {:induction false} RunsStayTraced(s0: State, run: seq<Action>, s: State)
    requires Initial(s0) && Reaches(s0, run, s)
    ensures Traced(s0, run, s)
  {
    hide Enabled, Apply;
    if run != [] {
      hide Traced;
      var before, a := run[..|run| - 1], run[|run| - 1];
      var m :| Reaches(s0, before, m) && Enabled(m, a) && s == Apply(m, a);
      RunsStayTraced(s0, before, m);
      RunsKeepInv(s0, before, m);
      ReachesIsAfter(s0, before, m);
      StepKeepsTraced(s0, before, m, a);
      assert run == before + [a];
    }
  }

  /**
   A call that returned with a frame registered, ended its write and took the frame out of its
   channel at steps `i < w < m`; the reader had read that very frame in this run, at step `r`, and
   looked it up after the registration. If the frame was read no later than the registration, the
   reader was holding it then; if it was read no later than the end of the write, it was by then
   in the reader's hands or in the call's channel.
   */
  lemma RepliesWereRead(s0: State, run: seq<Action>, s: State, c: CallId) returns (r: nat, i: nat, j: nat, w: nat, m: nat)
    requires Initial(s0) && Reaches(s0, run, s)
    requires c in s.calls && s.calls[c].Returned? && FrameOf(s.calls[c].out).Some?
    ensures var f := FrameOf(s.calls[c].out).value;
      && r < j < m < |run| && i < j && i < w < m
      && run[r] == ReadFrame(f) && run[i] == Register(c) && run[j] == ReaderLookup
      && run[w] == Write(c, true) && run[m].Receive? && run[m].c == c
      && (i < r || After(s0, run[..i]).reader == Lookup(f))
      && (w < r || After(s0, run[..w]).reader == Lookup(f) || Sits(After(s0, run[..w]), c, f))
  {
    RunsStayTraced(s0, run, s);
    assert OutcomeTraced(s0, run, c, s.calls[c]);
    hide After, Reaches, Initial, Sits, Lifecycle, ReaderTraced, ChannelsTraced;
    r, i, j, w, m :| GotAt(s0, run, c, FrameOf(s.calls[c].out).value, r, i, j, w, m);
    assert r != i && r != w;
  }

  // ----- a reply read before its request was registered

  lemma Snoc(s0: State, run: seq<Action>, s: State, a: Action) returns (run': seq<Action>, s': State)
    requires Reaches(s0, run, s) && Enabled(s, a)
    ensures run' == run + [a] && s' == Apply(s, a) && Reaches(s0, run', s')
  {
    run', s' := run + [a], Apply(s, a);
    ReachesOnward(s0, run, s, a);
  }

  /** A registration and two reader steps put the frame in hand into the new call's channel. */
  lemma RegisterAndDeliver(s0: State, run: seq<Action>, s: State, c: CallId, id: int, f: Frame) returns (run': seq<Action>, s': State)
    requires Reaches(s0, run, s) && c in s.calls && s.calls[c] == Identified(id) && s.reader == Lookup(f) && f.id == Some(id)
    ensures run' == run + [Register(c), ReaderLookup, ReaderSend] && Reaches(s0, run', s')
    ensures s' == At(s, c, Registered(id)).(pending := s.pending[id := c], inbox := s.inbox[c := [f]], reader := Top)
  {
    hide Reaches;
    run', s' := Snoc(s0, run, s, Register(c));
    assert s' == At(s, c, Registered(id)).(pending := s.pending[id := c], inbox := s.inbox[c := []]);
    run', s' := Snoc(s0, run', s', ReaderLookup);
    assert s'.reader == Deliver(f, c);
    run', s' := Snoc(s0, run', s', ReaderSend);
    assert s'.inbox == s.inbox[c := [f]];
  }

  lemma WriteAndReceive(s0: State, run: seq<Action>, s: State, c: CallId, id: int, f: Frame) returns (run': seq<Action>, s': State)
    requires Reaches(s0, run, s) && c in s.calls && s.calls[c] == Registered(id) && c in s.inbox && s.inbox[c] == [f] && !f.isError
    requires s.writer == Free
    ensures run' == run + [LockWrite(c), Write(c, true), Receive(c, true)] && Reaches(s0, run', s')
    ensures s' == At(s, c, Deregister(id, Reply(f))).(inbox := s.inbox[c := []])
  {
    hide Reaches;
    run', s' := Snoc(s0, run, s, LockWrite(c));
    assert s' == At(s, c, Writing(id)).(writer := HeldByCall(c));
    run', s' := Snoc(s0, run', s', Write(c, true));
    assert s' == At(s, c, AwaitReply(id));
    run', s' := Snoc(s0, run', s', Receive(c, true));
  }

  lemma DeleteAndRelease(s0: State, run: seq<Action>, s: State, c: CallId, id: int, out: Outcome) returns (run': seq<Action>, s': State)
    requires Reaches(s0, run, s) && c in s.calls && s.calls[c] == Deregister(id, out) && s.tokens > 0
    ensures run' == run + [Delete(c), ReleaseToken(c)] && Reaches(s0, run', s')
    ensures c in s'.calls && s'.calls[c] == Returned(Some(id), out)
  {
    hide Reaches;
    run', s' := Snoc(s0, run, s, Delete(c));
    assert s'.calls[c] == Release(id, out) && s'.tokens == s.tokens;
    run', s' := Snoc(s0, run', s', ReleaseToken(c));
  }

  function Guess(s0: State): Frame {
    Frame(Some(s0.nextId + 1), false, "")
  }

  lemma DrawnId(s0: State) returns (run: seq<Action>, s: State)
    requires Initial(s0)
    ensures Reaches(s0, run, s) && run == [Invoke(0), CheckClosed(0), TakeToken(0), DrawId(0)]
    ensures s == s0.(tokens := 1, nextId := s0.nextId + 1, calls := map[0 := Identified(s0.nextId + 1)])
  {
    run, s := [], s0;
    hide Reaches;
    run, s := Snoc(s0, run, s, Invoke(0));
    assert s == s0.(calls := map[0 := Start]);
    run, s := Snoc(s0, run, s, CheckClosed(0));
    assert s == s0.(calls := map[0 := AwaitToken]);
    run, s := Snoc(s0, run, s, TakeToken(0));
    assert s == s0.(tokens := 1, calls := map[0 := Acquired]);
    run, s := Snoc(s0, run, s, DrawId(0));
  }

  /** Before the call registers, the server sends a frame with the id the call has drawn. */
  lemma GuessedFrame(s0: State) returns (run: seq<Action>, s: State)
    requires Initial(s0)
    ensures Reaches(s0, run, s) && run == [Invoke(0), CheckClosed(0), TakeToken(0), DrawId(0), ReaderPoll, ReadFrame(Guess(s0))]
    ensures s == s0.(tokens := 1, nextId := s0.nextId + 1, calls := map[0 := Identified(s0.nextId + 1)], reader := Lookup(Guess(s0)))
  {
    hide Reaches;
    run, s := DrawnId(s0);
    run, s := Snoc(s0, run, s, ReaderPoll);
    run, s := Snoc(s0, run, s, ReadFrame(Guess(s0)));
  }

  /**
   The client does not check that a reply follows its request: a run in which the only frame is
   read before the call has registered, let alone written, and the call returns it as its reply.
   */
  lemma EarlyReplyIsAccepted(s0: State) returns (run: seq<Action>, s: State)
    requires Initial(s0)
    ensures Reaches(s0, run, s)
    ensures 0 in s.calls && s.calls[0] == Returned(Some(s0.nextId + 1), Reply(Guess(s0)))
    ensures |run| == 14 && run[5] == ReadFrame(Guess(s0)) && run[6] == Register(0) && run[10] == Write(0, true)
    ensures forall k :: 0 <= k < |run| && run[k].ReadFrame? ==> k == 5
  {
    hide Reaches;
    run, s := GuessedFrame(s0);
    run, s := RegisterAndDeliver(s0, run, s, 0, s0.nextId + 1, Guess(s0));
    run, s := WriteAndReceive(s0, run, s, 0, s0.nextId + 1, Guess(s0));
    run, s := DeleteAndRelease(s0, run, s, 0, s0.nextId + 1, Reply(Guess(s0)));
  }
}
