/**
 The request protocol of the language-server client (`internal/lsp/client.go`) as a
 step system. One step is one atomic action of the code: a channel operation, a
 critical section under `mu`, an atomic load or store. Any number of calls of
 `Request`, the reader goroutine and `Close` interleave; deadlines, cancellation,
 write failures and what the server sends are arbitrary.
 */
module LspProtocol {
  import opened Wrappers

  type CallId = nat

  /** One message read from the server. */
  datatype Frame = Frame(id: Option<int>, isError: bool, payload: string)

  datatype Outcome =
    | Reply(frame: Frame)         // nil error: the result was decoded from this frame
    | ServerError(frame: Frame)   // the frame carried an error object
    | DecodeError(frame: Frame)   // the frame's result could not be decoded
    | Timeout
    | Cancelled
    | Closed
    | WriteError

  /** Where one call of `Request` is. */
  datatype Pc =
    | Start                               // about to load `closed`
    | AwaitToken                          // at the select that takes a semaphore token
    | Acquired                            // token held, about to draw an id
    | Identified(id: int)                 // about to register its channel
    | Registered(id: int)                 // about to lock the write mutex
    | Writing(id: int)                    // holds it, writing its frame
    | AwaitReply(id: int)                 // at the select that waits for the reply
    | Deregister(id: int, out: Outcome)   // about to run the deferred delete
    | Release(id: int, out: Outcome)      // about to run the deferred token release
    | Returned(drawn: Option<int>, out: Outcome)

  datatype Reader =
    | Top                                // about to poll `closeCh`
    | Reading                            // reading headers and body
    | Lookup(frame: Frame)               // about to look the id up in `pending`
    | Deliver(frame: Frame, to: CallId)  // about to try the send on the channel it found
    | Exited

  /** Who holds `writeMu`. */
  datatype WriteLock = Free | HeldByCall(c: CallId) | HeldByNotification

  datatype State = State(
    concurrency: nat,             // capacity of `sem`
    tokens: nat,                  // values buffered in `sem`
    nextId: int,
    pending: map<int, CallId>,    // id -> the call whose channel is registered
    inbox: map<CallId, seq<Frame>>, // buffered frames of each call's channel, capacity one
    calls: map<CallId, Pc>,
    reader: Reader,
    writer: WriteLock,
    notifying: nat,               // notifications past their check of `closed`, about to lock the write mutex
    closed: bool,
    closeCh: bool)

  datatype Action =
    | Invoke(c: CallId)
    | CheckClosed(c: CallId)
    | TakeToken(c: CallId)
    | GiveUpToken(c: CallId, why: Outcome)
    | DrawId(c: CallId)
    | Register(c: CallId)
    | LockWrite(c: CallId)
    | Write(c: CallId, ok: bool)     // ends the write, well or not, and unlocks
    | Receive(c: CallId, decodes: bool)
    | GiveUpReply(c: CallId, why: Outcome)
    | Delete(c: CallId)
    | ReleaseToken(c: CallId)
    | NotifyPass
    | NotifyLock
    | NotifyWrite
    | StoreClosed
    | SignalClose
    | ReaderPoll
    | ReaderFail
    | ReadFrame(frame: Frame)
    | ReaderLookup
    | ReaderSend

  /** The reasons a `select` may give up: the context is done, or `closeCh` is closed. */
  predicate MayGiveUp(s: State, why: Outcome) {
    why == Timeout || why == Cancelled || (why == Closed && s.closeCh)
  }

  predicate Enabled(s: State, a: Action) {
    match a
    case Invoke(c) => c !in s.calls
    case CheckClosed(c) => c in s.calls && s.calls[c] == Start
    case TakeToken(c) => c in s.calls && s.calls[c] == AwaitToken && s.tokens < s.concurrency
    case GiveUpToken(c, why) => c in s.calls && s.calls[c] == AwaitToken && MayGiveUp(s, why)
    case DrawId(c) => c in s.calls && s.calls[c] == Acquired
    case Register(c) => c in s.calls && s.calls[c].Identified?
    case LockWrite(c) => c in s.calls && s.calls[c].Registered? && s.writer == Free
    case Write(c, _) => c in s.calls && s.calls[c].Writing?
    case Receive(c, _) => c in s.calls && s.calls[c].AwaitReply? && c in s.inbox && s.inbox[c] != []
    case GiveUpReply(c, why) => c in s.calls && s.calls[c].AwaitReply? && MayGiveUp(s, why)
    case Delete(c) => c in s.calls && s.calls[c].Deregister?
    case ReleaseToken(c) => c in s.calls && s.calls[c].Release? && s.tokens > 0
    case NotifyPass => !s.closed
    case NotifyLock => s.notifying > 0 && s.writer == Free
    case NotifyWrite => s.writer == HeldByNotification
    case StoreClosed => !s.closed
    case SignalClose => s.closed && !s.closeCh
    case ReaderPoll => s.reader == Top
    case ReaderFail => s.reader == Reading
    case ReadFrame(_) => s.reader == Reading
    case ReaderLookup => s.reader.Lookup?
    case ReaderSend => s.reader.Deliver?
  }

  function At(s: State, c: CallId, pc: Pc): State {
    s.(calls := s.calls[c := pc])
  }

  function Received(f: Frame, decodes: bool): Outcome {
    if f.isError then ServerError(f) else if decodes then Reply(f) else DecodeError(f)
  }

  /** The call that takes a step, if it is a call. */
  function Actor(a: Action): Option<CallId> {
    match a
    case Invoke(c) => Some(c)
    case CheckClosed(c) => Some(c)
    case TakeToken(c) => Some(c)
    case GiveUpToken(c, _) => Some(c)
    case DrawId(c) => Some(c)
    case Register(c) => Some(c)
    case LockWrite(c) => Some(c)
    case Write(c, _) => Some(c)
    case Receive(c, _) => Some(c)
    case GiveUpReply(c, _) => Some(c)
    case Delete(c) => Some(c)
    case ReleaseToken(c) => Some(c)
    case _ => None
  }

  /** Where the acting call goes. */
  function Next(s: State, a: Action): Pc
    requires Enabled(s, a) && Actor(a).Some?
  {
    match a
    case Invoke(_) => Start
    case CheckClosed(_) => if s.closed then Returned(None, Closed) else AwaitToken
    case TakeToken(_) => Acquired
    case GiveUpToken(_, why) => Returned(None, why)
    case DrawId(_) => Identified(s.nextId + 1)
    case Register(c) => Registered(s.calls[c].id)
    case LockWrite(c) => Writing(s.calls[c].id)
    case Write(c, ok) => if ok then AwaitReply(s.calls[c].id) else Deregister(s.calls[c].id, WriteError)
    case Receive(c, decodes) => Deregister(s.calls[c].id, Received(s.inbox[c][0], decodes))
    case GiveUpReply(c, why) => Deregister(s.calls[c].id, why)
    case Delete(c) => Release(s.calls[c].id, s.calls[c].out)
    case ReleaseToken(c) => Returned(Some(s.calls[c].id), s.calls[c].out)
  }

  function PendingAfter(s: State, a: Action): map<int, CallId>
    requires Enabled(s, a)
  {
    match a
    case Register(c) => s.pending[s.calls[c].id := c]
    case Delete(c) => s.pending - {s.calls[c].id}
    case _ => s.pending
  }

  /** Registering makes a channel, receiving empties it, and the reader's send fills it if it is there and empty. */
  function InboxAfter(s: State, a: Action): map<CallId, seq<Frame>>
    requires Enabled(s, a)
  {
    match a
    case Register(c) => s.inbox[c := []]
    case Receive(c, _) => s.inbox[c := s.inbox[c][1..]]
    case ReaderSend =>
      if s.reader.to in s.inbox && s.inbox[s.reader.to] == [] then s.inbox[s.reader.to := [s.reader.frame]] else s.inbox
    case _ => s.inbox
  }

  function ReaderAfter(s: State, a: Action): Reader
    requires Enabled(s, a)
  {
    match a
    case ReaderPoll => if s.closeCh then Exited else Reading
    case ReaderFail => Exited
    case ReadFrame(f) => if f.id == None then Top else Lookup(f)
    case ReaderLookup =>
      var f := s.reader.frame;
      if f.id.Some? && f.id.value in s.pending then Deliver(f, s.pending[f.id.value]) else Top
    case ReaderSend => Top
    case _ => s.reader
  }

  function WriterAfter(s: State, a: Action): WriteLock {
    match a
    case LockWrite(c) => HeldByCall(c)
    case Write(_, _) => Free
    case NotifyLock => HeldByNotification
    case NotifyWrite => Free
    case _ => s.writer
  }

  function Apply(s: State, a: Action): State
    requires Enabled(s, a)
  {
    s.(calls := if Actor(a).Some? then s.calls[Actor(a).value := Next(s, a)] else s.calls,
       tokens := if a.TakeToken? then s.tokens + 1 else if a.ReleaseToken? then s.tokens - 1 else s.tokens,
       nextId := if a.DrawId? then s.nextId + 1 else s.nextId,
       pending := PendingAfter(s, a),
       inbox := InboxAfter(s, a),
       reader := ReaderAfter(s, a),
       writer := WriterAfter(s, a),
       notifying := if a.NotifyPass? then s.notifying + 1 else if a.NotifyLock? then s.notifying - 1 else s.notifying,
       closed := s.closed || a.StoreClosed?,
       closeCh := s.closeCh || a.SignalClose?)
  }

  /** A live client: nothing in flight, any number of ids already drawn by the handshake. */
  predicate Initial(s: State) {
    && s.concurrency > 0 && s.tokens == 0 && s.pending == map[] && s.inbox == map[] && s.calls == map[]
    && s.reader == Top && s.writer == Free && s.notifying == 0 && !s.closed && !s.closeCh
  }

  /** `s` is reached from `s0` by the steps `run`. */
  ghost predicate Reaches(s0: State, run: seq<Action>, s: State) {
    if run == [] then s == s0
    else
      var before := run[..|run| - 1];
      exists m :: Reaches(s0, before, m) && Enabled(m, run[|run| - 1]) && s == Apply(m, run[|run| - 1])
  }

  // ----- the invariant

  predicate HoldsToken(pc: Pc) {
    pc.Acquired? || pc.Identified? || pc.Registered? || pc.Writing? || pc.AwaitReply? || pc.Deregister? || pc.Release?
  }

  /** The id a call has drawn, if it has. */
  function IdOf(pc: Pc): Option<int> {
    match pc
    case Start | AwaitToken | Acquired => None
    case Identified(id) => Some(id)
    case Registered(id) => Some(id)
    case Writing(id) => Some(id)
    case AwaitReply(id) => Some(id)
    case Deregister(id, _) => Some(id)
    case Release(id, _) => Some(id)
    case Returned(id, _) => id
  }

  predicate IsPending(pc: Pc) {
    pc.Registered? || pc.Writing? || pc.AwaitReply? || pc.Deregister?
  }

  function OutcomeOf(pc: Pc): Option<Outcome> {
    match pc
    case Deregister(_, out) => Some(out)
    case Release(_, out) => Some(out)
    case Returned(_, out) => Some(out)
    case _ => None
  }

  /** The frame an outcome was computed from, if any, bears the call's own id, and an error exactly if the outcome says so. */
  predicate OutcomeFits(id: Option<int>, out: Outcome) {
    match out
    case Reply(f) => id.Some? && f.id == id && !f.isError
    case ServerError(f) => id.Some? && f.id == id && f.isError
    case DecodeError(f) => id.Some? && f.id == id && !f.isError
    case _ => true
  }

  function Holders(s: State): set<CallId> {
    set c | c in s.calls && HoldsToken(s.calls[c])
  }

  predicate TokensExact(s: State) {
    s.tokens == |Holders(s)| && s.tokens <= s.concurrency
  }

  predicate IdsUnique(s: State) {
    && (forall c :: c in s.calls && IdOf(s.calls[c]).Some? ==> IdOf(s.calls[c]).value <= s.nextId)
    && (forall c, d :: c in s.calls && d in s.calls && IdOf(s.calls[c]).Some? && IdOf(s.calls[c]) == IdOf(s.calls[d]) ==> c == d)
  }

  predicate PendingExact(s: State) {
    && (forall c :: c in s.calls && IsPending(s.calls[c]) ==>
          var id := IdOf(s.calls[c]).value; id in s.pending && s.pending[id] == c)
    && (forall id :: id in s.pending ==>
          var c := s.pending[id];
          c in s.calls && IsPending(s.calls[c]) && IdOf(s.calls[c]) == Some(id))
  }

  /** A channel holds at most one frame, and only one that bears its owner's id. */
  predicate InboxFits(s: State) {
    && (forall c :: c in s.inbox ==>
          c in s.calls && IdOf(s.calls[c]).Some? && !s.calls[c].Identified? && |s.inbox[c]| <= 1)
    && (forall c :: c in s.inbox && s.inbox[c] != [] ==> s.inbox[c][0].id == IdOf(s.calls[c]))
    && (forall c :: c in s.calls && IsPending(s.calls[c]) ==> c in s.inbox)
  }

  predicate ReaderFits(s: State) {
    s.reader.Deliver? ==>
      s.reader.to in s.inbox && s.reader.to in s.calls && s.reader.frame.id == IdOf(s.calls[s.reader.to])
  }

  predicate OutcomesFit(s: State) {
    forall c :: c in s.calls && OutcomeOf(s.calls[c]).Some? ==> OutcomeFits(IdOf(s.calls[c]), OutcomeOf(s.calls[c]).value)
  }

  /** The write mutex is held by the one call that is writing, if any. */
  predicate WriterExact(s: State) {
    && (s.writer.HeldByCall? ==> s.writer.c in s.calls && s.calls[s.writer.c].Writing?)
    && (forall c :: c in s.calls && s.calls[c].Writing? ==> s.writer == HeldByCall(c))
  }

  predicate Inv(s: State) {
    && TokensExact(s)
    && IdsUnique(s)
    && PendingExact(s)
    && InboxFits(s)
    && ReaderFits(s)
    && OutcomesFit(s)
    && WriterExact(s)
    && (s.closeCh ==> s.closed)
  }

  // ----- what one step does to one call

  lemma StepHolding(s: State, a: Action, c: CallId)
    requires Enabled(s, a) && c in Apply(s, a).calls
    ensures a == TakeToken(c) || a == ReleaseToken(c) ==> c in s.calls
    ensures HoldsToken(Apply(s, a).calls[c]) <==>
      a == TakeToken(c) || (c in s.calls && HoldsToken(s.calls[c]) && a != ReleaseToken(c))
  {
    hide PendingAfter, InboxAfter, ReaderAfter, WriterAfter;
  }

  lemma StepTokens(s: State, a: Action)
    requires Enabled(s, a)
    ensures s.calls.Keys <= Apply(s, a).calls.Keys
    ensures Apply(s, a).concurrency == s.concurrency
    ensures Apply(s, a).tokens == if a.TakeToken? then s.tokens + 1 else if a.ReleaseToken? then s.tokens - 1 else s.tokens
    ensures a.TakeToken? ==> s.tokens < s.concurrency && a.c in s.calls && !HoldsToken(s.calls[a.c])
    ensures a.ReleaseToken? ==> a.c in s.calls && HoldsToken(s.calls[a.c])
  {
    hide Next;
  }

  lemma StepHolders(s: State, a: Action)
    requires Enabled(s, a)
    ensures Holders(Apply(s, a)) ==
      if a.TakeToken? then Holders(s) + {a.c} else if a.ReleaseToken? then Holders(s) - {a.c} else Holders(s)
    ensures a.TakeToken? ==> a.c !in Holders(s)
    ensures a.ReleaseToken? ==> a.c in Holders(s)
  {
    var s', after := Apply(s, a),
      if a.TakeToken? then Holders(s) + {a.c} else if a.ReleaseToken? then Holders(s) - {a.c} else Holders(s);
    StepTokens(s, a);
    hide Apply, Enabled, HoldsToken, Next, Actor;
    forall c ensures c in Holders(s') <==> c in after {
      if c in s'.calls { StepHolding(s, a, c); }
    }
  }

  lemma StepKeepsTokens(s: State, a: Action)
    requires TokensExact(s) && Enabled(s, a)
    ensures TokensExact(Apply(s, a))
  {
    hide Apply, Enabled, Holders, HoldsToken, Next, Actor;
    StepTokens(s, a);
    StepHolders(s, a);
  }

  lemma StepDraws(s: State, a: Action, c: CallId)
    requires Enabled(s, a) && c in Apply(s, a).calls
    ensures IdOf(Apply(s, a).calls[c]) ==
      if a == DrawId(c) then Some(s.nextId + 1) else if c in s.calls then IdOf(s.calls[c]) else None
    ensures Apply(s, a).nextId == if a.DrawId? then s.nextId + 1 else s.nextId
  {
    hide PendingAfter, ReaderAfter, WriterAfter;
  }

  lemma StepKeepsIds(s: State, a: Action)
    requires IdsUnique(s) && Enabled(s, a)
    ensures IdsUnique(Apply(s, a))
  {
    hide Apply, Enabled, IdOf, Next, Actor;
    var s' := Apply(s, a);
    forall c | c in s'.calls
      ensures IdOf(s'.calls[c]) ==
        if a == DrawId(c) then Some(s.nextId + 1) else if c in s.calls then IdOf(s.calls[c]) else None
      ensures s'.nextId == if a.DrawId? then s.nextId + 1 else s.nextId
    {
      StepDraws(s, a, c);
    }
  }

  /** Registering and deregistering are the only steps that touch `pending`. */
  lemma StepRegisters(s: State, a: Action, c: CallId)
    requires Enabled(s, a) && c in Apply(s, a).calls
    ensures IsPending(Apply(s, a).calls[c]) <==> a == Register(c) || (c in s.calls && IsPending(s.calls[c]) && a != Delete(c))
    ensures IsPending(Apply(s, a).calls[c]) ==>
      c in s.calls && IdOf(s.calls[c]).Some? && IdOf(Apply(s, a).calls[c]) == IdOf(s.calls[c])
  {
    hide PendingAfter, InboxAfter, ReaderAfter, WriterAfter;
  }

  lemma StepPending(s: State, a: Action)
    requires Enabled(s, a)
    ensures s.calls.Keys <= Apply(s, a).calls.Keys
    ensures match a
      case Register(c) => c in s.calls && IdOf(s.calls[c]).Some? && !IsPending(s.calls[c]) &&
        Apply(s, a).pending == s.pending[IdOf(s.calls[c]).value := c]
      case Delete(c) => c in s.calls && IdOf(s.calls[c]).Some? && IsPending(s.calls[c]) &&
        Apply(s, a).pending == s.pending - {IdOf(s.calls[c]).value}
      case _ => Apply(s, a).pending == s.pending
  {
    hide Next;
  }

  lemma StepKeepsPending(s: State, a: Action)
    requires IdsUnique(s) && PendingExact(s) && Enabled(s, a)
    ensures PendingExact(Apply(s, a))
  {
    hide Apply, Enabled, IdsUnique, IsPending, IdOf;
    var s' := Apply(s, a);
    StepPending(s, a);
    forall c | c in s'.calls && IsPending(s'.calls[c])
      ensures IdOf(s'.calls[c]).Some? && IdOf(s'.calls[c]).value in s'.pending && s'.pending[IdOf(s'.calls[c]).value] == c
    {
      StepRegisters(s, a, c);
      if a != Register(c) {
        CallIsListed(s, c);
        if (a.Delete? || a.Register?) && IdOf(s.calls[c]) == IdOf(s.calls[a.c]) { IdsApart(s, c, a.c); }
      }
    }
    forall id | id in s'.pending
      ensures s'.pending[id] in s'.calls && IsPending(s'.calls[s'.pending[id]]) && IdOf(s'.calls[s'.pending[id]]) == Some(id)
    {
      var c := s'.pending[id];
      if id in s.pending && s.pending[id] == c { PendingOwner(s, id); }
      StepRegisters(s, a, c);
    }
  }

  lemma IdsApart(s: State, c: CallId, d: CallId)
    requires IdsUnique(s) && c in s.calls && d in s.calls
    requires IdOf(s.calls[c]).Some? && IdOf(s.calls[c]) == IdOf(s.calls[d])
    ensures c == d
  {
  }

  lemma CallIsListed(s: State, c: CallId)
    requires PendingExact(s) && c in s.calls && IsPending(s.calls[c])
    ensures IdOf(s.calls[c]).Some?
    ensures IdOf(s.calls[c]).value in s.pending && s.pending[IdOf(s.calls[c]).value] == c
  {
  }

  /** An id, once drawn, stays with its call, and a call that has registered stays registered or later. */
  lemma StepKeepsIdOfCall(s: State, a: Action, c: CallId)
    requires Enabled(s, a) && c in s.calls
    ensures c in Apply(s, a).calls
    ensures IdOf(s.calls[c]).Some? ==> IdOf(Apply(s, a).calls[c]) == IdOf(s.calls[c])
    ensures IdOf(s.calls[c]).Some? && !s.calls[c].Identified? ==> !Apply(s, a).calls[c].Identified?
    ensures !IsPending(s.calls[c]) && IsPending(Apply(s, a).calls[c]) ==> a == Register(c)
  {
    hide PendingAfter, InboxAfter, ReaderAfter, WriterAfter;
  }

  /** What one step does to one channel: it is made empty, loses its frame, is handed the reader's, or stays. */
  lemma StepInbox(s: State, a: Action, c: CallId)
    requires Enabled(s, a) && c in Apply(s, a).inbox
    ensures c in Apply(s, a).calls || (c in s.inbox && c !in s.calls) || (s.reader.Deliver? && s.reader.to == c)
    ensures
      || (a == Register(c) && Apply(s, a).inbox[c] == [] && Apply(s, a).calls[c].Registered?)
      || (a.Receive? && a.c == c && c in s.inbox && s.inbox[c] != [] && Apply(s, a).inbox[c] == s.inbox[c][1..])
      || (a == ReaderSend && s.reader.Deliver? && s.reader.to == c && Apply(s, a).inbox[c] == [s.reader.frame] && c in s.inbox)
      || (c in s.inbox && Apply(s, a).inbox[c] == s.inbox[c])
  {
    hide PendingAfter, ReaderAfter, WriterAfter;
  }

  lemma StepKeepsChannels(s: State, a: Action)
    requires Enabled(s, a)
    ensures s.inbox.Keys <= Apply(s, a).inbox.Keys
    ensures a.Register? ==> a.c in Apply(s, a).inbox
  {
    hide Next, PendingAfter, ReaderAfter, WriterAfter;
  }

  lemma ChannelFits(s: State, a: Action, c: CallId)
    requires InboxFits(s) && ReaderFits(s) && Enabled(s, a) && c in Apply(s, a).inbox
    ensures c in Apply(s, a).calls && IdOf(Apply(s, a).calls[c]).Some? && !Apply(s, a).calls[c].Identified?
    ensures |Apply(s, a).inbox[c]| <= 1
    ensures Apply(s, a).inbox[c] != [] ==> Apply(s, a).inbox[c][0].id == IdOf(Apply(s, a).calls[c])
  {
    hide Apply, Enabled;
    StepInbox(s, a, c);
    if c in s.inbox { StepKeepsIdOfCall(s, a, c); }
  }

  lemma StepKeepsInbox(s: State, a: Action)
    requires InboxFits(s) && ReaderFits(s) && Enabled(s, a)
    ensures InboxFits(Apply(s, a))
  {
    hide Apply, Enabled, IdOf, ReaderFits;
    var s' := Apply(s, a);
    forall c | c in s'.inbox
      ensures c in s'.calls && IdOf(s'.calls[c]).Some? && !s'.calls[c].Identified? && |s'.inbox[c]| <= 1
      ensures s'.inbox[c] != [] ==> s'.inbox[c][0].id == IdOf(s'.calls[c])
    {
      ChannelFits(s, a, c);
    }
    StepKeepsChannels(s, a);
    forall c | c in s'.calls && IsPending(s'.calls[c]) ensures c in s'.inbox {
      StepRegisters(s, a, c);
    }
  }

  lemma PendingOwner(s: State, id: int)
    requires PendingExact(s) && id in s.pending
    ensures s.pending[id] in s.calls && IsPending(s.calls[s.pending[id]]) && IdOf(s.calls[s.pending[id]]) == Some(id)
  {
  }

  lemma StepKeepsReader(s: State, a: Action)
    requires InboxFits(s) && ReaderFits(s) && PendingExact(s) && Enabled(s, a)
    ensures ReaderFits(Apply(s, a))
  {
    var s' := Apply(s, a);
    if s'.reader.Deliver? {
      var to := s'.reader.to;
      if a == ReaderLookup {
        var f := s.reader.frame;
        assert f.id.Some? && f.id.value in s.pending && to == s.pending[f.id.value];
        PendingOwner(s, f.id.value);
      } else {
        assert s.reader == s'.reader;
        StepKeepsIdOfCall(s, a, to);
      }
    }
  }

  lemma StepKeepsOutcomes(s: State, a: Action)
    requires OutcomesFit(s) && InboxFits(s) && Enabled(s, a)
    ensures OutcomesFit(Apply(s, a))
  {
    hide PendingAfter, InboxAfter, ReaderAfter, WriterAfter;
  }

  lemma StepWriter(s: State, a: Action, c: CallId)
    requires Enabled(s, a) && c in Apply(s, a).calls
    ensures Apply(s, a).calls[c].Writing? ==> a == LockWrite(c) || (c in s.calls && s.calls[c].Writing? && !(a.Write? && a.c == c))
  {
    hide PendingAfter, InboxAfter, ReaderAfter, WriterAfter;
  }

  lemma StepKeepsWriter(s: State, a: Action)
    requires WriterExact(s) && Enabled(s, a)
    ensures WriterExact(Apply(s, a))
  {
    hide Apply, Enabled;
    var s' := Apply(s, a);
    LockMoves(s, a);
    forall c | c in s'.calls && s'.calls[c].Writing? ensures s'.writer == HeldByCall(c) { StepWriter(s, a, c); }
  }

  lemma LockMoves(s: State, a: Action)
    requires WriterExact(s) && Enabled(s, a)
    ensures var s' := Apply(s, a);
      && (s'.writer == s.writer || a.LockWrite? || a.Write? || a.NotifyLock? || a.NotifyWrite?)
      && (a.LockWrite? ==> s.writer == Free && s'.writer == HeldByCall(a.c))
      && (a.Write? ==> s.writer == HeldByCall(a.c) && s'.writer == Free)
      && (a.NotifyLock? ==> s.writer == Free)
      && (a.NotifyWrite? ==> s.writer == HeldByNotification)
      && (s'.writer.HeldByCall? ==> s'.writer.c in s'.calls && s'.calls[s'.writer.c].Writing?)
  {
  }

  lemma StepKeepsInv(s: State, a: Action)
    requires Inv(s) && Enabled(s, a)
    ensures Inv(Apply(s, a))
  {
    StepKeepsTokens(s, a);
    StepKeepsIds(s, a);
    StepKeepsPending(s, a);
    StepKeepsInbox(s, a);
    StepKeepsReader(s, a);
    StepKeepsOutcomes(s, a);
    StepKeepsWriter(s, a);
  }

  lemma StepKeepsCapacity(s: State, a: Action)
    requires Enabled(s, a)
    ensures Apply(s, a).concurrency == s.concurrency
  {
    hide Next, Actor;
  }

  lemma InitialInv(s: State)
    requires Initial(s)
    ensures Inv(s)
  {
    assert Holders(s) == {};
  }

  lemma {:induction false} RunsKeepInv(s0: State, run: seq<Action>, s: State)
    requires Initial(s0) && Reaches(s0, run, s)
    ensures Inv(s)
    ensures s.concurrency == s0.concurrency
  {
    hide Inv, Enabled, Apply;
    if run == [] {
      InitialInv(s);
    } else {
      var m :| Reaches(s0, run[..|run| - 1], m) && Enabled(m, run[|run| - 1]) && s == Apply(m, run[|run| - 1]);
      RunsKeepInv(s0, run[..|run| - 1], m);
      StepKeepsInv(m, run[|run| - 1]);
      StepKeepsCapacity(m, run[|run| - 1]);
    }
  }

  // ----- what every run guarantees

  /** A call that came back with a reply, or with the server's error, got the frame that bears its own id; the error is the server's exactly if the frame carries one. */
  lemma RepliesBearTheCallersId(s0: State, run: seq<Action>, s: State, c: CallId)
    requires Initial(s0) && Reaches(s0, run, s)
    requires c in s.calls && s.calls[c].Returned?
    ensures s.calls[c].out.Reply? || s.calls[c].out.ServerError? || s.calls[c].out.DecodeError? ==>
      && s.calls[c].drawn.Some? && s.calls[c].out.frame.id == s.calls[c].drawn
      && (s.calls[c].out.ServerError? <==> s.calls[c].out.frame.isError)
  {
    RunsKeepInv(s0, run, s);
    assert OutcomeFits(IdOf(s.calls[c]), OutcomeOf(s.calls[c]).value);
  }

  /** No two calls are answered by the same frame. */
  lemma RepliesAreNotShared(s0: State, run: seq<Action>, s: State, c: CallId, d: CallId)
    requires Initial(s0) && Reaches(s0, run, s)
    requires c in s.calls && s.calls[c].Returned? && s.calls[c].out.Reply?
    requires d in s.calls && s.calls[d].Returned? && s.calls[d].out.Reply?
    requires c != d
    ensures s.calls[c].out.frame != s.calls[d].out.frame
  {
    RunsKeepInv(s0, run, s);
    RepliesBearTheCallersId(s0, run, s, c);
    RepliesBearTheCallersId(s0, run, s, d);
    assert IdOf(s.calls[c]) != IdOf(s.calls[d]);
  }

  /** The calls between acquire and release are exactly the tokens in the semaphore, never above capacity. */
  lemma TokensCountTheCallsInFlight(s0: State, run: seq<Action>, s: State)
    requires Initial(s0) && Reaches(s0, run, s)
    ensures s.tokens == |set c | c in s.calls && HoldsToken(s.calls[c])| <= s0.concurrency
  {
    RunsKeepInv(s0, run, s);
    assert Holders(s) == set c | c in s.calls && HoldsToken(s.calls[c]);
  }

  /** Frames do not mix on the pipe: at most one call, or one notification and no call, is writing. */
  lemma WritesAreExclusive(s0: State, run: seq<Action>, s: State, c: CallId)
    requires Initial(s0) && Reaches(s0, run, s)
    requires c in s.calls && s.calls[c].Writing?
    ensures s.writer == HeldByCall(c)
    ensures !Enabled(s, NotifyWrite) && !Enabled(s, NotifyLock)
    ensures forall d :: d != c ==> !Enabled(s, LockWrite(d)) && !Enabled(s, Write(d, true)) && !Enabled(s, Write(d, false))
  {
    hide Reaches, Initial, Enabled, TokensExact, IdsUnique, PendingExact, InboxFits, ReaderFits, OutcomesFit, WriterExact;
    RunsKeepInv(s0, run, s);
    WriterIsAlone(s, c);
  }

  lemma WriterIsAlone(s: State, c: CallId)
    requires WriterExact(s) && c in s.calls && s.calls[c].Writing?
    ensures s.writer == HeldByCall(c)
    ensures !Enabled(s, NotifyWrite) && !Enabled(s, NotifyLock)
    ensures forall d :: d != c ==> !Enabled(s, LockWrite(d)) && !Enabled(s, Write(d, true)) && !Enabled(s, Write(d, false))
  {
  }

  /** A call that returned has left nothing behind; when all have, the client is as it started. */
  lemma ReturnedCallsLeaveNothing(s0: State, run: seq<Action>, s: State, c: CallId)
    requires Initial(s0) && Reaches(s0, run, s)
    requires c in s.calls && s.calls[c].Returned?
    ensures c !in s.pending.Values
    ensures s.calls[c].drawn.Some? ==> s.calls[c].drawn.value !in s.pending
    ensures c !in Holders(s)
    ensures (forall d :: d in s.calls ==> s.calls[d].Returned?) ==> s.tokens == 0 && s.pending == map[]
  {
    RunsKeepInv(s0, run, s);
    hide Reaches, Initial, TokensExact, IdsUnique, PendingExact, InboxFits, ReaderFits, OutcomesFit, WriterExact;
    forall id | id in s.pending ensures s.pending[id] != c && Some(id) != s.calls[c].drawn {
      PendingOwner(s, id);
    }
    if forall d :: d in s.calls ==> s.calls[d].Returned? { AllReturned(s); }
  }

  lemma AllReturned(s: State)
    requires Inv(s) && forall d :: d in s.calls ==> s.calls[d].Returned?
    ensures s.tokens == 0 && s.pending == map[]
  {
    hide InboxFits, ReaderFits, OutcomesFit, IdsUnique;
    assert Holders(s) == {};
    forall id ensures id !in s.pending {
      if id in s.pending { PendingOwner(s, id); }
    }
  }

  /**
   The reader is never held up by a caller: with a frame in hand it can always step,
   and in two steps it is back at the top of its loop. The lookup changes nothing but the
   reader, and the send at most puts the frame into the empty channel of the one call
   whose id it bears.
   */
  lemma ReaderNeverBlocks(s0: State, run: seq<Action>, s: State)
    requires Initial(s0) && Reaches(s0, run, s)
    requires s.reader.Lookup? || s.reader.Deliver?
    ensures Enabled(s, if s.reader.Lookup? then ReaderLookup else ReaderSend)
    ensures s.reader.Lookup? ==>
      var f := s.reader.frame;
      Apply(s, ReaderLookup) == s.(reader :=
        if f.id.Some? && f.id.value in s.pending then Deliver(f, s.pending[f.id.value]) else Top)
    ensures s.reader.Deliver? ==>
      var s' := Apply(s, ReaderSend);
      var Deliver(f, to) := s.reader;
      && to in s.calls && to in s.inbox && f.id.Some? && IdOf(s.calls[to]) == f.id
      && s' == s.(reader := Top, inbox := if s.inbox[to] == [] then s.inbox[to := [f]] else s.inbox)
  {
    RunsKeepInv(s0, run, s);
    hide Apply, InboxFits, ReaderFits;
    if s.reader.Lookup? { LookupEffect(s); } else { SendEffect(s); }
  }

  lemma LookupEffect(s: State)
    requires s.reader.Lookup?
    ensures Enabled(s, ReaderLookup)
    ensures var f := s.reader.frame;
      Apply(s, ReaderLookup) == s.(reader :=
        if f.id.Some? && f.id.value in s.pending then Deliver(f, s.pending[f.id.value]) else Top)
  {
  }

  lemma SendEffect(s: State)
    requires s.reader.Deliver? && InboxFits(s) && ReaderFits(s)
    ensures Enabled(s, ReaderSend)
    ensures var Deliver(f, to) := s.reader;
      && to in s.calls && to in s.inbox && f.id.Some? && IdOf(s.calls[to]) == f.id
      && Apply(s, ReaderSend) == s.(reader := Top, inbox := if s.inbox[to] == [] then s.inbox[to := [f]] else s.inbox)
  {
  }

  /** Two reader steps from here, call `c` can take the reader's frame and finish with it. */
  predicate ReaderDelivers(s: State, c: CallId) {
    && c in s.calls && s.calls[c].AwaitReply?
    && Enabled(s, ReaderLookup)
    && var found := Apply(s, ReaderLookup);
    && Enabled(found, ReaderSend)
    && var sent := Apply(found, ReaderSend);
    && forall decodes ::
         && Enabled(sent, Receive(c, decodes))
         && Apply(sent, Receive(c, decodes)).calls[c] == Deregister(s.calls[c].id,
              if s.reader.frame.isError then ServerError(s.reader.frame)
              else if decodes then Reply(s.reader.frame) else DecodeError(s.reader.frame))
  }

  lemma DeliverySteps(s: State, c: CallId, id: int)
    requires c in s.calls && s.calls[c] == AwaitReply(id) && s.reader.Lookup? && s.reader.frame.id == Some(id)
    requires id in s.pending && s.pending[id] == c && c in s.inbox && s.inbox[c] == []
    ensures ReaderDelivers(s, c)
  {
    var found := Apply(s, ReaderLookup);
    assert found == s.(reader := Deliver(s.reader.frame, c));
    assert Apply(found, ReaderSend) == s.(reader := Top, inbox := s.inbox[c := [s.reader.frame]]);
  }

  /** A reply for a call that is waiting with an empty channel reaches it: the lookup finds it, the send succeeds. */
  lemma ReplyIsDelivered(s0: State, run: seq<Action>, s: State, c: CallId)
    requires Initial(s0) && Reaches(s0, run, s)
    requires c in s.calls && s.calls[c].AwaitReply? && s.reader.Lookup?
    requires s.reader.frame.id == Some(s.calls[c].id)
    ensures c in s.inbox
    ensures s.inbox[c] == [] ==> ReaderDelivers(s, c)
  {
    RunsKeepInv(s0, run, s);
    WaitingIsPending(s, c);
    hide Inv, Enabled, Apply, ReaderDelivers;
    if s.inbox[c] == [] { DeliverySteps(s, c, s.calls[c].id); }
  }

  lemma WaitingIsPending(s: State, c: CallId)
    requires Inv(s) && c in s.calls && s.calls[c].AwaitReply?
    ensures s.calls[c].id in s.pending && s.pending[s.calls[c].id] == c && c in s.inbox
  {
    assert IsPending(s.calls[c]);
  }

  // ----- shutdown

  /** An upper bound on the steps a call still takes. */
  function StepsLeft(pc: Pc): nat {
    match pc
    case Start => 9
    case AwaitToken => 8
    case Acquired => 7
    case Identified(_) => 6
    case Registered(_) => 5
    case Writing(_) => 4
    case AwaitReply(_) => 3
    case Deregister(_, _) => 2
    case Release(_, _) => 1
    case Returned(_, _) => 0
  }

  /** The call is about to lock the write mutex, and another call or a notification holds it. */
  predicate WaitsForWriter(s: State, c: CallId) {
    c in s.calls && s.calls[c].Registered? && s.writer != Free
  }

  /** How often a call may still find the write mutex held, if only it and the holder step. */
  function WaitsLeft(s: State, c: CallId): nat
    requires c in s.calls
  {
    if s.writer != Free && StepsLeft(s.calls[c]) >= StepsLeft(Registered(0)) then 1 else 0
  }

  /** The step that ends the write under way. */
  function EndWrite(s: State): Action
    requires s.writer != Free
  {
    if s.writer.HeldByCall? then Write(s.writer.c, false) else NotifyWrite
  }

  /**
   Once `closeCh` is closed a call can wait for one thing only, the write mutex: unless another holds
   that, it has a step of its own, which brings it nearer to returning; and the holder can always unlock it.
   */
  lemma ClosedCallsCanStep(s: State, c: CallId) returns (a: Action)
    requires Inv(s) && s.closeCh
    requires c in s.calls && !s.calls[c].Returned?
    ensures Enabled(s, a) && Apply(s, a).closeCh && c in Apply(s, a).calls
    ensures WaitsForWriter(s, c) ==>
      && (forall b :: Actor(b) == Some(c) ==> !Enabled(s, b))
      && a == EndWrite(s) && Actor(a) != Some(c)
      && Apply(s, a).writer == Free && Apply(s, a).calls[c] == s.calls[c]
    ensures !WaitsForWriter(s, c) ==>
      && Actor(a) == Some(c)
      && StepsLeft(Apply(s, a).calls[c]) < StepsLeft(s.calls[c])
      && WaitsLeft(Apply(s, a), c) <= WaitsLeft(s, c)
      && (WaitsLeft(Apply(s, a), c) > 0 ==> Apply(s, a).writer == s.writer)
  {
    if WaitsForWriter(s, c) {
      a := EndWrite(s);
    } else {
      a := OwnStep(s, c);
    }
  }

  lemma OwnStep(s: State, c: CallId) returns (a: Action)
    requires Inv(s) && s.closeCh
    requires c in s.calls && !s.calls[c].Returned? && !WaitsForWriter(s, c)
    ensures Enabled(s, a) && Actor(a) == Some(c) && Apply(s, a).closeCh && c in Apply(s, a).calls
    ensures StepsLeft(Apply(s, a).calls[c]) < StepsLeft(s.calls[c])
    ensures WaitsLeft(Apply(s, a), c) <= WaitsLeft(s, c)
    ensures WaitsLeft(Apply(s, a), c) > 0 ==> Apply(s, a).writer == s.writer
  {
    hide Next, PendingAfter, InboxAfter, ReaderAfter;
    a := OwnAction(s, c);
    CallsOnlyAdvance(s, a, c);
  }

  lemma OwnAction(s: State, c: CallId) returns (a: Action)
    requires Inv(s) && s.closeCh
    requires c in s.calls && !s.calls[c].Returned? && !WaitsForWriter(s, c)
    ensures Enabled(s, a) && Actor(a) == Some(c)
    ensures a.LockWrite? ==> s.calls[c].Registered?
  {
    match s.calls[c]
    case Start => a := CheckClosed(c);
    case AwaitToken => a := GiveUpToken(c, Closed);
    case Acquired => a := DrawId(c);
    case Identified(_) => a := Register(c);
    case Registered(_) => a := LockWrite(c);
    case Writing(_) => a := Write(c, false);
    case AwaitReply(_) => a := GiveUpReply(c, Closed);
    case Deregister(_, _) => a := Delete(c);
    case Release(_, _) =>
      assert c in Holders(s);
      assert s.tokens > 0;
      a := ReleaseToken(c);
  }

  /** Every step a call takes, in any state, brings it nearer to returning, and no other step moves it. */
  lemma CallsOnlyAdvance(s: State, a: Action, c: CallId)
    requires Enabled(s, a) && c in s.calls
    ensures c in Apply(s, a).calls
    ensures Actor(a) == Some(c) ==> StepsLeft(Apply(s, a).calls[c]) < StepsLeft(s.calls[c])
    ensures Actor(a) != Some(c) ==> Apply(s, a).calls[c] == s.calls[c]
  {
    hide PendingAfter, InboxAfter, ReaderAfter, WriterAfter;
  }

  lemma {:induction false} ReachesOnward(s0: State, run: seq<Action>, s: State, a: Action)
    requires Reaches(s0, run, s) && Enabled(s, a)
    ensures Reaches(s0, run + [a], Apply(s, a))
  {
    assert (run + [a])[..|run + [a]| - 1] == run;
  }

  /** The steps in `more` that are not call `c`'s own. */
  function OthersIn(more: seq<Action>, c: CallId): nat {
    if more == [] then 0 else (if Actor(more[0]) == Some(c) then 0 else 1) + OthersIn(more[1..], c)
  }

  /**
   After `Close`, any call returns within nine steps of its own, once the holder of the write
   mutex has ended its write; if the mutex is free, by its own steps alone.
   */
  lemma {:induction false} ClosedCallsReturn(s0: State, run: seq<Action>, s: State, c: CallId)
    returns (more: seq<Action>, end: State)
    requires Initial(s0) && Reaches(s0, run, s)
    requires s.closeCh && c in s.calls
    ensures Reaches(s0, run + more, end)
    ensures OthersIn(more, c) <= WaitsLeft(s, c) <= 1
    ensures |more| - OthersIn(more, c) <= StepsLeft(s.calls[c]) <= 9
    ensures forall b :: b in more && Actor(b) != Some(c) ==> s.writer != Free && b == EndWrite(s)
    ensures c in end.calls && end.calls[c].Returned?
    decreases StepsLeft(s.calls[c]), WaitsLeft(s, c)
  {
    hide Enabled, Apply, Inv, Actor;
    if s.calls[c].Returned? {
      more, end := [], s;
      assert run + more == run;
    } else {
      RunsKeepInv(s0, run, s);
      var a := ClosedCallsCanStep(s, c);
      ReachesOnward(s0, run, s, a);
      var rest: seq<Action>;
      rest, end := ClosedCallsReturn(s0, run + [a], Apply(s, a), c);
      more := [a] + rest;
      assert run + more == run + [a] + rest && more[1..] == rest;
      OwnStepsOnly(rest, c);
    }
  }

  lemma {:induction false} OwnStepsOnly(more: seq<Action>, c: CallId)
    ensures OthersIn(more, c) == 0 ==> forall b :: b in more ==> Actor(b) == Some(c)
  {
    if more != [] { OwnStepsOnly(more[1..], c); }
  }

  lemma StepKeepsRefused(s: State, a: Action, c: CallId)
    requires s.closed && Enabled(s, a)
    requires c in s.calls ==> s.calls[c] == Start || s.calls[c] == Returned(None, Closed)
    ensures Apply(s, a).closed
    ensures c in Apply(s, a).calls ==> Apply(s, a).calls[c] == Start || Apply(s, a).calls[c] == Returned(None, Closed)
  {
    hide PendingAfter, ReaderAfter, WriterAfter;
  }

  /** A call that begins after `Close` has stored `closed` gets no further than its check, and returns `ErrClosed`. */
  lemma {:induction false} LateCallsAreRefused(s: State, more: seq<Action>, s': State, c: CallId)
    requires s.closed && c !in s.calls && Reaches(s, more, s')
    ensures s'.closed
    ensures c in s'.calls ==> s'.calls[c] == Start || s'.calls[c] == Returned(None, Closed)
  {
    hide Enabled, Apply;
    if more != [] {
      var m :| Reaches(s, more[..|more| - 1], m) && Enabled(m, more[|more| - 1]) && s' == Apply(m, more[|more| - 1]);
      LateCallsAreRefused(s, more[..|more| - 1], m, c);
      StepKeepsRefused(m, more[|more| - 1], c);
    }
  }

  /** How many notifications can still be written if no more pass the check. */
  function NotificationsLeft(s: State): nat {
    s.notifying + if s.writer == HeldByNotification then 1 else 0
  }

  function Written(more: seq<Action>): nat {
    if more == [] then 0 else Written(more[..|more| - 1]) + if more[|more| - 1] == NotifyWrite then 1 else 0
  }

  lemma StepNotifies(s: State, a: Action)
    requires Enabled(s, a) && s.closed
    ensures Apply(s, a).closed && a != NotifyPass
    ensures NotificationsLeft(Apply(s, a)) + (if a == NotifyWrite then 1 else 0) <= NotificationsLeft(s)
  {
    hide Next, PendingAfter, InboxAfter, ReaderAfter;
  }

  function Passed(run: seq<Action>): nat {
    if run == [] then 0 else Passed(run[..|run| - 1]) + if run[|run| - 1] == NotifyPass then 1 else 0
  }

  lemma StepAccounts(s: State, a: Action)
    requires Enabled(s, a) && (s.writer.HeldByCall? ==> !a.NotifyLock?)
    requires a.LockWrite? ==> s.writer == Free
    requires a.Write? ==> s.writer == HeldByCall(a.c)
    ensures NotificationsLeft(Apply(s, a)) + (if a == NotifyWrite then 1 else 0) == NotificationsLeft(s) + if a == NotifyPass then 1 else 0
  {
    hide Next, PendingAfter, InboxAfter, ReaderAfter;
  }

  /** No notification is lost or written twice: those that passed the check are written, being written, or waiting to be. */
  lemma {:induction false} NotificationsAreAccountedFor(s0: State, run: seq<Action>, s: State)
    requires Initial(s0) && Reaches(s0, run, s)
    ensures Passed(run) == Written(run) + NotificationsLeft(s)
  {
    hide Enabled, Apply, NotificationsLeft;
    if run == [] {
      assert NotificationsLeft(s) == 0 by { NoneLeft(s); }
    } else {
      var before, a := run[..|run| - 1], run[|run| - 1];
      var m :| Reaches(s0, before, m) && Enabled(m, a) && s == Apply(m, a);
      NotificationsAreAccountedFor(s0, before, m);
      hide Inv;
      RunsKeepInv(s0, before, m);
      assert WriterExact(m) by { InvWriter(m); }
      LockMoves(m, a);
      StepAccounts(m, a);
    }
  }

  lemma NoneLeft(s: State)
    requires Initial(s)
    ensures NotificationsLeft(s) == 0
  {
  }

  lemma InvWriter(s: State)
    requires Inv(s)
    ensures WriterExact(s)
  {
  }

  /**
   Once `closed` is stored no notification passes its check: those already past it are all that
   is still written. So the `shutdown` and `exit` that `Close` sends after storing it are not.
   */
  lemma {:induction false} LateNotificationsAreRefused(s: State, more: seq<Action>, s': State)
    requires s.closed && Reaches(s, more, s')
    ensures s'.closed && NotifyPass !in more
    ensures Written(more) + NotificationsLeft(s') <= NotificationsLeft(s)
  {
    hide Enabled, Apply, NotificationsLeft;
    if more != [] {
      var before, a := more[..|more| - 1], more[|more| - 1];
      var m :| Reaches(s, before, m) && Enabled(m, a) && s' == Apply(m, a);
      LateNotificationsAreRefused(s, before, m);
      StepNotifies(m, a);
      assert more == before + [a];
    }
  }
}
