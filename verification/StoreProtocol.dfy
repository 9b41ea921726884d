/**
 The file lookup and the reload of a repository when several calls overlap and files change
 meanwhile: one step is one system call or one critical section of the cache or of the
 repository. A later write to a path has a later modification time; nothing else is asked of
 the disk, so a read may find newer content than the `stat` before it announced.
 */
module StoreProtocol {
  import opened Wrappers
  import opened Recency
  import opened Cache
  import opened Symbols
  import opened Store

  type ThreadId = nat

  /** Where a call is; `start`, `at` (of the `stat`) and `readAt` are instants, kept for the proof. */
  datatype Pc =
    | Lookup(path: string, start: nat)                          // about to check the prefix and stat
    | Statted(path: string, start: nat, at: nat, mtime: int)    // about to ask the hot cache
    | Missed(path: string, start: nat, at: nat, mtime: int)     // about to ask the resident map
    | Promote(path: string, start: nat, f: SourceFile)          // about to put a resident file into the hot cache
    | ReloadCall(path: string, start: nat)                          // about to check the prefix of a path to reload
    | Parse(path: string, start: nat)                           // about to find a grammar and stat for the parse
    | Reading(path: string, start: nat, at: nat, mtime: int)    // about to read the content
    | Parsed(path: string, start: nat, at: nat, readAt: nat, f: SourceFile)    // about to put it into the hot cache
    | Recording(path: string, start: nat, at: nat, readAt: nat, f: SourceFile) // about to record it in the maps
    | Done(path: string, start: nat, end: nat, result: Result<SourceFile, Error>)

  /** `history` lists every state of the disk so far, the present one last. */
  datatype State = State(
    history: seq<Disk>,
    hot: Recency<string, SourceFile>,
    files: map<string, SourceFile>,
    symbolsByPath: map<string, seq<Symbol>>,
    threads: map<ThreadId, Pc>)

  datatype Action =
    | Write(path: string, mtime: int)
    | Remove(path: string)
    | CallLookup(t: ThreadId, path: string)
    | CallReload(t: ThreadId, path: string)
    | Step(t: ThreadId)

  function Now(s: State): nat
    requires s.history != []
  {
    |s.history| - 1
  }

  function Disk(s: State): Disk
    requires s.history != []
  {
    s.history[|s.history| - 1]
  }

  predicate LaterThanBefore(history: seq<Disk>, path: string, mtime: int) {
    forall i :: 0 <= i < |history| && path in history[i] ==> history[i][path] < mtime
  }

  predicate Enabled(s: State, a: Action) {
    && s.history != []
    && match a
       case Write(path, mtime) => LaterThanBefore(s.history, path, mtime)
       case Remove(_) => true
       case CallLookup(t, _) => t !in s.threads
       case CallReload(t, _) => t !in s.threads
       case Step(t) => t in s.threads && !s.threads[t].Done?
  }

  function At(s: State, t: ThreadId, pc: Pc): State {
    s.(threads := s.threads[t := pc])
  }

  function Finish(s: State, t: ThreadId, result: Result<SourceFile, Error>): State
    requires s.history != [] && t in s.threads
  {
    At(s, t, Done(s.threads[t].path, s.threads[t].start, Now(s), result))
  }

  function StepOf(w: World, cap: nat, s: State, t: ThreadId): State
    requires s.history != [] && t in s.threads
  {
    match s.threads[t]
    case Lookup(path, start) =>
      if !HasPrefix(path, w.root) || path !in Disk(s) then Finish(s, t, Err(NotFound))
      else At(s, t, Statted(path, start, Now(s), Disk(s)[path]))
    case Statted(path, start, at, mtime) =>
      var looked := s.(hot := AfterLookup(s.hot, path, SameMTime(mtime)));
      (match Hit(s.hot, path, SameMTime(mtime))
       case Some(f) => Finish(looked, t, Ok(f))
       case None => At(looked, t, Missed(path, start, at, mtime)))
    case Missed(path, start, at, mtime) =>
      if path in s.files && s.files[path].mtime == mtime then At(s, t, Promote(path, start, s.files[path]))
      else At(s, t, Parse(path, start))
    case Promote(path, start, f) => Finish(s.(hot := AfterInsert(s.hot, f.path, f, cap)), t, Ok(f))
    case ReloadCall(path, start) =>
      if !HasPrefix(path, w.root) then Finish(s, t, Err(NotFound)) else At(s, t, Parse(path, start))
    case Parse(path, start) =>
      if !w.detect(path) then Finish(s, t, Err(Unsupported))
      else if path !in Disk(s) then Finish(s, t, Err(LoadFailed("stat")))
      else At(s, t, Reading(path, start, Now(s), Disk(s)[path]))
    case Reading(path, start, at, mtime) =>
      if path !in Disk(s) then Finish(s, t, Err(LoadFailed("read")))
      else
        (match w.read(path, Disk(s)[path])
         case Ok(content) => At(s, t, Parsed(path, start, at, Now(s), SourceFile(path, content, mtime)))
         case Err(why) => Finish(s, t, Err(LoadFailed(why))))
    case Parsed(path, start, at, readAt, f) =>
      At(s.(hot := AfterInsert(s.hot, f.path, f, cap)), t, Recording(path, start, at, readAt, f))
    case Recording(path, start, at, readAt, f) =>
      Finish(s.(files := s.files[f.path := f],
                symbolsByPath := if w.extractable(f.path) then s.symbolsByPath[f.path := w.extract(f.path, f.content)] else s.symbolsByPath),
             t, Ok(f))
    case Done(_, _, _, _) => s
  }

  function Apply(w: World, cap: nat, s: State, a: Action): State
    requires Enabled(s, a)
  {
    match a
    case Write(path, mtime) => s.(history := s.history + [Disk(s)[path := mtime]])
    case Remove(path) => s.(history := s.history + [Disk(s) - {path}])
    case CallLookup(t, path) => At(s, t, Lookup(path, Now(s)))
    case CallReload(t, path) => At(s, t, ReloadCall(path, Now(s)))
    case Step(t) => StepOf(w, cap, s, t)
  }

  /** A repository just loaded, with any of the files on disk resident. */
  predicate Initial(w: World, s: State) {
    && |s.history| == 1 && s.hot == [] && s.threads == map[]
    && (forall p :: p in s.files ==> HasPrefix(p, w.root) && w.detect(p) && LoadFile(w, s.history[0], p) == Ok(s.files[p]))
    && s.symbolsByPath == SymbolsOf(w, s.files)
  }

  ghost predicate Reaches(w: World, cap: nat, s0: State, run: seq<Action>, s: State) {
    if run == [] then s == s0
    else
      var before := run[..|run| - 1];
      exists m :: Reaches(w, cap, s0, before, m) && Enabled(m, run[|run| - 1]) && s == Apply(w, cap, m, run[|run| - 1])
  }

  // ----- the invariant

  /** Modification times only grow. */
  ghost predicate Growing(history: seq<Disk>) {
    && history != []
    && forall i, j, p :: 0 <= i <= j < |history| && p in history[i] && p in history[j] ==> history[i][p] <= history[j][p]
  }

  /** At instant `i` a read of `path` gives `content`. */
  predicate Reads(w: World, history: seq<Disk>, path: string, content: string, i: nat) {
    i < |history| && path in history[i] && w.read(path, history[i][path]) == Ok(content)
  }

  predicate HasMTime(history: seq<Disk>, path: string, mtime: int, i: nat) {
    i < |history| && path in history[i] && history[i][path] == mtime
  }

  /** `f` got its modification time from the disk at instant `i`, and its content no earlier, at instant `j`. */
  predicate SourcedAt(w: World, history: seq<Disk>, f: SourceFile, i: nat, j: nat) {
    i <= j && HasMTime(history, f.path, f.mtime, i) && Reads(w, history, f.path, f.content, j)
  }

  ghost predicate Sourced(w: World, history: seq<Disk>, f: SourceFile) {
    && HasPrefix(f.path, w.root) && w.detect(f.path)
    && exists i, j :: SourcedAt(w, history, f, i, j)
  }

  /** Between two instants the disk held this content under this path. */
  ghost predicate Current(w: World, history: seq<Disk>, path: string, content: string, start: nat, end: nat) {
    exists i :: start <= i <= end && Reads(w, history, path, content, i)
  }

  /** An error is one the disk, or the path, gave between the two instants. */
  ghost predicate Explained(w: World, history: seq<Disk>, path: string, error: Error, start: nat, end: nat) {
    match error
    case NotFound => !HasPrefix(path, w.root) || exists i :: start <= i <= end && i < |history| && path !in history[i]
    case Unsupported => !w.detect(path)
    case LoadFailed(why) =>
      exists i :: start <= i <= end && i < |history| && (path in history[i] ==> w.read(path, history[i][path]) == Err(why))
  }

  ghost predicate Sound(w: World, history: seq<Disk>, path: string, start: nat, end: nat, result: Result<SourceFile, Error>) {
    match result
    case Ok(f) => f.path == path && Current(w, history, path, f.content, start, end)
    case Err(e) => Explained(w, history, path, e, start, end)
  }

  /** A file in the hands of a call: it is its path's, and its content is current for the call. */
  ghost predicate InHand(w: World, history: seq<Disk>, path: string, start: nat, f: SourceFile) {
    f.path == path && Sourced(w, history, f) && Current(w, history, path, f.content, start, |history| - 1)
  }

  ghost predicate PcOk(w: World, history: seq<Disk>, pc: Pc)
    requires history != []
  {
    && pc.start < |history|
    && match pc
       case Lookup(_, _) => true
       case ReloadCall(_, _) => true
       case Parse(path, _) => HasPrefix(path, w.root)
       case Statted(path, start, at, mtime) => start <= at && HasMTime(history, path, mtime, at) && HasPrefix(path, w.root)
       case Missed(path, start, at, mtime) => start <= at && HasMTime(history, path, mtime, at) && HasPrefix(path, w.root)
       case Reading(path, start, at, mtime) =>
         start <= at && HasMTime(history, path, mtime, at) && HasPrefix(path, w.root) && w.detect(path)
       case Promote(path, start, f) => InHand(w, history, path, start, f)
       case Parsed(path, start, at, readAt, f) => InHand(w, history, path, start, f) && SourcedAt(w, history, f, at, readAt)
       case Recording(path, start, at, readAt, f) => InHand(w, history, path, start, f) && SourcedAt(w, history, f, at, readAt)
       case Done(path, start, end, result) => start <= end < |history| && Sound(w, history, path, start, end, result)
  }

  ghost predicate HeldFilesOk(w: World, s: State) {
    && (forall p :: p in s.hot ==> p.1.path == p.0 && Sourced(w, s.history, p.1))
    && (forall path :: path in s.files ==> s.files[path].path == path && Sourced(w, s.history, s.files[path]))
  }

  /** The symbols on record are those of the file on record, for both change under one lock. */
  predicate SymbolsInStep(w: World, s: State) {
    && (forall path :: path in s.files ==>
          (if path in s.symbolsByPath then s.symbolsByPath[path] else []) == Extraction(w, s.files[path]))
    && (forall path :: path in s.symbolsByPath && !w.extractable(path) ==> s.symbolsByPath[path] == [])
  }

  ghost predicate Inv(w: World, s: State) {
    && Growing(s.history)
    && HeldFilesOk(w, s)
    && SymbolsInStep(w, s)
    && forall t :: t in s.threads ==> PcOk(w, s.history, s.threads[t])
  }

  // ----- why a cached file is current

  /**
   The heart of it: a file whose modification time the disk shows at an instant of the call has
   content the disk holds at an instant of the call. If it was read before, the time it was read
   at lies between two equal ones, so the content has not changed since.
   */
  lemma CachedIsCurrent(w: World, history: seq<Disk>, f: SourceFile, start: nat, at: nat)
    requires Growing(history) && Sourced(w, history, f)
    requires start <= at && HasMTime(history, f.path, f.mtime, at)
    ensures Current(w, history, f.path, f.content, start, |history| - 1)
  {
    var i: nat, j: nat :| SourcedAt(w, history, f, i, j);
    if j < at {
      assert history[i][f.path] <= history[j][f.path] <= history[at][f.path];
      assert Reads(w, history, f.path, f.content, at);
    } else {
      assert Reads(w, history, f.path, f.content, j);
    }
  }

  // ----- a longer history

  lemma SourcedLonger(w: World, history: seq<Disk>, d: Disk, f: SourceFile)
    requires Sourced(w, history, f)
    ensures Sourced(w, history + [d], f)
  {
    var i: nat, j: nat :| SourcedAt(w, history, f, i, j);
    assert SourcedAt(w, history + [d], f, i, j);
  }

  lemma CurrentLonger(w: World, history: seq<Disk>, d: Disk, path: string, content: string, start: nat, end: nat, end': nat)
    requires Current(w, history, path, content, start, end) && end <= end'
    ensures Current(w, history + [d], path, content, start, end')
  {
    var i :| start <= i <= end && Reads(w, history, path, content, i);
    assert Reads(w, history + [d], path, content, i);
  }

  lemma ExplainedLonger(w: World, history: seq<Disk>, d: Disk, path: string, error: Error, start: nat, end: nat)
    requires Explained(w, history, path, error, start, end)
    ensures Explained(w, history + [d], path, error, start, end)
  {
    match error
    case NotFound =>
      if HasPrefix(path, w.root) {
        var i :| start <= i <= end && i < |history| && path !in history[i];
        assert (history + [d])[i] == history[i];
      }
    case Unsupported =>
    case LoadFailed(why) =>
      var i :| start <= i <= end && i < |history| && (path in history[i] ==> w.read(path, history[i][path]) == Err(why));
      assert (history + [d])[i] == history[i];
  }

  lemma PcLonger(w: World, history: seq<Disk>, d: Disk, pc: Pc)
    requires history != [] && PcOk(w, history, pc)
    ensures PcOk(w, history + [d], pc)
  {
    hide Sourced, Current, Explained;
    match pc
    case Promote(path, start, f) => HandLonger(w, history, d, path, start, f);
    case Parsed(path, start, _, _, f) => HandLonger(w, history, d, path, start, f);
    case Recording(path, start, _, _, f) => HandLonger(w, history, d, path, start, f);
    case Done(path, start, end, result) =>
      match result {
        case Ok(f) => CurrentLonger(w, history, d, path, f.content, start, end, end);
        case Err(e) => ExplainedLonger(w, history, d, path, e, start, end);
      }
    case _ =>
  }

  lemma HandLonger(w: World, history: seq<Disk>, d: Disk, path: string, start: nat, f: SourceFile)
    requires history != [] && InHand(w, history, path, start, f)
    ensures InHand(w, history + [d], path, start, f)
  {
    hide Sourced, Current;
    SourcedLonger(w, history, d, f);
    CurrentLonger(w, history, d, path, f.content, start, |history| - 1, |history|);
  }

  lemma GrowsOn(history: seq<Disk>, d: Disk)
    requires Growing(history)
    requires forall p, i :: p in d && 0 <= i < |history| && p in history[i] ==> history[i][p] <= d[p]
    ensures Growing(history + [d])
  {
  }

  lemma EditKeepsInv(w: World, s: State, s': State, d: Disk)
    requires Inv(w, s) && s' == s.(history := s.history + [d])
    requires forall p, i :: p in d && 0 <= i < |s.history| && p in s.history[i] ==> s.history[i][p] <= d[p]
    ensures Inv(w, s')
  {
    assert s.history != [];
    hide Sourced, PcOk, Growing, SymbolsInStep;
    GrowsOn(s.history, d);
    forall p | p in s'.hot ensures p.1.path == p.0 && Sourced(w, s'.history, p.1) { SourcedLonger(w, s.history, d, p.1); }
    forall path | path in s'.files ensures s'.files[path].path == path && Sourced(w, s'.history, s'.files[path]) {
      SourcedLonger(w, s.history, d, s.files[path]);
    }
    forall t | t in s'.threads ensures PcOk(w, s'.history, s'.threads[t]) { PcLonger(w, s.history, d, s.threads[t]); }
    assert SymbolsInStep(w, s') by { SymbolsStay(w, s, s'); }
  }

  lemma SymbolsStay(w: World, s: State, s': State)
    requires SymbolsInStep(w, s) && s'.files == s.files && s'.symbolsByPath == s.symbolsByPath
    ensures SymbolsInStep(w, s')
  {
  }

  /** The present disk is the latest entry of its history. */
  lemma PresentIsLatest(history: seq<Disk>, i: nat, p: string)
    requires Growing(history) && i < |history| && p in history[i] && p in history[|history| - 1]
    ensures history[i][p] <= history[|history| - 1][p]
  {
  }

  // ----- one step of a call

  lemma HotStaysOk(w: World, history: seq<Disk>, hot: Recency<string, SourceFile>, path: string, mtime: int, p: (string, SourceFile))
    requires forall q :: q in hot ==> q.1.path == q.0 && Sourced(w, history, q.1)
    requires p in AfterLookup(hot, path, SameMTime(mtime))
    ensures p.1.path == p.0 && Sourced(w, history, p.1)
  {
    hide Sourced;
    LookupEntries(hot, path, SameMTime(mtime), p);
  }

  lemma HotGains(w: World, history: seq<Disk>, hot: Recency<string, SourceFile>, f: SourceFile, cap: nat, p: (string, SourceFile))
    requires forall q :: q in hot ==> q.1.path == q.0 && Sourced(w, history, q.1)
    requires Sourced(w, history, f) && p in AfterInsert(hot, f.path, f, cap)
    ensures p.1.path == p.0 && Sourced(w, history, p.1)
  {
    hide Sourced;
    InsertEntries(hot, f.path, f, cap, p);
  }

  lemma StepKeepsHeld(w: World, cap: nat, s: State, t: ThreadId)
    requires Inv(w, s) && t in s.threads
    ensures HeldFilesOk(w, StepOf(w, cap, s, t))
  {
    hide Sourced, Current, Growing, SymbolsInStep, AfterLookup, AfterInsert, Hit, SameMTime, Extraction, Explained;
    var s' := StepOf(w, cap, s, t);
    assert PcOk(w, s.history, s.threads[t]);
    match s.threads[t]
    case Statted(path, start, at, mtime) =>
      forall p | p in s'.hot ensures p.1.path == p.0 && Sourced(w, s.history, p.1) { HotStaysOk(w, s.history, s.hot, path, mtime, p); }
    case Promote(path, start, f) =>
      forall p | p in s'.hot ensures p.1.path == p.0 && Sourced(w, s.history, p.1) { HotGains(w, s.history, s.hot, f, cap, p); }
    case Parsed(path, start, _, _, f) =>
      forall p | p in s'.hot ensures p.1.path == p.0 && Sourced(w, s.history, p.1) { HotGains(w, s.history, s.hot, f, cap, p); }
    case _ =>
  }

  lemma HitIsHeld(hot: Recency<string, SourceFile>, path: string, mtime: int)
    requires Hit(hot, path, SameMTime(mtime)).Some?
    ensures var f := Hit(hot, path, SameMTime(mtime)).value; (path, f) in hot && f.mtime == mtime
  {
  }

  /** The steps that answer from a cache, or ask the next one. */
  lemma CacheStepKeepsPc(w: World, cap: nat, s: State, t: ThreadId)
    requires s.history != [] && Growing(s.history) && HeldFilesOk(w, s) && t in s.threads && PcOk(w, s.history, s.threads[t])
    requires s.threads[t].Statted? || s.threads[t].Missed?
    ensures t in StepOf(w, cap, s, t).threads && PcOk(w, s.history, StepOf(w, cap, s, t).threads[t])
  {
    hide Sourced, Current, Growing, AfterLookup, AfterInsert, Hit, SameMTime, Explained;
    var pc := s.threads[t];
    if pc.Statted? {
      if Hit(s.hot, pc.path, SameMTime(pc.mtime)).Some? {
        var f := Hit(s.hot, pc.path, SameMTime(pc.mtime)).value;
        HitIsHeld(s.hot, pc.path, pc.mtime);
        assert (pc.path, f).1.path == (pc.path, f).0 && Sourced(w, s.history, (pc.path, f).1);
        CachedIsCurrent(w, s.history, f, pc.start, pc.at);
      }
    } else if pc.path in s.files && s.files[pc.path].mtime == pc.mtime {
      CachedIsCurrent(w, s.history, s.files[pc.path], pc.start, pc.at);
    }
  }

  /** The steps that look at the disk, or at the path alone. */
  lemma DiskStepKeepsPc(w: World, cap: nat, s: State, t: ThreadId)
    requires s.history != [] && t in s.threads && PcOk(w, s.history, s.threads[t])
    requires s.threads[t].Lookup? || s.threads[t].ReloadCall? || s.threads[t].Parse? || s.threads[t].Reading?
    ensures t in StepOf(w, cap, s, t).threads && PcOk(w, s.history, StepOf(w, cap, s, t).threads[t])
  {
    hide Sourced, Current, AfterLookup, AfterInsert, Hit, SameMTime;
    var pc := s.threads[t];
    if pc.Reading? && pc.path in Disk(s) && w.read(pc.path, Disk(s)[pc.path]).Ok? {
      ReadIsInHand(w, s.history, pc.path, pc.start, pc.at, pc.mtime);
    }
  }

  /** The steps that put away a file in hand. */
  lemma PutStepKeepsPc(w: World, cap: nat, s: State, t: ThreadId)
    requires s.history != [] && t in s.threads && PcOk(w, s.history, s.threads[t])
    requires s.threads[t].Promote? || s.threads[t].Parsed? || s.threads[t].Recording? || s.threads[t].Done?
    ensures t in StepOf(w, cap, s, t).threads && PcOk(w, s.history, StepOf(w, cap, s, t).threads[t])
  {
    hide Sourced, Current, Explained, AfterLookup, AfterInsert, Hit, SameMTime;
  }

  lemma StepKeepsPc(w: World, cap: nat, s: State, t: ThreadId)
    requires Inv(w, s) && t in s.threads
    ensures t in StepOf(w, cap, s, t).threads && PcOk(w, s.history, StepOf(w, cap, s, t).threads[t])
  {
    assert s.history != [];
    hide PcOk, Growing, SymbolsInStep, HeldFilesOk, StepOf;
    match s.threads[t]
    case Statted(_, _, _, _) | Missed(_, _, _, _) => CacheStepKeepsPc(w, cap, s, t);
    case Promote(_, _, _) | Parsed(_, _, _, _, _) | Recording(_, _, _, _, _) | Done(_, _, _, _) => PutStepKeepsPc(w, cap, s, t);
    case _ => DiskStepKeepsPc(w, cap, s, t);
  }

  lemma ReadIsInHand(w: World, history: seq<Disk>, path: string, start: nat, at: nat, mtime: int)
    requires history != [] && start <= at && HasMTime(history, path, mtime, at) && HasPrefix(path, w.root) && w.detect(path)
    requires path in history[|history| - 1] && w.read(path, history[|history| - 1][path]).Ok?
    ensures var f := SourceFile(path, w.read(path, history[|history| - 1][path]).value, mtime);
      InHand(w, history, path, start, f) && SourcedAt(w, history, f, at, |history| - 1)
  {
    var f := SourceFile(path, w.read(path, history[|history| - 1][path]).value, mtime);
    assert SourcedAt(w, history, f, at, |history| - 1);
    assert Reads(w, history, path, f.content, |history| - 1);
  }

  /** Only recording touches the two maps, and it puts in a file together with its symbols. */
  lemma StepMaps(w: World, cap: nat, s: State, t: ThreadId)
    requires s.history != [] && t in s.threads
    ensures var s' := StepOf(w, cap, s, t);
      if s.threads[t].Recording? then
        var f := s.threads[t].f;
        && s'.files == s.files[f.path := f]
        && s'.symbolsByPath == if w.extractable(f.path) then s.symbolsByPath[f.path := w.extract(f.path, f.content)] else s.symbolsByPath
      else s'.files == s.files && s'.symbolsByPath == s.symbolsByPath
  {
    hide AfterLookup, AfterInsert, Hit, SameMTime;
  }

  lemma StepKeepsSymbols(w: World, cap: nat, s: State, t: ThreadId)
    requires SymbolsInStep(w, s) && s.history != [] && t in s.threads
    ensures SymbolsInStep(w, StepOf(w, cap, s, t))
  {
    hide StepOf;
    StepMaps(w, cap, s, t);
  }

  lemma StepFrame(w: World, cap: nat, s: State, t: ThreadId)
    requires s.history != [] && t in s.threads
    ensures var s' := StepOf(w, cap, s, t);
      s'.history == s.history && t in s'.threads && s'.threads == s.threads[t := s'.threads[t]]
  {
    hide AfterLookup, AfterInsert, Hit, SameMTime, HasPrefix;
    match s.threads[t]
    case Statted(_, _, _, _) =>
    case Reading(_, _, _, _) =>
    case Recording(_, _, _, _, _) =>
    case _ =>
  }

  lemma StepKeepsInv(w: World, cap: nat, s: State, a: Action)
    requires Inv(w, s) && Enabled(s, a)
    ensures Inv(w, Apply(w, cap, s, a))
  {
    hide StepOf, PcOk, Growing, SymbolsInStep, HeldFilesOk;
    var s' := Apply(w, cap, s, a);
    match a
    case Write(path, mtime) =>
      var d := Disk(s)[path := mtime];
      EditGrows(s.history, d, path, mtime);
      EditKeepsInv(w, s, s', d);
    case Remove(path) =>
      var d := Disk(s) - {path};
      RemovalGrows(s.history, d, path);
      EditKeepsInv(w, s, s', d);
    case CallLookup(t, path) => CallKeepsInv(w, s, t, Lookup(path, Now(s)));
    case CallReload(t, path) => CallKeepsInv(w, s, t, ReloadCall(path, Now(s)));
    case Step(t) =>
      StepFrame(w, cap, s, t);
      StepKeepsHeld(w, cap, s, t);
      StepKeepsPc(w, cap, s, t);
      StepKeepsSymbols(w, cap, s, t);
  }

  lemma EditGrows(history: seq<Disk>, d: Disk, path: string, mtime: int)
    requires Growing(history) && LaterThanBefore(history, path, mtime) && d == history[|history| - 1][path := mtime]
    ensures forall p, i :: p in d && 0 <= i < |history| && p in history[i] ==> history[i][p] <= d[p]
  {
    forall p, i | p in d && 0 <= i < |history| && p in history[i] ensures history[i][p] <= d[p] {
      if p != path { PresentIsLatest(history, i, p); }
    }
  }

  lemma RemovalGrows(history: seq<Disk>, d: Disk, path: string)
    requires Growing(history) && d == history[|history| - 1] - {path}
    ensures forall p, i :: p in d && 0 <= i < |history| && p in history[i] ==> history[i][p] <= d[p]
  {
    forall p, i | p in d && 0 <= i < |history| && p in history[i] ensures history[i][p] <= d[p] {
      PresentIsLatest(history, i, p);
    }
  }

  lemma CallKeepsInv(w: World, s: State, t: ThreadId, pc: Pc)
    requires Inv(w, s) && t !in s.threads
    requires (pc.Lookup? || pc.ReloadCall?) && pc.start < |s.history|
    ensures Inv(w, At(s, t, pc))
  {
    hide Sourced, Growing, InHand, Sound;
  }

  lemma InitialInv(w: World, s: State)
    requires Initial(w, s)
    ensures Inv(w, s)
  {
    forall path | path in s.files ensures s.files[path].path == path && Sourced(w, s.history, s.files[path]) {
      assert SourcedAt(w, s.history, s.files[path], 0, 0);
    }
  }

  lemma {:induction false} RunsKeepInv(w: World, cap: nat, s0: State, run: seq<Action>, s: State)
    requires Initial(w, s0) && Reaches(w, cap, s0, run, s)
    ensures Inv(w, s)
  {
    hide Inv, Enabled, Apply;
    if run == [] {
      InitialInv(w, s);
    } else {
      var m :| Reaches(w, cap, s0, run[..|run| - 1], m) && Enabled(m, run[|run| - 1]) && s == Apply(w, cap, m, run[|run| - 1]);
      RunsKeepInv(w, cap, s0, run[..|run| - 1], m);
      StepKeepsInv(w, cap, m, run[|run| - 1]);
    }
  }

  // ----- what every run guarantees

  /**
   A lookup or reload that returned gave an answer the disk would have given at some instant
   between its call and its return, however the calls and the edits interleave.
   */
  lemma AnswersAreCurrent(w: World, cap: nat, s0: State, run: seq<Action>, s: State, t: ThreadId)
    requires Initial(w, s0) && Reaches(w, cap, s0, run, s)
    requires t in s.threads && s.threads[t].Done?
    ensures var Done(path, start, end, result) := s.threads[t];
      && start <= end < |s.history|
      && (result.Ok? ==> result.value.path == path)
      && (result.Ok? ==> exists i ::
            start <= i <= end && path in s.history[i] && w.read(path, s.history[i][path]) == Ok(result.value.content))
      && (result.Err? ==> Explained(w, s.history, path, result.error, start, end))
  {
    RunsKeepInv(w, cap, s0, run, s);
    var Done(path, start, end, result) := s.threads[t];
    assert PcOk(w, s.history, s.threads[t]);
    if result.Ok? {
      var i :| start <= i <= end && Reads(w, s.history, path, result.value.content, i);
    }
  }

  /** In every state a run reaches, the symbols on record are those of the file on record. */
  lemma SymbolsStayInStep(w: World, cap: nat, s0: State, run: seq<Action>, s: State, path: string)
    requires Initial(w, s0) && Reaches(w, cap, s0, run, s)
    requires path in s.files
    ensures (if path in s.symbolsByPath then s.symbolsByPath[path] else []) == Extraction(w, s.files[path])
  {
    RunsKeepInv(w, cap, s0, run, s);
  }

  // ----- a call run alone

  /** The state after the next `n` steps, when only call `t` takes any. */
  function Alone(w: World, cap: nat, s: State, t: ThreadId, n: nat): State
    requires s.history != [] && t in s.threads
    decreases n
  {
    if n == 0 then s
    else
      var s' := StepOf(w, cap, s, t);
      StepFrame(w, cap, s, t);
      Alone(w, cap, s', t, n - 1)
  }

  function Maps(s: State): RepoState {
    RepoState(s.hot, s.files, s.symbolsByPath)
  }

  /** A call that is done, with this result and these maps. */
  predicate EndsWith(s: State, t: ThreadId, result: Result<SourceFile, Error>, maps: RepoState) {
    t in s.threads && s.threads[t].Done? && s.threads[t].result == result && Maps(s) == maps
  }

  lemma AloneStep(w: World, cap: nat, s: State, t: ThreadId, n: nat)
    requires s.history != [] && t in s.threads && n > 0
    requires StepOf(w, cap, s, t).history != [] && t in StepOf(w, cap, s, t).threads
    ensures Alone(w, cap, s, t, n) == Alone(w, cap, StepOf(w, cap, s, t), t, n - 1)
  {
  }

  lemma {:induction false} DoneStays(w: World, cap: nat, s: State, t: ThreadId, n: nat)
    requires s.history != [] && t in s.threads && s.threads[t].Done?
    ensures Alone(w, cap, s, t, n) == s
    decreases n
  {
    if n > 0 { DoneStays(w, cap, s, t, n - 1); }
  }

  /** The two steps that put a parsed file away. */
  lemma PutAlone(w: World, cap: nat, s: State, t: ThreadId)
    requires s.history != [] && t in s.threads && s.threads[t].Parsed?
    ensures EndsWith(Alone(w, cap, s, t, 2), t, Ok(s.threads[t].f), Record(w, cap, Maps(s), s.threads[t].f))
  {
    hide AfterInsert, Alone;
    var s1 := StepOf(w, cap, s, t);
    AloneStep(w, cap, s, t, 2);
    var s2 := StepOf(w, cap, s1, t);
    AloneStep(w, cap, s1, t, 1);
    assert Alone(w, cap, s2, t, 0) == s2 by { NoStep(w, cap, s2, t); }
  }

  lemma NoStep(w: World, cap: nat, s: State, t: ThreadId)
    requires s.history != [] && t in s.threads
    ensures Alone(w, cap, s, t, 0) == s
  {
  }

  /** A parse that nothing interrupts: the answer of a load, and the file recorded. */
  lemma ParseAlone(w: World, cap: nat, s: State, t: ThreadId)
    requires s.history != [] && t in s.threads && s.threads[t].Parse?
    ensures var path := s.threads[t].path;
      var r := if w.detect(path) then LoadFile(w, Disk(s), path) else Err(Unsupported);
      EndsWith(Alone(w, cap, s, t, 4), t, r, if r.Ok? then Record(w, cap, Maps(s), r.value) else Maps(s))
  {
    hide Record, AfterInsert, Alone;
    var s1 := StepOf(w, cap, s, t);
    AloneStep(w, cap, s, t, 4);
    if s1.threads[t].Done? {
      DoneStays(w, cap, s1, t, 3);
    } else {
      ReadAlone(w, cap, s1, t);
    }
  }

  lemma ReadAlone(w: World, cap: nat, s: State, t: ThreadId)
    requires s.history != [] && t in s.threads && s.threads[t].Reading?
    requires s.threads[t].path in Disk(s) && s.threads[t].mtime == Disk(s)[s.threads[t].path]
    ensures var r := LoadFile(w, Disk(s), s.threads[t].path);
      EndsWith(Alone(w, cap, s, t, 3), t, r, if r.Ok? then Record(w, cap, Maps(s), r.value) else Maps(s))
  {
    hide Record, AfterInsert, Alone;
    var s1 := StepOf(w, cap, s, t);
    AloneStep(w, cap, s, t, 3);
    if s1.threads[t].Done? {
      DoneStays(w, cap, s1, t, 2);
    } else {
      PutAlone(w, cap, s1, t);
    }
  }

  /** A reload that nothing interrupts ends, in at most five steps, as the sequential one does. */
  lemma ReloadAlone(w: World, cap: nat, s: State, t: ThreadId)
    requires s.history != [] && t in s.threads && s.threads[t].ReloadCall?
    ensures var path := s.threads[t].path;
      && var r := if !HasPrefix(path, w.root) then Err(NotFound) else if !w.detect(path) then Err(Unsupported) else LoadFile(w, Disk(s), path);
      EndsWith(Alone(w, cap, s, t, 5), t, r, AfterReload(w, cap, Maps(s), Disk(s), path))
  {
    hide LoadFile, HasPrefix, Record, Alone;
    var s1 := StepOf(w, cap, s, t);
    AloneStep(w, cap, s, t, 5);
    if s1.threads[t].Done? { DoneStays(w, cap, s1, t, 4); } else { ParseAlone(w, cap, s1, t); }
  }

  /** Past the `stat`, with no hit in the hot cache. */
  lemma MissedAlone(w: World, cap: nat, s: State, t: ThreadId)
    requires s.history != [] && t in s.threads && s.threads[t].Missed?
    ensures var path := s.threads[t].path;
      && var held := path in s.files && s.files[path].mtime == s.threads[t].mtime;
      && var r := if held then Ok(s.files[path]) else if w.detect(path) then LoadFile(w, Disk(s), path) else Err(Unsupported);
      EndsWith(Alone(w, cap, s, t, 5), t, r,
        if held then Maps(s).(hot := AfterInsert(s.hot, s.files[path].path, s.files[path], cap))
        else if r.Ok? then Record(w, cap, Maps(s), r.value) else Maps(s))
  {
    hide LoadFile, Record, AfterInsert, Alone;
    var s1 := StepOf(w, cap, s, t);
    AloneStep(w, cap, s, t, 5);
    if s1.threads[t].Promote? {
      PromoteAlone(w, cap, s1, t);
    } else {
      ParseAlone(w, cap, s1, t);
    }
  }

  lemma PromoteAlone(w: World, cap: nat, s: State, t: ThreadId)
    requires s.history != [] && t in s.threads && s.threads[t].Promote?
    ensures var f := s.threads[t].f;
      EndsWith(Alone(w, cap, s, t, 4), t, Ok(f), Maps(s).(hot := AfterInsert(s.hot, f.path, f, cap)))
  {
    hide AfterInsert, Alone;
    var s1 := StepOf(w, cap, s, t);
    AloneStep(w, cap, s, t, 4);
    DoneStays(w, cap, s1, t, 3);
  }

  /** Past the `stat`. */
  lemma StattedAlone(w: World, cap: nat, s: State, t: ThreadId)
    requires s.history != [] && t in s.threads && s.threads[t].Statted? && HasPrefix(s.threads[t].path, w.root)
    requires s.threads[t].path in Disk(s) && s.threads[t].mtime == Disk(s)[s.threads[t].path]
    ensures var path := s.threads[t].path;
      EndsWith(Alone(w, cap, s, t, 6), t, CachedFileResult(w, Maps(s), Disk(s), path), AfterCachedFile(w, cap, Maps(s), Disk(s), path))
  {
    hide LoadFile, Record, AfterInsert, AfterLookup, Hit, HasPrefix, Alone;
    var s1 := StepOf(w, cap, s, t);
    StepFrame(w, cap, s, t);
    AloneStep(w, cap, s, t, 6);
    if s1.threads[t].Done? { DoneStays(w, cap, s1, t, 5); } else { MissedAlone(w, cap, s1, t); }
  }

  /** A lookup that nothing interrupts ends, in at most seven steps, as the sequential one does. */
  lemma LookupAlone(w: World, cap: nat, s: State, t: ThreadId)
    requires s.history != [] && t in s.threads && s.threads[t].Lookup?
    ensures var path := s.threads[t].path;
      EndsWith(Alone(w, cap, s, t, 7), t, CachedFileResult(w, Maps(s), Disk(s), path), AfterCachedFile(w, cap, Maps(s), Disk(s), path))
  {
    var s1 := StepOf(w, cap, s, t);
    StepFrame(w, cap, s, t);
    assert Maps(s1) == Maps(s) && Disk(s1) == Disk(s);
    AloneStep(w, cap, s, t, 7);
    hide CachedFileResult, AfterCachedFile, Alone;
    if s1.threads[t].Done? {
      DoneStays(w, cap, s1, t, 6);
      NoFileAlone(w, cap, Maps(s), Disk(s), s.threads[t].path);
    } else {
      StattedAlone(w, cap, s1, t);
    }
  }

  lemma NoFileAlone(w: World, cap: nat, s: RepoState, disk: Store.Disk, path: string)
    requires !HasPrefix(path, w.root) || path !in disk
    ensures CachedFileResult(w, s, disk, path) == Err(NotFound) && AfterCachedFile(w, cap, s, disk, path) == s
  {
  }

  // ----- when a file has the content its time stamp says

  /** At instant `k` the path was written: it is there, and was not, or had another time. */
  predicate WrittenAt(history: seq<Disk>, path: string, k: nat) {
    0 < k < |history| && path in history[k] && (path in history[k - 1] ==> history[k - 1][path] != history[k][path])
  }

  /** An action adds a written instant for a path exactly when it is a write to it. */
  lemma OnlyWritesWrite(w: World, cap: nat, s: State, a: Action, path: string)
    requires Enabled(s, a)
    ensures (exists k: nat :: k >= |s.history| && WrittenAt(Apply(w, cap, s, a).history, path, k)) <==> a.Write? && a.path == path
  {
    var s' := Apply(w, cap, s, a);
    var n := |s.history|;
    if a.Step? { StepFrame(w, cap, s, a.t); }
    if a.Write? && a.path == path {
      assert WrittenAt(s'.history, path, n);
    }
  }

  ghost predicate WritesAreLater(history: seq<Disk>) {
    forall i, k: nat, p :: 0 <= i < k && WrittenAt(history, p, k) && p in history[i] ==> history[i][p] < history[k][p]
  }

  lemma WrittenBefore(h: seq<Disk>, d: Disk, path: string, k: nat)
    ensures k < |h| ==> (WrittenAt(h + [d], path, k) <==> WrittenAt(h, path, k))
    ensures WrittenAt(h + [d], path, k) ==> k <= |h| && path in (h + [d])[k]
  {
  }

  /** One more disk: what it shows written, if anything, is later than all before. */
  lemma WritesLaterOn(h: seq<Disk>, d: Disk)
    requires WritesAreLater(h)
    requires forall p :: WrittenAt(h + [d], p, |h|) && p in d ==> LaterThanBefore(h, p, d[p])
    ensures WritesAreLater(h + [d])
  {
    hide WrittenAt;
    var h' := h + [d];
    forall k: nat, p ensures WrittenAt(h', p, k) ==> k < |h'| && p in h'[k] { WrittenBefore(h, d, p, k); }
    forall i, k: nat, p | 0 <= i < k && WrittenAt(h', p, k) && p in h'[i] ensures h'[i][p] < h'[k][p] {
      WrittenBefore(h, d, p, k);
      assert h'[i] == h[i];
      if k < |h| { assert h'[k] == h[k]; } else { assert h'[k] == d; }
    }
  }

  lemma StepKeepsWritesLater(w: World, cap: nat, s: State, a: Action)
    requires WritesAreLater(s.history) && Enabled(s, a)
    ensures WritesAreLater(Apply(w, cap, s, a).history)
  {
    hide WritesAreLater, StepOf;
    match a
    case Write(path, mtime) => WritesLaterOn(s.history, Disk(s)[path := mtime]);
    case Remove(path) => WritesLaterOn(s.history, Disk(s) - {path});
    case Step(t) => StepFrame(w, cap, s, t);
    case _ =>
  }

  lemma {:induction false} RunsKeepWritesLater(w: World, cap: nat, s0: State, run: seq<Action>, s: State)
    requires Initial(w, s0) && Reaches(w, cap, s0, run, s)
    ensures WritesAreLater(s.history)
  {
    hide Enabled, Apply, LoadFile;
    if run != [] {
      hide WritesAreLater;
      var m :| Reaches(w, cap, s0, run[..|run| - 1], m) && Enabled(m, run[|run| - 1]) && s == Apply(w, cap, m, run[|run| - 1]);
      RunsKeepWritesLater(w, cap, s0, run[..|run| - 1], m);
      StepKeepsWritesLater(w, cap, m, run[|run| - 1]);
    }
  }

  /** No write to the path after instant `i` and up to instant `j`. */
  ghost predicate Untouched(history: seq<Disk>, path: string, i: nat, j: nat) {
    forall k: nat :: i < k <= j ==> !WrittenAt(history, path, k)
  }

  lemma {:induction false} UntouchedKeepsTime(history: seq<Disk>, path: string, i: nat, j: nat)
    requires i <= j < |history| && path in history[j] && Untouched(history, path, i, j)
    ensures path in history[i] && history[i][path] == history[j][path]
    decreases j
  {
    if i < j {
      assert !WrittenAt(history, path, j);
      UntouchedKeepsTime(history, path, i, j - 1);
    }
  }

  /** A path has one time at two instants exactly when it was not written in between. */
  lemma SameTimeIffUntouched(history: seq<Disk>, path: string, i: nat, j: nat)
    requires Growing(history) && WritesAreLater(history)
    requires i <= j < |history| && path in history[i] && path in history[j]
    ensures history[i][path] == history[j][path] <==> Untouched(history, path, i, j)
  {
    if Untouched(history, path, i, j) {
      UntouchedKeepsTime(history, path, i, j);
    } else {
      var k: nat :| i < k <= j && WrittenAt(history, path, k);
      assert history[i][path] < history[k][path] <= history[j][path];
    }
  }

  /** No two modification times of the path show the same content. */
  ghost predicate WritesChange(w: World, path: string) {
    forall m, n :: w.read(path, m) == w.read(path, n) ==> m == n
  }

  lemma GenuineFromInstants(w: World, history: seq<Disk>, f: SourceFile, i: nat, j: nat)
    requires Growing(history) && WritesAreLater(history)
    requires Sourced(w, history, f) && SourcedAt(w, history, f, i, j)
    ensures Untouched(history, f.path, i, j) ==> Genuine(w, f.path, f)
    ensures WritesChange(w, f.path) ==> (Genuine(w, f.path, f) <==> Untouched(history, f.path, i, j))
  {
    hide Growing, WritesAreLater, Untouched;
    SameTimeIffUntouched(history, f.path, i, j);
  }

  /**
   A call about to record a file made its `stat` at instant `at` and its read at `readAt`. The
   file has the content its time stamp says exactly when a read gives the same at both times;
   so it has if nothing wrote the path in between, and where writes change content, only then.
   */
  lemma RecordedIsGenuineIff(w: World, cap: nat, s0: State, run: seq<Action>, s: State, t: ThreadId)
    requires Initial(w, s0) && Reaches(w, cap, s0, run, s)
    requires t in s.threads && (s.threads[t].Parsed? || s.threads[t].Recording?)
    ensures var pc := s.threads[t];
      && pc.f.path == pc.path && pc.at <= pc.readAt < |s.history|
      && pc.path in s.history[pc.at] && pc.path in s.history[pc.readAt]
      && pc.f.mtime == s.history[pc.at][pc.path]
      && (Genuine(w, pc.path, pc.f) <==> w.read(pc.path, s.history[pc.at][pc.path]) == w.read(pc.path, s.history[pc.readAt][pc.path]))
      && (Untouched(s.history, pc.path, pc.at, pc.readAt) ==> Genuine(w, pc.path, pc.f))
      && (WritesChange(w, pc.path) ==> (Genuine(w, pc.path, pc.f) <==> Untouched(s.history, pc.path, pc.at, pc.readAt)))
  {
    RunsKeepInv(w, cap, s0, run, s);
    RunsKeepWritesLater(w, cap, s0, run, s);
    hide Reaches, Initial, HeldFilesOk, SymbolsInStep, Growing, WritesAreLater, Current, Untouched, WritesChange;
    var pc := s.threads[t];
    assert PcOk(w, s.history, pc);
    GenuineFromInstants(w, s.history, pc.f, pc.at, pc.readAt);
  }

  /** A file the repository holds, in the map or in the hot cache. */
  predicate HeldBy(s: State, f: SourceFile) {
    (f.path in s.files && s.files[f.path] == f) || (f.path, f) in s.hot
  }

  /**
   The same of every file held in any state a run reaches: it has the time of one instant and the
   content of a later one, and of any two such instants the answer is the same.
   */
  lemma HeldIsGenuineIff(w: World, cap: nat, s0: State, run: seq<Action>, s: State, f: SourceFile)
    requires Initial(w, s0) && Reaches(w, cap, s0, run, s) && HeldBy(s, f)
    ensures exists i: nat, j: nat :: SourcedAt(w, s.history, f, i, j)
    ensures forall i: nat, j: nat :: SourcedAt(w, s.history, f, i, j) && Untouched(s.history, f.path, i, j) ==> Genuine(w, f.path, f)
    ensures WritesChange(w, f.path) ==> forall i: nat, j: nat :: SourcedAt(w, s.history, f, i, j) ==>
      (Genuine(w, f.path, f) <==> Untouched(s.history, f.path, i, j))
  {
    RunsKeepInv(w, cap, s0, run, s);
    RunsKeepWritesLater(w, cap, s0, run, s);
    hide Reaches, Initial, SymbolsInStep, Growing, WritesAreLater, PcOk, Untouched, WritesChange, Genuine, SourcedAt;
    assert Sourced(w, s.history, f) by {
      if (f.path, f) in s.hot { assert (f.path, f).1 == f; }
    }
    forall i: nat, j: nat | SourcedAt(w, s.history, f, i, j)
      ensures Untouched(s.history, f.path, i, j) ==> Genuine(w, f.path, f)
      ensures WritesChange(w, f.path) ==> (Genuine(w, f.path, f) <==> Untouched(s.history, f.path, i, j))
    {
      GenuineFromInstants(w, s.history, f, i, j);
    }
  }

  // ----- a file newer than its time stamp

  lemma {:induction false} ReachesOnward(w: World, cap: nat, s0: State, run: seq<Action>, s: State, a: Action)
    requires Reaches(w, cap, s0, run, s) && Enabled(s, a)
    ensures Reaches(w, cap, s0, run + [a], Apply(w, cap, s, a))
  {
    assert (run + [a])[..|run + [a]| - 1] == run;
  }

  lemma TakeStep(w: World, cap: nat, s0: State, run: seq<Action>, s: State, a: Action) returns (run': seq<Action>, s': State)
    requires Reaches(w, cap, s0, run, s) && Enabled(s, a)
    ensures run' == run + [a] && s' == Apply(w, cap, s, a) && Reaches(w, cap, s0, run', s')
  {
    run', s' := run + [a], Apply(w, cap, s, a);
    ReachesOnward(w, cap, s0, run, s, a);
  }

  // One step each, for the run below.

  lemma ReloadStep(w: World, cap: nat, s0: State, run: seq<Action>, s: State, t: ThreadId, path: string) returns (run': seq<Action>, s': State)
    requires Reaches(w, cap, s0, run, s) && s.history != [] && t !in s.threads && HasPrefix(path, w.root)
    ensures s' == At(s, t, Parse(path, Now(s))) && Reaches(w, cap, s0, run', s')
  {
    hide Reaches, HasPrefix;
    run', s' := TakeStep(w, cap, s0, run, s, CallReload(t, path));
    assert s' == At(s, t, ReloadCall(path, Now(s)));
    run', s' := TakeStep(w, cap, s0, run', s', Step(t));
    assert s'.threads == s.threads[t := Parse(path, Now(s))];
  }

  lemma ParseStep(w: World, cap: nat, s0: State, run: seq<Action>, s: State, t: ThreadId, path: string, start: nat) returns (run': seq<Action>, s': State)
    requires Reaches(w, cap, s0, run, s) && s.history != [] && t in s.threads && s.threads[t] == Parse(path, start)
    requires w.detect(path) && path in Disk(s)
    ensures s' == At(s, t, Reading(path, start, Now(s), Disk(s)[path])) && Reaches(w, cap, s0, run', s')
  {
    hide Reaches, HasPrefix;
    run', s' := TakeStep(w, cap, s0, run, s, Step(t));
  }

  lemma ReadStep(w: World, cap: nat, s0: State, run: seq<Action>, s: State, t: ThreadId, path: string, start: nat, at: nat, mtime: int)
    returns (run': seq<Action>, s': State)
    requires Reaches(w, cap, s0, run, s) && s.history != [] && t in s.threads && s.threads[t] == Reading(path, start, at, mtime)
    requires path in Disk(s) && w.read(path, Disk(s)[path]).Ok?
    ensures s' == At(s, t, Parsed(path, start, at, Now(s), SourceFile(path, w.read(path, Disk(s)[path]).value, mtime)))
    ensures Reaches(w, cap, s0, run', s')
  {
    hide Reaches, HasPrefix;
    run', s' := TakeStep(w, cap, s0, run, s, Step(t));
  }

  lemma RecordSteps(w: World, cap: nat, s0: State, run: seq<Action>, s: State, t: ThreadId, f: SourceFile)
    returns (run': seq<Action>, s': State)
    requires Reaches(w, cap, s0, run, s) && s.history != [] && t in s.threads && s.threads[t].Parsed? && s.threads[t].f == f
    ensures Reaches(w, cap, s0, run', s') && s'.files == s.files[f.path := f]
  {
    hide Reaches, HasPrefix, AfterInsert;
    run', s' := TakeStep(w, cap, s0, run, s, Step(t));
    assert s'.threads[t].Recording? && s'.threads[t].f == f && s'.files == s.files && s'.history == s.history;
    run', s' := TakeStep(w, cap, s0, run', s', Step(t));
  }

  lemma WriteStep(w: World, cap: nat, s0: State, run: seq<Action>, s: State, path: string, mtime: int) returns (run': seq<Action>, s': State)
    requires Reaches(w, cap, s0, run, s) && s.history != [] && LaterThanBefore(s.history, path, mtime)
    ensures s' == s.(history := s.history + [Disk(s)[path := mtime]]) && Reaches(w, cap, s0, run', s')
  {
    hide Reaches, LaterThanBefore;
    run', s' := TakeStep(w, cap, s0, run, s, Write(path, mtime));
  }

  function OneFile(path: string, mtime: int): State {
    State([map[path := mtime]], [], map[], map[], map[])
  }

  lemma OneFileRuns(w: World, cap: nat, path: string, mtime: int)
    ensures Initial(w, OneFile(path, mtime)) && Reaches(w, cap, OneFile(path, mtime), [], OneFile(path, mtime))
  {
  }

  /**
   So a repository may hold, under an old time stamp, content that came later: here a file is
   written between the `stat` and the read of a reload.
   */
  lemma TornFileIsRecorded(w: World, cap: nat, path: string, old': int, new': int, content: string) returns (run: seq<Action>, s: State)
    requires HasPrefix(path, w.root) && w.detect(path) && old' < new'
    requires w.read(path, new') == Ok(content) && w.read(path, old') != Ok(content)
    ensures Initial(w, OneFile(path, old')) && Reaches(w, cap, OneFile(path, old'), run, s)
    ensures path in s.files && s.files[path] == SourceFile(path, content, old') && !Genuine(w, path, s.files[path])
  {
    hide Reaches, HasPrefix, Initial;
    var s0 := OneFile(path, old');
    OneFileRuns(w, cap, path, old');
    run, s := ReloadStep(w, cap, s0, [], s0, 0, path);
    run, s := ParseStep(w, cap, s0, run, s, 0, path, 0);
    run, s := WriteStep(w, cap, s0, run, s, path, new');
    assert Disk(s)[path] == new';
    run, s := ReadStep(w, cap, s0, run, s, 0, path, 0, 0, old');
    run, s := RecordSteps(w, cap, s0, run, s, 0, SourceFile(path, content, old'));
  }
}
