/**
 The three-level file lookup of a repository (`internal/store/store.go`): hot cache,
 the map filled at load, a fresh parse. Files on disk change under it between calls.
 */
module Store {
  import opened Wrappers
  import opened Recency
  import opened LruTier
  import opened Cache
  import opened Symbols

  datatype Error = NotFound | Unsupported | LoadFailed(reason: string)

  /**
   What does not change while the repository is open: its root, which paths lie in no directory
   the walk skips, what a path with a given modification time contains (or why reading it
   fails), which paths have a grammar, which grammars have a symbol extractor, and what that
   extractor returns.
   */
  datatype World = World(
    root: string,
    walked: string -> bool,
    read: (string, int) -> Result<string, string>,
    detect: string -> bool,
    extractable: string -> bool,
    extract: (string, string) -> seq<Symbol>)

  /** The modification time of every file now on disk. */
  type Disk = map<string, int>

  predicate HasPrefix(s: string, prefix: string) {
    prefix <= s
  }

  /** `source.LoadFile`. */
  function LoadFile(w: World, disk: Disk, path: string): Result<SourceFile, Error> {
    if path !in disk then Err(LoadFailed("stat"))
    else
      match w.read(path, disk[path])
      case Ok(content) => Ok(SourceFile(path, content, disk[path]))
      case Err(why) => Err(LoadFailed(why))
  }

  /** What a caller would get if nothing were cached. */
  function FreshRead(w: World, disk: Disk, path: string): Result<SourceFile, Error> {
    if !HasPrefix(path, w.root) || path !in disk then Err(NotFound)
    else if !w.detect(path) then Err(Unsupported)
    else LoadFile(w, disk, path)
  }

  /** The symbols of a file's content; a grammar without an extractor has none. */
  function Extraction(w: World, f: SourceFile): seq<Symbol> {
    if w.extractable(f.path) then w.extract(f.path, f.content) else []
  }

  // ----- the repository as a value

  datatype RepoState = RepoState(
    hot: Recency<string, SourceFile>,
    files: map<string, SourceFile>,
    symbolsByPath: map<string, seq<Symbol>>)

  /** `Symbols`: an absent path has none. */
  function SymbolsAt(s: RepoState, path: string): seq<Symbol> {
    if path in s.symbolsByPath then s.symbolsByPath[path] else []
  }

  /** Recording a parsed file: hot cache, file map and, when its grammar has an extractor, symbols. */
  function Record(w: World, cap: nat, s: RepoState, f: SourceFile): RepoState {
    RepoState(AfterInsert(s.hot, f.path, f, cap), s.files[f.path := f],
              if w.extractable(f.path) then s.symbolsByPath[f.path := w.extract(f.path, f.content)] else s.symbolsByPath)
  }

  function AfterCachedFile(w: World, cap: nat, s: RepoState, disk: Disk, path: string): RepoState {
    if !HasPrefix(path, w.root) || path !in disk then s
    else
      var mtime := disk[path];
      var looked := s.(hot := AfterLookup(s.hot, path, SameMTime(mtime)));
      if Hit(s.hot, path, SameMTime(mtime)).Some? then looked
      else if path in s.files && s.files[path].mtime == mtime then
        looked.(hot := AfterInsert(looked.hot, s.files[path].path, s.files[path], cap))
      else if !w.detect(path) then looked
      else
        match LoadFile(w, disk, path)
        case Ok(f) => Record(w, cap, looked, f)
        case Err(_) => looked
  }

  function CachedFileResult(w: World, s: RepoState, disk: Disk, path: string): Result<SourceFile, Error> {
    if !HasPrefix(path, w.root) || path !in disk then Err(NotFound)
    else
      var mtime := disk[path];
      match Hit(s.hot, path, SameMTime(mtime))
      case Some(f) => Ok(f)
      case None =>
        if path in s.files && s.files[path].mtime == mtime then Ok(s.files[path])
        else if !w.detect(path) then Err(Unsupported)
        else LoadFile(w, disk, path)
  }

  function AfterReload(w: World, cap: nat, s: RepoState, disk: Disk, path: string): RepoState {
    if !HasPrefix(path, w.root) || !w.detect(path) then s
    else
      match LoadFile(w, disk, path)
      case Ok(f) => Record(w, cap, s, f)
      case Err(_) => s
  }

  // ----- the invariant

  /** `f` is what a read of `path` at its own modification time gives. */
  predicate Genuine(w: World, path: string, f: SourceFile) {
    f.path == path && HasPrefix(path, w.root) && w.detect(path) && w.read(path, f.mtime) == Ok(f.content)
  }

  ghost predicate Faithful(w: World, cap: nat, s: RepoState) {
    && 0 < cap && WithinCap(s.hot, cap)
    && (forall p :: p in s.hot ==> p.0 in s.files && s.files[p.0] == p.1)
    && (forall path :: path in s.files ==> Genuine(w, path, s.files[path]))
    && (forall path :: path in s.files ==> SymbolsAt(s, path) == Extraction(w, s.files[path]))
    && (forall path :: path in s.symbolsByPath && path !in s.files ==> s.symbolsByPath[path] == [])
  }

  lemma LookupEntries<K(!new), V(!new)>(s: Recency<K, V>, k: K, live: V -> bool, p: (K, V))
    requires p in AfterLookup(s, k, live)
    ensures p in s
  {
    WithoutKeepsEntries(s, k, p);
  }

  lemma InsertEntries<K(!new), V(!new)>(s: Recency<K, V>, k: K, v: V, cap: nat, p: (K, V))
    requires p in AfterInsert(s, k, v, cap)
    ensures p == (k, v) || p in s
  {
    WithoutKeepsEntries(s, k, p);
    assert p in [(k, v)] + Without(s, k);
  }

  lemma RecordedEntries(hot: Recency<string, SourceFile>, f: SourceFile, cap: nat, p: (string, SourceFile))
    requires WithinCap(hot, cap) && cap > 0
    requires p in AfterInsert(hot, f.path, f, cap)
    ensures p == (f.path, f) || (p in hot && p.0 != f.path)
  {
    WithoutKeepsEntries(hot, f.path, p);
    assert p in [(f.path, f)] + Without(hot, f.path);
  }

  lemma RecordFaithful(w: World, cap: nat, s: RepoState, f: SourceFile)
    requires Faithful(w, cap, s) && Genuine(w, f.path, f)
    ensures Faithful(w, cap, Record(w, cap, s, f))
  {
    var s' := Record(w, cap, s, f);
    InsertWithinCap(s.hot, f.path, f, cap);
    forall p | p in s'.hot ensures p.0 in s'.files && s'.files[p.0] == p.1 { RecordedEntries(s.hot, f, cap, p); }
  }

  lemma LookedFaithful(w: World, cap: nat, s: RepoState, path: string, mtime: int)
    requires Faithful(w, cap, s)
    ensures Faithful(w, cap, s.(hot := AfterLookup(s.hot, path, SameMTime(mtime))))
  {
    var s' := s.(hot := AfterLookup(s.hot, path, SameMTime(mtime)));
    LookupWithinCap(s.hot, path, SameMTime(mtime), cap);
    forall p | p in s'.hot ensures p.0 in s'.files && s'.files[p.0] == p.1 { LookupEntries(s.hot, path, SameMTime(mtime), p); }
  }

  lemma PromotedFaithful(w: World, cap: nat, s: RepoState, f: SourceFile)
    requires Faithful(w, cap, s) && f.path in s.files && s.files[f.path] == f
    ensures Faithful(w, cap, s.(hot := AfterInsert(s.hot, f.path, f, cap)))
  {
    var s' := s.(hot := AfterInsert(s.hot, f.path, f, cap));
    InsertWithinCap(s.hot, f.path, f, cap);
    forall p | p in s'.hot ensures p.0 in s'.files && s'.files[p.0] == p.1 { InsertEntries(s.hot, f.path, f, cap, p); }
  }

  lemma LoadedIsGenuine(w: World, disk: Disk, path: string)
    requires HasPrefix(path, w.root) && w.detect(path) && LoadFile(w, disk, path).Ok?
    ensures Genuine(w, path, LoadFile(w, disk, path).value)
    ensures LoadFile(w, disk, path).value.path == path
  {
  }

  lemma CachedFileKeepsFaithful(w: World, cap: nat, s: RepoState, disk: Disk, path: string)
    requires Faithful(w, cap, s)
    ensures Faithful(w, cap, AfterCachedFile(w, cap, s, disk, path))
  {
    hide Faithful, Genuine, AfterLookup, AfterInsert, Find, Extraction;
    if HasPrefix(path, w.root) && path in disk {
      var mtime := disk[path];
      LookedFaithful(w, cap, s, path, mtime);
      var looked := s.(hot := AfterLookup(s.hot, path, SameMTime(mtime)));
      if Hit(s.hot, path, SameMTime(mtime)).None? {
        if path in s.files && s.files[path].mtime == mtime {
          ResidentIsGenuine(w, cap, s, path);
          PromotedFaithful(w, cap, looked, s.files[path]);
        } else if w.detect(path) && LoadFile(w, disk, path).Ok? {
          LoadedIsGenuine(w, disk, path);
          RecordFaithful(w, cap, looked, LoadFile(w, disk, path).value);
        }
      }
    }
  }

  lemma ResidentIsGenuine(w: World, cap: nat, s: RepoState, path: string)
    requires Faithful(w, cap, s) && path in s.files
    ensures Genuine(w, path, s.files[path]) && s.files[path].path == path
  {
  }

  /** Whatever level answers, the answer is the one a fresh read would give, errors included. */
  lemma CachedFileIsFresh(w: World, cap: nat, s: RepoState, disk: Disk, path: string)
    requires Faithful(w, cap, s)
    ensures CachedFileResult(w, s, disk, path) == FreshRead(w, disk, path)
  {
    if HasPrefix(path, w.root) && path in disk && Find(s.hot, path).Some? {
      assert s.files[path] == Find(s.hot, path).value;
    }
  }

  lemma ReloadKeepsFaithful(w: World, cap: nat, s: RepoState, disk: Disk, path: string)
    requires Faithful(w, cap, s)
    ensures Faithful(w, cap, AfterReload(w, cap, s, disk, path))
  {
    hide Faithful;
    if HasPrefix(path, w.root) && w.detect(path) && LoadFile(w, disk, path).Ok? {
      LoadedIsGenuine(w, disk, path);
      RecordFaithful(w, cap, s, LoadFile(w, disk, path).value);
    }
  }

  // ----- what a lookup and a reload leave, in terms of the disk

  /** The repository may read the path, and there is something to read. */
  predicate IsReadable(w: World, disk: Disk, path: string) {
    w.root <= path && w.detect(path) && path in disk && w.read(path, disk[path]).Ok?
  }

  /** Every level has the path as it is on disk: the map, the hot cache and the symbols. */
  predicate UpToDate(w: World, disk: Disk, path: string, s: RepoState) {
    && IsReadable(w, disk, path)
    && var content := w.read(path, disk[path]).value;
    && path in s.files && s.files[path] == SourceFile(path, content, disk[path])
    && (path, SourceFile(path, content, disk[path])) in s.hot
    && (if path in s.symbolsByPath then s.symbolsByPath[path] else []) == if w.extractable(path) then w.extract(path, content) else []
  }

  ghost predicate OthersKept(path: string, s: RepoState, s': RepoState) {
    forall p :: p != path ==>
      && (p in s'.files <==> p in s.files) && (p in s.files ==> s'.files[p] == s.files[p])
      && (p in s'.symbolsByPath <==> p in s.symbolsByPath)
      && (p in s.symbolsByPath ==> s'.symbolsByPath[p] == s.symbolsByPath[p])
  }

  /** A reload that can read the file brings every level up to date for it; one that cannot changes nothing. */
  lemma ReloadLeaves(w: World, cap: nat, s: RepoState, disk: Disk, path: string)
    requires Faithful(w, cap, s)
    ensures var s' := AfterReload(w, cap, s, disk, path);
      if IsReadable(w, disk, path) then UpToDate(w, disk, path, s') && OthersKept(path, s, s') else s' == s
  {
    if IsReadable(w, disk, path) {
      var f := LoadFile(w, disk, path).value;
      InsertWithinCap(s.hot, path, f, cap);
    }
  }

  /** So does a lookup, from whatever level it answers; one that finds nothing leaves map and symbols alone. */
  lemma LookupLeaves(w: World, cap: nat, s: RepoState, disk: Disk, path: string)
    requires Faithful(w, cap, s)
    ensures var s' := AfterCachedFile(w, cap, s, disk, path);
      && (IsReadable(w, disk, path) ==> UpToDate(w, disk, path, s') && OthersKept(path, s, s'))
      && (!IsReadable(w, disk, path) ==> s'.files == s.files && s'.symbolsByPath == s.symbolsByPath)
  {
    hide Faithful, UpToDate, Hit, AfterLookup, AfterInsert, Record, OthersKept;
    if HasPrefix(path, w.root) && path in disk {
      var mtime := disk[path];
      var looked := s.(hot := AfterLookup(s.hot, path, SameMTime(mtime)));
      LookedFaithful(w, cap, s, path, mtime);
      if Hit(s.hot, path, SameMTime(mtime)).Some? {
        HitLeaves(w, cap, s, disk, path);
      } else if path in s.files && s.files[path].mtime == mtime {
        PromotionLeaves(w, cap, looked, disk, path);
        HeldIsOnDisk(w, cap, s, disk, path);
        KeptFrom(path, s, looked, AfterCachedFile(w, cap, s, disk, path));
      } else if IsReadable(w, disk, path) {
        RecordLeaves(w, cap, looked, disk, path);
        KeptFrom(path, s, looked, AfterCachedFile(w, cap, s, disk, path));
      }
    }
  }

  lemma KeptFrom(path: string, s: RepoState, m: RepoState, s': RepoState)
    requires OthersKept(path, m, s') && m == s.(hot := m.hot)
    ensures OthersKept(path, s, s')
  {
  }

  lemma HitLeaves(w: World, cap: nat, s: RepoState, disk: Disk, path: string)
    requires Faithful(w, cap, s) && path in disk && Hit(s.hot, path, SameMTime(disk[path])).Some?
    ensures var s' := s.(hot := AfterLookup(s.hot, path, SameMTime(disk[path])));
      UpToDate(w, disk, path, s') && OthersKept(path, s, s')
  {
    hide Genuine, Extraction, AfterLookup;
    HitComesFirst(s.hot, path, SameMTime(disk[path]));
    assert path in s.files && s.files[path] == Hit(s.hot, path, SameMTime(disk[path])).value by {
      HotIsHeld(w, cap, s, (path, Hit(s.hot, path, SameMTime(disk[path])).value));
    }
    HeldIsOnDisk(w, cap, s, disk, path);
  }

  lemma HotIsHeld(w: World, cap: nat, s: RepoState, p: (string, SourceFile))
    requires Faithful(w, cap, s) && p in s.hot
    ensures p.0 in s.files && s.files[p.0] == p.1
  {
  }

  lemma PromotionLeaves(w: World, cap: nat, s: RepoState, disk: Disk, path: string)
    requires Faithful(w, cap, s) && path in disk && path in s.files && s.files[path].mtime == disk[path]
    ensures s.files[path].path == path
    ensures var s' := s.(hot := AfterInsert(s.hot, path, s.files[path], cap));
      UpToDate(w, disk, path, s') && OthersKept(path, s, s')
  {
    hide Genuine, Extraction, AfterInsert;
    HeldIsOnDisk(w, cap, s, disk, path);
    InsertWithinCap(s.hot, path, s.files[path], cap);
  }

  lemma HitComesFirst(hot: Recency<string, SourceFile>, path: string, live: SourceFile -> bool)
    requires Hit(hot, path, live).Some?
    ensures var f := Hit(hot, path, live).value; live(f) && (path, f) in hot && (path, f) in AfterLookup(hot, path, live)
  {
    assert AfterLookup(hot, path, live)[0] == (path, Hit(hot, path, live).value);
  }

  lemma HeldIsOnDisk(w: World, cap: nat, s: RepoState, disk: Disk, path: string)
    requires Faithful(w, cap, s) && path in disk
    requires path in s.files && s.files[path].mtime == disk[path]
    ensures IsReadable(w, disk, path)
    ensures var content := w.read(path, disk[path]).value;
      && s.files[path] == SourceFile(path, content, disk[path])
      && (if path in s.symbolsByPath then s.symbolsByPath[path] else []) == if w.extractable(path) then w.extract(path, content) else []
  {
  }

  lemma RecordLeaves(w: World, cap: nat, s: RepoState, disk: Disk, path: string)
    requires Faithful(w, cap, s) && IsReadable(w, disk, path)
    ensures LoadFile(w, disk, path).Ok?
    ensures var s' := Record(w, cap, s, LoadFile(w, disk, path).value);
      UpToDate(w, disk, path, s') && OthersKept(path, s, s')
  {
    InsertWithinCap(s.hot, path, LoadFile(w, disk, path).value, cap);
  }

  /** The answer of a lookup: the path's content and time on disk, or the first thing that stands in the way. */
  lemma LookupAnswers(w: World, cap: nat, s: RepoState, disk: Disk, path: string)
    requires Faithful(w, cap, s)
    ensures var r := CachedFileResult(w, s, disk, path);
      && (r.Ok? <==> IsReadable(w, disk, path))
      && (r.Ok? ==> r.value == SourceFile(path, w.read(path, disk[path]).value, disk[path]))
      && (!(w.root <= path) || path !in disk ==> r == Err(NotFound))
      && (w.root <= path && path in disk && !w.detect(path) ==> r == Err(Unsupported))
      && (w.root <= path && path in disk && w.detect(path) && w.read(path, disk[path]).Err? ==>
            r == Err(LoadFailed(w.read(path, disk[path]).error)))
  {
    CachedFileIsFresh(w, cap, s, disk, path);
  }

  // ----- whole runs

  /** The readable source files among `paths`. */
  function Readable(w: World, disk: Disk, paths: set<string>): map<string, SourceFile> {
    map path | path in paths && HasPrefix(path, w.root) && w.detect(path) && LoadFile(w, disk, path).Ok?
      :: LoadFile(w, disk, path).value
  }

  function SymbolsOf(w: World, files: map<string, SourceFile>): map<string, seq<Symbol>> {
    map path | path in files :: Extraction(w, files[path])
  }

  /** The source files the walk at load comes to. */
  function Candidates(w: World, disk: Disk): set<string> {
    set path | path in disk && HasPrefix(path, w.root) && w.walked(path) && w.detect(path)
  }

  /** What `Load` leaves behind when it took these files in: the readable ones and their symbols, and a cold cache. */
  function Loaded(w: World, disk: Disk, taken: set<string>): RepoState {
    var files := Readable(w, disk, taken);
    RepoState([], files, SymbolsOf(w, files))
  }

  lemma LoadedFaithful(w: World, cap: nat, disk: Disk, taken: set<string>)
    requires cap > 0
    ensures Faithful(w, cap, Loaded(w, disk, taken))
  {
  }

  /** One call, against whatever is on disk at that moment. */
  datatype Call =
    | Cached(disk: Disk, path: string)
    | Reload(disk: Disk, path: string)

  function After(w: World, cap: nat, s: RepoState, calls: seq<Call>): RepoState {
    if calls == [] then s
    else
      var before := After(w, cap, s, calls[..|calls| - 1]);
      match calls[|calls| - 1]
      case Cached(disk, path) => AfterCachedFile(w, cap, before, disk, path)
      case Reload(disk, path) => AfterReload(w, cap, before, disk, path)
  }

  lemma {:induction false} RunsStayFaithful(w: World, cap: nat, disk0: Disk, taken: set<string>, calls: seq<Call>)
    requires cap > 0
    ensures Faithful(w, cap, After(w, cap, Loaded(w, disk0, taken), calls))
  {
    hide Faithful;
    if calls == [] {
      LoadedFaithful(w, cap, disk0, taken);
    } else {
      RunsStayFaithful(w, cap, disk0, taken, calls[..|calls| - 1]);
      var before := After(w, cap, Loaded(w, disk0, taken), calls[..|calls| - 1]);
      match calls[|calls| - 1]
      case Cached(disk, path) => CachedFileKeepsFaithful(w, cap, before, disk, path);
      case Reload(disk, path) => ReloadKeepsFaithful(w, cap, before, disk, path);
    }
  }

  /**
   After any calls and any edits between them, with any capacity of the hot cache, a lookup
   answers as a fresh read of the disk would, and the symbols of every file the repository
   holds are those of the content it holds.
   */
  lemma LookupsAreNeverStale(w: World, cap: nat, disk0: Disk, taken: set<string>, calls: seq<Call>, disk: Disk, path: string)
    requires cap > 0
    ensures
      var s := After(w, cap, Loaded(w, disk0, taken), calls);
      && CachedFileResult(w, s, disk, path) == FreshRead(w, disk, path)
      && forall p :: p in s.files ==> SymbolsAt(s, p) == Extraction(w, s.files[p])
  {
    RunsStayFaithful(w, cap, disk0, taken, calls);
    CachedFileIsFresh(w, cap, After(w, cap, Loaded(w, disk0, taken), calls), disk, path);
  }

  /** After a lookup that succeeded, the file on record is the one returned and the symbols on record are its symbols. */
  lemma SymbolsFollowTheFile(w: World, cap: nat, disk0: Disk, taken: set<string>, calls: seq<Call>, disk: Disk, path: string)
    requires cap > 0
    requires FreshRead(w, disk, path).Ok?
    ensures
      var f := FreshRead(w, disk, path).value;
      var s := After(w, cap, Loaded(w, disk0, taken), calls + [Cached(disk, path)]);
      path in s.files && s.files[path] == f && SymbolsAt(s, path) == Extraction(w, f)
  {
    hide Faithful;
    var all := calls + [Cached(disk, path)];
    assert all[..|all| - 1] == calls;
    var before := After(w, cap, Loaded(w, disk0, taken), calls);
    RunsStayFaithful(w, cap, disk0, taken, calls);
    RunsStayFaithful(w, cap, disk0, taken, all);
    LookupRecords(w, cap, before, disk, path);
    assert After(w, cap, Loaded(w, disk0, taken), all) == AfterCachedFile(w, cap, before, disk, path);
    SymbolsOnRecord(w, cap, After(w, cap, Loaded(w, disk0, taken), all), path);
  }

  lemma LookupRecords(w: World, cap: nat, s: RepoState, disk: Disk, path: string)
    requires Faithful(w, cap, s) && FreshRead(w, disk, path).Ok?
    ensures
      var s' := AfterCachedFile(w, cap, s, disk, path);
      path in s'.files && s'.files[path] == FreshRead(w, disk, path).value
  {
    CachedFileIsFresh(w, cap, s, disk, path);
    if Find(s.hot, path).Some? { assert s.files[path] == Find(s.hot, path).value; }
  }

  lemma SymbolsOnRecord(w: World, cap: nat, s: RepoState, path: string)
    requires Faithful(w, cap, s) && path in s.files
    ensures SymbolsAt(s, path) == Extraction(w, s.files[path])
  {
  }

  // ----- the repository as the object the code updates

  /** Which files a load with a limit takes in: all, or as many as the limit allows before the walk is broken off. */
  ghost predicate Takes(w: World, disk: Disk, maxFiles: int, taken: set<string>, aborted: bool) {
    && taken <= Candidates(w, disk)
    && (aborted <==> maxFiles > 0 && |Candidates(w, disk)| > maxFiles)
    && (if aborted then |taken| == maxFiles else taken == Candidates(w, disk))
  }

  /**
   What a load leaves, file by file: resident are the readable among the source files taken in,
   each as on disk with the symbols of its content; every source file is taken in unless the limit
   cut the walk off, and then exactly as many as it allows and not all.
   */
  lemma LoadedMeans(w: World, disk: Disk, maxFiles: int, taken: set<string>, aborted: bool, p: string)
    requires Takes(w, disk, maxFiles, taken, aborted)
    ensures p in taken ==> p in disk && w.root <= p && w.walked(p) && w.detect(p)
    ensures !aborted && p in disk && w.root <= p && w.walked(p) && w.detect(p) ==> p in taken
    ensures aborted ==> |taken| == maxFiles && exists q :: q in disk && w.root <= q && w.walked(q) && w.detect(q) && q !in taken
    ensures !aborted && maxFiles > 0 ==> |taken| <= maxFiles
    ensures var s := Loaded(w, disk, taken);
      && s.hot == [] && s.symbolsByPath.Keys == s.files.Keys
      && (p in s.files <==> p in taken && w.read(p, disk[p]).Ok?)
      && (p in s.files ==>
            && s.files[p] == SourceFile(p, w.read(p, disk[p]).value, disk[p])
            && s.symbolsByPath[p] == if w.extractable(p) then w.extract(p, w.read(p, disk[p]).value) else [])
  {
    var all := Candidates(w, disk);
    if aborted {
      assert taken != all;
      var q :| q in all && q !in taken;
      assert q in disk && w.root <= q;
    }
  }

  /** A disk cache answers for a path and a modification time, if it does, what a parse would. */
  ghost predicate DiskCacheOk(w: World, diskCache: map<string, SourceFile>) {
    forall path :: path in diskCache ==> diskCache[path].path == path && w.read(path, diskCache[path].mtime) == Ok(diskCache[path].content)
  }

  /** What `Load` reports besides the repository. */
  datatype LoadError = Failed(path: string, error: Error) | MaxFilesExceeded

  /** One error for each file taken in that could not be read, in some order, and the limit's last if it was met. */
  ghost predicate Reports(w: World, disk: Disk, taken: set<string>, aborted: bool, errors: seq<LoadError>) {
    && (aborted ==> errors != [] && errors[|errors| - 1] == MaxFilesExceeded)
    && FailuresOf(w, disk, taken, if aborted && errors != [] then errors[..|errors| - 1] else errors)
  }

  ghost predicate FailuresOf(w: World, disk: Disk, taken: set<string>, errors: seq<LoadError>) {
    && (forall i, j :: 0 <= i < j < |errors| ==> errors[i] != errors[j])
    && (forall e :: e in errors <==> e.Failed? && e.path in taken && LoadFile(w, disk, e.path) == Err(e.error))
  }

  /** Whether writing an entry of the disk cache works, and which entries the size limit evicts after it. */
  datatype CacheWrites = CacheWrites(works: string -> bool, evicted: string -> set<string>)

  function AfterDiskPut(io: CacheWrites, diskCache: map<string, SourceFile>, f: SourceFile): map<string, SourceFile> {
    if io.works(f.path) then diskCache[f.path := f] - io.evicted(f.path) else diskCache
  }

  ghost predicate Reliable(io: CacheWrites) {
    forall p :: io.works(p) && io.evicted(p) == {}
  }

  /** Entries of the disk cache are old ones, or the files taken in; all of these if nothing went wrong or was evicted. */
  ghost predicate CacheFits(w: World, disk: Disk, io: CacheWrites, before: map<string, SourceFile>, taken: set<string>, now: map<string, SourceFile>) {
    && (forall p :: p in now ==>
          (p in before && now[p] == before[p]) || (p in taken && io.works(p) && LoadFile(w, disk, p) == Ok(now[p])))
    && (Reliable(io) ==> now == before + Readable(w, disk, taken))
  }

  /** What a load leaves in the disk cache: as above, without the entries of files it did not take in. */
  ghost predicate CacheLeft(w: World, disk: Disk, io: CacheWrites, before: map<string, SourceFile>, taken: set<string>, left: map<string, SourceFile>) {
    var files := Readable(w, disk, taken);
    && DiskCacheOk(w, left) && left.Keys <= files.Keys
    && (forall p :: p in left ==> (io.works(p) && left[p] == files[p]) || (p in before && left[p] == before[p]))
    && (Reliable(io) ==> left == files)
  }

  lemma OrphansEvicted(w: World, disk: Disk, io: CacheWrites, before: map<string, SourceFile>, taken: set<string>, now: map<string, SourceFile>)
    requires DiskCacheOk(w, before) && CacheFits(w, disk, io, before, taken, now)
    ensures var files := Readable(w, disk, taken);
      CacheLeft(w, disk, io, before, taken, map p | p in now && p in files :: now[p])
  {
    var files := Readable(w, disk, taken);
    var left := map p | p in now && p in files :: now[p];
    forall p | p in left ensures left[p].path == p && w.read(p, left[p].mtime) == Ok(left[p].content) {
      assert (p in before && now[p] == before[p]) || (p in taken && io.works(p) && LoadFile(w, disk, p) == Ok(now[p]));
    }
    if Reliable(io) { assert left.Keys == files.Keys; }
  }

  /** One file at load: from the disk cache if that has this modification time, else parsed and put there; then recorded with its symbols. */
  method TakeIn(w: World, disk: Disk, io: CacheWrites, ghost before: map<string, SourceFile>, diskCache0: map<string, SourceFile>, path: string,
      ghost taken: set<string>, files0: map<string, SourceFile>, symbols0: map<string, seq<Symbol>>, errors0: seq<LoadError>)
    returns (files: map<string, SourceFile>, symbolsByPath: map<string, seq<Symbol>>, diskCache: map<string, SourceFile>, errors: seq<LoadError>)
    requires DiskCacheOk(w, before) && path in disk && HasPrefix(path, w.root) && w.detect(path) && path !in taken
    requires files0 == Readable(w, disk, taken) && symbols0 == SymbolsOf(w, files0)
    requires CacheFits(w, disk, io, before, taken, diskCache0) && FailuresOf(w, disk, taken, errors0)
    ensures files == Readable(w, disk, taken + {path}) && symbolsByPath == SymbolsOf(w, files)
    ensures CacheFits(w, disk, io, before, taken + {path}, diskCache)
    ensures FailuresOf(w, disk, taken + {path}, errors)
  {
    hide Readable, SymbolsOf, Extraction, HasPrefix, CacheFits, FailuresOf, DiskCacheOk, LoadFile, AfterDiskPut;
    files, symbolsByPath, diskCache, errors := files0, symbols0, diskCache0, errors0;
    OneMoreTaken(w, disk, taken, path);
    HitIsFresh(w, disk, io, before, taken, diskCache0, path);
    var loaded;
    if path in diskCache && diskCache[path].mtime == disk[path] {
      loaded := Ok(diskCache[path]);
      HitFits(w, disk, io, before, taken, diskCache0, path);
    } else {
      loaded := LoadFile(w, disk, path);
      if loaded.Err? {
        FailureAdded(w, disk, taken, errors0, path);
        UnreadableFits(w, disk, io, before, taken, diskCache0, path);
        errors := errors + [Failed(path, loaded.error)];
        return;
      }
      PutFits(w, disk, io, before, taken, diskCache0, path);
      diskCache := AfterDiskPut(io, diskCache, loaded.value);
    }
    NoFailureAdded(w, disk, taken, errors0, path);
    files := files[path := loaded.value];
    symbolsByPath := symbolsByPath[path := Extraction(w, loaded.value)];
  }

  lemma HitIsFresh(w: World, disk: Disk, io: CacheWrites, before: map<string, SourceFile>, taken: set<string>, now: map<string, SourceFile>, path: string)
    requires DiskCacheOk(w, before) && CacheFits(w, disk, io, before, taken, now) && path in disk
    ensures path in now && now[path].mtime == disk[path] ==> LoadFile(w, disk, path) == Ok(now[path])
  {
    hide Reliable, Readable;
  }

  lemma HitFits(w: World, disk: Disk, io: CacheWrites, before: map<string, SourceFile>, taken: set<string>, now: map<string, SourceFile>, path: string)
    requires CacheFits(w, disk, io, before, taken, now) && path in disk && HasPrefix(path, w.root) && w.detect(path)
    requires path in now && LoadFile(w, disk, path) == Ok(now[path])
    ensures CacheFits(w, disk, io, before, taken + {path}, now)
  {
    hide LoadFile, HasPrefix, Readable, Reliable;
    OneMoreTaken(w, disk, taken, path);
  }

  lemma UnreadableFits(w: World, disk: Disk, io: CacheWrites, before: map<string, SourceFile>, taken: set<string>, now: map<string, SourceFile>, path: string)
    requires CacheFits(w, disk, io, before, taken, now) && path in disk && HasPrefix(path, w.root) && w.detect(path)
    requires LoadFile(w, disk, path).Err?
    ensures CacheFits(w, disk, io, before, taken + {path}, now)
  {
    hide LoadFile, HasPrefix, Readable, Reliable;
    OneMoreTaken(w, disk, taken, path);
  }

  lemma PutFits(w: World, disk: Disk, io: CacheWrites, before: map<string, SourceFile>, taken: set<string>, now: map<string, SourceFile>, path: string)
    requires CacheFits(w, disk, io, before, taken, now) && path in disk && HasPrefix(path, w.root) && w.detect(path)
    requires LoadFile(w, disk, path).Ok?
    ensures CacheFits(w, disk, io, before, taken + {path}, AfterDiskPut(io, now, LoadFile(w, disk, path).value))
  {
    var f := LoadFile(w, disk, path).value;
    assert f.path == path;
    OneMoreTaken(w, disk, taken, path);
    hide LoadFile, HasPrefix, Readable, Reliable, AfterDiskPut;
    var next := AfterDiskPut(io, now, f);
    if Reliable(io) { ReliablePut(io, before, Readable(w, disk, taken), f); }
    PutEntries(io, now, f);
    forall p | p in next
      ensures (p in before && next[p] == before[p]) || (p in taken + {path} && io.works(p) && LoadFile(w, disk, p) == Ok(next[p]))
    {
      assert (p == path && io.works(p)) || (p in now && next[p] == now[p]);
    }
  }

  lemma ReliablePut(io: CacheWrites, before: map<string, SourceFile>, files: map<string, SourceFile>, f: SourceFile)
    requires Reliable(io)
    ensures AfterDiskPut(io, before + files, f) == before + files[f.path := f]
  {
    var now := before + files;
    assert io.works(f.path) && io.evicted(f.path) == {};
    assert now[f.path := f] - {} == now[f.path := f] == before + files[f.path := f];
  }

  lemma PutEntries(io: CacheWrites, now: map<string, SourceFile>, f: SourceFile)
    ensures var next := AfterDiskPut(io, now, f);
      forall p :: p in next ==> (p == f.path && io.works(p) && next[p] == f) || (p in now && next[p] == now[p])
  {
  }

  lemma FailureAdded(w: World, disk: Disk, taken: set<string>, errors: seq<LoadError>, path: string)
    requires FailuresOf(w, disk, taken, errors) && path !in taken && LoadFile(w, disk, path).Err?
    ensures FailuresOf(w, disk, taken + {path}, errors + [Failed(path, LoadFile(w, disk, path).error)])
  {
    hide LoadFile;
    var last := Failed(path, LoadFile(w, disk, path).error);
    assert last !in errors;
    forall e ensures e in errors + [last] <==> e.Failed? && e.path in taken + {path} && LoadFile(w, disk, e.path) == Err(e.error) {
      assert e in errors + [last] <==> e in errors || e == last;
    }
  }

  lemma NoFailureAdded(w: World, disk: Disk, taken: set<string>, errors: seq<LoadError>, path: string)
    requires FailuresOf(w, disk, taken, errors)
    ensures LoadFile(w, disk, path).Ok? ==> FailuresOf(w, disk, taken + {path}, errors)
  {
    hide LoadFile;
  }

  lemma NothingCached(w: World, disk: Disk, io: CacheWrites, before: map<string, SourceFile>)
    ensures CacheFits(w, disk, io, before, {}, before) && FailuresOf(w, disk, {}, [])
  {
    assert Readable(w, disk, {}) == map[];
    assert before + map[] == before;
  }

  /**
   The walk at load, in any order: source files are counted, parsed or found in the disk
   cache, and recorded; the first one beyond the limit breaks the walk off. Afterwards the
   entries of files not recorded are evicted from the disk cache.
   */
  method Walk(w: World, disk: Disk, io: CacheWrites, before: map<string, SourceFile>, maxFiles: int)
    returns (files: map<string, SourceFile>, symbolsByPath: map<string, seq<Symbol>>, diskCache: map<string, SourceFile>,
      errors: seq<LoadError>, aborted: bool, ghost taken: set<string>)
    requires DiskCacheOk(w, before)
    ensures Takes(w, disk, maxFiles, taken, aborted)
    ensures files == Readable(w, disk, taken)
    ensures symbolsByPath == SymbolsOf(w, files)
    ensures CacheLeft(w, disk, io, before, taken, diskCache)
    ensures Reports(w, disk, taken, aborted, errors)
  {
    hide CacheLeft;
    files, symbolsByPath, diskCache, errors, aborted, taken := WalkFiles(w, disk, io, before, maxFiles);
    OrphansEvicted(w, disk, io, before, taken, diskCache);
    diskCache := map p | p in diskCache && p in files :: diskCache[p];
  }

  method WalkFiles(w: World, disk: Disk, io: CacheWrites, before: map<string, SourceFile>, maxFiles: int)
    returns (files: map<string, SourceFile>, symbolsByPath: map<string, seq<Symbol>>, diskCache: map<string, SourceFile>,
      errors: seq<LoadError>, aborted: bool, ghost taken: set<string>)
    requires DiskCacheOk(w, before)
    ensures Takes(w, disk, maxFiles, taken, aborted)
    ensures files == Readable(w, disk, taken)
    ensures symbolsByPath == SymbolsOf(w, files)
    ensures CacheFits(w, disk, io, before, taken, diskCache)
    ensures Reports(w, disk, taken, aborted, errors)
  {
    hide HasPrefix, DiskCacheOk, Readable, SymbolsOf, WalkedPast, CacheFits, FailuresOf;
    files, symbolsByPath, diskCache, errors, aborted, taken := map[], map[], before, [], false, {};
    var filesSeen := 0;
    var todo := disk.Keys;
    NothingTaken(w, disk);
    NothingCached(w, disk, io, before);
    while todo != {}
      invariant todo <= disk.Keys
      invariant WalkedPast(w, disk, todo, taken) && filesSeen == |taken|
      invariant maxFiles > 0 ==> filesSeen <= maxFiles
      invariant files == Readable(w, disk, taken)
      invariant symbolsByPath == SymbolsOf(w, files)
      invariant CacheFits(w, disk, io, before, taken, diskCache)
      invariant FailuresOf(w, disk, taken, errors)
      decreases todo
    {
      var path :| path in todo;
      WalkOn(w, disk, todo, taken, path);
      todo := todo - {path};
      if HasPrefix(path, w.root) && w.walked(path) && w.detect(path) {
        filesSeen := filesSeen + 1;
        if maxFiles > 0 && filesSeen > maxFiles {
          aborted := true;
          errors := errors + [MaxFilesExceeded];
          return;
        }
        files, symbolsByPath, diskCache, errors := TakeIn(w, disk, io, before, diskCache, path, taken, files, symbolsByPath, errors);
        taken := taken + {path};
      }
    }
    WalkEnds(w, disk, taken);
  }

  /** `taken` are the source files the walk has come to, `todo` the paths it has not. */
  ghost predicate WalkedPast(w: World, disk: Disk, todo: set<string>, taken: set<string>) {
    taken == Candidates(w, disk) - todo
  }

  lemma NothingTaken(w: World, disk: Disk)
    ensures WalkedPast(w, disk, disk.Keys, {})
    ensures Readable(w, disk, {}) == map[] && SymbolsOf(w, map[]) == map[]
  {
  }

  lemma WalkOn(w: World, disk: Disk, todo: set<string>, taken: set<string>, path: string)
    requires WalkedPast(w, disk, todo, taken) && path in todo && path in disk
    ensures taken <= Candidates(w, disk) && path !in taken
    ensures if HasPrefix(path, w.root) && w.walked(path) && w.detect(path)
            then WalkedPast(w, disk, todo - {path}, taken + {path}) && |taken + {path}| == |taken| + 1 <= |Candidates(w, disk)|
            else WalkedPast(w, disk, todo - {path}, taken)
  {
    hide HasPrefix;
    if path in Candidates(w, disk) { SubsetIsSmaller(taken + {path}, Candidates(w, disk)); }
  }

  lemma WalkEnds(w: World, disk: Disk, taken: set<string>)
    requires WalkedPast(w, disk, {}, taken)
    ensures taken == Candidates(w, disk)
  {
  }

  lemma SubsetIsSmaller(a: set<string>, b: set<string>)
    requires a <= b
    ensures |a| <= |b|
  {
    assert b == a + (b - a);
  }

  /** What one more file adds to the two maps. */
  lemma OneMoreTaken(w: World, disk: Disk, taken: set<string>, path: string)
    requires path in disk && HasPrefix(path, w.root) && w.detect(path)
    ensures LoadFile(w, disk, path).Ok? ==>
      var f := LoadFile(w, disk, path).value;
      && Readable(w, disk, taken + {path}) == Readable(w, disk, taken)[path := f]
      && SymbolsOf(w, Readable(w, disk, taken + {path})) == SymbolsOf(w, Readable(w, disk, taken))[path := Extraction(w, f)]
    ensures LoadFile(w, disk, path).Err? ==> Readable(w, disk, taken + {path}) == Readable(w, disk, taken)
  {
    hide LoadFile, Extraction, HasPrefix;
  }

  class Repo {
    ghost const w: World
    const root: string
    const cache: Cache
    var files: map<string, SourceFile>
    var symbolsByPath: map<string, seq<Symbol>>

    ghost predicate Valid()
      reads this, cache, cache.files, cache.layers, cache.files.order
    {
      cache.Valid() && root == w.root && Faithful(w, cache.files.cap, Current())
    }

    ghost function Current(): RepoState
      reads this, cache, cache.files, cache.files.order
    {
      RepoState(cache.files.Contents(), files, symbolsByPath)
    }

    ghost const taken: set<string>
    const aborted: bool
    const errors: seq<LoadError>
    const diskCache: map<string, SourceFile>   // what the load leaves on disk

    constructor Load(world: World, disk: Disk, io: CacheWrites, before: map<string, SourceFile>, maxFiles: int)
      requires DiskCacheOk(world, before)
      ensures Valid() && w == world
      ensures fresh(cache) && fresh(cache.files) && fresh(cache.layers) && cache.files.order == []
      ensures Takes(world, disk, maxFiles, taken, aborted)
      ensures Current() == Loaded(world, disk, taken)
      ensures CacheLeft(world, disk, io, before, taken, diskCache)
      ensures Reports(world, disk, taken, aborted, errors)
    {
      hide Faithful, Readable, SymbolsOf, Takes, DiskCacheOk, CacheLeft, Reports;
      w, root := world, world.root;
      cache := new Cache.NewSized(0, 0);
      var found, symbols, entries, failures, stopped;
      ghost var kept;
      found, symbols, entries, failures, stopped, kept := Walk(world, disk, io, before, maxFiles);
      files, symbolsByPath, diskCache, errors, aborted, taken := found, symbols, entries, failures, stopped, kept;
      new;
      LoadedFaithful(world, cache.files.cap, disk, kept);
    }

    /** `os.Stat`, then the hot cache, then the resident map, then a parse that is recorded at every level. */
    method CachedFile(world: World, disk: Disk, path: string) returns (r: Result<SourceFile, Error>)
      requires Valid() && world == w
      modifies this, cache.files, cache.files.order
      ensures Valid()
      ensures r == FreshRead(w, disk, path)
      ensures Current() == AfterCachedFile(w, cache.files.cap, old(Current()), disk, path)
      ensures r.Ok? <==> IsReadable(w, disk, path)
      ensures r.Ok? ==> UpToDate(w, disk, path, Current()) && r.value == files[path] && OthersKept(path, old(Current()), Current())
      ensures r.Err? ==> files == old(files) && symbolsByPath == old(symbolsByPath)
    {
      hide Faithful, AfterLookup, AfterInsert;
      ghost var s := Current();
      ghost var cap := cache.files.cap;
      CachedFileIsFresh(w, cap, s, disk, path);
      CachedFileKeepsFaithful(w, cap, s, disk, path);
      LookupLeaves(w, cap, s, disk, path);
      LookupAnswers(w, cap, s, disk, path);
      hide IsReadable, UpToDate, OthersKept;
      if !HasPrefix(path, root) || path !in disk {
        return Err(NotFound);
      }
      var mtime := disk[path];
      var hit := cache.GetFile(path, mtime);
      if hit.Some? {
        return Ok(hit.value);
      }
      if path in files && files[path].mtime == mtime {
        cache.PutFile(files[path]);
        return Ok(files[path]);
      }
      if !world.detect(path) {
        return Err(Unsupported);
      }
      var loaded := LoadFile(world, disk, path);
      if loaded.Err? {
        return loaded;
      }
      RecordParsed(world, loaded.value);
      return loaded;
    }

    method RecordParsed(world: World, f: SourceFile)
      requires cache.Valid() && world == w
      modifies this, cache.files, cache.files.order
      ensures cache.Valid()
      ensures Current() == Record(w, cache.files.cap, old(Current()), f)
      ensures forall e :: e in cache.files.order ==> e in old(cache.files.order) || fresh(e)
    {
      hide Linked, Without, AfterInsert, DistinctKeys;
      cache.PutFile(f);
      files := files[f.path := f];
      if world.extractable(f.path) {
        symbolsByPath := symbolsByPath[f.path := world.extract(f.path, f.content)];
      }
    }

    /** A fresh parse whatever is cached. */
    method ReloadInvalidate(world: World, disk: Disk, path: string) returns (r: Option<Error>)
      requires Valid() && world == w
      modifies this, cache.files, cache.files.order
      ensures Valid()
      ensures Current() == AfterReload(w, cache.files.cap, old(Current()), disk, path)
      ensures r == if !HasPrefix(path, w.root) then Some(NotFound) else if !w.detect(path) then Some(Unsupported)
                   else if LoadFile(w, disk, path).Err? then Some(LoadFile(w, disk, path).error) else None
      ensures r.None? <==> IsReadable(w, disk, path)
      ensures r.None? ==> UpToDate(w, disk, path, Current()) && OthersKept(path, old(Current()), Current())
      ensures r.Some? ==> Current() == old(Current())
    {
      hide Faithful, AfterLookup, AfterInsert, UpToDate, OthersKept;
      ReloadLeaves(w, cache.files.cap, Current(), disk, path);
      ReloadKeepsFaithful(w, cache.files.cap, Current(), disk, path);
      if !HasPrefix(path, root) {
        return Some(NotFound);
      }
      if !world.detect(path) {
        return Some(Unsupported);
      }
      var loaded := LoadFile(world, disk, path);
      if loaded.Err? {
        return Some(loaded.error);
      }
      RecordParsed(world, loaded.value);
      return None;
    }
  }
}
