/**
 The call-edge index (`internal/store/resolver.go`) and the live caller scan it stands in
 for (`internal/tool/nodeedges.go`): built and read by different loops over the same
 trees, they report the same callers.
 */
module CallEdges {
  import opened Wrappers
  import opened Sorting
  import opened TreeWalk
  import opened RowRanges
  import opened Symbols

  /** A parsed file as both readers see it: its bytes and its tree. */
  datatype Parsed = Parsed(bytes: string, root: Tree)

  /** The repository while nothing changes: symbols per file, and the files that parse. */
  datatype Snapshot = Snapshot(symbols: map<string, seq<Symbol>>, parsed: map<string, Parsed>)

  datatype EdgeEntry = EdgeEntry(file: string, caller: Symbol, callee: string)

  datatype EdgeKey = EdgeKey(side: nat, name: string)

  // ----- call sites

  /** `ExtractCalleeName`. */
  function ExtractCalleeName(n: Tree): string {
    if n.kind == "identifier" || n.kind == "field_identifier" then n.content
    else if n.kind == "selector_expression" && n.children != [] then ExtractCalleeName(n.children[|n.children| - 1])
    else ""
  }

  /** The node under the field "function", else the first child. */
  function FunctionNode(n: Tree): Option<Tree> {
    if n.functionField.Some? && n.functionField.value < |n.children| then Some(n.children[n.functionField.value])
    else if n.children != [] then Some(n.children[0])
    else None
  }

  /** The bare name a node calls; empty when it is not a call or the callee has no name. */
  function CalleeOf(n: Tree): string {
    if n.kind != "call_expression" then ""
    else
      match FunctionNode(n)
      case None => ""
      case Some(fn) => ExtractCalleeName(fn)
  }

  predicate IsCallable(s: Symbol) {
    (s.kind == "function_declaration" || s.kind == "method_declaration") && s.name != ""
  }

  function CallerEdgeKey(file: string, s: Symbol): string {
    if s.receiver != "" then file + "::" + s.receiver + "." + s.name else file + "::" + s.name
  }

  // ----- the two visitors

  /** The index's visitor: collects each callee name once, and always goes below. */
  function CollectCallee(names: seq<string>, n: Tree): (seq<string>, bool) {
    var callee := CalleeOf(n);
    (if callee == "" || callee in names then names else names + [callee], true)
  }

  /** The live scan's visitor: looks for one name, and does not go below a call of it. */
  function FindCallee(name: string): Visitor<bool> {
    (found: bool, n: Tree) => if CalleeOf(n) == name then (true, false) else (found, true)
  }

  /** The callees of one declaration, each once, in the order of their first call. */
  function CalleesOf(f: Parsed, s: Symbol): seq<string> {
    var (lo, hi) := ByteRange(f.bytes, s.startRow, s.endRow);
    Walk(f.root, lo, hi, CollectCallee, [])
  }

  function Calls(f: Parsed, s: Symbol, name: string): bool {
    var (lo, hi) := ByteRange(f.bytes, s.startRow, s.endRow);
    Walk(f.root, lo, hi, FindCallee(name), false)
  }

  lemma {:induction false} CollectedNames(names: seq<string>, ts: seq<Tree>)
    requires Distinct(names)
    ensures Distinct(Fold(CollectCallee, names, ts))
    ensures forall x :: x in Fold(CollectCallee, names, ts) <==>
      x in names || (x != "" && exists i :: 0 <= i < |ts| && CalleeOf(ts[i]) == x)
    decreases |ts|
  {
    if ts != [] {
      var next := CollectCallee(names, ts[0]).0;
      CollectedNames(next, ts[1..]);
      forall x ensures x in Fold(CollectCallee, names, ts) <==>
        x in names || (x != "" && exists i :: 0 <= i < |ts| && CalleeOf(ts[i]) == x)
      {
        assert x in next <==> x in names || (x != "" && CalleeOf(ts[0]) == x);
        assert forall i :: 0 < i < |ts| ==> ts[i] == ts[1..][i - 1];
      }
    }
  }

  lemma {:induction false} FoundName(name: string, found: bool, ts: seq<Tree>)
    ensures Fold(FindCallee(name), found, ts) <==> found || exists i :: 0 <= i < |ts| && CalleeOf(ts[i]) == name
    decreases |ts|
  {
    if ts != [] {
      FoundName(name, FindCallee(name)(found, ts[0]).0, ts[1..]);
      assert forall i :: 0 < i < |ts| ==> ts[i] == ts[1..][i - 1];
      if i :| 0 <= i < |ts| && CalleeOf(ts[i]) == name {
        if i > 0 { assert CalleeOf(ts[1..][i - 1]) == name; }
      }
    }
  }

  /** Though one walk prunes and the other does not, the live scan finds a name exactly when the index records it. */
  lemma ScanAgreesWithIndex(f: Parsed, s: Symbol, name: string)
    requires name != ""
    ensures Calls(f, s, name) <==> name in CalleesOf(f, s)
    ensures Distinct(CalleesOf(f, s))
  {
    var (lo, hi) := ByteRange(f.bytes, s.startRow, s.endRow);
    WalkIsFold(f.root, lo, hi, CollectCallee, []);
    WalkIsFold(f.root, lo, hi, FindCallee(name), false);
    CollectedNames([], Visited(f.root, lo, hi));
    FoundName(name, false, Visited(f.root, lo, hi));
  }

  // ----- the index

  function EntriesFor(path: string, s: Symbol, names: seq<string>): seq<EdgeEntry> {
    if names == [] then []
    else EntriesFor(path, s, names[..|names| - 1]) + [EdgeEntry(path, s, names[|names| - 1])]
  }

  /** What the index records for the first declarations of a file. */
  function FileEdges(sn: Snapshot, path: string, syms: seq<Symbol>): seq<EdgeEntry> {
    if syms == [] then []
    else
      var s := syms[|syms| - 1];
      FileEdges(sn, path, syms[..|syms| - 1]) +
      if IsCallable(s) && path in sn.parsed then EntriesFor(path, s, CalleesOf(sn.parsed[path], s)) else []
  }

  function SymbolsIn(sn: Snapshot, path: string): seq<Symbol> {
    if path in sn.symbols then sn.symbols[path] else []
  }

  /** Every edge the index records when it takes the files in this order. */
  function AllEdges(sn: Snapshot, order: seq<string>): seq<EdgeEntry> {
    if order == [] then []
    else AllEdges(sn, order[..|order| - 1]) + FileEdges(sn, order[|order| - 1], SymbolsIn(sn, order[|order| - 1]))
  }

  type Index = map<EdgeKey, seq<EdgeEntry>>

  function Bucket(index: Index, key: EdgeKey): seq<EdgeEntry> {
    if key in index then index[key] else []
  }

  predicate HasKey(e: EdgeEntry, key: EdgeKey) {
    key == EdgeKey(0, e.callee) || key == EdgeKey(1, CallerEdgeKey(e.file, e.caller))
  }

  function ByKey(edges: seq<EdgeEntry>, key: EdgeKey): seq<EdgeEntry> {
    if edges == [] then []
    else ByKey(edges[..|edges| - 1], key) + if HasKey(edges[|edges| - 1], key) then [edges[|edges| - 1]] else []
  }

  lemma ByKeySnoc(edges: seq<EdgeEntry>, e: EdgeEntry, key: EdgeKey)
    ensures ByKey(edges + [e], key) == ByKey(edges, key) + if HasKey(e, key) then [e] else []
  {
    assert (edges + [e])[..|edges|] == edges;
  }

  lemma Associate<T>(x: seq<T>, y: seq<T>, z: seq<T>)
    ensures (x + y) + z == x + (y + z)
  {
  }

  lemma {:induction false} ByKeyJoin(a: seq<EdgeEntry>, b: seq<EdgeEntry>, key: EdgeKey)
    ensures ByKey(a + b, key) == ByKey(a, key) + ByKey(b, key)
    decreases |b|
  {
    hide ByKey, HasKey;
    if b == [] {
      assert a + b == a;
      NoKeys(key);
    } else {
      var init, e := b[..|b| - 1], b[|b| - 1];
      ByKeyJoin(a, init, key);
      ByKeySnoc(a + init, e, key);
      ByKeySnoc(init, e, key);
      assert b == init + [e];
      assert a + b == (a + init) + [e];
      Associate(ByKey(a, key), ByKey(init, key), if HasKey(e, key) then [e] else []);
    }
  }

  /** Each bucket holds, in the order recorded, exactly the edges that have its key. */
  ghost predicate Indexes(index: Index, edges: seq<EdgeEntry>) {
    forall key :: Bucket(index, key) == ByKey(edges, key)
  }

  /** One edge goes to its callee's bucket and to its caller's. */
  method AppendEdge(index: Index, e: EdgeEntry, ghost edges: seq<EdgeEntry>) returns (index': Index)
    requires Indexes(index, edges)
    ensures Indexes(index', edges + [e])
  {
    var calleeKey := EdgeKey(0, e.callee);
    var callerKey := EdgeKey(1, CallerEdgeKey(e.file, e.caller));
    index' := index[calleeKey := Bucket(index, calleeKey) + [e]];
    index' := index'[callerKey := Bucket(index', callerKey) + [e]];
    forall key ensures Bucket(index', key) == ByKey(edges + [e], key) { ByKeySnoc(edges, e, key); }
  }

  /** The edges of one declaration, in the order the walk found them. */
  method AppendSymbol(index: Index, path: string, f: Parsed, s: Symbol, ghost edges: seq<EdgeEntry>) returns (index': Index)
    requires Indexes(index, edges)
    ensures Indexes(index', edges + EntriesFor(path, s, CalleesOf(f, s)))
  {
    hide Indexes;
    var lo, hi := ByteRangeFromRows(f.bytes, s.startRow, s.endRow);
    var names := WalkExpr(f.root, lo, hi, CollectCallee, []);
    index' := index;
    assert edges + EntriesFor(path, s, []) == edges;
    for i := 0 to |names|
      invariant Indexes(index', edges + EntriesFor(path, s, names[..i]))
    {
      assert names[..i + 1][..i] == names[..i];
      index' := AppendEdge(index', EdgeEntry(path, s, names[i]), edges + EntriesFor(path, s, names[..i]));
      assert edges + EntriesFor(path, s, names[..i]) + [EdgeEntry(path, s, names[i])] == edges + EntriesFor(path, s, names[..i + 1]);
    }
    assert names[..|names|] == names;
  }

  lemma NoFileEdges(sn: Snapshot, path: string)
    ensures FileEdges(sn, path, []) == []
  {
  }

  /** What one more declaration adds. */
  lemma FileEdgesStep(sn: Snapshot, path: string, syms: seq<Symbol>, i: nat)
    requires i < |syms|
    ensures FileEdges(sn, path, syms[..i + 1]) == FileEdges(sn, path, syms[..i]) +
      if IsCallable(syms[i]) && path in sn.parsed then EntriesFor(path, syms[i], CalleesOf(sn.parsed[path], syms[i])) else []
  {
    assert syms[..i + 1][..i] == syms[..i];
  }

  method AppendFile(sn: Snapshot, index: Index, path: string, ghost edges: seq<EdgeEntry>) returns (index': Index)
    requires Indexes(index, edges)
    ensures Indexes(index', edges + FileEdges(sn, path, SymbolsIn(sn, path)))
  {
    hide Indexes, FileEdges, IsCallable, CalleesOf, EntriesFor, SymbolsIn;
    var syms := SymbolsIn(sn, path);
    index' := index;
    assert edges + FileEdges(sn, path, syms[..0]) == edges by { NoFileEdges(sn, path); assert syms[..0] == []; }
    for i := 0 to |syms|
      invariant Indexes(index', edges + FileEdges(sn, path, syms[..i]))
    {
      FileEdgesStep(sn, path, syms, i);
      if !IsCallable(syms[i]) {
        assert FileEdges(sn, path, syms[..i + 1]) == FileEdges(sn, path, syms[..i]);
        continue;
      }
      if path !in sn.parsed {
        NothingParsed(sn, path, syms);
        assert FileEdges(sn, path, syms) == [] == FileEdges(sn, path, syms[..i]) by { NothingParsed(sn, path, syms[..i]); }
        return;
      }
      ghost var before := edges + FileEdges(sn, path, syms[..i]);
      index' := AppendSymbol(index', path, sn.parsed[path], syms[i], before);
      assert before + EntriesFor(path, syms[i], CalleesOf(sn.parsed[path], syms[i])) == edges + FileEdges(sn, path, syms[..i + 1]);
    }
    assert syms[..|syms|] == syms;
  }

  lemma {:induction false} NothingParsed(sn: Snapshot, path: string, syms: seq<Symbol>)
    requires path !in sn.parsed
    ensures FileEdges(sn, path, syms) == []
    decreases |syms|
  {
    if syms != [] { NothingParsed(sn, path, syms[..|syms| - 1]); }
  }

  /** One order in which a `range` over the files may meet them. */
  ghost predicate FileOrder(sn: Snapshot, order: seq<string>) {
    Distinct(order) && forall p :: p in order <==> p in sn.symbols
  }

  ghost predicate BuiltIn(sn: Snapshot, index: Index, order: seq<string>) {
    FileOrder(sn, order) && Indexes(index, AllEdges(sn, order))
  }

  /** The index of a snapshot: its buckets hold the edges of all files, taken in some order. */
  ghost predicate IsIndexOf(sn: Snapshot, index: Index) {
    exists order :: BuiltIn(sn, index, order)
  }

  /** The call-edge pass of `rebuildIndex`. */
  method RebuildIndex(sn: Snapshot) returns (index: Index)
    ensures IsIndexOf(sn, index)
  {
    hide Indexes;
    index := map[];
    var paths := SetToSeq(sn.symbols.Keys);
    assert Indexes(index, []) by { NothingIndexed(); }
    for i := 0 to |paths|
      invariant Indexes(index, AllEdges(sn, paths[..i]))
    {
      assert paths[..i + 1][..i] == paths[..i];
      index := AppendFile(sn, index, paths[i], AllEdges(sn, paths[..i]));
    }
    assert paths[..|paths|] == paths;
    assert BuiltIn(sn, index, paths);
  }

  lemma NothingIndexed()
    ensures Indexes(map[], [])
  {
  }

  predicate EdgeLe(x: EdgeEntry, y: EdgeEntry) {
    if x.file != y.file then StringLe(x.file, y.file) else x.caller.startRow <= y.caller.startRow
  }

  lemma EdgeLeIsTotal()
    ensures TotalPreorder(EdgeLe)
  {
    StringLeIsTotalOrder();
  }

  predicate CalleeLe(x: EdgeEntry, y: EdgeEntry) {
    StringLe(x.callee, y.callee)
  }

  lemma CalleeLeIsTotal()
    ensures TotalPreorder(CalleeLe)
  {
    StringLeIsTotalOrder();
  }

  method EdgesByCallee(index: Index, name: string) returns (out: seq<EdgeEntry>)
    ensures name == "" ==> out == []
    ensures name != "" ==> multiset(out) == multiset(Bucket(index, EdgeKey(0, name)))
    ensures SortedBy(EdgeLe, out)
    ensures forall i, j :: 0 <= i < j < |out| ==>
      LessText(out[i].file, out[j].file) || (out[i].file == out[j].file && out[i].caller.startRow <= out[j].caller.startRow)
  {
    if name == "" {
      return [];
    }
    EdgeLeIsTotal();
    out := Sort(EdgeLe, Bucket(index, EdgeKey(0, name)));
    forall i, j | 0 <= i < j < |out|
      ensures LessText(out[i].file, out[j].file) || (out[i].file == out[j].file && out[i].caller.startRow <= out[j].caller.startRow)
    {
      assert EdgeLe(out[i], out[j]);
      StringLeIff(out[i].file, out[j].file);
    }
  }

  method EdgesByCaller(index: Index, file: string, sym: Symbol) returns (out: seq<EdgeEntry>)
    ensures file == "" || sym.name == "" ==> out == []
    ensures file != "" && sym.name != "" ==> multiset(out) == multiset(Bucket(index, EdgeKey(1, CallerEdgeKey(file, sym))))
    ensures forall i, j :: 0 <= i < j < |out| ==> out[i].callee == out[j].callee || LessText(out[i].callee, out[j].callee)
  {
    if file == "" || sym.name == "" {
      return [];
    }
    CalleeLeIsTotal();
    out := Sort(CalleeLe, Bucket(index, EdgeKey(1, CallerEdgeKey(file, sym))));
    forall i, j | 0 <= i < j < |out| ensures out[i].callee == out[j].callee || LessText(out[i].callee, out[j].callee) {
      assert CalleeLe(out[i], out[j]);
      StringLeIff(out[i].callee, out[j].callee);
    }
  }

  // ----- the live scan

  datatype Caller = Caller(file: string, sym: Symbol)

  /** The callers of `name` among the first declarations of one file. */
  function FileCallers(sn: Snapshot, path: string, syms: seq<Symbol>, name: string): seq<Caller> {
    if syms == [] then []
    else
      var s := syms[|syms| - 1];
      FileCallers(sn, path, syms[..|syms| - 1], name) +
      if IsCallable(s) && path in sn.parsed && Calls(sn.parsed[path], s, name) then [Caller(path, s)] else []
  }

  /** The callers of `name` outside `file`, taking the files in this order. */
  function AllCallers(sn: Snapshot, order: seq<string>, file: string, name: string): seq<Caller> {
    if order == [] then []
    else
      var path := order[|order| - 1];
      AllCallers(sn, order[..|order| - 1], file, name) +
      if path == file then [] else FileCallers(sn, path, SymbolsIn(sn, path), name)
  }

  lemma {:induction false} FileCallersGrow(sn: Snapshot, path: string, syms: seq<Symbol>, name: string, i: nat)
    requires i <= |syms|
    ensures FileCallers(sn, path, syms[..i], name) <= FileCallers(sn, path, syms, name)
    decreases |syms| - i
  {
    if i < |syms| {
      FileCallersGrow(sn, path, syms, name, i + 1);
      assert syms[..i + 1][..i] == syms[..i];
    } else {
      assert syms[..i] == syms;
    }
  }

  lemma {:induction false} AllCallersGrow(sn: Snapshot, order: seq<string>, file: string, name: string, i: nat)
    requires i <= |order|
    ensures AllCallers(sn, order[..i], file, name) <= AllCallers(sn, order, file, name)
    decreases |order| - i
  {
    if i < |order| {
      AllCallersGrow(sn, order, file, name, i + 1);
      assert order[..i + 1][..i] == order[..i];
    } else {
      assert order[..i] == order;
    }
  }

  lemma NoFileCallers(sn: Snapshot, path: string, name: string)
    ensures FileCallers(sn, path, [], name) == []
  {
  }

  /** What scanning one more symbol adds. */
  lemma FileCallersStep(sn: Snapshot, path: string, syms: seq<Symbol>, name: string, i: nat)
    requires i < |syms|
    ensures FileCallers(sn, path, syms[..i + 1], name) == FileCallers(sn, path, syms[..i], name) +
      if IsCallable(syms[i]) && path in sn.parsed && Calls(sn.parsed[path], syms[i], name) then [Caller(path, syms[i])] else []
  {
    assert syms[..i + 1][..i] == syms[..i];
  }

  /** One file's declarations; stops when `out` reaches the limit. */
  method ScanFile(sn: Snapshot, path: string, name: string, limit: int, out0: seq<Caller>) returns (out: seq<Caller>, full: bool)
    requires |out0| < limit || out0 == []
    ensures out0 <= out <= out0 + FileCallers(sn, path, SymbolsIn(sn, path), name)
    ensures !full ==> out == out0 + FileCallers(sn, path, SymbolsIn(sn, path), name) && (|out| < limit || out == [])
    ensures full ==> |out| >= limit && (limit > 0 ==> |out| == limit)
  {
    hide FileCallers, IsCallable, Walk, ByteRange, SymbolsIn;
    out, full := out0, false;
    var syms := SymbolsIn(sn, path);
    assert FileCallers(sn, path, syms[..0], name) == [] by { NoFileCallers(sn, path, name); assert syms[..0] == []; }
    for i := 0 to |syms|
      invariant out == out0 + FileCallers(sn, path, syms[..i], name) && !full
      invariant |out| < limit || out == []
    {
      FileCallersStep(sn, path, syms, name, i);
      FileCallersGrow(sn, path, syms, name, i + 1);
      if !IsCallable(syms[i]) || path !in sn.parsed {
        continue;
      }
      var f := sn.parsed[path];
      var lo, hi := ByteRangeFromRows(f.bytes, syms[i].startRow, syms[i].endRow);
      var found := WalkExpr(f.root, lo, hi, FindCallee(name), false);
      if found {
        out := out + [Caller(path, syms[i])];
        assert out == out0 + FileCallers(sn, path, syms[..i + 1], name);
        if |out| >= limit {
          full := true;
          return;
        }
      }
    }
    assert syms[..|syms|] == syms;
  }

  lemma NoCallers(sn: Snapshot, file: string, name: string)
    ensures AllCallers(sn, [], file, name) == []
  {
  }

  /** The tree-sitter tier of `scanCallers`; `order` is the order in which it met the files. */
  method ScanCallers(sn: Snapshot, file: string, sym: Symbol, limit: int) returns (out: seq<Caller>, ghost order: seq<string>)
    ensures FileOrder(sn, order)
    ensures sym.name == "" ==> out == []
    ensures sym.name != "" ==> out <= AllCallers(sn, order, file, sym.name)
    ensures sym.name != "" && |out| < limit ==> out == AllCallers(sn, order, file, sym.name)
    ensures limit > 0 ==> |out| <= limit
  {
    hide AllCallers, FileCallers, Distinct, SymbolsIn;
    var paths := SetToSeq(sn.symbols.Keys);
    order := paths;
    out := [];
    assert AllCallers(sn, paths[..0], file, sym.name) == [] by { NoCallers(sn, file, sym.name); assert paths[..0] == []; }
    if sym.name == "" {
      return;
    }
    for i := 0 to |paths|
      invariant out == AllCallers(sn, paths[..i], file, sym.name)
      invariant |out| < limit || out == []
    {
      assert paths[..i + 1] == paths[..i] + [paths[i]];
      AllCallersSnoc(sn, paths[..i], paths[i], file, sym.name);
      AllCallersGrow(sn, paths, file, sym.name, i + 1);
      if paths[i] == file {
        assert AllCallers(sn, paths[..i + 1], file, sym.name) == AllCallers(sn, paths[..i], file, sym.name);
        continue;
      }
      var full;
      out, full := ScanFile(sn, paths[i], sym.name, limit, out);
      if full {
        return;
      }
    }
    assert paths[..|paths|] == paths;
  }

  // ----- the index agrees with the scan

  /** The callers an answer from the index names, outside `file`. */
  function CallersOf(edges: seq<EdgeEntry>, file: string): seq<Caller> {
    if edges == [] then []
    else
      var e := edges[|edges| - 1];
      CallersOf(edges[..|edges| - 1], file) + if e.file == file then [] else [Caller(e.file, e.caller)]
  }

  lemma CallersOfSnoc(edges: seq<EdgeEntry>, e: EdgeEntry, file: string)
    ensures CallersOf(edges + [e], file) == CallersOf(edges, file) + if e.file == file then [] else [Caller(e.file, e.caller)]
  {
    assert (edges + [e])[..|edges|] == edges;
  }

  lemma NoEdgesNoCallers(file: string)
    ensures CallersOf([], file) == []
  {
  }

  lemma {:induction false} CallersOfJoin(a: seq<EdgeEntry>, b: seq<EdgeEntry>, file: string)
    ensures CallersOf(a + b, file) == CallersOf(a, file) + CallersOf(b, file)
    decreases |b|
  {
    hide CallersOf;
    if b == [] {
      assert a + b == a;
      assert CallersOf([], file) == [] by { NoEdgesNoCallers(file); }
    } else {
      var init, e := b[..|b| - 1], b[|b| - 1];
      CallersOfJoin(a, init, file);
      CallersOfSnoc(a + init, e, file);
      CallersOfSnoc(init, e, file);
      assert b == init + [e];
      assert a + b == (a + init) + [e];
      Associate(CallersOf(a, file), CallersOf(init, file), if e.file == file then [] else [Caller(e.file, e.caller)]);
    }
  }

  lemma CalleeKeyIs(e: EdgeEntry, name: string)
    ensures HasKey(e, EdgeKey(0, name)) <==> e.callee == name
  {
  }

  /** One declaration has at most one entry for a callee: it has one exactly if it calls it. */
  lemma {:induction false} EntryOnce(path: string, s: Symbol, names: seq<string>, name: string)
    requires Distinct(names)
    ensures ByKey(EntriesFor(path, s, names), EdgeKey(0, name)) == if name in names then [EdgeEntry(path, s, name)] else []
    decreases |names|
  {
    hide HasKey, Distinct, ByKey;
    if names == [] {
      NoKeys(EdgeKey(0, name));
    } else {
      var n := |names| - 1;
      DistinctInit(names);
      EntryOnce(path, s, names[..n], name);
      ByKeySnoc(EntriesFor(path, s, names[..n]), EdgeEntry(path, s, names[n]), EdgeKey(0, name));
      CalleeKeyIs(EdgeEntry(path, s, names[n]), name);
      assert names == names[..n] + [names[n]];
      assert name in names <==> name in names[..n] || name == names[n];
    }
  }

  lemma NoKeys(key: EdgeKey)
    ensures ByKey([], key) == []
  {
  }

  lemma {:induction false} FileAgrees(sn: Snapshot, path: string, syms: seq<Symbol>, file: string, name: string)
    requires name != "" && path != file
    ensures CallersOf(ByKey(FileEdges(sn, path, syms), EdgeKey(0, name)), file) == FileCallers(sn, path, syms, name)
    decreases |syms|
  {
    if syms != [] {
      var n := |syms| - 1;
      var s := syms[n];
      FileAgrees(sn, path, syms[..n], file, name);
      if IsCallable(s) && path in sn.parsed {
        var names := CalleesOf(sn.parsed[path], s);
        ScanAgreesWithIndex(sn.parsed[path], s, name);
        EntryOnce(path, s, names, name);
        ByKeyJoin(FileEdges(sn, path, syms[..n]), EntriesFor(path, s, names), EdgeKey(0, name));
        CallersOfJoin(ByKey(FileEdges(sn, path, syms[..n]), EdgeKey(0, name)), ByKey(EntriesFor(path, s, names), EdgeKey(0, name)), file);
        assert [EdgeEntry(path, s, name)][..0] == [];
      } else {
        assert FileEdges(sn, path, syms) == FileEdges(sn, path, syms[..n]);
      }
    }
  }

  lemma {:induction false} OwnFileIsDropped(sn: Snapshot, file: string, syms: seq<Symbol>, key: EdgeKey)
    ensures CallersOf(ByKey(FileEdges(sn, file, syms), key), file) == []
    decreases |syms|
  {
    EdgesAreOfFile(sn, file, syms);
    NothingElsewhere(FileEdges(sn, file, syms), key, file);
  }

  lemma {:induction false} EdgesAreOfFile(sn: Snapshot, path: string, syms: seq<Symbol>)
    ensures forall i :: 0 <= i < |FileEdges(sn, path, syms)| ==> FileEdges(sn, path, syms)[i].file == path
    decreases |syms|
  {
    if syms != [] {
      var n := |syms| - 1;
      EdgesAreOfFile(sn, path, syms[..n]);
      if IsCallable(syms[n]) && path in sn.parsed { EntriesAreOfFile(path, syms[n], CalleesOf(sn.parsed[path], syms[n])); }
    }
  }

  lemma {:induction false} EntriesAreOfFile(path: string, s: Symbol, names: seq<string>)
    ensures forall i :: 0 <= i < |EntriesFor(path, s, names)| ==> EntriesFor(path, s, names)[i].file == path
    decreases |names|
  {
    if names != [] { EntriesAreOfFile(path, s, names[..|names| - 1]); }
  }

  lemma {:induction false} NothingElsewhere(edges: seq<EdgeEntry>, key: EdgeKey, file: string)
    requires forall i :: 0 <= i < |edges| ==> edges[i].file == file
    ensures CallersOf(ByKey(edges, key), file) == []
    decreases |edges|
  {
    if edges != [] {
      var n := |edges| - 1;
      NothingElsewhere(edges[..n], key, file);
      var kept := if HasKey(edges[n], key) then [edges[n]] else [];
      CallersOfJoin(ByKey(edges[..n], key), kept, file);
      if kept != [] { assert kept[..0] == []; }
    }
  }

  lemma {:induction false} OrderAgrees(sn: Snapshot, order: seq<string>, file: string, name: string)
    requires name != ""
    ensures CallersOf(ByKey(AllEdges(sn, order), EdgeKey(0, name)), file) == AllCallers(sn, order, file, name)
    decreases |order|
  {
    if order != [] {
      var n := |order| - 1;
      var path := order[n];
      OrderAgrees(sn, order[..n], file, name);
      var edges := FileEdges(sn, path, SymbolsIn(sn, path));
      ByKeyJoin(AllEdges(sn, order[..n]), edges, EdgeKey(0, name));
      CallersOfJoin(ByKey(AllEdges(sn, order[..n]), EdgeKey(0, name)), ByKey(edges, EdgeKey(0, name)), file);
      if path == file { OwnFileIsDropped(sn, file, SymbolsIn(sn, path), EdgeKey(0, name)); }
      else { FileAgrees(sn, path, SymbolsIn(sn, path), file, name); }
    }
  }

  lemma AllCallersSnoc(sn: Snapshot, order: seq<string>, path: string, file: string, name: string)
    ensures AllCallers(sn, order + [path], file, name) ==
      AllCallers(sn, order, file, name) + if path == file then [] else FileCallers(sn, path, SymbolsIn(sn, path), name)
  {
    assert (order + [path])[..|order|] == order;
  }

  lemma {:induction false} AllCallersJoin(sn: Snapshot, a: seq<string>, b: seq<string>, file: string, name: string)
    ensures AllCallers(sn, a + b, file, name) == AllCallers(sn, a, file, name) + AllCallers(sn, b, file, name)
    decreases |b|
  {
    hide AllCallers, FileCallers, SymbolsIn;
    if b == [] {
      NoCallers(sn, file, name);
      assert a + b == a;
    } else {
      var init, path := b[..|b| - 1], b[|b| - 1];
      var more := if path == file then [] else FileCallers(sn, path, SymbolsIn(sn, path), name);
      AllCallersJoin(sn, a, init, file, name);
      AllCallersSnoc(sn, a + init, path, file, name);
      AllCallersSnoc(sn, init, path, file, name);
      assert b == init + [path] && a + b == (a + init) + [path];
      Associate(AllCallers(sn, a, file, name), AllCallers(sn, init, file, name), more);
    }
  }

  /** The callers found do not depend on the order in which files are taken. */
  lemma {:induction false} OrderDoesNotMatter(sn: Snapshot, a: seq<string>, b: seq<string>, file: string, name: string)
    requires multiset(a) == multiset(b)
    ensures multiset(AllCallers(sn, a, file, name)) == multiset(AllCallers(sn, b, file, name))
    decreases |a|
  {
    if a == [] {
      SameElements(a, b);
    } else {
      var x := a[0];
      var i := TakeFirst(a, b);
      var u, v := b[..i], b[i + 1..];
      OrderDoesNotMatter(sn, a[1..], u + v, file, name);
      AllCallersJoin(sn, [x], a[1..], file, name);
      AllCallersJoin(sn, u, [x] + v, file, name);
      AllCallersJoin(sn, [x], v, file, name);
      AllCallersJoin(sn, u, v, file, name);
    }
  }

  lemma {:induction false} CallersOfPermutation(a: seq<EdgeEntry>, b: seq<EdgeEntry>, file: string)
    requires multiset(a) == multiset(b)
    ensures multiset(CallersOf(a, file)) == multiset(CallersOf(b, file))
    decreases |a|
  {
    if a == [] {
      SameElements(a, b);
    } else {
      var e := a[0];
      var i := TakeFirst(a, b);
      var u, v := b[..i], b[i + 1..];
      CallersOfPermutation(a[1..], u + v, file);
      CallersOfJoin([e], a[1..], file);
      CallersOfJoin(u, [e] + v, file);
      CallersOfJoin([e], v, file);
      CallersOfJoin(u, v, file);
    }
  }

  /**
   On an unchanged repository the answer of the index, restricted to other files, names the
   same callers, each as often, as a live scan that does not hit its limit; whatever order
   either of them took the files in.
   */
  lemma IndexAgreesWithScan(sn: Snapshot, index: Index, scanned: seq<string>, file: string, name: string,
      answer: seq<EdgeEntry>, live: seq<Caller>)
    requires name != ""
    requires IsIndexOf(sn, index) && FileOrder(sn, scanned)
    requires multiset(answer) == multiset(Bucket(index, EdgeKey(0, name)))
    requires live == AllCallers(sn, scanned, file, name)
    ensures multiset(CallersOf(answer, file)) == multiset(live)
  {
    var built :| BuiltIn(sn, index, built);
    CallersOfPermutation(answer, Bucket(index, EdgeKey(0, name)), file);
    OrderAgrees(sn, built, file, name);
    EnumerationsPermute(built, scanned);
    OrderDoesNotMatter(sn, built, scanned, file, name);
  }

  /**
   The two readers side by side. `built` and `scanned` are the orders in which they took the
   files; the limit cuts the live answer only, so the index's is compared with what a scan
   without a limit finds.
   */
  method CallersBothWays(sn: Snapshot, file: string, sym: Symbol, limit: int)
    returns (fromIndex: seq<EdgeEntry>, live: seq<Caller>, ghost built: seq<string>, ghost scanned: seq<string>)
    ensures FileOrder(sn, built) && FileOrder(sn, scanned)
    ensures sym.name == "" ==> fromIndex == [] && live == []
    ensures SortedBy(EdgeLe, fromIndex)
    ensures sym.name != "" ==>
      && multiset(fromIndex) == multiset(ByKey(AllEdges(sn, built), EdgeKey(0, sym.name)))
      && multiset(CallersOf(fromIndex, file)) == multiset(AllCallers(sn, scanned, file, sym.name))
      && live <= AllCallers(sn, scanned, file, sym.name)
      && (|live| < limit ==> multiset(CallersOf(fromIndex, file)) == multiset(live))
  {
    hide SortedBy, EdgeLe, Indexes, ByKey, AllEdges, AllCallers, CallersOf, FileOrder;
    var index := RebuildIndex(sn);
    built :| BuiltIn(sn, index, built);
    fromIndex := EdgesByCallee(index, sym.name);
    live, scanned := ScanCallers(sn, file, sym, limit);
    if sym.name != "" {
      BucketOf(index, AllEdges(sn, built), EdgeKey(0, sym.name));
      IndexAgreesWithScan(sn, index, scanned, file, sym.name, fromIndex, AllCallers(sn, scanned, file, sym.name));
    }
  }

  lemma BucketOf(index: Index, edges: seq<EdgeEntry>, key: EdgeKey)
    requires Indexes(index, edges)
    ensures Bucket(index, key) == ByKey(edges, key)
  {
  }

  // ----- the two sides of the index

  lemma {:induction false} ByKeyCounts(edges: seq<EdgeEntry>, key: EdgeKey, e: EdgeEntry)
    ensures multiset(ByKey(edges, key))[e] == if HasKey(e, key) then multiset(edges)[e] else 0
    decreases |edges|
  {
    if edges != [] {
      var n := |edges| - 1;
      ByKeyCounts(edges[..n], key, e);
      assert edges == edges[..n] + [edges[n]];
    }
  }

  /** Every recorded edge is in its callee's bucket and in its caller's as often as it was recorded, and in no other bucket. */
  lemma EdgesAreFiledTwice(index: Index, edges: seq<EdgeEntry>, e: EdgeEntry, key: EdgeKey)
    requires Indexes(index, edges)
    ensures multiset(Bucket(index, EdgeKey(0, e.callee)))[e] == multiset(edges)[e]
    ensures multiset(Bucket(index, EdgeKey(1, CallerEdgeKey(e.file, e.caller))))[e] == multiset(edges)[e]
    ensures key != EdgeKey(0, e.callee) && key != EdgeKey(1, CallerEdgeKey(e.file, e.caller)) ==>
      e !in Bucket(index, key)
  {
    ByKeyCounts(edges, EdgeKey(0, e.callee), e);
    ByKeyCounts(edges, EdgeKey(1, CallerEdgeKey(e.file, e.caller)), e);
    ByKeyCounts(edges, key, e);
    assert e in Bucket(index, key) <==> e in multiset(Bucket(index, key));
  }

  predicate PlainName(s: string) {
    ':' !in s && '.' !in s
  }

  /** A text is cut at its last `c` in one way only. */
  lemma CutAtLast(a: string, t: string, b: string, u: string, c: char)
    requires a + [c] + t == b + [c] + u
    requires c !in t && c !in u
    ensures a == b && t == u
  {
    var s := a + [c] + t;
    assert s[|a|] == c && s[|b|] == c;
    assert forall i :: |a| < i < |s| ==> s[i] == t[i - |a| - 1];
    assert forall i :: |b| < i < |s| ==> s[i] == u[i - |b| - 1];
    assert |a| == |b|;
    assert a == s[..|a|] && b == s[..|b|] && t == s[|a| + 1..] && u == s[|b| + 1..];
  }

  /** The part of a caller key after the file. */
  function Qualified(s: Symbol): string {
    if s.receiver != "" then s.receiver + ['.'] + s.name else s.name
  }

  lemma QualifiedApart(s1: Symbol, s2: Symbol)
    requires PlainName(s1.name) && PlainName(s1.receiver) && PlainName(s2.name) && PlainName(s2.receiver)
    requires Qualified(s1) == Qualified(s2)
    ensures s1.receiver == s2.receiver && s1.name == s2.name
  {
    DotIffReceiver(s1);
    DotIffReceiver(s2);
    if s1.receiver != "" { CutAtLast(s1.receiver, s1.name, s2.receiver, s2.name, '.'); }
  }

  lemma DotIffReceiver(s: Symbol)
    requires PlainName(s.name)
    ensures s.receiver != "" <==> '.' in Qualified(s)
    ensures PlainName(s.receiver) ==> ':' !in Qualified(s)
  {
    if s.receiver != "" { assert Qualified(s)[|s.receiver|] == '.'; }
  }

  /** Names without a colon or a dot keep caller keys apart: equal keys mean one file, receiver and name. */
  lemma CallerKeysAreApart(file1: string, s1: Symbol, file2: string, s2: Symbol)
    requires PlainName(s1.name) && PlainName(s1.receiver) && PlainName(s2.name) && PlainName(s2.receiver)
    requires CallerEdgeKey(file1, s1) == CallerEdgeKey(file2, s2)
    ensures file1 == file2 && s1.receiver == s2.receiver && s1.name == s2.name
  {
    DotIffReceiver(s1);
    DotIffReceiver(s2);
    KeyShape(file1, s1);
    KeyShape(file2, s2);
    CutAtLast(file1 + ":", Qualified(s1), file2 + ":", Qualified(s2), ':');
    assert file1 == (file1 + ":")[..|file1|] && file2 == (file2 + ":")[..|file2|];
    QualifiedApart(s1, s2);
  }

  lemma KeyShape(file: string, s: Symbol)
    ensures CallerEdgeKey(file, s) == (file + ":") + [':'] + Qualified(s)
  {
  }

  /** Part of the longer file is read as the shorter file's separator and the start of its name. */
  predicate FileSpills(file: string, q: string, longer: string, q': string) {
    || (longer == file + ":" && q == ":" + q')
    || (file + "::" <= longer && q == longer[|file| + 2..] + "::" + q')
  }

  /** A name with a dot is read as a longer receiver and a shorter name. */
  predicate ReceiverSpills(s: Symbol, longer: Symbol) {
    && longer.receiver != ""
    && if s.receiver == "" then s.name == longer.receiver + "." + longer.name
       else s.receiver + "." <= longer.receiver && s.name == longer.receiver[|s.receiver| + 1..] + "." + longer.name
  }

  lemma ShorterSpills(f: string, q: string, g: string, r: string)
    requires |f| < |g|
    ensures f + "::" + q == g + "::" + r <==> FileSpills(f, q, g, r)
  {
    var x, y := f + "::" + q, g + "::" + r;
    if x == y {
      assert g == y[..|g|] && f == x[..|f|] && g[..|f|] == f;
      assert q == x[|f| + 2..] && x[|f|] == ':' && x[|f| + 1] == ':';
      if |g| == |f| + 1 {
        assert g[|f|] == x[|f|] && g == f + ":";
        assert y[|f| + 2] == ':' && y[|f| + 3..] == r;
        assert q == ":" + r;
      } else {
        assert g[|f|] == ':' && g[|f| + 1] == ':';
        assert q == y[|f| + 2..] == g[|f| + 2..] + "::" + r;
      }
    }
  }

  lemma SameLengthKeys(f: string, q: string, g: string, r: string, mid: string)
    requires |f| == |g|
    ensures f + mid + q == g + mid + r <==> f == g && q == r
  {
    var x, y := f + mid + q, g + mid + r;
    assert f == x[..|f|] && g == y[..|g|] && q == x[|f| + |mid|..] && r == y[|g| + |mid|..];
  }

  lemma ShorterReceiverSpills(s: Symbol, t: Symbol)
    requires |s.receiver| < |t.receiver|
    ensures Qualified(s) == Qualified(t) <==> ReceiverSpills(s, t)
  {
    if s.receiver != "" {
      var x, y := s.receiver + "." + s.name, t.receiver + "." + t.name;
      assert x == Qualified(s) && y == Qualified(t);
      if x == y {
        assert t.receiver == y[..|t.receiver|] && s.receiver == x[..|s.receiver|];
        assert t.receiver[|s.receiver|] == x[|s.receiver|] == '.';
        assert s.name == x[|s.receiver| + 1..] == y[|s.receiver| + 1..] == t.receiver[|s.receiver| + 1..] + "." + t.name;
      }
    }
  }

  /** Two qualified names are the same text exactly when they have the same parts, or one's dots are read otherwise. */
  lemma QualifiedEqualIff(s1: Symbol, s2: Symbol)
    ensures Qualified(s1) == Qualified(s2) <==>
      || (s1.receiver == s2.receiver && s1.name == s2.name)
      || ReceiverSpills(s1, s2) || ReceiverSpills(s2, s1)
  {
    if |s1.receiver| < |s2.receiver| {
      ShorterReceiverSpills(s1, s2);
    } else if |s2.receiver| < |s1.receiver| {
      ShorterReceiverSpills(s2, s1);
    } else {
      SameLengthKeys(s1.receiver, s1.name, s2.receiver, s2.name, ".");
    }
  }

  /** For any files and names: two declarations share a caller key exactly when file and qualified name agree, or one file spills into the other's name. */
  lemma KeysEqualIff(file1: string, s1: Symbol, file2: string, s2: Symbol)
    ensures CallerEdgeKey(file1, s1) == CallerEdgeKey(file2, s2) <==>
      || (file1 == file2 && Qualified(s1) == Qualified(s2))
      || FileSpills(file1, Qualified(s1), file2, Qualified(s2))
      || FileSpills(file2, Qualified(s2), file1, Qualified(s1))
  {
    hide FileSpills, Qualified;
    var q1, q2 := Qualified(s1), Qualified(s2);
    KeyText(file1, s1);
    KeyText(file2, s2);
    if |file1| < |file2| {
      ShorterSpills(file1, q1, file2, q2);
      SpillIsLonger(file2, q2, file1, q1);
    } else if |file2| < |file1| {
      ShorterSpills(file2, q2, file1, q1);
      SpillIsLonger(file1, q1, file2, q2);
    } else {
      SameLengthKeys(file1, q1, file2, q2, "::");
      SpillIsLonger(file1, q1, file2, q2);
      SpillIsLonger(file2, q2, file1, q1);
    }
  }

  lemma SpillIsLonger(file: string, q: string, longer: string, q': string)
    ensures FileSpills(file, q, longer, q') ==> |file| < |longer|
  {
  }

  lemma KeyText(file: string, s: Symbol)
    ensures CallerEdgeKey(file, s) == file + "::" + Qualified(s)
  {
    if s.receiver != "" { assert file + "::" + s.receiver + "." + s.name == file + "::" + (s.receiver + ['.'] + s.name); }
  }

  /** So names that are not plain can collide, in one file through a dot and across files through colons. */
  lemma CallerKeysCollide(file: string, kind: string, row: int)
    ensures CallerEdgeKey(file, Symbol(kind, "c", row, row, "a.b")) == CallerEdgeKey(file, Symbol(kind, "b.c", row, row, "a"))
    ensures CallerEdgeKey(file, Symbol(kind, "a::c", row, row, "")) == CallerEdgeKey(file + "::a", Symbol(kind, "c", row, row, ""))
  {
    var s, t := Symbol(kind, "c", row, row, "a.b"), Symbol(kind, "b.c", row, row, "a");
    assert Qualified(s) == "a.b.c" == Qualified(t);
    KeyText(file, s);
    KeyText(file, t);
    assert file + "::" + "a::c" == file + "::a" + "::" + "c";
  }
}
