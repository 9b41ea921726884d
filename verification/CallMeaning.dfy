/** What the call index records, and the live scan lists, in terms of the syntax tree. */
module CallMeaning {
  import opened Wrappers
  import opened Sorting
  import opened TreeWalk
  import opened RowRanges
  import opened Symbols
  import opened CallEdges

  /** From `n`, last children through selectors lead to an identifier that reads `name`. */
  ghost predicate NameChain(chain: seq<Tree>, n: Tree, name: string) {
    && chain != [] && chain[0] == n
    && (forall i :: 0 <= i < |chain| - 1 ==>
          && chain[i].kind == "selector_expression" && chain[i].children != []
          && chain[i + 1] == chain[i].children[|chain[i].children| - 1])
    && var last := chain[|chain| - 1];
    && (last.kind == "identifier" || last.kind == "field_identifier") && last.content == name
  }

  ghost predicate Names(n: Tree, name: string) {
    exists chain :: NameChain(chain, n, name)
  }

  /** `n` is a call of `name`: its function, the child under the field of that name or else the first, names it. */
  ghost predicate CallOf(n: Tree, name: string) {
    && n.kind == "call_expression" && n.children != []
    && Names(n.children[if n.functionField.Some? && n.functionField.value < |n.children| then n.functionField.value else 0], name)
  }

  ghost predicate CallSite(visited: seq<Tree>, name: string) {
    exists i :: 0 <= i < |visited| && CallOf(visited[i], name)
  }

  /** A named function or method declaration of a parsed file has a call of `name` among the nodes its rows visit. */
  ghost predicate CallsIn(sn: Snapshot, path: string, s: Symbol, name: string) {
    && path in sn.parsed && name != "" && s.name != ""
    && (s.kind == "function_declaration" || s.kind == "method_declaration")
    && var f := sn.parsed[path];
    && var (lo, hi) := ByteRange(f.bytes, s.startRow, s.endRow);
    CallSite(Visited(f.root, lo, hi), name)
  }

  /** How often a declaration that calls `name` is listed in its file. */
  ghost function Listed(sn: Snapshot, path: string, s: Symbol, name: string): nat {
    if path in sn.symbols && CallsIn(sn, path, s, name) then multiset(sn.symbols[path])[s] else 0
  }

  // ----- one call site

  lemma {:induction false} NamesIff(n: Tree, name: string)
    requires name != ""
    ensures ExtractCalleeName(n) == name <==> Names(n, name)
  {
    if n.kind == "identifier" || n.kind == "field_identifier" {
      if n.content == name { assert NameChain([n], n, name); }
      if chain :| NameChain(chain, n, name) { assert |chain| == 1; }
    } else if n.kind == "selector_expression" && n.children != [] {
      var last := n.children[|n.children| - 1];
      NamesIff(last, name);
      if chain :| NameChain(chain, last, name) { assert NameChain([n] + chain, n, name); }
      if chain :| NameChain(chain, n, name) {
        assert |chain| > 1;
        assert NameChain(chain[1..], last, name);
      }
    } else if chain :| NameChain(chain, n, name) {
      assert false;
    }
  }

  lemma CalleeIff(n: Tree, name: string)
    requires name != ""
    ensures CalleeOf(n) == name <==> CallOf(n, name)
  {
    hide ExtractCalleeName, Names;
    if n.kind == "call_expression" && n.children != [] {
      NamesIff(n.children[if n.functionField.Some? && n.functionField.value < |n.children| then n.functionField.value else 0], name);
    }
  }

  lemma SiteIff(sn: Snapshot, path: string, s: Symbol, name: string)
    requires path in sn.parsed && name != ""
    ensures IsCallable(s) && name in CalleesOf(sn.parsed[path], s) <==> CallsIn(sn, path, s, name)
    ensures IsCallable(s) && Calls(sn.parsed[path], s, name) <==> CallsIn(sn, path, s, name)
  {
    hide CallOf, Visited, ByteRange, Walk, Fold;
    var f := sn.parsed[path];
    var (lo, hi) := ByteRange(f.bytes, s.startRow, s.endRow);
    var visited := Visited(f.root, lo, hi);
    ScanAgreesWithIndex(f, s, name);
    WalkIsFold(f.root, lo, hi, FindCallee(name), false);
    FoundName(name, false, visited);
    forall i | 0 <= i < |visited| ensures CalleeOf(visited[i]) == name <==> CallOf(visited[i], name) { CalleeIff(visited[i], name); }
  }

  // ----- what the index records

  lemma {:induction false} EntriesCount(path: string, s: Symbol, names: seq<string>, e: EdgeEntry)
    ensures multiset(EntriesFor(path, s, names))[e] == if e.file == path && e.caller == s then multiset(names)[e.callee] else 0
  {
    if names != [] {
      var n := |names| - 1;
      EntriesCount(path, s, names[..n], e);
      assert names == names[..n] + [names[n]];
    }
  }

  lemma {:induction false} DistinctCount(names: seq<string>, name: string)
    requires Distinct(names)
    ensures multiset(names)[name] == if name in names then 1 else 0
  {
    if names != [] {
      var n := |names| - 1;
      DistinctCount(names[..n], name);
      assert names == names[..n] + [names[n]];
    }
  }

  lemma EmptyIsNoCallee(f: Parsed, s: Symbol)
    ensures "" !in CalleesOf(f, s)
  {
    var (lo, hi) := ByteRange(f.bytes, s.startRow, s.endRow);
    WalkIsFold(f.root, lo, hi, CollectCallee, []);
    CollectedNames([], Visited(f.root, lo, hi));
  }

  /** One declaration is recorded once for each name it calls. */
  lemma DeclarationCount(sn: Snapshot, path: string, s: Symbol, e: EdgeEntry)
    ensures multiset(if IsCallable(s) && path in sn.parsed then EntriesFor(path, s, CalleesOf(sn.parsed[path], s)) else [])[e] ==
      if e.file == path && e.caller == s && CallsIn(sn, path, s, e.callee) then 1 else 0
  {
    hide EntriesFor, IsCallable, CalleesOf;
    if path in sn.parsed {
      var names := CalleesOf(sn.parsed[path], s);
      EntriesCount(path, s, names, e);
      ScanAgreesWithIndex(sn.parsed[path], s, "x");
      DistinctCount(names, e.callee);
      EmptyIsNoCallee(sn.parsed[path], s);
      if e.callee != "" { SiteIff(sn, path, s, e.callee); }
    }
  }

  lemma {:induction false} FileCount(sn: Snapshot, path: string, syms: seq<Symbol>, e: EdgeEntry)
    ensures multiset(FileEdges(sn, path, syms))[e] ==
      if e.file == path && CallsIn(sn, path, e.caller, e.callee) then multiset(syms)[e.caller] else 0
  {
    hide CallsIn, IsCallable, CalleesOf, EntriesFor;
    if syms != [] {
      var n := |syms| - 1;
      FileCount(sn, path, syms[..n], e);
      DeclarationCount(sn, path, syms[n], e);
      assert syms == syms[..n] + [syms[n]];
    }
  }

  lemma {:induction false} OrderCount(sn: Snapshot, order: seq<string>, e: EdgeEntry)
    requires Distinct(order)
    ensures multiset(AllEdges(sn, order))[e] == if e.file in order then Listed(sn, e.file, e.caller, e.callee) else 0
  {
    hide CallsIn, FileEdges;
    if order != [] {
      var n := |order| - 1;
      OrderCount(sn, order[..n], e);
      FileCount(sn, order[n], SymbolsIn(sn, order[n]), e);
      assert order == order[..n] + [order[n]];
    }
  }

  /**
   The index records exactly the calls: an edge is in its callee's bucket as often as its
   declaration is listed in its file, if that declaration calls the name, and else not at all; in
   no other callee's bucket; and the same of the callers' buckets.
   */
  lemma IndexHoldsTheCalls(sn: Snapshot, index: Index, e: EdgeEntry, name: string)
    requires IsIndexOf(sn, index)
    ensures multiset(Bucket(index, EdgeKey(0, name)))[e] == if e.callee == name then Listed(sn, e.file, e.caller, name) else 0
    ensures multiset(Bucket(index, EdgeKey(1, name)))[e] ==
      if CallerEdgeKey(e.file, e.caller) == name then Listed(sn, e.file, e.caller, e.callee) else 0
  {
    hide Indexes, CallsIn, Distinct;
    var order :| BuiltIn(sn, index, order);
    OrderCount(sn, order, e);
    BucketOf(index, AllEdges(sn, order), EdgeKey(0, name));
    BucketOf(index, AllEdges(sn, order), EdgeKey(1, name));
    ByKeyCounts(AllEdges(sn, order), EdgeKey(0, name), e);
    ByKeyCounts(AllEdges(sn, order), EdgeKey(1, name), e);
  }

  // ----- what the live scan lists

  lemma {:induction false} FileCallersCount(sn: Snapshot, path: string, syms: seq<Symbol>, name: string, c: Caller)
    requires name != ""
    ensures multiset(FileCallers(sn, path, syms, name))[c] ==
      if c.file == path && CallsIn(sn, path, c.sym, name) then multiset(syms)[c.sym] else 0
  {
    hide CallsIn, IsCallable, Calls, CalleesOf;
    if syms != [] {
      var n := |syms| - 1;
      FileCallersCount(sn, path, syms[..n], name, c);
      if path in sn.parsed { SiteIff(sn, path, syms[n], name); } else { NotParsed(sn, path, syms[n], name); }
      assert syms == syms[..n] + [syms[n]];
    }
  }

  lemma NotParsed(sn: Snapshot, path: string, s: Symbol, name: string)
    requires path !in sn.parsed
    ensures !CallsIn(sn, path, s, name)
  {
  }

  lemma {:induction false} OrderCallersCount(sn: Snapshot, order: seq<string>, file: string, name: string, c: Caller)
    requires Distinct(order) && name != ""
    ensures multiset(AllCallers(sn, order, file, name))[c] ==
      if c.file in order && c.file != file then Listed(sn, c.file, c.sym, name) else 0
  {
    hide CallsIn, FileCallers;
    if order != [] {
      var n := |order| - 1;
      OrderCallersCount(sn, order[..n], file, name, c);
      FileCallersCount(sn, order[n], SymbolsIn(sn, order[n]), name, c);
      assert order == order[..n] + [order[n]];
    }
  }

  /** The callers a scan without a limit lists: exactly the declarations of other files that call the name, as often as they are listed. */
  lemma ScanListsTheCallers(sn: Snapshot, order: seq<string>, file: string, name: string, c: Caller)
    requires FileOrder(sn, order) && name != ""
    ensures multiset(AllCallers(sn, order, file, name))[c] == if c.file != file then Listed(sn, c.file, c.sym, name) else 0
  {
    hide CallsIn;
    OrderCallersCount(sn, order, file, name, c);
  }
}
