/**
 The dependency closure of a set of entry pages: a depth-first walk over local
 imports that, at a barrel file, follows only the re-exports an importer asked
 for, and that stops once more than `maxFiles` files have been visited.
 */
module Closure {
  import opened Wrappers
  import opened Seqs
  import opened Sorting
  import opened Declarations
  import opened Paths
  import opened Resolver
  import opened Walk

  /** The source tree: the existing regular files and the statement matches of each. */
  datatype Tree = Tree(files: set<Path>, scans: map<Path, FileScan>)

  /** A file without a scan (unreadable, or not scanned) matches nothing. */
  function ScanOf(t: Tree, p: Path): FileScan {
    if p in t.scans then t.scans[p] else NoMatches
  }

  /** The names an importer asked of a file; `None` when unknown. */
  type Request = Option<set<string>>

  /** A queued file together with the names it was asked for. */
  type Item = (Path, Request)

  /** Only a non-empty request lets a barrel be expanded. */
  predicate Expands(req: Request) {
    req.Some? && req.value != {}
  }

  /** Every specifier the map re-exports any name from. */
  function AllSpecs(em: ExportMap): set<string> {
    set n, s | n in em.byName && s in em.byName[n] :: s
  }

  /** The specifiers re-exporting one of the requested names. */
  function NamedSpecs(em: ExportMap, requested: set<string>): set<string> {
    set n, s | n in requested && n in em.byName && s in em.byName[n] :: s
  }

  /**
   The re-export specifiers followed when `requested` is asked of a barrel: all
   of them for a namespace or default import, else those of the requested
   names, else (none of them published) the `export *` specifiers.
   */
  function FollowSpecs(em: ExportMap, requested: set<string>): (r: set<string>)
    ensures r <= em.stars + AllSpecs(em)
    ensures ("*" in requested || "default" in requested) ==> em.stars <= r
    ensures !("*" in requested || "default" in requested) && NamedSpecs(em, requested) != {} ==> r <= AllSpecs(em)
  {
    if "*" in requested || "default" in requested then em.stars + AllSpecs(em)
    else
      var named := NamedSpecs(em, requested);
      if named == {} then em.stars else named
  }

  /** `p` is an existing file found at a start path. */
  function Starts(t: Tree, entries: seq<Path>): (r: set<Path>)
    ensures r <= t.files
  {
    set e | e in entries && Normalize(e) in t.files :: Normalize(e)
  }

  /**
   What the walk reads of each file: its import edges, the re-export
   specifiers it follows for a request, and how it resolves a specifier.
   */
  datatype Reader = Reader(
    imports: Path -> seq<ImportEdge>,
    follow: (Path, set<string>) -> set<string>,
    resolve: (Path, string) -> Option<Path>)

  /** `parse_imports`, `parse_export_map` and `resolve_import` over the tree `t` with project root `root`. */
  function ReaderOf(t: Tree, root: Path): Reader {
    Reader(
      p => ParseImports(ScanOf(t, p)),
      (p, requested) => FollowSpecs(ParseExportMap(ScanOf(t, p)), requested),
      (from, spec) => ResolveImport(t.files, root, from, spec))
  }

  /** A reader only ever resolves to existing files. */
  ghost predicate Within(files: set<Path>, rd: Reader) {
    forall from, spec :: rd.resolve(from, spec).Some? ==> rd.resolve(from, spec).value in files
  }

  lemma ReaderWithin(t: Tree, root: Path)
    ensures Within(t.files, ReaderOf(t, root))
  {
    var rd := ReaderOf(t, root);
    forall from, spec | rd.resolve(from, spec).Some? ensures rd.resolve(from, spec).value in t.files {
      assert rd.resolve(from, spec) == ResolveImport(t.files, root, from, spec);
    }
  }

  /** Visiting `from` under `req` queues `to` as a barrel re-export, asking for nothing. */
  predicate BarrelPush(rd: Reader, from: Path, req: Request, to: Path) {
    Expands(req) &&
    exists s :: s in rd.follow(from, req.value) && rd.resolve(from, s) == Some(to)
  }

  /** Visiting `from` queues `to` as the target of a runtime import asking for `toReq`. */
  predicate EdgePush(rd: Reader, from: Path, to: Path, toReq: Request) {
    exists e :: e in rd.imports(from) && !e.typeOnly && rd.resolve(from, e.source) == Some(to) && e.imported == toReq
  }

  /** One step of the walk: visiting `from` under `req` queues `(to, toReq)`. */
  predicate Pushes(rd: Reader, from: Path, req: Request, to: Path, toReq: Request) {
    (toReq == None && BarrelPush(rd, from, req, to)) || EdgePush(rd, from, to, toReq)
  }

  /** The queue items for the re-export specifiers, in the order given: each that resolves, asking for nothing. */
  function BarrelItems(resolve: (Path, string) -> Option<Path>, from: Path, specs: seq<string>): (r: seq<Item>)
    ensures forall i :: 0 <= i < |r| ==> r[i].1 == None && exists s :: s in specs && resolve(from, s) == Some(r[i].0)
    ensures forall s :: s in specs && resolve(from, s).Some? ==> (resolve(from, s).value, None) in r
    decreases |specs|
  {
    if |specs| == 0 then []
    else
      var rest := BarrelItems(resolve, from, specs[1..]);
      assert forall s :: s in specs[1..] ==> s in specs;
      match resolve(from, specs[0])
      case None => rest
      case Some(q) => [(q, None)] + rest
  }

  /** The queue items for the runtime import edges, in the order given: each that resolves, asking for its names. */
  function EdgeItems(resolve: (Path, string) -> Option<Path>, from: Path, edges: seq<ImportEdge>): (r: seq<Item>)
    ensures forall i :: 0 <= i < |r| ==> exists e :: e in edges && !e.typeOnly && resolve(from, e.source) == Some(r[i].0) && e.imported == r[i].1
    ensures forall e :: e in edges && !e.typeOnly && resolve(from, e.source).Some? ==> (resolve(from, e.source).value, e.imported) in r
    decreases |edges|
  {
    if |edges| == 0 then []
    else
      var rest := EdgeItems(resolve, from, edges[1..]);
      assert forall e :: e in edges[1..] ==> e in edges;
      var e := edges[0];
      if e.typeOnly then rest
      else
        match resolve(from, e.source)
        case None => rest
        case Some(q) => [(q, e.imported)] + rest
  }

  /** The walk's step relation: visiting `p` under `r` queues `(q, rq)`. */
  function StepOf(rd: Reader): (Path, Request, Path, Request) -> bool {
    (p, r, q, rq) => Pushes(rd, p, r, q, rq)
  }

  /** Every file visited is a start visited unasked, or was queued by a file visited before it. */
  ghost predicate Derived(t: Tree, root: Path, entries: seq<Path>, order: seq<Path>, how: map<Path, Request>)
    requires Elems(order) == how.Keys
  {
    DerivedBy(Starts(t, entries), None, StepOf(ReaderOf(t, root)), order, how)
  }

  /** Every start is visited, and so is everything a visited file queues under its request. */
  ghost predicate Closed(t: Tree, root: Path, entries: seq<Path>, visited: set<Path>, how: map<Path, Request>)
    requires visited == how.Keys
  {
    ClosedBy(Starts(t, entries), StepOf(ReaderOf(t, root)), visited, how)
  }

  /**
   `dependency_closure(root, entries, max_files)`. Besides the visited set, the
   ghost `order` records the visiting order and `how` the request each file
   was expanded under (the first one it was popped with).
   */
  method DependencyClosure(t: Tree, root: Path, entries: seq<Path>, maxFiles: int)
    returns (visited: set<Path>, ghost order: seq<Path>, ghost how: map<Path, Request>)
    ensures visited <= t.files
    ensures |visited| <= (if maxFiles < 0 then 0 else maxFiles) + 1
    ensures NoDups(order) && Elems(order) == visited && how.Keys == visited
    ensures Derived(t, root, entries, order, how)
    ensures |visited| <= maxFiles ==> Closed(t, root, entries, visited, how)
  {
    ReaderWithin(t, root);
    var queue := StartQueue(t, entries);
    visited, order, how := ClosureUnder(t.files, ReaderOf(t, root), Starts(t, entries), queue, maxFiles);
  }

  /** The walk itself, for any resolution that names existing files only. */
  method ClosureUnder(files: set<Path>, rd: Reader, ghost starts: set<Path>, queue0: seq<Item>, maxFiles: int)
    returns (visited: set<Path>, ghost order: seq<Path>, ghost how: map<Path, Request>)
    requires Within(files, rd) && starts <= files
    requires forall i :: 0 <= i < |queue0| ==> queue0[i].0 in starts && queue0[i].1 == None
    requires forall s :: s in starts ==> (s, None) in queue0
    ensures visited <= files
    ensures |visited| <= (if maxFiles < 0 then 0 else maxFiles) + 1
    ensures NoDups(order) && Elems(order) == visited && how.Keys == visited
    ensures DerivedBy(starts, None, StepOf(rd), order, how)
    ensures |visited| <= maxFiles ==> ClosedBy(starts, StepOf(rd), visited, how)
  {
    ghost var step := StepOf(rd);
    var queue := queue0;
    visited, order, how := {}, [], map[];
    StartInvariants(starts, step, queue);
    while |queue| > 0
      invariant visited <= files && visited == how.Keys
      invariant NoDups(order) && Elems(order) == visited
      invariant |visited| <= if maxFiles < 0 then 0 else maxFiles
      invariant forall i :: 0 <= i < |queue| ==> queue[i].0 in files
      invariant DerivedBy(starts, None, step, order, how)
      invariant forall i :: 0 <= i < |queue| ==> QueuedBy(starts, None, step, visited, how, queue[i])
      invariant StartsPending(starts, None, visited, queue)
      invariant PendingBy(step, visited, how, queue)
      decreases |files - visited|, |queue|
    {
      var item := queue[|queue| - 1];
      var rest := queue[..|queue| - 1];
      var p, req := item.0, item.1;
      if p in visited {
        SkipQueued(starts, None, step, visited, how, queue, rest);
        SkipPending(starts, None, step, visited, how, queue);
        queue := rest;
      } else {
        ghost var oldHow := how;
        ShrinkFrontier(files, visited, p);
        StepDerived(starts, None, step, order, how, queue, item);
        visited, order, how := visited + {p}, order + [p], how[p := req];
        if |visited| > maxFiles {
          break;
        }
        queue := Advance(files, rd, starts, oldHow, queue);
      }
    }
    if |visited| <= maxFiles {
      Drained(starts, None, step, visited, how);
    }
  }

  /** Pops the last item, whose file is new, and queues what visiting it pushes. */
  method Advance(files: set<Path>, rd: Reader, ghost starts: set<Path>, ghost how: map<Path, Request>, queue: seq<Item>)
    returns (queue': seq<Item>)
    requires Within(files, rd)
    requires |queue| > 0 && queue[|queue| - 1].0 !in how
    requires forall i :: 0 <= i < |queue| ==> queue[i].0 in files
    requires forall i :: 0 <= i < |queue| ==> QueuedBy(starts, None, StepOf(rd), how.Keys, how, queue[i])
    requires PendingBy(StepOf(rd), how.Keys, how, queue)
    requires StartsPending(starts, None, how.Keys, queue)
    ensures forall i :: 0 <= i < |queue'| ==> queue'[i].0 in files
    ensures forall i :: 0 <= i < |queue'| ==>
      QueuedBy(starts, None, StepOf(rd), how.Keys + {queue[|queue| - 1].0}, how[queue[|queue| - 1].0 := queue[|queue| - 1].1], queue'[i])
    ensures PendingBy(StepOf(rd), how.Keys + {queue[|queue| - 1].0}, how[queue[|queue| - 1].0 := queue[|queue| - 1].1], queue')
    ensures StartsPending(starts, None, how.Keys + {queue[|queue| - 1].0}, queue')
  {
    var item := queue[|queue| - 1];
    var pushes := Expand(files, rd, item.0, item.1);
    queue' := queue[..|queue| - 1] + pushes;
    StepQueued(starts, None, StepOf(rd), how, queue, pushes, queue');
    StepPending(starts, None, StepOf(rd), how, queue, pushes, queue');
  }

  /**
   What visiting `p` under `req` queues, in queue order: for a non-empty
   request, the resolved re-export specifiers in sorted order, then the
   resolved runtime imports in declaration order.
   */
  method Expand(files: set<Path>, rd: Reader, p: Path, req: Request) returns (pushes: seq<Item>)
    requires Within(files, rd)
    ensures PushesOfBy(StepOf(rd), p, req, pushes)
    ensures forall i :: 0 <= i < |pushes| ==> pushes[i].0 in files
  {
    pushes := [];
    var specs: seq<string> := [];
    if Expands(req) {
      specs := SortSet(rd.follow(p, req.value));
      pushes := BarrelItems(rd.resolve, p, specs);
    }
    pushes := pushes + EdgeItems(rd.resolve, p, rd.imports(p));
    Expansion(files, rd, p, req, specs);
  }

  /** The initial queue: each entry point that is an existing file, resolved, asking for nothing. */
  function StartQueue(t: Tree, entries: seq<Path>): (r: seq<Item>)
    ensures forall i :: 0 <= i < |r| ==> r[i].0 in Starts(t, entries) && r[i].1 == None
    ensures forall s :: s in Starts(t, entries) ==> (s, None) in r
    decreases |entries|
  {
    if |entries| == 0 then []
    else
      var rest := StartQueue(t, entries[1..]);
      assert forall e :: e in entries[1..] ==> e in entries;
      var p := Normalize(entries[0]);
      if p in t.files then [(p, None)] + rest else rest
  }

  lemma StartInvariants(starts: set<Path>, step: (Path, Request, Path, Request) -> bool, queue: seq<Item>)
    requires forall i :: 0 <= i < |queue| ==> queue[i].0 in starts && queue[i].1 == None
    requires forall s :: s in starts ==> (s, None) in queue
    ensures DerivedBy(starts, None, step, [], map[])
    ensures forall i :: 0 <= i < |queue| ==> QueuedBy(starts, None, step, {}, map[], queue[i])
    ensures StartsPending(starts, None, {}, queue)
    ensures PendingBy(step, {}, map[], queue)
  {
  }

  lemma ShrinkFrontier(files: set<Path>, visited: set<Path>, p: Path)
    requires p in files && p !in visited
    ensures |files - (visited + {p})| < |files - visited|
  {
    assert files - (visited + {p}) == (files - visited) - {p};
  }

  /** The items the loop body queues are exactly the pushes of the visited file, all of them existing files. */
  lemma Expansion(files: set<Path>, rd: Reader, from: Path, req: Request, specs: seq<string>)
    requires Within(files, rd)
    requires Expands(req) ==> Elems(specs) == rd.follow(from, req.value)
    ensures var pushes := (if Expands(req) then BarrelItems(rd.resolve, from, specs) else []) + EdgeItems(rd.resolve, from, rd.imports(from));
      PushesOfBy(StepOf(rd), from, req, pushes) && forall i :: 0 <= i < |pushes| ==> pushes[i].0 in files
  {
    var barrel := if Expands(req) then BarrelItems(rd.resolve, from, specs) else [];
    var edges := EdgeItems(rd.resolve, from, rd.imports(from));
    ExpansionSound(files, rd, from, req, specs, barrel, edges);
    ExpansionComplete(rd, from, req, specs, barrel, edges);
  }

  lemma ExpansionSound(files: set<Path>, rd: Reader, from: Path, req: Request, specs: seq<string>, barrel: seq<Item>, edges: seq<Item>)
    requires Within(files, rd)
    requires Expands(req) ==> Elems(specs) == rd.follow(from, req.value)
    requires barrel == if Expands(req) then BarrelItems(rd.resolve, from, specs) else []
    requires edges == EdgeItems(rd.resolve, from, rd.imports(from))
    ensures forall i :: 0 <= i < |barrel + edges| ==> (barrel + edges)[i].0 in files && StepOf(rd)(from, req, (barrel + edges)[i].0, (barrel + edges)[i].1)
  {
    if Expands(req) {
      BarrelSound(files, rd, from, req, specs);
    }
    EdgeSound(files, rd, from, req);
    ConcatSound(files, StepOf(rd), from, req, barrel, edges);
  }

  lemma BarrelSound(files: set<Path>, rd: Reader, from: Path, req: Request, specs: seq<string>)
    requires Within(files, rd)
    requires Expands(req) && Elems(specs) == rd.follow(from, req.value)
    ensures forall i :: 0 <= i < |BarrelItems(rd.resolve, from, specs)| ==>
      BarrelItems(rd.resolve, from, specs)[i].0 in files &&
      StepOf(rd)(from, req, BarrelItems(rd.resolve, from, specs)[i].0, BarrelItems(rd.resolve, from, specs)[i].1)
  {
    var barrel := BarrelItems(rd.resolve, from, specs);
    forall i | 0 <= i < |barrel| ensures barrel[i].0 in files && Pushes(rd, from, req, barrel[i].0, barrel[i].1) {
      var s :| s in specs && rd.resolve(from, s) == Some(barrel[i].0);
      assert s in Elems(specs);
    }
  }

  lemma EdgeSound(files: set<Path>, rd: Reader, from: Path, req: Request)
    requires Within(files, rd)
    ensures forall i :: 0 <= i < |EdgeItems(rd.resolve, from, rd.imports(from))| ==>
      EdgeItems(rd.resolve, from, rd.imports(from))[i].0 in files &&
      StepOf(rd)(from, req, EdgeItems(rd.resolve, from, rd.imports(from))[i].0, EdgeItems(rd.resolve, from, rd.imports(from))[i].1)
  {
    var edges := EdgeItems(rd.resolve, from, rd.imports(from));
    forall i | 0 <= i < |edges| ensures edges[i].0 in files && Pushes(rd, from, req, edges[i].0, edges[i].1) {
      assert EdgePush(rd, from, edges[i].0, edges[i].1);
    }
  }

  lemma ConcatSound(files: set<Path>, step: (Path, Request, Path, Request) -> bool, from: Path, req: Request, a: seq<Item>, b: seq<Item>)
    requires forall i :: 0 <= i < |a| ==> a[i].0 in files && step(from, req, a[i].0, a[i].1)
    requires forall i :: 0 <= i < |b| ==> b[i].0 in files && step(from, req, b[i].0, b[i].1)
    ensures forall i :: 0 <= i < |a + b| ==> (a + b)[i].0 in files && step(from, req, (a + b)[i].0, (a + b)[i].1)
  {
    forall i | 0 <= i < |a + b| ensures (a + b)[i].0 in files && step(from, req, (a + b)[i].0, (a + b)[i].1) {
      if i >= |a| {
        assert (a + b)[i] == b[i - |a|];
      }
    }
  }

  lemma ExpansionComplete(rd: Reader, from: Path, req: Request, specs: seq<string>, barrel: seq<Item>, edges: seq<Item>)
    requires Expands(req) ==> Elems(specs) == rd.follow(from, req.value)
    requires barrel == if Expands(req) then BarrelItems(rd.resolve, from, specs) else []
    requires edges == EdgeItems(rd.resolve, from, rd.imports(from))
    ensures forall q, rq :: StepOf(rd)(from, req, q, rq) ==> (q, rq) in barrel + edges
  {
    forall q, rq | Pushes(rd, from, req, q, rq) ensures (q, rq) in barrel + edges {
      if rq == None && BarrelPush(rd, from, req, q) {
        var s :| s in rd.follow(from, req.value) && rd.resolve(from, s) == Some(q);
        assert s in Elems(specs);
        assert (q, rq) in barrel;
      } else {
        var e :| e in rd.imports(from) && !e.typeOnly && rd.resolve(from, e.source) == Some(q) && e.imported == rq;
        assert (q, rq) in edges;
      }
    }
  }
}
