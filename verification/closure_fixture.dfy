/**
 The barrel fixture of the test suite, rooted at `/tmp`: `src/app/page.tsx`
 imports `{ PageContainer }` from `@/components/shared`, whose `index.ts`
 re-exports `PageContainer` from `./page-container` and `SomethingElse` from
 `./other`; `page-container.tsx` imports `./side-effect` for its side effect.
 The closure of the page reaches the barrel, the page container and the
 side-effect module, and never the unrelated `other.ts`.
 */
module ClosureFixture {
  import opened Wrappers
  import opened Seqs
  import opened Text
  import opened Paths
  import opened Clause
  import opened ClauseFacts
  import opened Declarations
  import opened DeclarationFacts
  import opened Resolver
  import opened Walk
  import opened Closure
  import opened ClosureFacts

  const Page: Path := ["tmp", "src", "app", "page.tsx"]
  const Shared: Path := ["tmp", "src", "components", "shared"]
  const Index: Path := ["tmp", "src", "components", "shared", "index.ts"]
  const Container: Path := ["tmp", "src", "components", "shared", "page-container.tsx"]
  const Other: Path := ["tmp", "src", "components", "shared", "other.ts"]
  const SideEffect: Path := ["tmp", "src", "components", "shared", "side-effect.ts"]

  /**
   The five files, and what the statement scans of the four that matter
   find: `other.ts` is never read, so its scan is left open.
   */
  ghost predicate IsFixture(t: Tree) {
    FixtureFiles(t.files) &&
    ScanOf(t, Page).importsFrom == [ImportFromMatch(false, "{ PageContainer }", "@/components/shared")] &&
    ScanOf(t, Page).sideEffects == [] &&
    ScanOf(t, Index).importsFrom == [] && ScanOf(t, Index).sideEffects == [] &&
    ScanOf(t, Index).namedExports == [ExportNamedMatch(false, "PageContainer", "./page-container"),
                                      ExportNamedMatch(false, "SomethingElse", "./other")] &&
    ScanOf(t, Container).importsFrom == [] && ScanOf(t, Container).sideEffects == ["./side-effect"] &&
    ScanOf(t, SideEffect).importsFrom == [] && ScanOf(t, SideEffect).sideEffects == []
  }

  ghost predicate FixtureFiles(files: set<Path>) {
    forall p :: p in files <==> p == Page || p == Index || p == Container || p == Other || p == SideEffect
  }

  /** The request `{ PageContainer }` asks of the barrel. */
  const Asked: Request := Some({"PageContainer"})

  const PageEdge := ImportEdge("@/components/shared", Asked, false)
  const ContainerEdge := ImportEdge("./side-effect", None, false)

  /** The files the closure may visit, each with the one request it is visited under. */
  const Reachable: set<(Path, Request)> := {(Page, None), (Index, Asked), (Container, None), (SideEffect, None)}

  // ---------------------------------------------------------------------------
  // The file system

  lemma Distinct()
    ensures Page != Index && Page != Container && Page != Other && Page != SideEffect
    ensures Index != Container && Index != Other && Index != SideEffect
    ensures Container != Other && Container != SideEffect && Other != SideEffect
  {
    assert |Page| == 4 && |Index| == 5;
    assert Index[4][0] == 'i' && Other[4][0] == 'o' && SideEffect[4][0] == 's' && Container[4][0] == 'p';
  }

  // ---------------------------------------------------------------------------
  // What each file declares

  /** A file whose one import is `import { x } from "src"`. */
  lemma OneBracedImport(scan: FileScan, x: string, src: string)
    requires Word(x) && Token(x)
    requires scan.importsFrom == [ImportFromMatch(false, "{ " + x + " }", src)] && scan.sideEffects == []
    ensures forall e :: e in ParseImports(scan) <==> e == ImportEdge(src, Some({x}), false)
  {
    BracedPlain(x);
    assert FromEdge(scan.importsFrom[0]) == ImportEdge(src, Some({x}), false);
  }

  /** A file whose one import is `import "src"`. */
  lemma OneSideEffect(scan: FileScan, src: string)
    requires scan.importsFrom == [] && scan.sideEffects == [src]
    ensures forall e :: e in ParseImports(scan) <==> e == ImportEdge(src, None, false)
  {
    assert scan.sideEffects[0] == src;
  }

  /** A single bare name publishes exactly itself. */
  lemma OneName(x: string)
    requires Word(x) && ',' !in x
    ensures ExportedNames(x) == {x}
  {
    SplitSingle(x);
    ExportPlain(x);
    NamesOfOne(ExportedNames(x), Split(x, ','), ExportedName, x, x);
  }

  /** A set collected from one piece by a partial naming function holds exactly its name. */
  lemma NamesOfOne(names: set<string>, parts: seq<string>, name: string -> Option<string>, p0: string, n0: string)
    requires parts == [p0]
    requires forall n :: n in names <==> exists p :: p in parts && name(p) == Some(n)
    requires name(p0) == Some(n0)
    ensures names == {n0}
  {
    assert p0 in parts;
    forall n | n in names ensures n == n0 {
      var p :| p in parts && name(p) == Some(n);
      assert p == p0;
    }
  }

  /** Asking for one name published from one specifier alone follows that specifier. */
  lemma FollowOne(em: ExportMap, n: string, s: string)
    requires n != "*" && n != "default"
    requires n in em.byName && em.byName[n] == {s}
    ensures FollowSpecs(em, {n}) == {s}
  {
    assert NamedSpecs(em, {n}) == {s};
  }

  /** A name only the first of two statements publishes maps to that statement's source alone. */
  lemma FirstOfTwo(ms: seq<ExportNamedMatch>, n: string)
    requires |ms| == 2 && !ms[0].typeOnly
    requires n in ExportedNames(ms[0].names) && n !in ExportedNames(ms[1].names)
    ensures n in NamesIn(ms) && SourcesFor(ms, n) == {ms[0].src}
  {
    assert ms[0] in ms;
    SourcesForCons(ms, n);
    LastSources(ms[1..], n);
  }

  lemma LastSources(ms: seq<ExportNamedMatch>, n: string)
    requires |ms| == 1 && n !in ExportedNames(ms[0].names)
    ensures SourcesFor(ms, n) == {}
  {
    SourcesForCons(ms, n);
    NoSources(ms[1..], n);
  }

  lemma NoSources(ms: seq<ExportNamedMatch>, n: string)
    requires ms == []
    ensures SourcesFor(ms, n) == {}
  {
  }

  /** A barrel re-exporting `n0` from `s0` and `n1` from `s1`, asked for `n0`, follows `s0` only. */
  lemma TwoReexports(scan: FileScan, n0: string, s0: string, n1: string, s1: string)
    requires Word(n0) && ',' !in n0 && Word(n1) && ',' !in n1 && n0 != n1
    requires n0 != "*" && n0 != "default"
    requires scan.namedExports == [ExportNamedMatch(false, n0, s0), ExportNamedMatch(false, n1, s1)]
    ensures FollowSpecs(ParseExportMap(scan), {n0}) == {s0}
  {
    OnlyFirst(scan.namedExports, n0, s0, n1, s1);
    FollowOne(ParseExportMap(scan), n0, s0);
  }

  lemma OnlyFirst(ms: seq<ExportNamedMatch>, n0: string, s0: string, n1: string, s1: string)
    requires Word(n0) && ',' !in n0 && Word(n1) && ',' !in n1 && n0 != n1
    requires ms == [ExportNamedMatch(false, n0, s0), ExportNamedMatch(false, n1, s1)]
    ensures n0 in NamesIn(ms) && SourcesFor(ms, n0) == {s0}
  {
    assert ms[0].names == n0 && ms[1].names == n1 && !ms[0].typeOnly;
    OneName(n0);
    OneName(n1);
    assert n0 in ExportedNames(ms[0].names) && n0 !in ExportedNames(ms[1].names);
    FirstOfTwo(ms, n0);
  }

  // ---------------------------------------------------------------------------
  // Resolution

  /** `./name` next to `current` is the sibling `name`. */
  lemma SiblingBase(root: Path, current: Path, name: string)
    requires |current| > 0
    requires Meaningful(name) && name != ".." && '/' !in name
    requires forall k :: 0 <= k < |current| ==> current[k] != ".."
    ensures IsLocal("./" + name)
    ensures Base(root, current, "./" + name) == Parent(current) + [name]
  {
    var spec := "./" + name;
    assert spec[0] == '.' && spec[1] == '/';
    assert "./" <= spec && !("@/" <= spec);
    assert Join([".", name], '/') == spec;
    SplitJoin([".", name], '/');
    assert Segments(spec) == [name];
    assert Normal(Parent(current) + [name]);
    NormalizeNormal(Parent(current) + [name]);
  }

  /** `./name` resolves to the sibling `name` plus the `k`-th extension when that is the first to exist. */
  lemma SiblingProbe(files: set<Path>, root: Path, current: Path, name: string, k: nat)
    requires |current| > 0 && k < 4
    requires Meaningful(name) && name != ".." && '/' !in name
    requires forall i :: 0 <= i < |current| ==> current[i] != ".."
    requires Parent(current) + [name] !in files
    requires forall j :: 0 <= j < k ==> Parent(current) + [name + Exts[j]] !in files
    requires Parent(current) + [name + Exts[k]] in files
    ensures ResolveImport(files, root, current, "./" + name) == Some(Parent(current) + [name + Exts[k]])
  {
    SiblingBase(root, current, name);
    forall j | 0 <= j < 4 ensures AppendExt(Parent(current) + [name], Exts[j]) == Parent(current) + [name + Exts[j]] {
      ExtOnLast(Parent(current), name, Exts[j]);
    }
    ExtensionProbe(files, root, current, "./" + name, k);
  }

  /** A file directly in `shared/` other than the four fixture files there is not a file. */
  lemma SharedMiss(files: set<Path>, x: string)
    requires FixtureFiles(files)
    requires |x| != 8 && |x| != 18 && (|x| != 14 || x[0] != 's')
    ensures Shared + [x] !in files
  {
    var p := Shared + [x];
    assert |p| == 5 && p[4] == x;
    assert |Index[4]| == 8 && |Other[4]| == 8 && |Container[4]| == 18 && |SideEffect[4]| == 14 && SideEffect[4][0] == 's';
  }

  lemma ShortMiss(files: set<Path>, p: Path)
    requires FixtureFiles(files)
    requires |p| == 4 && p[2] != "app"
    ensures p !in files
  {
    assert |Index| == 5 && |Other| == 5 && |Container| == 5 && |SideEffect| == 5;
  }

  lemma PageResolves(files: set<Path>)
    requires FixtureFiles(files)
    ensures ResolveImport(files, FixtureRoot, Page, "@/components/shared") == Some(Index)
  {
    SharedBase();
    assert "components" != "app";
    ShortMiss(files, Shared);
    forall j | 0 <= j < 4 ensures AppendExt(Shared, Exts[j]) !in files {
      ExtOnLast(["tmp", "src", "components"], "shared", Exts[j]);
      assert ["tmp", "src", "components"] + ["shared"] == Shared;
      ShortMiss(files, AppendExt(Shared, Exts[j]));
    }
    SharedIndex();
    IndexProbe(files, FixtureRoot, Page, "@/components/shared", 0);
  }

  lemma Extensions()
    ensures Exts[0] == ".ts" && Exts[1] == ".tsx"
  {
  }

  lemma ContainerNames()
    ensures "./" + "page-container" == "./page-container"
    ensures Shared + ["page-container" + ".tsx"] == Container
  {
    assert "page-container" + ".tsx" == "page-container.tsx";
  }

  lemma SideEffectNames()
    ensures "./" + "side-effect" == "./side-effect"
    ensures Shared + ["side-effect" + ".ts"] == SideEffect
  {
    assert "side-effect" + ".ts" == "side-effect.ts";
  }

  lemma BarrelResolves(files: set<Path>)
    requires FixtureFiles(files)
    ensures ResolveImport(files, FixtureRoot, Index, "./page-container") == Some(Container)
  {
    Extensions();
    ContainerNames();
    assert Parent(Index) == Shared;
    SharedMiss(files, "page-container");
    SharedMiss(files, "page-container" + ".ts");
    SiblingProbe(files, FixtureRoot, Index, "page-container", 1);
  }

  lemma ContainerResolves(files: set<Path>)
    requires FixtureFiles(files)
    ensures ResolveImport(files, FixtureRoot, Container, "./side-effect") == Some(SideEffect)
  {
    Extensions();
    SideEffectNames();
    assert Parent(Container) == Shared;
    SharedMiss(files, "side-effect");
    SiblingProbe(files, FixtureRoot, Container, "side-effect", 0);
  }

  // ---------------------------------------------------------------------------
  // How the closure reads the fixture

  /** What each file of the fixture gives the walk. */
  ghost predicate Reads(rd: Reader) {
    (forall e :: e in rd.imports(Page) <==> e == PageEdge) &&
    rd.resolve(Page, PageEdge.source) == Some(Index) &&
    rd.imports(Index) == [] &&
    rd.follow(Index, Asked.value) == {"./page-container"} &&
    rd.resolve(Index, "./page-container") == Some(Container) &&
    (forall e :: e in rd.imports(Container) <==> e == ContainerEdge) &&
    rd.resolve(Container, ContainerEdge.source) == Some(SideEffect) &&
    rd.imports(SideEffect) == []
  }

  /** The page's one import asks for `PageContainer` from the barrel. */
  lemma PageImports(scan: FileScan)
    requires scan.importsFrom == [ImportFromMatch(false, "{ PageContainer }", "@/components/shared")]
    requires scan.sideEffects == []
    ensures forall e :: e in ParseImports(scan) <==> e == PageEdge
  {
    var x := "PageContainer";
    assert Word(x) && Token(x) by {
      FixtureNames();
      assert x[0] == 'P' && x[|x| - 1] == 'r';
    }
    assert forall e :: e in ParseImports(scan) <==> e == ImportEdge("@/components/shared", Some({x}), false) by {
      assert "{ PageContainer }" == "{ " + x + " }";
      OneBracedImport(scan, x, "@/components/shared");
    }
  }

  lemma PageReads(t: Tree)
    requires IsFixture(t)
    ensures forall e :: e in ReaderOf(t, FixtureRoot).imports(Page) <==> e == PageEdge
    ensures ReaderOf(t, FixtureRoot).resolve(Page, PageEdge.source) == Some(Index)
  {
    PageImports(ScanOf(t, Page));
    PageResolves(t.files);
  }

  lemma FixtureNames()
    ensures Word("PageContainer") && ',' !in "PageContainer"
    ensures Word("SomethingElse") && ',' !in "SomethingElse"
    ensures "PageContainer" != "SomethingElse" && "PageContainer" != "*" && "PageContainer" != "default"
  {
  }

  /** The barrel, asked for `PageContainer`, follows `./page-container` alone. */
  lemma BarrelFollows(scan: FileScan)
    requires scan.namedExports == [ExportNamedMatch(false, "PageContainer", "./page-container"),
                                   ExportNamedMatch(false, "SomethingElse", "./other")]
    ensures FollowSpecs(ParseExportMap(scan), Asked.value) == {"./page-container"}
  {
    FixtureNames();
    TwoReexports(scan, "PageContainer", "./page-container", "SomethingElse", "./other");
  }

  lemma BarrelReads(t: Tree)
    requires IsFixture(t)
    ensures ReaderOf(t, FixtureRoot).imports(Index) == []
    ensures ReaderOf(t, FixtureRoot).follow(Index, Asked.value) == {"./page-container"}
    ensures ReaderOf(t, FixtureRoot).resolve(Index, "./page-container") == Some(Container)
  {
    NoEdges(ScanOf(t, Index));
    BarrelFollows(ScanOf(t, Index));
    BarrelResolves(t.files);
  }

  lemma ContainerReads(t: Tree)
    requires IsFixture(t)
    ensures forall e :: e in ReaderOf(t, FixtureRoot).imports(Container) <==> e == ContainerEdge
    ensures ReaderOf(t, FixtureRoot).resolve(Container, ContainerEdge.source) == Some(SideEffect)
    ensures ReaderOf(t, FixtureRoot).imports(SideEffect) == []
  {
    OneSideEffect(ScanOf(t, Container), "./side-effect");
    ContainerResolves(t.files);
    NoEdges(ScanOf(t, SideEffect));
  }

  lemma FixtureReads(t: Tree)
    requires IsFixture(t)
    ensures Reads(ReaderOf(t, FixtureRoot))
  {
    PageReads(t);
    BarrelReads(t);
    ContainerReads(t);
  }

  // ---------------------------------------------------------------------------
  // The steps of the walk

  /** No step leaves `Reachable`. */
  lemma ReachableClosed(rd: Reader)
    requires Reads(rd)
    ensures forall p, r, q, rq :: (p, r) in Reachable && StepOf(rd)(p, r, q, rq) ==> (q, rq) in Reachable
  {
    forall p, r, q, rq | (p, r) in Reachable && StepOf(rd)(p, r, q, rq) ensures (q, rq) in Reachable {
      if p == Page && r == None {
        OneEdgeSteps(rd, Page, PageEdge, Index, q, rq);
      } else if p == Index && r == Asked {
        BarrelOnlySteps(rd, Index, Asked, "./page-container", Container, q, rq);
      } else if p == Container && r == None {
        OneEdgeSteps(rd, Container, ContainerEdge, SideEffect, q, rq);
      } else {
        LeafSteps(rd, SideEffect, q, rq);
      }
    }
  }

  lemma StartsAtPage(t: Tree)
    requires IsFixture(t)
    ensures Starts(t, [Page]) == {Page}
  {
    assert Normal(Page);
    NormalizeNormal(Page);
  }

  lemma SubsetSize<T>(a: set<T>, b: set<T>)
    requires a <= b
    ensures |a| <= |b|
  {
    assert b == a + (b - a);
  }

  lemma FixtureSize(files: set<Path>, visited: set<Path>)
    requires FixtureFiles(files) && visited <= files
    ensures |visited| <= 5
  {
    var all := {Page, Index, Container, Other, SideEffect};
    assert visited <= all;
    SubsetSize(visited, all);
  }

  /** A walk of the fixture from the page visits each file under its one request in `Reachable`. */
  lemma OnlyReachable(rd: Reader, visited: set<Path>, order: seq<Path>, how: map<Path, Request>)
    requires Reads(rd) && Elems(order) == visited && how.Keys == visited
    requires DerivedBy({Page}, None, StepOf(rd), order, how)
    ensures forall p :: p in visited ==> (p, how[p]) in Reachable
  {
    ReachableClosed(rd);
    DerivedWithin({Page}, None, StepOf(rd), order, how, Reachable);
    forall p | p in visited ensures (p, how[p]) in Reachable {
      var i :| 0 <= i < |order| && order[i] == p;
    }
  }

  lemma InReachable(p: Path, r: Request)
    requires (p, r) in Reachable
    ensures p != Other
    ensures p == Page || p == Container ==> r == None
    ensures p == Index ==> r == Asked
  {
    Distinct();
  }

  /** In a closed walk, what a visited file queues under its request is visited. */
  lemma ClosedPush(rd: Reader, visited: set<Path>, how: map<Path, Request>, p: Path, q: Path, rq: Request)
    requires how.Keys == visited && ClosedBy({Page}, StepOf(rd), visited, how)
    requires p in visited && Pushes(rd, p, how[p], q, rq)
    ensures q in visited
  {
    assert StepOf(rd)(p, how[p], q, rq);
  }

  /**
   Any walk of the fixture's steps from the page: it visits the page, the
   barrel, the page container and the side-effect module, and not `other.ts`.
   */
  lemma FixtureOutcome(rd: Reader, files: set<Path>, visited: set<Path>, order: seq<Path>, how: map<Path, Request>)
    requires Reads(rd) && FixtureFiles(files) && visited <= files
    requires Elems(order) == visited && how.Keys == visited
    requires DerivedBy({Page}, None, StepOf(rd), order, how)
    requires |visited| <= 50 ==> ClosedBy({Page}, StepOf(rd), visited, how)
    ensures Page in visited && Index in visited && Container in visited && SideEffect in visited
    ensures Other !in visited
  {
    OnlyReachable(rd, visited, order, how);
    if Other in visited {
      InReachable(Other, how[Other]);
    }
    FixtureSize(files, visited);
    assert ClosedBy({Page}, StepOf(rd), visited, how);
    assert Page in visited;
    InReachable(Page, how[Page]);
    OneEdgeSteps(rd, Page, PageEdge, Index, Index, Asked);
    ClosedPush(rd, visited, how, Page, Index, Asked);
    InReachable(Index, how[Index]);
    BarrelOnlySteps(rd, Index, Asked, "./page-container", Container, Container, None);
    ClosedPush(rd, visited, how, Index, Container, None);
    InReachable(Container, how[Container]);
    OneEdgeSteps(rd, Container, ContainerEdge, SideEffect, SideEffect, None);
    ClosedPush(rd, visited, how, Container, SideEffect, None);
  }

  /**
   `dependency_closure(root, [page], max_files=50)` on the fixture visits the
   page, the barrel, the page container and the side-effect module, and not
   `other.ts`: the barrel follows only the re-export the page asked for.
   */
  method BarrelFixture(t: Tree) returns (visited: set<Path>)
    requires IsFixture(t)
    ensures Page in visited && Index in visited && Container in visited && SideEffect in visited
    ensures Other !in visited
  {
    ghost var order: seq<Path>;
    ghost var how: map<Path, Request>;
    visited, order, how := DependencyClosure(t, FixtureRoot, [Page], 50);
    StartsAtPage(t);
    FixtureReads(t);
    FixtureOutcome(ReaderOf(t, FixtureRoot), t.files, visited, order, how);
  }
}
