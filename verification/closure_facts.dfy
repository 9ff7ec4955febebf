/**
 What one step of the closure walk can and cannot queue: type-only imports
 never matter, a barrel follows exactly the re-exports of the names asked of
 it, and the shapes of file the test fixture is made of.
 */
module ClosureFacts {
  import opened Wrappers
  import opened Seqs
  import opened Clause
  import opened Declarations
  import opened Paths
  import opened Closure

  /** An import that is not type-only. */
  predicate Runtime(e: ImportEdge) {
    !e.typeOnly
  }

  /** Dropping every type-only import from every file changes no step of the walk. */
  lemma TypeOnlyIgnored(rd: Reader, rd': Reader)
    requires rd'.follow == rd.follow && rd'.resolve == rd.resolve
    requires forall p :: rd'.imports(p) == Filter(rd.imports(p), Runtime)
    ensures forall p, r, q, rq :: Pushes(rd, p, r, q, rq) <==> Pushes(rd', p, r, q, rq)
  {
    forall p, q, rq ensures EdgePush(rd, p, q, rq) <==> EdgePush(rd', p, q, rq) {
      if EdgePush(rd, p, q, rq) {
        var e :| e in rd.imports(p) && !e.typeOnly && rd.resolve(p, e.source) == Some(q) && e.imported == rq;
        var i :| 0 <= i < |rd.imports(p)| && rd.imports(p)[i] == e;
        assert Runtime(rd.imports(p)[i]);
        assert e in rd'.imports(p);
      }
      if EdgePush(rd', p, q, rq) {
        var e :| e in rd'.imports(p) && !e.typeOnly && rd'.resolve(p, e.source) == Some(q) && e.imported == rq;
        var i :| 0 <= i < |rd'.imports(p)| && rd'.imports(p)[i] == e;
        assert e in rd.imports(p);
      }
    }
  }

  /** A file visited with no names asked of it queues only the targets of its runtime imports. */
  lemma UnaskedSkipsBarrel(rd: Reader, p: Path, q: Path, rq: Request)
    ensures Pushes(rd, p, None, q, rq) <==> exists e :: e in rd.imports(p) && Runtime(e) && rd.resolve(p, e.source) == Some(q) && e.imported == rq
  {
  }

  // ---------------------------------------------------------------------------
  // Which re-exports a barrel follows

  /** Every followed specifier is the source of a non-type re-export or of an `export *` of the barrel. */
  lemma FollowedDeclared(scan: FileScan, requested: set<string>, s: string)
    requires s in FollowSpecs(ParseExportMap(scan), requested)
    ensures s in scan.starExports || exists m :: m in scan.namedExports && !m.typeOnly && m.src == s
  {
    var em := ParseExportMap(scan);
    if s !in em.stars {
      var n :| n in em.byName && s in em.byName[n];
      assert s in SourcesFor(scan.namedExports, n);
    }
  }

  /**
   Asked (without `*` or `default`) for at least one name it publishes, a
   barrel follows only statements publishing a requested name.
   */
  lemma FollowSelective(scan: FileScan, requested: set<string>, s: string)
    requires !("*" in requested || "default" in requested)
    requires exists n :: n in requested && n in NamesIn(scan.namedExports)
    requires s in FollowSpecs(ParseExportMap(scan), requested)
    ensures exists m, n :: m in scan.namedExports && !m.typeOnly && n in requested && n in ExportedNames(m.names) && m.src == s
  {
    var em := ParseExportMap(scan);
    var n0 :| n0 in requested && n0 in NamesIn(scan.namedExports);
    FollowsOnlyPublished(em, requested, n0, s);
    var n :| n in requested && n in em.byName && s in em.byName[n];
    assert s in SourcesFor(scan.namedExports, n);
  }

  lemma FollowsOnlyPublished(em: ExportMap, requested: set<string>, n0: string, s: string)
    requires !("*" in requested || "default" in requested)
    requires n0 in requested && n0 in em.byName && em.byName[n0] != {}
    requires s in FollowSpecs(em, requested)
    ensures exists n :: n in requested && n in em.byName && s in em.byName[n]
  {
    var s0 :| s0 in em.byName[n0];
    assert s0 in NamedSpecs(em, requested);
  }

  /** A barrel follows every non-type statement publishing a requested name. */
  lemma FollowComplete(scan: FileScan, requested: set<string>, m: ExportNamedMatch, n: string)
    requires m in scan.namedExports && !m.typeOnly && n in requested && n in ExportedNames(m.names)
    ensures m.src in FollowSpecs(ParseExportMap(scan), requested)
  {
    var em := ParseExportMap(scan);
    assert n in NamesIn(scan.namedExports);
    assert m.src in SourcesFor(scan.namedExports, n);
    FollowsPublished(em, requested, n, m.src);
  }

  lemma FollowsPublished(em: ExportMap, requested: set<string>, n: string, s: string)
    requires n in requested && n in em.byName && s in em.byName[n]
    ensures s in FollowSpecs(em, requested)
  {
    if "*" in requested || "default" in requested {
      assert s in AllSpecs(em);
    } else {
      assert s in NamedSpecs(em, requested);
    }
  }

  /** Asked (without `*` or `default`) only for names it does not publish, a barrel follows its `export *` sources. */
  lemma FollowFallback(scan: FileScan, requested: set<string>)
    requires !("*" in requested || "default" in requested)
    requires forall n :: n in requested ==> n !in NamesIn(scan.namedExports)
    ensures FollowSpecs(ParseExportMap(scan), requested) == Elems(scan.starExports)
  {
    var em := ParseExportMap(scan);
    assert NamedSpecs(em, requested) == {};
  }

  /** A namespace or default import follows every re-export and every `export *`. */
  lemma FollowAll(scan: FileScan, requested: set<string>, m: ExportNamedMatch)
    requires "*" in requested || "default" in requested
    requires m in scan.namedExports && !m.typeOnly && ExportedNames(m.names) != {}
    ensures m.src in FollowSpecs(ParseExportMap(scan), requested)
    ensures Elems(scan.starExports) <= FollowSpecs(ParseExportMap(scan), requested)
  {
    var em := ParseExportMap(scan);
    var n :| n in ExportedNames(m.names);
    assert n in NamesIn(scan.namedExports);
    assert m.src in SourcesFor(scan.namedExports, n);
    assert m.src in em.byName[n];
  }

  // ---------------------------------------------------------------------------
  // Small files

  /** A file whose only import is the runtime edge `e`, visited unasked, queues exactly the target of `e`. */
  lemma OneEdgeSteps(rd: Reader, p: Path, e: ImportEdge, to: Path, q: Path, rq: Request)
    requires forall x :: x in rd.imports(p) <==> x == e
    requires !e.typeOnly && rd.resolve(p, e.source) == Some(to)
    ensures Pushes(rd, p, None, q, rq) <==> q == to && rq == e.imported
  {
    if q == to && rq == e.imported {
      assert e in rd.imports(p);
    }
  }

  /** A barrel without imports, asked for names re-exported from `spec` alone, queues exactly that module, asking for nothing. */
  lemma BarrelOnlySteps(rd: Reader, p: Path, req: Request, spec: string, to: Path, q: Path, rq: Request)
    requires rd.imports(p) == [] && Expands(req)
    requires rd.follow(p, req.value) == {spec} && rd.resolve(p, spec) == Some(to)
    ensures Pushes(rd, p, req, q, rq) <==> q == to && rq == None
  {
    if q == to && rq == None {
      assert spec in rd.follow(p, req.value);
    }
  }

  /** A file without imports, visited unasked, queues nothing. */
  lemma LeafSteps(rd: Reader, p: Path, q: Path, rq: Request)
    requires rd.imports(p) == []
    ensures !Pushes(rd, p, None, q, rq)
  {
  }

  /** A scan without imports has no edges. */
  lemma NoEdges(scan: FileScan)
    requires scan.importsFrom == [] && scan.sideEffects == []
    ensures ParseImports(scan) == []
  {
  }
}
