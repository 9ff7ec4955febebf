/** Facts about the edge list and the export map: what is ignored and the documented examples. */
module DeclarationFacts {
  import opened Wrappers
  import opened Seqs
  import opened Text
  import opened Clause
  import opened ClauseFacts
  import opened Declarations

  /** Every `import ... from` match shows up as an edge carrying its type flag and parsed clause. */
  lemma ImportMatchEdge(scan: FileScan, m: ImportFromMatch)
    requires m in scan.importsFrom
    ensures ImportEdge(m.src, ParseImportClause(m.clause), m.typeOnly) in ParseImports(scan)
  {
    assert Declared(scan, FromEdge(m));
  }

  /** Every side-effect import shows up as an untyped edge asking for no names. */
  lemma SideEffectMatchEdge(scan: FileScan, src: string)
    requires src in scan.sideEffects
    ensures ImportEdge(src, None, false) in ParseImports(scan)
  {
    assert Declared(scan, SideEffectEdge(src));
  }

  /** Listing a declaration twice changes nothing. */
  lemma ImportsIgnoreRepeats(scan: FileScan, m: ImportFromMatch)
    requires m in scan.importsFrom
    ensures Elems(ParseImports(scan.(importsFrom := scan.importsFrom + [m]))) == Elems(ParseImports(scan))
  {
    var scan' := scan.(importsFrom := scan.importsFrom + [m]);
    forall x ensures x in scan'.importsFrom <==> x in scan.importsFrom {
    }
    forall e ensures e in ParseImports(scan') <==> e in ParseImports(scan) {
      SameMatchesDeclared(scan, scan', e);
    }
  }

  /** Two scans with the same `import ... from` matches (as sets) and side-effect imports declare the same edges. */
  lemma SameMatchesDeclared(scan: FileScan, scan': FileScan, e: ImportEdge)
    requires forall x :: x in scan'.importsFrom <==> x in scan.importsFrom
    requires scan'.sideEffects == scan.sideEffects
    ensures Declared(scan', e) <==> Declared(scan, e)
  {
    if m' :| m' in scan'.importsFrom && e == FromEdge(m') {
      assert m' in scan.importsFrom;
    }
    if m' :| m' in scan.importsFrom && e == FromEdge(m') {
      assert m' in scan'.importsFrom;
    }
  }

  // ---------------------------------------------------------------------------
  // Type-only re-exports

  lemma NamesInWithout(pre: seq<ExportNamedMatch>, m: ExportNamedMatch, post: seq<ExportNamedMatch>, n: string)
    requires m.typeOnly
    ensures n in NamesIn(pre + [m] + post) <==> n in NamesIn(pre + post)
    ensures SourcesFor(pre + [m] + post, n) == SourcesFor(pre + post, n)
  {
    var with := pre + [m] + post;
    var without := pre + post;
    forall m' | m' in with && !m'.typeOnly ensures m' in without {
      var i :| 0 <= i < |with| && with[i] == m';
      if i < |pre| {
        assert without[i] == m';
      } else if i > |pre| {
        assert without[i - 1] == m';
      }
    }
    forall m' | m' in without ensures m' in with {
      var i :| 0 <= i < |without| && without[i] == m';
      if i < |pre| {
        assert with[i] == m';
      } else {
        assert with[i + 1] == m';
      }
    }
    if n in NamesIn(with) {
      var m' :| m' in with && !m'.typeOnly && n in ExportedNames(m'.names);
      assert m' in without;
    }
    if n in NamesIn(without) {
      var m' :| m' in without && !m'.typeOnly && n in ExportedNames(m'.names);
      assert m' in with;
    }
  }

  /** An `export type { ... } from` statement, wherever it sits, contributes nothing. */
  lemma TypeOnlyExportIgnored(scan: FileScan, pre: seq<ExportNamedMatch>, m: ExportNamedMatch, post: seq<ExportNamedMatch>)
    requires m.typeOnly
    ensures ParseExportMap(scan.(namedExports := pre + [m] + post)) == ParseExportMap(scan.(namedExports := pre + post))
  {
    var a := ParseExportMap(scan.(namedExports := pre + [m] + post));
    var b := ParseExportMap(scan.(namedExports := pre + post));
    forall n ensures (n in a.byName <==> n in b.byName) && (n in a.byName ==> a.byName[n] == b.byName[n]) {
      NamesInWithout(pre, m, post, n);
    }
    SameMaps(a.byName, b.byName);
  }

  lemma SameMaps(a: map<string, set<string>>, b: map<string, set<string>>)
    requires forall n :: (n in a <==> n in b) && (n in a ==> a[n] == b[n])
    ensures a == b
  {
  }

  lemma InTwo<T>(xs: seq<T>, x0: T, x1: T)
    requires xs == [x0, x1]
    ensures forall x :: x in xs <==> x == x0 || x == x1
  {
  }

  /** A name only `export * from` could provide is absent from `by_name`. */
  lemma UnpublishedAbsent(scan: FileScan, n: string)
    requires forall m :: m in scan.namedExports && !m.typeOnly ==> n !in ExportedNames(m.names)
    ensures n !in ParseExportMap(scan).byName
  {
  }

  // ---------------------------------------------------------------------------
  // The examples of the test suite

  lemma ClauseA()
    ensures ParseImportClause("{ A }") == Some({"A"})
  {
    assert Word("A") && Token("A");
    assert "{ A }" == "{ " + "A" + " }";
    BracedPlain("A");
  }

  lemma DeclaredTwoAndOne(scan: FileScan, e: ImportEdge)
    requires |scan.importsFrom| == 2 && |scan.sideEffects| == 1
    ensures Declared(scan, e) <==>
      e == FromEdge(scan.importsFrom[0]) || e == FromEdge(scan.importsFrom[1]) || e == SideEffectEdge(scan.sideEffects[0])
  {
    assert forall m :: m in scan.importsFrom <==> m == scan.importsFrom[0] || m == scan.importsFrom[1];
    assert forall s :: s in scan.sideEffects <==> s == scan.sideEffects[0];
  }

  /**
   `import type { A } from "./a"`, `import Foo, { Bar as Baz } from "./b"` and
   `import "./c"` give one edge per source: a type-only edge asking for `A`, a
   runtime edge asking for the default binding and `Bar`, and a runtime edge
   asking for nothing in particular.
   */
  lemma TypedImportEdges(scan: FileScan)
    requires scan.importsFrom == [ImportFromMatch(true, "{ A }", "./a"), ImportFromMatch(false, "Foo, { Bar as Baz }", "./b")]
    requires scan.sideEffects == ["./c"]
    ensures forall e :: e in ParseImports(scan) <==>
      e == ImportEdge("./a", Some({"A"}), true) ||
      e == ImportEdge("./b", Some({"default", "Bar"}), false) ||
      e == ImportEdge("./c", None, false)
  {
    ClauseA();
    FooBarBaz();
    assert FromEdge(scan.importsFrom[0]) == ImportEdge("./a", Some({"A"}), true);
    assert FromEdge(scan.importsFrom[1]) == ImportEdge("./b", Some({"default", "Bar"}), false);
    forall e ensures e in ParseImports(scan) <==> Declared(scan, e) {
    }
    forall e {
      DeclaredTwoAndOne(scan, e);
    }
  }

  lemma FooBazSplit(s: string)
    requires s == "Foo, Bar as Baz"
    ensures Split(s, ',') == ["Foo", " " + ("Bar" + " as " + "Baz")]
  {
    assert Join(["Foo", " " + ("Bar" + " as " + "Baz")], ',') == s;
    SplitJoin(["Foo", " " + ("Bar" + " as " + "Baz")], ',');
  }

  lemma WordsUsed()
    ensures Word("Foo") && Word("Bar") && Word("Baz")
  {
  }

  lemma FooBazNames(s: string)
    requires s == "Foo, Bar as Baz"
    ensures ExportedNames(s) == {"Foo", "Baz"}
  {
    var p1 := " " + ("Bar" + " as " + "Baz");
    FooBazSplit(s);
    WordsUsed();
    ExportPlain("Foo");
    ExportRenamedPadded("Bar", "Baz");
    TwoPieces(s, "Foo", p1, "Foo", "Baz");
  }

  lemma TwoPieces(s: string, p0: string, p1: string, n0: string, n1: string)
    requires Split(s, ',') == [p0, p1]
    requires ExportedName(p0) == Some(n0) && ExportedName(p1) == Some(n1)
    ensures ExportedNames(s) == {n0, n1}
  {
    var names := ExportedNames(s);
    forall n ensures n in names <==> exists p :: p in Split(s, ',') && ExportedName(p) == Some(n) {
    }
    NamesOfTwo(names, Split(s, ','), ExportedName, p0, p1, n0, n1);
  }

  /** A set collected from two pieces by a partial naming function holds exactly their two names. */
  lemma NamesOfTwo(names: set<string>, parts: seq<string>, name: string -> Option<string>, p0: string, p1: string, n0: string, n1: string)
    requires parts == [p0, p1]
    requires forall n :: n in names <==> exists p :: p in parts && name(p) == Some(n)
    requires name(p0) == Some(n0) && name(p1) == Some(n1)
    ensures names == {n0, n1}
  {
    assert p0 in parts && p1 in parts;
    forall n | n in names ensures n == n0 || n == n1 {
      var p :| p in parts && name(p) == Some(n);
      assert p == p0 || p == p1;
    }
    SetOfTwo(names, n0, n1);
  }

  lemma SetOfTwo(names: set<string>, n0: string, n1: string)
    requires n0 in names && n1 in names
    requires forall n :: n in names ==> n == n0 || n == n1
    ensures names == {n0, n1}
  {
  }

  /** With one live statement followed by a type-only one, the map is that statement's names. */
  lemma OneLiveStatement(ms: seq<ExportNamedMatch>, n: string)
    requires |ms| == 2 && !ms[0].typeOnly && ms[1].typeOnly
    ensures n in NamesIn(ms) <==> n in ExportedNames(ms[0].names)
    ensures SourcesFor(ms, n) == if n in ExportedNames(ms[0].names) then {ms[0].src} else {}
  {
    var tail := ms[1..];
    assert ms == [ms[0]] + tail;
    assert tail == [ms[1]] + [];
    NamesInCons(ms[1], []);
    NamesInCons(ms[0], tail);
    SourcesForCons(ms, n);
    SourcesForCons(tail, n);
  }

  lemma OneLiveKeys(scan: FileScan, published: set<string>)
    requires |scan.namedExports| == 2 && !scan.namedExports[0].typeOnly && scan.namedExports[1].typeOnly
    requires ExportedNames(scan.namedExports[0].names) == published
    ensures ParseExportMap(scan).byName.Keys == published
  {
    OneLiveNames(scan.namedExports);
  }

  lemma OneLiveNames(ms: seq<ExportNamedMatch>)
    requires |ms| == 2 && !ms[0].typeOnly && ms[1].typeOnly
    ensures NamesIn(ms) == ExportedNames(ms[0].names)
  {
    var tail := ms[1..];
    assert ms == [ms[0]] + tail;
    assert tail == [ms[1]] + [];
    NamesInCons(ms[1], []);
    NamesInCons(ms[0], tail);
  }

  lemma OneLiveValues(scan: FileScan)
    requires |scan.namedExports| == 2 && !scan.namedExports[0].typeOnly && scan.namedExports[1].typeOnly
    ensures forall n :: n in ParseExportMap(scan).byName ==> ParseExportMap(scan).byName[n] == {scan.namedExports[0].src}
  {
    forall n | n in ParseExportMap(scan).byName ensures ParseExportMap(scan).byName[n] == {scan.namedExports[0].src} {
      OneLiveEntry(scan, n);
    }
  }

  lemma OneLiveEntry(scan: FileScan, n: string)
    requires |scan.namedExports| == 2 && !scan.namedExports[0].typeOnly && scan.namedExports[1].typeOnly
    ensures n in ParseExportMap(scan).byName <==> n in ExportedNames(scan.namedExports[0].names)
    ensures n in ParseExportMap(scan).byName ==> ParseExportMap(scan).byName[n] == {scan.namedExports[0].src}
  {
    OneLiveStatement(scan.namedExports, n);
  }

  lemma TwoKeyMap(m: map<string, set<string>>, k0: string, k1: string, v: set<string>)
    requires m.Keys == {k0, k1}
    requires forall n :: n in m ==> m[n] == v
    ensures m == map[k0 := v, k1 := v]
  {
  }

  /**
   `export { Foo, Bar as Baz } from "./m1"`, `export type { T } from "./types"`
   and `export * from "./star"`: `Foo` and `Baz` come from `./m1`, `T` is not
   published, and `./star` is a star source.
   */
  lemma BarrelExports(scan: FileScan)
    requires scan.namedExports == [ExportNamedMatch(false, "Foo, Bar as Baz", "./m1"), ExportNamedMatch(true, "T", "./types")]
    requires scan.starExports == ["./star"]
    ensures ParseExportMap(scan).byName == map["Foo" := {"./m1"}, "Baz" := {"./m1"}]
    ensures ParseExportMap(scan).stars == {"./star"}
  {
    FooBazNames(scan.namedExports[0].names);
    OneLiveTwoNames(scan, "Foo", "Baz");
    StarsOne(scan.starExports);
  }

  lemma OneLiveTwoNames(scan: FileScan, n0: string, n1: string)
    requires |scan.namedExports| == 2 && !scan.namedExports[0].typeOnly && scan.namedExports[1].typeOnly
    requires ExportedNames(scan.namedExports[0].names) == {n0, n1}
    ensures ParseExportMap(scan).byName == map[n0 := {scan.namedExports[0].src}, n1 := {scan.namedExports[0].src}]
  {
    var byName := ParseExportMap(scan).byName;
    OneLiveKeys(scan, {n0, n1});
    OneLiveValues(scan);
    TwoKeyMap(byName, n0, n1, {scan.namedExports[0].src});
  }

  lemma StarsOne(stars: seq<string>)
    requires stars == ["./star"]
    ensures Elems(stars) == {"./star"}
  {
    assert stars[0] in Elems(stars);
  }
}
