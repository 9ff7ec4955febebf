/**
 What one source file declares: its import edges and its barrel re-exports.

 The regular expressions that find `import ... from`, side-effect `import`,
 `export { ... } from` and `export * from` statements are not modelled; each
 file's matches, taken over its comment-stripped text, arrive as a `FileScan`.
 Everything downstream of the matches is modelled exactly.
 */
module Declarations {
  import opened Wrappers
  import opened Seqs
  import opened Text
  import opened Clause

  /** One `import [type] <clause> from "<src>"` match. */
  datatype ImportFromMatch = ImportFromMatch(typeOnly: bool, clause: string, src: string)

  /** One `export [type] { <names> } from "<src>"` match. */
  datatype ExportNamedMatch = ExportNamedMatch(typeOnly: bool, names: string, src: string)

  /** The statement matches of one file, in text order. */
  datatype FileScan = FileScan(
    importsFrom: seq<ImportFromMatch>,
    sideEffects: seq<string>,
    namedExports: seq<ExportNamedMatch>,
    starExports: seq<string>)

  /** An unreadable file reads as empty text and so matches nothing. */
  const NoMatches := FileScan([], [], [], [])

  /** A dependency of a file: the specifier, the names asked for (if known), and whether it is type-only. */
  datatype ImportEdge = ImportEdge(source: string, imported: Option<set<string>>, typeOnly: bool)

  function FromEdge(m: ImportFromMatch): ImportEdge {
    ImportEdge(m.src, ParseImportClause(m.clause), m.typeOnly)
  }

  /** A side-effect import is a runtime dependency that asks for no names. */
  function SideEffectEdge(src: string): ImportEdge {
    ImportEdge(src, None, false)
  }

  /** The edges before deduplication: every `import ... from` match, then every side-effect import. */
  function RawEdges(scan: FileScan): (r: seq<ImportEdge>)
    ensures |r| == |scan.importsFrom| + |scan.sideEffects|
    ensures forall i :: 0 <= i < |scan.importsFrom| ==> r[i] == FromEdge(scan.importsFrom[i])
    ensures forall i :: 0 <= i < |scan.sideEffects| ==> r[|scan.importsFrom| + i] == SideEffectEdge(scan.sideEffects[i])
  {
    Map(scan.importsFrom, FromEdge) + Map(scan.sideEffects, SideEffectEdge)
  }

  /** Some `import ... from` match or side-effect import produces `e`. */
  predicate Declared(scan: FileScan, e: ImportEdge) {
    (exists m :: m in scan.importsFrom && e == FromEdge(m)) ||
    (exists s :: s in scan.sideEffects && e == SideEffectEdge(s))
  }

  /**
   `parse_imports`: the declared edges, each once, in order of first
   appearance (a dict keyed by the whole edge).
   */
  function ParseImports(scan: FileScan): (r: seq<ImportEdge>)
    ensures NoDups(r)
    ensures forall e :: e in r <==> Declared(scan, e)
    ensures Subseq(r, RawEdges(scan))
    ensures InFirstOrder(r, RawEdges(scan))
  {
    var raw := RawEdges(scan);
    var r := Dedup(raw);
    forall e ensures e in r <==> Declared(scan, e) {
      assert e in r <==> e in Elems(raw);
      RawDeclared(scan, e);
    }
    r
  }

  lemma RawDeclared(scan: FileScan, e: ImportEdge)
    ensures e in RawEdges(scan) <==> Declared(scan, e)
  {
    MapMembers(scan.importsFrom, FromEdge, e);
    MapMembers(scan.sideEffects, SideEffectEdge, e);
  }

  // ---------------------------------------------------------------------------
  // Barrel re-exports

  /** Published name to the specifiers re-exporting it, plus the `export *` specifiers. */
  datatype ExportMap = ExportMap(byName: map<string, set<string>>, stars: set<string>)

  /** The names a list of comma-separated pieces publishes. */
  function PublishedIn(parts: seq<string>): set<string> {
    set p | p in parts && ExportedName(p).Some? :: ExportedName(p).value
  }

  /** `by_name.setdefault(name, set()).add(src)` */
  function AddSource(byName: map<string, set<string>>, name: string, src: string): map<string, set<string>> {
    byName[name := (if name in byName then byName[name] else {}) + {src}]
  }

  /** What `src` was before any re-export: its set under `n`, empty if absent. */
  function SourcesOr(byName: map<string, set<string>>, n: string): set<string> {
    if n in byName then byName[n] else {}
  }

  /** Record `src` under the published name, if there is one. */
  function AddName(byName: map<string, set<string>>, name: Option<string>, src: string): (r: map<string, set<string>>)
    ensures r.Keys == byName.Keys + Contribution(name)
    ensures forall n :: SourcesOr(r, n) == SourcesOr(byName, n) + (if n in Contribution(name) then {src} else {})
  {
    match name
    case None => byName
    case Some(n) => AddSource(byName, n, src)
  }

  lemma PublishedInCons(parts: seq<string>)
    requires |parts| > 0
    ensures PublishedIn(parts) == Contribution(ExportedName(parts[0])) + PublishedIn(parts[1..])
  {
    var rest := parts[1..];
    forall n | n in PublishedIn(rest) ensures n in PublishedIn(parts) {
      var p :| p in rest && ExportedName(p) == Some(n);
      assert p in parts;
    }
    if ExportedName(parts[0]).Some? {
      assert ExportedName(parts[0]).value in PublishedIn(parts);
    }
    forall n | n in PublishedIn(parts) ensures n in Contribution(ExportedName(parts[0])) + PublishedIn(rest) {
      var p :| p in parts && ExportedName(p) == Some(n);
      var i :| 0 <= i < |parts| && parts[i] == p;
      if i > 0 {
        assert rest[i - 1] == p;
      }
    }
  }

  lemma UnionStep<T>(r: set<T>, acc: set<T>, start: set<T>, first: set<T>, rest: set<T>, all: set<T>)
    requires r == acc + rest && acc == start + first && all == first + rest
    ensures r == start + all
  {
  }

  lemma AddStep(r: set<string>, acc: set<string>, start: set<string>, src: string, inFirst: bool, inRest: bool, inAll: bool)
    requires r == acc + (if inRest then {src} else {})
    requires acc == start + (if inFirst then {src} else {})
    requires inAll == (inFirst || inRest)
    ensures r == start + (if inAll then {src} else {})
  {
  }

  /** The inner loop over the pieces of one `export { ... } from "src"`. */
  function AddParts(byName: map<string, set<string>>, parts: seq<string>, src: string): (r: map<string, set<string>>)
    ensures r.Keys == byName.Keys + PublishedIn(parts)
    ensures forall n :: SourcesOr(r, n) == SourcesOr(byName, n) + (if n in PublishedIn(parts) then {src} else {})
    decreases |parts|
  {
    if |parts| == 0 then byName
    else
      var name := ExportedName(parts[0]);
      var acc := AddName(byName, name, src);
      PublishedInCons(parts);
      var r := AddParts(acc, parts[1..], src);
      UnionStep(r.Keys, acc.Keys, byName.Keys, Contribution(name), PublishedIn(parts[1..]), PublishedIn(parts));
      forall n ensures SourcesOr(r, n) == SourcesOr(byName, n) + (if n in PublishedIn(parts) then {src} else {}) {
        AddStep(SourcesOr(r, n), SourcesOr(acc, n), SourcesOr(byName, n), src,
          n in Contribution(name), n in PublishedIn(parts[1..]), n in PublishedIn(parts));
      }
      r
  }

  /** The names some non-type `export { ... } from` publishes. */
  function NamesIn(ms: seq<ExportNamedMatch>): set<string> {
    set m, n | m in ms && !m.typeOnly && n in ExportedNames(m.names) :: n
  }

  /** The specifiers of the non-type `export { ... } from` statements publishing `n`. */
  function SourcesFor(ms: seq<ExportNamedMatch>, n: string): set<string> {
    set m | m in ms && !m.typeOnly && n in ExportedNames(m.names) :: m.src
  }

  /** One `export { ... } from` match; a type-only one adds nothing. */
  function AddMatch(byName: map<string, set<string>>, m: ExportNamedMatch): (r: map<string, set<string>>)
    ensures r.Keys == byName.Keys + (if m.typeOnly then {} else ExportedNames(m.names))
    ensures forall n :: SourcesOr(r, n) == SourcesOr(byName, n) + FirstSources(m, n)
  {
    if m.typeOnly then byName
    else
      assert PublishedIn(Split(m.names, ',')) == ExportedNames(m.names);
      AddParts(byName, Split(m.names, ','), m.src)
  }

  /** The outer loop over the `export { ... } from` matches. */
  function AddMatches(byName: map<string, set<string>>, ms: seq<ExportNamedMatch>): (r: map<string, set<string>>)
    ensures r.Keys == byName.Keys + NamesIn(ms)
    ensures forall n :: SourcesOr(r, n) == SourcesOr(byName, n) + SourcesFor(ms, n)
    decreases |ms|
  {
    if |ms| == 0 then byName
    else
      var m := ms[0];
      assert ms == [m] + ms[1..];
      var acc := AddMatch(byName, m);
      NamesInCons(m, ms[1..]);
      var r := AddMatches(acc, ms[1..]);
      UnionStep(r.Keys, acc.Keys, byName.Keys, if m.typeOnly then {} else ExportedNames(m.names), NamesIn(ms[1..]), NamesIn(ms));
      forall n ensures SourcesOr(r, n) == SourcesOr(byName, n) + SourcesFor(ms, n) {
        SourcesForCons(ms, n);
        UnionStep(SourcesOr(r, n), SourcesOr(acc, n), SourcesOr(byName, n), FirstSources(m, n), SourcesFor(ms[1..], n), SourcesFor(ms, n));
      }
      r
  }

  lemma NamesInCons(m: ExportNamedMatch, ms: seq<ExportNamedMatch>)
    ensures NamesIn([m] + ms) == NamesIn(ms) + (if m.typeOnly then {} else ExportedNames(m.names))
  {
    var all := [m] + ms;
    forall n ensures n in NamesIn(all) <==> n in NamesIn(ms) + (if m.typeOnly then {} else ExportedNames(m.names)) {
      if n in NamesIn(ms) {
        var m' :| m' in ms && !m'.typeOnly && n in ExportedNames(m'.names);
        assert m' in all;
      }
    }
  }

  /** What the first match adds to the sources of `n`. */
  function FirstSources(m: ExportNamedMatch, n: string): set<string> {
    if !m.typeOnly && n in ExportedNames(m.names) then {m.src} else {}
  }

  lemma SourcesForCons(ms: seq<ExportNamedMatch>, n: string)
    requires |ms| > 0
    ensures SourcesFor(ms, n) == FirstSources(ms[0], n) + SourcesFor(ms[1..], n)
  {
    forall s | s in SourcesFor(ms[1..], n) ensures s in SourcesFor(ms, n) {
      var m' :| m' in ms[1..] && !m'.typeOnly && n in ExportedNames(m'.names) && m'.src == s;
      assert m' in ms;
    }
    forall s | s in SourcesFor(ms, n) ensures s in FirstSources(ms[0], n) + SourcesFor(ms[1..], n) {
      var m' :| m' in ms && !m'.typeOnly && n in ExportedNames(m'.names) && m'.src == s;
      var i :| 0 <= i < |ms| && ms[i] == m';
      if i > 0 {
        assert ms[1..][i - 1] == m';
      }
    }
  }

  /**
   `parse_export_map`: every published name maps to exactly the specifiers of the
   non-type statements publishing it, and the stars are the `export *` specifiers.
   */
  function ParseExportMap(scan: FileScan): (r: ExportMap)
    ensures r.byName.Keys == NamesIn(scan.namedExports)
    ensures forall n :: n in r.byName ==> r.byName[n] == SourcesFor(scan.namedExports, n) && r.byName[n] != {}
    ensures "" !in r.byName
    ensures r.stars == Elems(scan.starExports)
  {
    var byName := AddMatches(map[], scan.namedExports);
    forall n | n in byName ensures byName[n] == SourcesFor(scan.namedExports, n) && byName[n] != {} {
      assert SourcesOr(byName, n) == SourcesFor(scan.namedExports, n);
      var m :| m in scan.namedExports && !m.typeOnly && n in ExportedNames(m.names);
      assert m.src in SourcesFor(scan.namedExports, n);
    }
    ExportMap(byName, Elems(scan.starExports))
  }
}
