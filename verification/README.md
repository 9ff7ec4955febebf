# StacksOS audit scripts in Dafny

This project models the static audit tooling of StacksOS, a staff front end for the
Evergreen library system. It has three parts:

- **`dep_scan`**: the dependency scanner. It strips comments from TS/TSX text and
  parses `import` binding clauses. It builds a file's import edges and the
  re-export map of a barrel module. It resolves `./`, `../` and `@/` specifiers
  against the files that exist. It computes the set of local files reachable
  from entry pages with a LIFO worklist. That worklist has a visited set and a
  file cap, and follows barrels selectively.
- **`repo_inventory`**: the inventory. It converts between staff routes and page
  files. It reads the sidebar links, finds links without a page, lists routes
  the sidebar never links, works out which adapter modules each page calls
  under `/api/evergreen/`, and lists unconnected pages and unused modules.
- **`generate_audit_report`**: the report generator. It reads the
  `summary.tsv` of the API audit and splits it by HTTP status. It finds the
  adapter modules the audit never exercises, and applies the empty-data
  heuristic to each JSON response. It collects the OpenSRF services the
  adapters call, and builds the unused-module list of the feature matrix.

The file system is a finite set of paths. A path is a sequence of segments.
File contents are a map from path to text. The regex scans of `dep_scan` are
lists of matches, one `FileScan` per file, and everything downstream of them is
modelled exactly. The regexes of the report scripts are simpler (`href:\s*"…"`,
`/api/evergreen/([a-z0-9-]+)`, `callOpenSRF\(\s*"…"`), so they are modelled as
explicit scanners, together with `findall` and `search`.

Modules:

| module | models |
|---|---|
| `Wrappers`, `Seqs`, `Text`, `Sorting` | `Option`/`Result`, sequence helpers, `str.strip`/`split`/`join`/`lower`, `sorted(set(…))` |
| `Comments` | `strip_comments` |
| `Clause`, `ClauseFacts` | `parse_import_clause` and the token rules of `parse_export_map` |
| `Declarations`, `DeclarationFacts` | `ImportEdge`, `parse_imports`, `ExportMap`, `parse_export_map` |
| `Paths`, `Resolver` | `pathlib` joins and `..` resolution, `resolve_import` |
| `Walk`, `Closure`, `ClosureFacts`, `ClosureFixture` | `dependency_closure` and the barrel fixture of the test suite |
| `Routes` | `route_from_page` and `page_for_route` (identical in both report scripts) |
| `Scanners` | `HREF_RE`, `API_USAGE_RE`/`API_PREFIX_RE`, `CALL_OSRF_RE`, `extract_api_usage`, `extract_open_srf_services` |
| `Inventory` | the list and set computations of `repo_inventory.main` |
| `Summary` | `load_summary` and `str.splitlines` |
| `Report` | `build_report` and `build_feature_matrix` apart from the Markdown |

The model follows the code as written where it differs from what a reader
might expect:

- A `type ` prefix inside braces is dropped and the name is kept.
- A brace-first clause with a comma, such as `{ A, B }`, goes through the
  default-plus-named split at its first comma. So it asks for `{"default"}`
  (`ClauseFacts.BraceFirstComma`).
- The cap is checked after the insert, so the closure can hold `max_files + 1`
  files.
- `page_for_route` tests the `/staff` prefix as text, so `/staffx` names the
  page `staffx/page.tsx` (`Routes.PrefixIsTextual`).
- `load_summary` strips the whole file before splitting it. So a last row with
  an empty URL loses its final tab and, with it, the row
  (`Summary.EmptyLastUrlLost`).

## Model

| member | source | states |
|---|---|---|
| `Comments.StripBlockComments` | audit/dep_scan.py:48-49 | Removing block comments never lengthens the text, and text without a `/*` opener comes back unchanged. |
| `Comments.BlockCommentRemoved` | audit/dep_scan.py:48-49 | A block comment ends at the first `*/` after its opener (non-greedy). The text before it is kept, the comment and its delimiters vanish, and scanning resumes after the closer. |
| `Comments.PrefixKept` | audit/dep_scan.py:48-49 | Text holding no opener of its own is kept verbatim in front of whatever the rest strips to. |
| `Comments.StripLineComments` | audit/dep_scan.py:52-53 | Removing line comments never lengthens the text and keeps every newline, so the line count is preserved. |
| `Comments.LineCut` | audit/dep_scan.py:52-53 | A line is cut at its first comment start. A `//` that opens the line leaves nothing of it; a `//` after a whitespace character keeps everything up to and including that character. |
| `Comments.StripLinesCommentFree` | audit/dep_scan.py:52-53 | What the line pass leaves contains no `//` at a line start or after whitespace. |
| `Comments.StripLinesFixed` | audit/dep_scan.py:52-53 | Text without a line comment passes the line pass unchanged. |
| `Comments.LineStripIdempotent` | audit/dep_scan.py:52-53 | Stripping line comments twice gives the same text as stripping them once. |
| `Comments.StripComments` | audit/dep_scan.py:56-58 | Block comments go first, then line comments, and the output is never longer than the input. |
| `Comments.UrlSurvives` | audit/dep_scan.py:52-58 | `//` right after a non-space character, as in `"http://x"`, is not a comment and survives. |
| `Clause.DropTypePrefix` | audit/dep_scan.py:94 | Dropping a leading `type` keyword leaves a suffix of the token, and a token that does not end in whitespace still does not. |
| `Clause.ImportedName` | audit/dep_scan.py:90-104 | One piece of a braced import list contributes at most one name, and never the empty name. |
| `Clause.BracedBody` | audit/dep_scan.py:85-89 | A braced body is found only when the clause holds both `{` and `}`, and never when it holds no `{`. |
| `Clause.ParseImportClause` | audit/dep_scan.py:61-106 | A blank clause gives None. A clause starting with `*` gives exactly `{"*"}`. A non-star clause without `{` gives `{"default"}`. Any set returned is non-empty and holds no empty name. |
| `Clause.ParseBindings` | audit/dep_scan.py:79-106 | After the default split, a brace-less non-star rest adds `default`. Names found earlier are kept, a result is never empty, and None comes back only when nothing was found. |
| `Clause.ExportedName` | audit/dep_scan.py:159-172 | One piece of an `export { … } from` list publishes at most one name, and never the empty name. |
| `ClauseFacts.FirstAs` | audit/dep_scan.py:100-101 | In `A as B` with a whitespace-free `A`, the split happens at the ` as ` right after `A`. |
| `ClauseFacts.ImportDefaultAs` | audit/dep_scan.py:96-98 | `default as X` in an import list requests `X`. |
| `ClauseFacts.ImportRenamed` | audit/dep_scan.py:99-104 | `A as B` in an import list requests the exported name `A`, not the local alias `B`. |
| `ClauseFacts.ImportPlain` | audit/dep_scan.py:103-104 | A bare name in an import list requests itself. |
| `ClauseFacts.ImportTypeQualified` | audit/dep_scan.py:94 | `type X` in an import list still requests `X`; only the keyword is dropped. |
| `ClauseFacts.ExportRenamed` | audit/dep_scan.py:167-169 | `A as B` in an export list publishes `B`. |
| `ClauseFacts.ExportDefaultAs` | audit/dep_scan.py:165-166 | `default as X` in an export list publishes `X`. |
| `ClauseFacts.ExportPlain` | audit/dep_scan.py:170-171 | A bare name in an export list publishes itself. |
| `ClauseFacts.ClauseWithoutComma` | audit/dep_scan.py:73-106 | A stripped non-star clause without a comma skips the default split and goes straight to the binding rules. |
| `ClauseFacts.ClauseWithComma` | audit/dep_scan.py:73-77 | A clause with a comma and a `{` splits at its first comma. The part before it asks for `default` exactly when it is not blank, and the stripped rest is parsed on. |
| `ClauseFacts.DefaultPlusBraced` | audit/dep_scan.py:72-104 | `D, { t }` asks for `default` plus what the token `t` contributes. |
| `ClauseFacts.DefaultPlusNamed` | audit/dep_scan.py:72-104 | `D, { A as B }` asks for `default` and `A`. |
| `ClauseFacts.BraceFirstComma` | audit/dep_scan.py:73-82 | `{ x, y }` splits at its first comma, and its brace-less rest makes it ask for `{"default"}` only. |
| `ClauseFacts.BracedPlain` | audit/dep_scan.py:85-106 | `{ x }` with a bare name asks for exactly `{x}`. |
| `ClauseFacts.BracedType` | audit/dep_scan.py:94 | `{ type A }` asks for `{"A"}`. |
| `ClauseFacts.BracedBodyAt` | audit/dep_scan.py:85-89 | With the first `{` at `i` and the last `}` at `j`, a braced body exists exactly when `i < j`, and it is the text strictly between them (the greedy match). |
| `ClauseFacts.BindingsList` | audit/dep_scan.py:85-106 | A braced list of one or more comma- and brace-free pieces adds the name of every piece that has one to the names found earlier; None comes back only when the union is empty. |
| `ClauseFacts.DefaultPlusList` | audit/dep_scan.py:61-106 | `D, { p0, p1, … }` with a default token `D` asks for `default` plus the name of every piece that has one, whatever the number of pieces. |
| `ClauseFacts.DefaultPlusMixedList` | audit/dep_scan.py:61-106 | `D, { x, type y, a as b }` asks for exactly `{"default", x, y, a}`: the type keyword is dropped and the exported name, not the alias, is requested. |
| `ClauseFacts.TestSuiteClauses` | audit/test_dep_scan.py:31-36 | The clauses `Foo`, `{ Bar }`, `* as React`, `Foo, { Bar as Baz }` and `{ default as X }` give the sets the test suite expects. |
| `Declarations.RawDeclared` | audit/dep_scan.py:122-132 | An edge is among the raw edges exactly when some match of the file declares it. |
| `Declarations.ParseImports` | audit/dep_scan.py:117-138 | The deduplicated edges are free of repeats and are exactly the edges the file declares. They are listed in the order in which each first appears among the `import … from` edges followed by the side-effect edges. |
| `Declarations.AddName` | audit/dep_scan.py:172-173 | Recording a published name adds `src` under that name and changes no other entry. |
| `Declarations.AddParts` | audit/dep_scan.py:159-173 | One export list adds `src` under exactly the names its pieces publish. |
| `Declarations.AddMatch` | audit/dep_scan.py:154-173 | A type-only `export type { … } from` adds nothing. Any other adds its source under each name it publishes. |
| `Declarations.AddMatches` | audit/dep_scan.py:154-173 | After all matches, a name's sources are exactly the specifiers of the non-type statements publishing it. |
| `Declarations.ParseExportMap` | audit/dep_scan.py:147-179 | `by_name` is keyed by exactly the published names, never the empty one. Each maps to the non-empty set of specifiers of the statements publishing it. `stars` is exactly the `export *` specifiers. |
| `DeclarationFacts.ImportMatchEdge` | audit/dep_scan.py:122-127 | Every `import … from` match appears among the edges with its type flag and parsed clause. |
| `DeclarationFacts.SideEffectMatchEdge` | audit/dep_scan.py:129-132 | Every side-effect import appears as an untyped edge asking for no names. |
| `DeclarationFacts.ImportsIgnoreRepeats` | audit/dep_scan.py:134-138 | Declaring an import a second time adds no edge. |
| `DeclarationFacts.SameMatchesDeclared` | audit/dep_scan.py:134-138 | Edges depend only on the sets of matches, not on their order or repetition. |
| `DeclarationFacts.TypeOnlyExportIgnored` | audit/dep_scan.py:155-156 | An `export type { … } from`, wherever it sits, changes nothing in the export map. |
| `DeclarationFacts.UnpublishedAbsent` | audit/dep_scan.py:154-176 | A name that no non-type export list publishes is absent from `by_name`, even if an `export *` might provide it. |
| `DeclarationFacts.TypedImportEdges` | audit/test_dep_scan.py:38-66 | The test's three imports give exactly the edges `./a` (type-only, `{A}`), `./b` (`{default, Bar}`) and `./c` (side effect, no names). |
| `DeclarationFacts.BarrelExports` | audit/test_dep_scan.py:68-86 | The test's barrel maps `Foo` and `Baz` to `./m1`, leaves out the type-only `T`, and has `./star` as its one star. |
| `Paths.Segments` | audit/dep_scan.py:190 | The segments `pathlib` keeps from a `/`-separated string are the pieces of its split other than empty and `.` ones. Each one is free of `/`, and they stay in split order with every repeat kept, so `a/a` gives two segments. |
| `Paths.Normalize` | audit/dep_scan.py:192 | Resolving `..` leaves a path with no `..` that is no longer than before. |
| `Paths.NormalizeNormal` | audit/dep_scan.py:192 | A path without `..` is already resolved. |
| `Paths.NormalizeIdempotent` | audit/dep_scan.py:192 | Resolving twice is resolving once. |
| `Paths.NormalizeClimb` | audit/dep_scan.py:192 | A trailing `..` cancels the segment before it. |
| `Paths.NormalizeAppend` | audit/dep_scan.py:192 | Appending plain segments commutes with resolution. |
| `Resolver.Base` | audit/dep_scan.py:189-192 | The base path of a local specifier is always resolved (free of `..`). |
| `Resolver.FirstExisting` | audit/dep_scan.py:195-210 | The probe returns the first candidate that exists, with no existing candidate before it, and returns nothing only when no candidate exists. |
| `Resolver.ResolveImport` | audit/dep_scan.py:182-211 | A non-local specifier resolves to nothing. A result is always an existing file and the first existing candidate. Nothing comes back only when none of the nine candidates exists. |
| `Resolver.EmptyNotLocal` | audit/dep_scan.py:183-187 | The empty specifier is never local, so it resolves to nothing. |
| `Resolver.AliasBase` | audit/dep_scan.py:189-190 | `@/a/b` with plain segments names `root/src/a/b`. |
| `Resolver.ExactFirst` | audit/dep_scan.py:194-196 | An existing base file wins over every extension and index file. |
| `Resolver.ExtensionProbe` | audit/dep_scan.py:198-203 | With no base file, the first extension in the fixed order whose file exists wins. |
| `Resolver.IndexProbe` | audit/dep_scan.py:205-209 | With no base file and no extension hit, the first existing `index` file wins. |
| `Resolver.AliasWithExtension` | audit/test_dep_scan.py:101 | `@/lib/x` resolves to `src/lib/x.ts` in the test tree. |
| `Resolver.AliasToIndex` | audit/test_dep_scan.py:102-104 | `@/components/shared` resolves to the directory's `index.ts` in the test tree. |
| `Closure.FollowSpecs` | audit/dep_scan.py:239-252 | The followed specifiers all come from the export map. A `*` or `default` request follows every star. A request naming published names follows only named re-exports. |
| `Closure.Starts` | audit/dep_scan.py:223-225 | Only entry points that are existing files start the walk. |
| `Closure.StartQueue` | audit/dep_scan.py:223-225 | The initial queue holds every existing entry point and nothing else, each asking for nothing. |
| `Closure.BarrelItems` | audit/dep_scan.py:254-257 | Each followed specifier that resolves is queued once, asking for nothing, and nothing else is queued. |
| `Closure.EdgeItems` | audit/dep_scan.py:259-265 | Each runtime import that resolves is queued with the names it asks for. Type-only and unresolvable imports are never queued. |
| `Closure.ReaderWithin` | audit/dep_scan.py:182-211 | Resolution over the tree names existing files only. |
| `Closure.Expand` | audit/dep_scan.py:236-265 | Visiting a file queues exactly the items of the step relation, all of them existing files. |
| `Closure.Expansion` | audit/dep_scan.py:236-265 | The barrel items (only when the request is non-empty) followed by the edge items are exactly what one visit queues. |
| `Closure.ExpansionComplete` | audit/dep_scan.py:236-265 | Every item the step relation allows for a visit is among the items queued. |
| `Closure.Advance` | audit/dep_scan.py:228-265 | Popping a new file and queueing its pushes keeps every queued item justified and loses nothing a visited file queued. |
| `Closure.ClosureUnder` | audit/dep_scan.py:227-267 | The LIFO walk terminates on any graph, cycles included, and never visits a file twice. It returns at most `max_files + 1` existing files, each a start or queued by a file visited before it. It is closed under the step relation unless the cap stopped it. |
| `Closure.DependencyClosure` | audit/dep_scan.py:214-267 | The closure is a set of existing files of size at most `max_files + 1`. Each file is an existing entry point or reached through a runtime import or a followed re-export. When the cap was not hit, every entry point is in it, and it is closed under the request each file was first visited with: it holds every file that a visited file's runtime imports or, under that first request, followed re-exports lead to. A file first popped without a request never has its re-exports followed later, even when another importer asks for names from it, so the result can depend on the pop order. |
| `Walk.Drained` | audit/dep_scan.py:227 | Once the queue is empty, every start and everything a visited file queues has been visited. |
| `Walk.DerivedWithin` | audit/dep_scan.py:227-265 | Any set of (file, request) pairs that holds the starts and is closed under the step contains every visit of the walk. |
| `ClosureFacts.TypeOnlyIgnored` | audit/dep_scan.py:259-261 | Deleting every type-only import from every file changes no step of the walk. |
| `ClosureFacts.UnaskedSkipsBarrel` | audit/dep_scan.py:237 | A file visited with no request queues only the targets of its runtime imports; the barrel step is skipped. |
| `ClosureFacts.FollowedDeclared` | audit/dep_scan.py:239-252 | Every followed specifier is the source of a non-type re-export or of an `export *` of the barrel. |
| `ClosureFacts.FollowSelective` | audit/dep_scan.py:246-249 | A request without `*` or `default` that names published names follows only statements publishing one of them. |
| `ClosureFacts.FollowComplete` | audit/dep_scan.py:247-249 | A barrel follows every non-type statement publishing a requested name. |
| `ClosureFacts.FollowFallback` | audit/dep_scan.py:250-252 | A request naming no published name falls back to exactly the `export *` sources. |
| `ClosureFacts.FollowAll` | audit/dep_scan.py:241-245 | A namespace or default request follows every publishing re-export and every `export *`. |
| `ClosureFacts.NoEdges` | audit/dep_scan.py:117-138 | A file without import statements has no edges. |
| `ClosureFixture.TwoReexports` | audit/dep_scan.py:246-249 | A barrel re-exporting `n0` from `s0` and `n1` from `s1`, asked for `n0`, follows `s0` only. |
| `ClosureFixture.SiblingProbe` | audit/dep_scan.py:192-203 | `./name` resolves to the sibling `name` plus the first extension whose file exists. |
| `ClosureFixture.BarrelFollows` | audit/test_dep_scan.py:120-126 | The test barrel, asked for `PageContainer`, follows `./page-container` alone. |
| `ClosureFixture.FixtureOutcome` | audit/test_dep_scan.py:106-145 | Any walk of the test tree from the page that meets the closure's contract with cap 50 visits the page, the barrel, `page-container.tsx` and `side-effect.ts`, and never `other.ts`. |
| `ClosureFixture.BarrelFixture` | audit/test_dep_scan.py:136-145 | `dependency_closure` of the test tree with cap 50 holds the page, the barrel, `page-container.tsx` and `side-effect.ts`, and not `other.ts`. |
| `Sorting.SortedUnique` | audit/repo_inventory.py:76 | `sorted(set(xs))` is strictly increasing and holds exactly the members of `xs`. |
| `Sorting.SortedUniqueness` | audit/repo_inventory.py:76 | Two strictly increasing lists with the same members are equal, so a sorted unique listing is determined by its set. |
| `Sorting.SortSet` | audit/dep_scan.py:254 | `sorted(follow_specs)` lists exactly the set, strictly increasing. |
| `Routes.RouteFromPage` | audit/repo_inventory.py:38-46 | A page converts to a route exactly when it lies below the staff directory, and the route always starts with `/staff`. |
| `Routes.PageForRoute` | audit/repo_inventory.py:49-56 | A route names a page exactly when its stripped text starts with `/staff`. The page is a `page.tsx` below the staff directory whose directories are meaningful and free of `/`. |
| `Routes.StaffPrefixKept` | audit/repo_inventory.py:80-83 | A link that starts with `/staff` keeps that prefix through the strip, so it always names a page and never raises. |
| `Routes.IndexRoute` | audit/repo_inventory.py:40-41 | The staff directory's own `page.tsx` serves `/staff`. |
| `Routes.StaffIndexPage` | audit/repo_inventory.py:53-55 | `/staff`, padded or followed only by slashes, names the staff directory's `page.tsx`. |
| `Routes.RouteOfDirs` | audit/repo_inventory.py:43-46 | The page below directories `d1…dn` serves `/staff/d1/…/dn`. |
| `Routes.PageRoundTrip` | audit/repo_inventory.py:38-56 | Every page below meaningful, slash-free directories, the last one not ending in whitespace, gets its own path back from its route. |
| `Routes.RouteRoundTrip` | audit/repo_inventory.py:38-56 | The page a canonical route names serves that route again. |
| `Routes.PageIgnoresSpace` | audit/repo_inventory.py:50 | Whitespace around a route never changes the page it names. |
| `Routes.TrailingSpaceLost` | audit/repo_inventory.py:46-50 | A last directory ending in whitespace loses it on the way back, so the round trip needs the whitespace condition. |
| `Routes.PrefixIsTextual` | audit/generate_audit_report.py:83-88 | The prefix test is textual: `/staff<w>` names the page of `/staff/<w>`, whose route is different. |
| `Scanners.FindAll` | audit/generate_audit_report.py:59-66 | Every group `findall` lists is the group of a match at some position, and text with no match gives an empty list. |
| `Scanners.FindAllSkip` | audit/generate_audit_report.py:59-66 | Positions where no match starts contribute nothing to `findall`. |
| `Scanners.FindAllHit` | audit/generate_audit_report.py:59-66 | A match at the start is listed first, and scanning resumes where it ends (matches do not overlap). |
| `Scanners.FindAllComplete` | audit/generate_audit_report.py:59-66 | Whenever some position starts a match, `findall` lists something. |
| `Scanners.Search` | audit/generate_audit_report.py:153 | `search` returns the group of a match in the text, if it returns anything. |
| `Scanners.SearchIsFirst` | audit/generate_audit_report.py:153-155 | `search` finds exactly the first group `findall` lists. |
| `Scanners.RunAt` | audit/generate_audit_report.py:34 | `<prefix>([a-z0-9-]+)` matches greedily. Its group is a whole module name that the next character cannot extend, and it fails only when the prefix is missing or no module character follows it. |
| `Scanners.RunAtName` | audit/generate_audit_report.py:34 | The prefix, a module name, then a character that cannot extend the name, matches with exactly that name. |
| `Scanners.QuotedAt` | audit/generate_audit_report.py:35-36 | A match of `<key>\s*"([^"]+)"` has a non-empty, quote-free group that stands in quotes after the key and the whitespace. |
| `Scanners.QuotedAtValue` | audit/repo_inventory.py:29 | The key, whitespace, then a non-empty quoted value match with exactly that value and length. |
| `Scanners.ApiModules` | audit/repo_inventory.py:30 | Every module `findall` lists is a `[a-z0-9-]+` name that the text contains right after `/api/evergreen/`. |
| `Scanners.ApiModulesEmpty` | audit/repo_inventory.py:97-101 | A text lists no module exactly when `/api/evergreen/` is never followed by a module character in it. |
| `Scanners.ApiAtCall` | audit/repo_inventory.py:30 | The module pattern matches exactly where `/api/evergreen/` is followed by a module character. |
| `Scanners.ApiFound` | audit/repo_inventory.py:30 | A call `/api/evergreen/<v>` at the start of the text is listed first. |
| `Scanners.FirstApiModule` | audit/generate_audit_report.py:153-155 | The module a URL is audited for is the first one `findall` would list, and none when it lists none. |
| `Scanners.Hrefs` | audit/repo_inventory.py:29 | Every link target is non-empty, free of `"`, and stands in quotes in the text. |
| `Scanners.HrefFound` | audit/repo_inventory.py:29 | A link `href: "v"` at the start of the text is listed first, whatever whitespace sits before the quote. |
| `Scanners.HrefSkip` | audit/repo_inventory.py:29 | Text without an `h` holds no link, whatever follows it. |
| `Scanners.OsrfServices` | audit/generate_audit_report.py:35 | Every service name listed is non-empty, free of `"`, and stands in quotes in the text. |
| `Scanners.QuotedHits` | audit/generate_audit_report.py:35-36 | Every group a `<key>\s*"([^"]+)"` scanner lists is non-empty, quote-free and quoted in the text. |
| `Scanners.ApiUsage` | audit/generate_audit_report.py:59-61 | `extract_api_usage` is strictly increasing, has no repeats, and holds exactly the modules the text calls. |
| `Scanners.OsrfUsage` | audit/generate_audit_report.py:64-66 | `extract_open_srf_services` is strictly increasing, has no repeats, and holds exactly the services the text calls. |
| `Inventory.StaffRoutes` | audit/repo_inventory.py:67-68 | Each page, in order, is paired with the route it serves, and every route starts with `/staff`. |
| `Inventory.SidebarHrefs` | audit/repo_inventory.py:72-76 | The sidebar links are strictly increasing and free of repeats. They are exactly the `href:` targets of the sidebar text that start with `/staff`, and there are none when the sidebar is missing. |
| `Inventory.SidebarLinksRoutable` | audit/generate_audit_report.py:91-96 | Every sidebar route stands quoted in the sidebar text and names a page without raising. |
| `Inventory.MissingNavPages` | audit/repo_inventory.py:79-83 | A gap is listed exactly when it pairs a sidebar link with its page and that page does not exist. |
| `Inventory.MissingInLinkOrder` | audit/repo_inventory.py:79-83 | The links of the gaps are, in link order and once per link, exactly the sidebar links whose page does not exist. |
| `Inventory.UnlinkedRoutes` | audit/repo_inventory.py:87 | The unlinked routes keep page order and are exactly the staff routes absent from the sidebar links. |
| `Inventory.PageUsage` | audit/repo_inventory.py:95-98 | Each page, in order, gets the strictly increasing list of exactly the modules its text calls. |
| `Inventory.AllUsed` | audit/repo_inventory.py:99-100 | The used modules are exactly those some page's list holds. |
| `Inventory.Unconnected` | audit/repo_inventory.py:101-102 | A page is unconnected exactly when its module list is empty. |
| `Inventory.UnconnectedInPageOrder` | audit/repo_inventory.py:95-102 | The unconnected list has one (route, page) entry per page whose module list is empty, in page order. |
| `Inventory.UnusedModules` | audit/repo_inventory.py:106 | The unused modules keep the order of the module list, are exactly the modules not used, and stay sorted when the module list is sorted. |
| `Inventory.Survey` | audit/repo_inventory.py:66-106 | There is one route and one usage entry per page. The module list is sorted and holds exactly the adapter directories, and the unused list is sorted. |
| `Inventory.UnusedMeansUncalled` | audit/repo_inventory.py:95-106 | A module is reported unused exactly when it is an adapter directory and no staff page's text calls it. |
| `Inventory.UnconnectedMeansNoCall` | audit/repo_inventory.py:95-102 | A page is reported unconnected exactly when its text never has `/api/evergreen/` followed by a module character. |
| `Inventory.LinkedOrUnlinked` | audit/repo_inventory.py:72-87 | Each staff route is either linked from the sidebar or listed as unlinked, never both. |
| `Inventory.LinkedPageNotMissing` | audit/repo_inventory.py:79-83 | A link to the route of an existing page below routable directories is never reported missing. |
| `Summary.FindBreak` | audit/generate_audit_report.py:48 | The break found is the leftmost line-break character, and none is found only in break-free text. |
| `Summary.SplitLines` | audit/generate_audit_report.py:48 | `splitlines` gives no lines exactly for empty text, and no line holds a line break. |
| `Summary.SplitLinesJoin` | audit/generate_audit_report.py:48 | Break-free lines joined by `\n` split back into themselves when the last is non-empty. |
| `Summary.CrLfOneBreak` | audit/generate_audit_report.py:48 | `\r\n` ends one line, not two. |
| `Summary.RowOf` | audit/generate_audit_report.py:53-55 | A line yields a row exactly when it has at least three tab-separated fields; the row's fields are tab-free. |
| `Summary.Rows` | audit/generate_audit_report.py:52-55 | The rows are exactly those of lines holding one, and there are never more rows than lines. |
| `Summary.RowsInLineOrder` | audit/generate_audit_report.py:52-55 | There is one row per line holding one, and row i comes from the i-th such line: no line is skipped, repeated or reordered. |
| `Summary.LoadSummary` | audit/generate_audit_report.py:43-56 | A missing or blank file gives no rows. Otherwise the rows are exactly those of the lines after the first (the header) of the stripped file. |
| `Summary.RowOfLine` | audit/generate_audit_report.py:53-55 | A row written as `name\tstatus\turl` reads back as that row. |
| `Summary.RowsOfLines` | audit/generate_audit_report.py:52-55 | Written rows read back as the same rows, in order. |
| `Summary.SummaryRoundTrip` | audit/generate_audit_report.py:43-56 | A summary written as a header plus one line per row reads back as exactly those rows. This needs a header that starts with a non-space character and a final character that is not whitespace. |
| `Summary.EmptyLastUrlLost` | audit/generate_audit_report.py:48-54 | A last row with an empty URL is dropped: the strip removes its final tab, leaving two fields. |
| `Report.OkHttp` | audit/generate_audit_report.py:145 | `ok_http` keeps summary order and holds exactly the rows with status `"200"`. |
| `Report.NonOkHttp` | audit/generate_audit_report.py:146 | `non_ok_http` keeps summary order and holds exactly the other rows. |
| `Report.HttpPartition` | audit/generate_audit_report.py:145-146 | The two lists partition the summary: their lengths add up to its length and each row is in exactly one. |
| `Report.Audited` | audit/generate_audit_report.py:152-155 | A module is audited exactly when it is the first module some summary URL names. |
| `Report.MissingFromAudit` | audit/generate_audit_report.py:182-183 | `missing_from_api_audit` is strictly increasing and holds exactly the adapter modules no summary URL exercises. |
| `Report.Get` | audit/generate_audit_report.py:168-169 | `data.get(key)` is the value of the first field named `key`, and `null` when no field has that name. |
| `Report.MessageTest` | audit/generate_audit_report.py:173-174 | A message is flagged exactly when its lowered text holds `no` and also `configured` or `found`. The `not configured` test adds nothing. |
| `Report.LowerKeeps` | audit/generate_audit_report.py:173 | Text the message holds in any case, the lowered message holds lowered, so the test ignores case. |
| `Report.EmptyLists` | audit/generate_audit_report.py:177-179 | An entry `"<key> is empty"` is present exactly when some key's value is an empty list, and there are never more entries than fields. |
| `Report.EmptyListsInOrder` | audit/generate_audit_report.py:177-179 | There is one entry per field holding an empty list, in field order, each naming that field's key. |
| `Report.Inspect` | audit/generate_audit_report.py:167-179 | A response adds an `ok: false` entry, carrying its `error`, exactly when it is an object whose `ok` is `false`. Every entry carries the endpoint's name, and a non-object adds nothing. |
| `Report.InspectEmpty` | audit/generate_audit_report.py:171-179 | An object's empty-data entries are exactly its flagged string message and one `"<key> is empty"` per empty list. |
| `Report.InspectAll` | audit/generate_audit_report.py:152-179 | The summary loop adds at most one `ok: false` entry per row. |
| `Report.InspectAllMembers` | audit/generate_audit_report.py:152-179 | The `ok: false` and empty-data lists hold exactly the signals of the summary rows whose response exists and parses. |
| `Report.OkFalseInOrder` | audit/generate_audit_report.py:152-169 | `ok_false` has one entry per row whose response is an object with `ok` equal to `false`, in summary order, each carrying that row's name. Its length is therefore the count the report prints (audit/generate_audit_report.py:205). |
| `Report.InspectAllConcat` | audit/generate_audit_report.py:152-179 | Both lists of a run of rows are the first part's lists followed by the rest's, so every row's signals follow those of all earlier rows. |
| `Report.Services` | audit/generate_audit_report.py:193-196 | The services list is strictly increasing and holds exactly the services some adapter route file calls. |
| `Report.ServiceQuoted` | audit/generate_audit_report.py:193-196 | Every listed service stands quoted in some adapter route file. |
| `Report.FeatureUnused` | audit/generate_audit_report.py:99-111 | The feature matrix's unused list is sorted and holds exactly the adapter directories no staff page calls. |
| `Report.FeatureMatrixAgrees` | audit/generate_audit_report.py:103-111 | Given the same module directories, the feature matrix and the inventory report the same unused modules, in the same order. |

## Left out

- File I/O is not modelled. `read_text`, `exists`, `is_file`, `rglob`, `iterdir` and `glob` become inputs: a set of existing paths, a map from path to text, the list of pages in the order `rglob` yields them, and the list of adapter directory names.
- An unreadable file reads as empty text in `dep_scan` and in `repo_inventory`. The report script's `read_text` would raise instead. There the text is an input, so the raising path is not modelled.
- Python's regex engine is not modelled for the four `dep_scan` patterns. The lazy `[\s\S]*?` spans lines and `finditer` does not overlap, so these matches are inputs (`FileScan`) and only what follows them is modelled.
- `TODO_RE` and the list of pages with TODO markers (audit/repo_inventory.py:103-104) are left out; no other list depends on them.
- `Path.resolve()` symlink semantics are left out. Only `..` is collapsed, segment by segment.
- Resolver.Base: the `@/` base is `..`-normalised like the relative one. Python builds `root / "src" / spec[2:]` without `resolve()` and returns that path with any `..` still in it (audit/dep_scan.py:188, 193-209). Two differences follow for an alias that contains `..`:
  - Python can enter the same file into `visited` under two spellings, expand it twice and count it twice toward the cap (audit/dep_scan.py:229-232). The model holds it once.
  - On POSIX, `exists()` of `src/missing/../x` is false when `missing` is not a directory, but the model finds `src/x`.
  - Entry points are treated the same way. `Closure.Starts` tests the `..`-normalised path for existence, while Python tests `ep.exists()` on the path as given and only then resolves it (audit/dep_scan.py:223-225).
- `STAFF_DIR / suffix` in `page_for_route` is not `..`-normalised, which matches the source. The page path is only compared with the set of existing paths.
- `lru_cache` memoisation is left out; it changes no result.
- `utc_stamp`, the Markdown text of the three reports and the file writes are left out.
- `audit/perf_harness.py` (subprocess, wall-clock timing, floating-point percentiles) and `audit/contract_tests.py` (environment variables, dynamic JSON shape checks) are not part of this model.
- `json.loads` is not modelled: the parsed value is an input (`Json`). A response file that is missing or does not parse is a name absent from the map of responses.
- Report.Json: numbers are integers only, and an object is its list of fields in document order. Python's `dict` keeps one entry per repeated key, at its first position and with its last value. For such an object, `Report.Get` returns the first value and `Report.EmptyLists` visits every field.
- Text.Lower: lower-cases ASCII letters only, where Python's `str.lower` covers all of Unicode.
- Scanners.ModuleChar: `[a-z0-9-]` is taken literally, as ASCII.
- Sorting.Less: compares strings by Unicode code point, as Python does. A Dafny `char` is a Unicode scalar value, so the only Python strings the model cannot hold are those with lone surrogates.
- Routes.PageRoundTrip: requires the last directory not to end in whitespace, because `page_for_route` strips the route (`Routes.TrailingSpaceLost` shows what happens otherwise).
- Summary.SummaryRoundTrip: requires the file's first and last characters not to be whitespace, because `load_summary` strips the whole file first (`Summary.EmptyLastUrlLost` shows one consequence).
- Inventory.Survey: the module list is `sorted` of a directory listing, which has no repeats. The model takes the list of names as given and computes `sorted(set(…))`, which is the same list.
- Report.FeatureUnused: `api_routes` is `sorted` of the directories holding a `route.ts`, which have distinct names. The model computes `sorted(set(…))` of the names it is given, which is the same list; `Report.MissingFromAudit` does the same.
- ClosureFixture.FixtureOutcome: fixes what the walk reads (each file's edges and export map) rather than the file texts, since the regex matches are inputs.
