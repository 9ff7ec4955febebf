/**
 Module resolution for relative (`./`, `../`) and alias (`@/` = `<root>/src/`)
 specifiers: build the base path, then probe the file itself, the file with each
 extension, and the `index` file of the directory, taking the first that exists.
 */
module Resolver {
  import opened Wrappers
  import opened Seqs
  import opened Text
  import opened Paths

  /** The extensions probed, in probe order. */
  const Exts: seq<string> := [".ts", ".tsx", ".js", ".jsx"]

  /** Only local specifiers are followed; packages and node builtins are not. */
  predicate IsLocal(spec: string) {
    "./" <= spec || "../" <= spec || "@/" <= spec
  }

  /** The path a local specifier names before any extension is tried. */
  function Base(root: Path, current: Path, spec: string): (r: Path)
    requires IsLocal(spec)
    ensures Normal(r)
  {
    if "@/" <= spec then Normalize(JoinRel(root + ["src"], spec[2..]))
    else Normalize(JoinRel(Parent(current), spec))
  }

  /** Every path tried for `base`, in the order they are tried. */
  function Candidates(base: Path): (r: seq<Path>)
    ensures |r| == 9 && r[0] == base
    ensures forall k :: 0 <= k < 4 ==> r[k + 1] == AppendExt(base, Exts[k]) && r[k + 5] == base + ["index" + Exts[k]]
  {
    [base]
    + [AppendExt(base, Exts[0]), AppendExt(base, Exts[1]), AppendExt(base, Exts[2]), AppendExt(base, Exts[3])]
    + [base + ["index" + Exts[0]], base + ["index" + Exts[1]], base + ["index" + Exts[2]], base + ["index" + Exts[3]]]
  }

  /** The position of the first candidate that is an existing file. */
  function FirstExisting(files: set<Path>, cs: seq<Path>): (r: Option<nat>)
    ensures r.Some? ==> r.value < |cs| && cs[r.value] in files
    ensures r.Some? ==> forall j :: 0 <= j < r.value ==> cs[j] !in files
    ensures r.None? ==> forall j :: 0 <= j < |cs| ==> cs[j] !in files
    decreases |cs|
  {
    if |cs| == 0 then None
    else if cs[0] in files then Some(0)
    else
      match FirstExisting(files, cs[1..])
      case None => None
      case Some(k) => Some(k + 1)
  }

  /** `p` is a candidate that exists and no earlier candidate does. */
  predicate FirstHit(files: set<Path>, cs: seq<Path>, p: Path) {
    exists k :: 0 <= k < |cs| && cs[k] == p && p in files && forall j :: 0 <= j < k ==> cs[j] !in files
  }

  /**
   `resolve_import(root, current, spec)`, with `files` the set of existing
   regular files.
   */
  function ResolveImport(files: set<Path>, root: Path, current: Path, spec: string): (r: Option<Path>)
    ensures !IsLocal(spec) ==> r.None?
    ensures r.Some? ==> r.value in files
    ensures r.Some? ==> FirstHit(files, Candidates(Base(root, current, spec)), r.value)
    ensures IsLocal(spec) && r.None? ==> forall k :: 0 <= k < 9 ==> Candidates(Base(root, current, spec))[k] !in files
  {
    if spec == "" || !IsLocal(spec) then None
    else
      var cs := Candidates(Base(root, current, spec));
      match FirstExisting(files, cs)
      case None => None
      case Some(k) => Some(cs[k])
  }

  // ---------------------------------------------------------------------------
  // Facts

  /** The empty specifier is never local. */
  lemma EmptyNotLocal()
    ensures !IsLocal("")
  {
  }

  /** `@/a/b` names `<root>/src/a/b` when the pieces are plain names. */
  lemma AliasBase(root: Path, current: Path, parts: seq<string>, spec: string)
    requires Normal(root) && PlainParts(parts)
    requires spec == "@/" + Join(parts, '/')
    ensures IsLocal(spec)
    ensures Base(root, current, spec) == root + ["src"] + parts
  {
    assert "@/" <= spec && spec[2..] == Join(parts, '/');
    AliasSegments(parts);
    AliasNormal(root, parts);
  }

  /** Plain names joined with `/` split back into themselves, and the joined text is relative. */
  lemma AliasSegments(parts: seq<string>)
    requires PlainParts(parts)
    ensures var rest := Join(parts, '/'); |rest| > 0 && rest[0] != '/' && Segments(rest) == parts
  {
    JoinHead(parts, '/');
    SplitJoin(parts, '/');
    FilterKeepsAll(parts, Meaningful);
  }

  /** Appending `src` and plain names to a resolved root leaves nothing to resolve. */
  lemma AliasNormal(root: Path, parts: seq<string>)
    requires Normal(root) && PlainParts(parts)
    ensures Normalize(root + ["src"] + parts) == root + ["src"] + parts
  {
    var full := root + ["src"] + parts;
    assert forall k :: |root| + 1 <= k < |full| ==> full[k] == parts[k - |root| - 1];
    NormalizeNormal(full);
  }

  /** An existing base file wins over every extension and index file. */
  lemma ExactFirst(files: set<Path>, root: Path, current: Path, spec: string)
    requires IsLocal(spec)
    requires Base(root, current, spec) in files
    ensures ResolveImport(files, root, current, spec) == Some(Base(root, current, spec))
  {
  }

  /** With no base file, the first extension that exists wins. */
  lemma ExtensionProbe(files: set<Path>, root: Path, current: Path, spec: string, k: nat)
    requires IsLocal(spec) && k < 4
    requires Base(root, current, spec) !in files
    requires forall j :: 0 <= j < k ==> AppendExt(Base(root, current, spec), Exts[j]) !in files
    requires AppendExt(Base(root, current, spec), Exts[k]) in files
    ensures ResolveImport(files, root, current, spec) == Some(AppendExt(Base(root, current, spec), Exts[k]))
  {
    var base := Base(root, current, spec);
    var cs := Candidates(base);
    assert cs[k + 1] in files;
    assert forall j :: 0 <= j < k + 1 ==> cs[j] !in files by {
      forall j | 0 <= j < k + 1 ensures cs[j] !in files {
        if j > 0 {
          assert cs[(j - 1) + 1] == AppendExt(base, Exts[j - 1]);
        }
      }
    }
    FirstExistingAt(files, cs, k + 1);
  }

  /** With no base file and no extension hit, the first `index` file that exists wins. */
  lemma IndexProbe(files: set<Path>, root: Path, current: Path, spec: string, k: nat)
    requires IsLocal(spec) && k < 4
    requires Base(root, current, spec) !in files
    requires forall j :: 0 <= j < 4 ==> AppendExt(Base(root, current, spec), Exts[j]) !in files
    requires forall j :: 0 <= j < k ==> Base(root, current, spec) + ["index" + Exts[j]] !in files
    requires Base(root, current, spec) + ["index" + Exts[k]] in files
    ensures ResolveImport(files, root, current, spec) == Some(Base(root, current, spec) + ["index" + Exts[k]])
  {
    var base := Base(root, current, spec);
    var cs := Candidates(base);
    assert cs[k + 5] in files;
    assert forall j :: 0 <= j < k + 5 ==> cs[j] !in files by {
      forall j | 0 <= j < k + 5 ensures cs[j] !in files {
        if 0 < j < 5 {
          assert cs[(j - 1) + 1] == AppendExt(base, Exts[j - 1]);
        } else if j >= 5 {
          assert cs[(j - 5) + 5] == base + ["index" + Exts[j - 5]];
        }
      }
    }
    FirstExistingAt(files, cs, k + 5);
  }

  lemma {:induction false} FirstExistingAt(files: set<Path>, cs: seq<Path>, k: nat)
    requires k < |cs| && cs[k] in files
    requires forall j :: 0 <= j < k ==> cs[j] !in files
    ensures FirstExisting(files, cs) == Some(k)
    decreases k
  {
    if k > 0 {
      FirstExistingAt(files, cs[1..], k - 1);
    }
  }

  // ---------------------------------------------------------------------------
  // The alias and index fixture of the test suite, rooted at `/tmp`

  const FixtureRoot: Path := ["tmp"]

  function FixtureFiles(): set<Path> {
    {["tmp", "src", "lib", "x.ts"], ["tmp", "src", "components", "shared", "index.ts"], ["tmp", "src", "app", "page.tsx"]}
  }

  /** The conditions under which an alias names plain directories below `src`. */
  predicate PlainParts(parts: seq<string>) {
    |parts| >= 1 && |parts[0]| > 0 &&
    forall k :: 0 <= k < |parts| ==> Meaningful(parts[k]) && parts[k] != ".." && '/' !in parts[k]
  }

  lemma LibXParts()
    ensures PlainParts(["lib", "x"]) && Join(["lib", "x"], '/') == "lib/x"
  {
  }

  /** An alias of plain names lands under the fixture root's `src`. */
  lemma AliasUnderFixture(current: Path, parts: seq<string>, spec: string)
    requires PlainParts(parts) && spec == "@/" + Join(parts, '/')
    ensures IsLocal(spec)
    ensures Base(FixtureRoot, current, spec) == FixtureRoot + ["src"] + parts
  {
    assert Normal(FixtureRoot) by {
      assert FixtureRoot[0] == "tmp";
    }
    AliasBase(FixtureRoot, current, parts, spec);
  }

  lemma LibXBase()
    ensures IsLocal("@/lib/x")
    ensures Base(FixtureRoot, ["tmp", "src", "app", "page.tsx"], "@/lib/x") == ["tmp", "src", "lib", "x"]
  {
    LibXParts();
    assert "@/lib/x" == "@/" + "lib/x";
    AliasUnderFixture(["tmp", "src", "app", "page.tsx"], ["lib", "x"], "@/lib/x");
    assert FixtureRoot + ["src"] + ["lib", "x"] == ["tmp", "src", "lib", "x"];
  }

  lemma LibXNotFile()
    ensures ["tmp", "src", "lib", "x"] !in FixtureFiles()
  {
    var p: Path := ["tmp", "src", "lib", "x"];
    assert |p[3]| == 1;
  }

  lemma SharedNotFile()
    ensures ["tmp", "src", "components", "shared"] !in FixtureFiles()
  {
    var p: Path := ["tmp", "src", "components", "shared"];
    assert |p| == 4 && |p[3]| == 6 && p[2] != "lib";
  }

  lemma LibXExt()
    ensures AppendExt(["tmp", "src", "lib", "x"], Exts[0]) == ["tmp", "src", "lib", "x.ts"]
  {
    ExtOnLast(["tmp", "src", "lib"], "x", ".ts");
    assert ["tmp", "src", "lib"] + ["x"] == ["tmp", "src", "lib", "x"];
    assert "x" + ".ts" == "x.ts";
  }

  lemma ExtOnLast(p: Path, last: string, ext: string)
    ensures AppendExt(p + [last], ext) == p + [last + ext]
  {
    assert Parent(p + [last]) == p;
  }

  /** `@/lib/x` resolves to `src/lib/x.ts` under the root. */
  lemma AliasWithExtension()
    ensures ResolveImport(FixtureFiles(), FixtureRoot, ["tmp", "src", "app", "page.tsx"], "@/lib/x") == Some(["tmp", "src", "lib", "x.ts"])
  {
    LibXBase();
    LibXNotFile();
    LibXExt();
    ExtensionProbe(FixtureFiles(), FixtureRoot, ["tmp", "src", "app", "page.tsx"], "@/lib/x", 0);
  }

  lemma SharedParts()
    ensures PlainParts(["components", "shared"])
  {
  }

  lemma SharedJoin()
    ensures "@/components/shared" == "@/" + Join(["components", "shared"], '/')
    ensures Normal(FixtureRoot)
    ensures FixtureRoot + ["src"] + ["components", "shared"] == ["tmp", "src", "components", "shared"]
  {
    assert Join(["components", "shared"], '/') == "components/shared";
  }

  lemma SharedBase()
    ensures IsLocal("@/components/shared")
    ensures Base(FixtureRoot, ["tmp", "src", "app", "page.tsx"], "@/components/shared") == ["tmp", "src", "components", "shared"]
  {
    SharedParts();
    SharedJoin();
    AliasBase(FixtureRoot, ["tmp", "src", "app", "page.tsx"], ["components", "shared"], "@/components/shared");
  }

  lemma SharedMisses(j: nat)
    requires j < 4
    ensures AppendExt(["tmp", "src", "components", "shared"], Exts[j]) !in FixtureFiles()
  {
    ExtOnLast(["tmp", "src", "components"], "shared", Exts[j]);
    assert ["tmp", "src", "components"] + ["shared"] == ["tmp", "src", "components", "shared"];
    var last := "shared" + Exts[j];
    assert last[0] == 's';
  }

  lemma SharedIndex()
    ensures ["tmp", "src", "components", "shared"] + ["index" + Exts[0]] == ["tmp", "src", "components", "shared", "index.ts"]
  {
    assert "index" + ".ts" == "index.ts";
  }

  /** `@/components/shared` resolves to the directory's `index.ts`. */
  lemma AliasToIndex()
    ensures ResolveImport(FixtureFiles(), FixtureRoot, ["tmp", "src", "app", "page.tsx"], "@/components/shared")
      == Some(["tmp", "src", "components", "shared", "index.ts"])
  {
    SharedBase();
    var base: Path := ["tmp", "src", "components", "shared"];
    SharedNotFile();
    forall j | 0 <= j < 4 ensures AppendExt(base, Exts[j]) !in FixtureFiles() {
      SharedMisses(j);
    }
    SharedIndex();
    IndexProbe(FixtureFiles(), FixtureRoot, ["tmp", "src", "app", "page.tsx"], "@/components/shared", 0);
  }
}
