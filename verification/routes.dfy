/**
 Staff routes and the page files that serve them, as both report scripts
 convert them: the page `<staff>/a/b/page.tsx` serves the route `/staff/a/b`,
 and `<staff>/page.tsx` serves `/staff` itself.
 */
module Routes {
  import opened Wrappers
  import opened Seqs
  import opened Text
  import opened Paths

  const Staff: string := "/staff"
  const PageFile: string := "page.tsx"

  /** A page path's segments below the staff directory, without a trailing `page.tsx`. */
  function DirParts(rel: seq<string>): seq<string>
  {
    if |rel| > 0 && rel[|rel| - 1] == PageFile then rel[..|rel| - 1] else rel
  }

  /** The route of a page given by its segments below the staff directory. */
  function RouteOfRel(rel: seq<string>): (r: string)
    ensures Staff <= r
  {
    if rel == [PageFile] then Staff
    else
      var r := Staff + "/" + Join(DirParts(rel), '/');
      Concat3(Staff, "/", Join(DirParts(rel), '/'));
      r
  }

  /**
   `route_from_page`: the route a page file serves. A page outside the staff
   directory makes `relative_to` raise.
   */
  function RouteFromPage(staffDir: Path, page: Path): (r: Result<string>)
    ensures r.Ok? <==> staffDir <= page
    ensures r.Ok? ==> Staff <= r.value
  {
    if staffDir <= page then Ok(RouteOfRel(page[|staffDir|..]))
    else Err("not under the staff directory")
  }

  /** What is left of a staff route once `/staff` and the slashes after it are gone. */
  function Suffix(route: string): (r: string)
    requires Staff <= route
    ensures |r| > 0 ==> r[0] != '/'
    ensures |r| <= |route| - |Staff|
  {
    LStrip(route[|Staff|..], '/')
  }

  /** `staff / suffix / "page.tsx"` for a suffix that does not start with `/`. */
  function PageUnder(staffDir: Path, suffix: string): (r: Path)
    requires |suffix| > 0 ==> suffix[0] != '/'
    ensures |r| > |staffDir| && r[..|staffDir|] == staffDir && r[|r| - 1] == PageFile
    ensures forall k :: |staffDir| <= k < |r| - 1 ==> Meaningful(r[k]) && '/' !in r[k]
  {
    if suffix == "" then staffDir + [PageFile]
    else
      var segs := Segments(suffix);
      assert JoinRel(staffDir, suffix) == staffDir + segs;
      var r := staffDir + segs + [PageFile];
      assert forall k :: |staffDir| <= k < |r| - 1 ==> r[k] == segs[k - |staffDir|];
      r
  }

  /**
   `page_for_route`: the page file that should serve a route. The route is
   stripped first; one not starting with `/staff` is refused.
   */
  function PageForRoute(staffDir: Path, route: string): (r: Result<Path>)
    ensures r.Ok? <==> Staff <= Strip(route)
    ensures r.Ok? ==> |r.value| > |staffDir| && r.value[..|staffDir|] == staffDir && r.value[|r.value| - 1] == PageFile
    ensures r.Ok? ==> forall k :: |staffDir| <= k < |r.value| - 1 ==> Meaningful(r.value[k]) && '/' !in r.value[k]
  {
    var s := Strip(route);
    if !(Staff <= s) then Err("not a staff route")
    else Ok(PageUnder(staffDir, Suffix(s)))
  }

  /** A route that already starts with `/staff` keeps that prefix through the strip, so it always names a page. */
  lemma StaffPrefixKept(staffDir: Path, route: string)
    requires Staff <= route
    ensures Staff <= Strip(route)
    ensures PageForRoute(staffDir, route).Ok?
  {
    var b := StripBounds(route);
    assert route[0] == '/' && route[|Staff| - 1] == 'f';
    assert b.0 == 0;
    assert b.1 >= |Staff|;
    assert Strip(route)[..|Staff|] == route[..|Staff|];
  }

  /** The index page of the staff directory serves `/staff`. */
  lemma IndexRoute(staffDir: Path)
    ensures RouteFromPage(staffDir, staffDir + [PageFile]) == Ok(Staff)
  {
    Concat3(staffDir, [PageFile], []);
    assert staffDir + [PageFile] + [] == staffDir + [PageFile];
  }

  /** `/staff`, padded or followed by slashes only, names the index page of the staff directory. */
  lemma StaffIndexPage(staffDir: Path, route: string)
    requires Staff <= Strip(route)
    requires forall i :: |Staff| <= i < |Strip(route)| ==> Strip(route)[i] == '/'
    ensures PageForRoute(staffDir, route) == Ok(staffDir + [PageFile])
  {
  }

  // ---------------------------------------------------------------------------
  // Round trips

  /** Directory names a page can sit under and still get its own route back: nothing empty, `.`, `/`-bearing, or whitespace-ended last. */
  predicate RoutableDirs(dirs: seq<string>) {
    (forall k :: 0 <= k < |dirs| ==> Meaningful(dirs[k]) && '/' !in dirs[k]) &&
    (|dirs| > 0 ==> !IsSpace(dirs[|dirs| - 1][|dirs[|dirs| - 1]| - 1]))
  }

  /** The route of the page under `dirs`. */
  lemma RouteOfDirs(staffDir: Path, dirs: seq<string>)
    requires |dirs| > 0
    ensures RouteFromPage(staffDir, staffDir + dirs + [PageFile]) == Ok(Staff + "/" + Join(dirs, '/'))
  {
    Concat3(staffDir, dirs, [PageFile]);
    DirPartsOf(dirs);
  }

  lemma DirPartsOf(dirs: seq<string>)
    requires |dirs| > 0
    ensures dirs + [PageFile] != [PageFile]
    ensures DirParts(dirs + [PageFile]) == dirs
  {
    assert (dirs + [PageFile])[..|dirs|] == dirs;
  }

  /** `/staff/` followed by joined routable directories is its own strip, and its suffix is the join. */
  lemma RouteText(dirs: seq<string>)
    requires |dirs| > 0 && RoutableDirs(dirs)
    ensures Strip(Staff + "/" + Join(dirs, '/')) == Staff + "/" + Join(dirs, '/')
    ensures Staff <= Staff + "/" + Join(dirs, '/')
    ensures Suffix(Staff + "/" + Join(dirs, '/')) == Join(dirs, '/')
  {
    JoinEnds(dirs);
    StaffRoute(Join(dirs, '/'));
  }

  lemma JoinEnds(dirs: seq<string>)
    requires |dirs| > 0 && RoutableDirs(dirs)
    ensures var j := Join(dirs, '/'); |j| > 0 && j[0] != '/' && !IsSpace(j[|j| - 1])
  {
    assert dirs[0][0] in dirs[0];
    JoinHead(dirs, '/');
    JoinLast(dirs, '/');
  }

  /** A route `/staff/<rest>` with `rest` free of edge whitespace and leading `/` strips to itself and leaves `rest`. */
  lemma StaffRoute(rest: string)
    requires |rest| > 0 && rest[0] != '/' && !IsSpace(rest[|rest| - 1])
    ensures Strip(Staff + "/" + rest) == Staff + "/" + rest
    ensures Staff <= Staff + "/" + rest
    ensures Suffix(Staff + "/" + rest) == rest
  {
    Concat3(Staff, "/", rest);
    assert Staff[0] == '/';
    ConsTail('/', rest);
    assert LStrip("/" + rest, '/') == LStrip(rest, '/');
  }

  /** Joined routable directories come back as themselves when a path is built from them. */
  lemma DirsSegments(staffDir: Path, dirs: seq<string>)
    requires |dirs| > 0 && RoutableDirs(dirs)
    ensures JoinRel(staffDir, Join(dirs, '/')) == staffDir + dirs
  {
    JoinHead(dirs, '/');
    SplitJoin(dirs, '/');
    FilterKeepsAll(dirs, Meaningful);
  }

  /** A page's route leads back to the page itself. */
  lemma PageRoundTrip(staffDir: Path, dirs: seq<string>)
    requires RoutableDirs(dirs)
    ensures RouteFromPage(staffDir, staffDir + dirs + [PageFile]).Ok?
    ensures PageForRoute(staffDir, RouteFromPage(staffDir, staffDir + dirs + [PageFile]).value) == Ok(staffDir + dirs + [PageFile])
  {
    if |dirs| == 0 {
      assert staffDir + dirs + [PageFile] == staffDir + [PageFile];
      StaffStripped();
    } else {
      RouteOfDirs(staffDir, dirs);
      RouteText(dirs);
      DirsSegments(staffDir, dirs);
    }
  }

  lemma StaffStripped()
    ensures Strip(Staff) == Staff
  {
    assert Staff[0] == '/' && Staff[|Staff| - 1] == 'f';
  }

  /** The page of a canonical route serves that route again. */
  lemma RouteRoundTrip(staffDir: Path, dirs: seq<string>)
    requires RoutableDirs(dirs)
    ensures var route := if |dirs| == 0 then Staff else Staff + "/" + Join(dirs, '/');
      PageForRoute(staffDir, route).Ok? &&
      RouteFromPage(staffDir, PageForRoute(staffDir, route).value) == Ok(route)
  {
    PageRoundTrip(staffDir, dirs);
    if |dirs| > 0 {
      RouteOfDirs(staffDir, dirs);
    } else {
      assert staffDir + dirs + [PageFile] == staffDir + [PageFile];
    }
  }

  /** Surrounding whitespace never changes the page a route names. */
  lemma PageIgnoresSpace(staffDir: Path, route: string)
    ensures PageForRoute(staffDir, Strip(route)) == PageForRoute(staffDir, route)
  {
    var s := Strip(route);
    assert Strip(s) == s;
  }

  // ---------------------------------------------------------------------------
  // Where the round trip stops

  /** A last directory that ends in whitespace loses it on the way back: the route is stripped. */
  lemma TrailingSpaceLost(staffDir: Path, dirs: seq<string>, c: char)
    requires |dirs| > 0 && RoutableDirs(dirs) && IsSpace(c)
    ensures var spaced := dirs[..|dirs| - 1] + [dirs[|dirs| - 1] + [c]];
      RouteFromPage(staffDir, staffDir + spaced + [PageFile]) == Ok(Staff + "/" + (Join(dirs, '/') + [c])) &&
      PageForRoute(staffDir, Staff + "/" + (Join(dirs, '/') + [c])) == Ok(staffDir + dirs + [PageFile])
  {
    var spaced := dirs[..|dirs| - 1] + [dirs[|dirs| - 1] + [c]];
    var j := Join(dirs, '/');
    JoinExtendLast(dirs, '/', [c]);
    RouteOfDirs(staffDir, spaced);
    JoinEnds(dirs);
    StaffRoute(j);
    StripTrailingSpace(Staff + "/" + j, c);
    assert Staff + "/" + (j + [c]) == Staff + "/" + j + [c];
    DirsSegments(staffDir, dirs);
  }

  /** The prefix test is textual: `/staff<w>` names the page of `/staff/<w>`. */
  lemma PrefixIsTextual(staffDir: Path, w: string)
    requires RoutableDirs([w])
    ensures PageForRoute(staffDir, Staff + w) == Ok(staffDir + [w] + [PageFile])
    ensures RouteFromPage(staffDir, staffDir + [w] + [PageFile]) == Ok(Staff + "/" + w)
  {
    assert w[0] in w;
    Concat3(Staff, w, []);
    assert Staff + w + [] == Staff + w;
    assert Staff[0] == '/';
    StripPlain(Staff + w);
    DirsSegments(staffDir, [w]);
    RouteOfDirs(staffDir, [w]);
  }
}
