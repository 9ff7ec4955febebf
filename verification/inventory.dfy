/**
 The coverage lists of the repository inventory: which sidebar links lead
 nowhere, which staff routes the sidebar never links, which pages call no
 adapter module, and which adapter modules no page calls.

 The file system is an input: the staff pages `rglob` found (in sorted
 order), the adapter directory names, the set of existing files, and the
 text of each readable file (a file missing from the map reads as `""`).
 */
module Inventory {
  import opened Wrappers
  import opened Seqs
  import opened Text
  import opened Sorting
  import opened Paths
  import opened Routes
  import opened Scanners

  /** A staff route and the page file that serves it. */
  datatype PageRoute = PageRoute(route: string, page: Path)

  /** A sidebar link and the page file it should lead to. */
  datatype NavGap = NavGap(href: string, page: Path)

  /** The adapter modules one page calls. */
  datatype Usage = Usage(route: string, page: Path, mods: seq<string>)

  /** `read_text`: the text of a file, or `""` when it cannot be read. */
  function TextOf(texts: map<Path, string>, p: Path): string {
    if p in texts then texts[p] else ""
  }

  /** Every page lies below the staff directory, as `rglob` guarantees. */
  predicate UnderStaff(staffDir: Path, pages: seq<Path>) {
    forall i :: 0 <= i < |pages| ==> staffDir <= pages[i]
  }

  // ---------------------------------------------------------------------------
  // Routes and links

  /** `staff_routes`: each page paired with the route it serves, in page order. */
  function StaffRoutes(staffDir: Path, pages: seq<Path>): (r: seq<PageRoute>)
    requires UnderStaff(staffDir, pages)
    ensures |r| == |pages|
    ensures forall i :: 0 <= i < |r| ==> r[i].page == pages[i] && RouteFromPage(staffDir, pages[i]) == Ok(r[i].route)
    ensures forall i :: 0 <= i < |r| ==> Staff <= r[i].route
  {
    if |pages| == 0 then []
    else [PageRoute(RouteFromPage(staffDir, pages[0]).value, pages[0])] + StaffRoutes(staffDir, pages[1..])
  }

  /** A staff route. */
  predicate StaffHref(h: string) {
    Staff <= h
  }

  /** Every link is a staff route. */
  predicate StaffHrefs(hrefs: seq<string>) {
    forall i :: 0 <= i < |hrefs| ==> Staff <= hrefs[i]
  }

  /**
   `sidebar_hrefs` (and `sidebar_routes` of the report): the `/staff` link
   targets of the sidebar, sorted and without repeats; no sidebar, no links.
   */
  function SidebarHrefs(sidebar: Option<string>): (r: seq<string>)
    ensures Sorted(r) && NoDups(r)
    ensures StaffHrefs(r)
    ensures forall h :: h in r <==> sidebar.Some? && h in Hrefs(sidebar.value) && Staff <= h
  {
    match sidebar
    case None => []
    case Some(text) =>
      StaffLinks(Hrefs(text));
      SortedUnique(Filter(Hrefs(text), StaffHref))
  }

  lemma StaffLinks(links: seq<string>)
    ensures var r := SortedUnique(Filter(links, StaffHref));
      Sorted(r) && NoDups(r) && StaffHrefs(r) && forall h :: h in r <==> h in links && Staff <= h
  {
    var staff := Filter(links, StaffHref);
    var r := SortedUnique(staff);
    assert Sorted(r) && NoDups(r) && forall h :: h in r <==> h in staff by {
      SortedUniqueMembers(staff);
    }
    assert forall h :: h in staff <==> h in links && Staff <= h;
    assert StaffHrefs(r) by {
      assert forall i :: 0 <= i < |r| ==> r[i] in staff;
    }
  }

  /** Every sidebar link is a quoted `href:` target of the sidebar text, and names a page without raising. */
  lemma SidebarLinksRoutable(staffDir: Path, text: string, h: string)
    requires h in SidebarHrefs(Some(text))
    ensures QuotedIn(text, h)
    ensures PageForRoute(staffDir, h).Ok?
  {
    var i :| 0 <= i < |Hrefs(text)| && Hrefs(text)[i] == h;
    StaffPrefixKept(staffDir, h);
  }

  /** The page a staff link should lead to. */
  function NavPage(staffDir: Path, h: string): (p: Path)
    requires Staff <= h
    ensures PageForRoute(staffDir, h) == Ok(p)
  {
    StaffPrefixKept(staffDir, h);
    PageForRoute(staffDir, h).value
  }

  /** The page a staff link should lead to does not exist. */
  predicate LinkMissing(staffDir: Path, files: set<Path>, h: string) {
    Staff <= h && NavPage(staffDir, h) !in files
  }

  /** `missing_nav_pages`: the sidebar links whose page file does not exist, in link order. */
  function MissingNavPages(staffDir: Path, hrefs: seq<string>, files: set<Path>): (r: seq<NavGap>)
    requires StaffHrefs(hrefs)
    ensures |r| <= |hrefs|
    ensures forall g :: g in r <==> g.href in hrefs && g.page == NavPage(staffDir, g.href) && g.page !in files
  {
    if |hrefs| == 0 then []
    else
      var h := hrefs[0];
      var p := NavPage(staffDir, h);
      var rest := MissingNavPages(staffDir, hrefs[1..], files);
      assert forall x :: x in hrefs <==> x == h || x in hrefs[1..];
      if p in files then rest else [NavGap(h, p)] + rest
  }

  /** The links of a list of gaps, in order. */
  function LinksOf(gaps: seq<NavGap>): (r: seq<string>)
    ensures |r| == |gaps|
  {
    if |gaps| == 0 then [] else [gaps[0].href] + LinksOf(gaps[1..])
  }

  /**
   One gap per link whose page is missing, in link order; with the membership
   clause of `MissingNavPages`, each gap names the page its link should lead to.
   */
  lemma {:induction false} MissingInLinkOrder(staffDir: Path, hrefs: seq<string>, files: set<Path>)
    requires StaffHrefs(hrefs)
    ensures LinksOf(MissingNavPages(staffDir, hrefs, files)) == Filter(hrefs, (h: string) => LinkMissing(staffDir, files, h))
    decreases |hrefs|
  {
    if |hrefs| > 0 {
      var keep := (h: string) => LinkMissing(staffDir, files, h);
      var h := hrefs[0];
      var rest := MissingNavPages(staffDir, hrefs[1..], files);
      assert LinksOf(rest) == Filter(hrefs[1..], keep) by {
        MissingInLinkOrder(staffDir, hrefs[1..], files);
      }
      if keep(h) {
        var gap := NavGap(h, NavPage(staffDir, h));
        assert MissingNavPages(staffDir, hrefs, files) == [gap] + rest;
        assert ([gap] + rest)[1..] == rest;
      } else {
        assert MissingNavPages(staffDir, hrefs, files) == rest;
      }
    }
  }

  /** The routes of a list of pages, in order. */
  function RouteNames(routes: seq<PageRoute>): seq<string>
  {
    Map(routes, (pr: PageRoute) => pr.route)
  }

  /** `unlinked_routes`: the staff routes the sidebar does not link, in page order. */
  function UnlinkedRoutes(routes: seq<PageRoute>, hrefs: seq<string>): (r: seq<string>)
    ensures Subseq(r, RouteNames(routes))
    ensures forall x :: x in r <==> x in RouteNames(routes) && x !in hrefs
  {
    var names := RouteNames(routes);
    var r := Filter(names, (x: string) => x !in hrefs);
    assert forall x :: x in names && x !in hrefs ==> x in r by {
      forall x | x in names && x !in hrefs ensures x in r {
        var i :| 0 <= i < |names| && names[i] == x;
      }
    }
    r
  }

  // ---------------------------------------------------------------------------
  // Adapter usage

  /** `page_api_usage`: for each page in order, the modules its text calls, sorted and without repeats. */
  function PageUsage(routes: seq<PageRoute>, texts: map<Path, string>): (r: seq<Usage>)
    ensures |r| == |routes|
    ensures forall i :: 0 <= i < |r| ==> r[i].route == routes[i].route && r[i].page == routes[i].page
    ensures forall i :: 0 <= i < |r| ==> Sorted(r[i].mods) && NoDups(r[i].mods)
    ensures forall i, m :: 0 <= i < |r| ==> (m in r[i].mods <==> m in ApiModules(TextOf(texts, routes[i].page)))
  {
    if |routes| == 0 then []
    else
      var pr := routes[0];
      var rest := PageUsage(routes[1..], texts);
      var r := [Usage(pr.route, pr.page, ApiUsage(TextOf(texts, pr.page)))] + rest;
      assert forall i :: 1 <= i < |r| ==> r[i] == rest[i - 1] && routes[i] == routes[1..][i - 1];
      r
  }

  /** `all_used_modules`: the union of the per-page module lists. */
  function AllUsed(usage: seq<Usage>): (r: set<string>)
    ensures forall m :: m in r <==> exists i :: 0 <= i < |usage| && m in usage[i].mods
  {
    if |usage| == 0 then {}
    else
      var rest := AllUsed(usage[1..]);
      assert forall i :: 1 <= i < |usage| ==> usage[i] == usage[1..][i - 1];
      Elems(usage[0].mods) + rest
  }

  /** `unconnected_pages`: the pages that call no adapter module, in page order. */
  function Unconnected(usage: seq<Usage>): (r: seq<PageRoute>)
    ensures |r| <= |usage|
    ensures forall pr :: pr in r <==> exists i :: 0 <= i < |usage| && usage[i].mods == [] && pr == PageRoute(usage[i].route, usage[i].page)
  {
    if |usage| == 0 then []
    else
      var u := usage[0];
      var rest := Unconnected(usage[1..]);
      assert forall i :: 1 <= i < |usage| ==> usage[i] == usage[1..][i - 1];
      if u.mods == [] then [PageRoute(u.route, u.page)] + rest else rest
  }

  predicate CallsNothing(u: Usage) {
    u.mods == []
  }

  /** The page and route of each usage entry, in order. */
  function PagesOf(usage: seq<Usage>): (r: seq<PageRoute>)
    ensures |r| == |usage|
  {
    if |usage| == 0 then [] else [PageRoute(usage[0].route, usage[0].page)] + PagesOf(usage[1..])
  }

  /** One entry per page that calls no module, in page order. */
  lemma {:induction false} UnconnectedInPageOrder(usage: seq<Usage>)
    ensures Unconnected(usage) == PagesOf(Filter(usage, CallsNothing))
    decreases |usage|
  {
    if |usage| > 0 {
      var rest := Unconnected(usage[1..]);
      assert rest == PagesOf(Filter(usage[1..], CallsNothing)) by {
        UnconnectedInPageOrder(usage[1..]);
      }
      if CallsNothing(usage[0]) {
        var idle := [usage[0]] + Filter(usage[1..], CallsNothing);
        assert idle[1..] == Filter(usage[1..], CallsNothing);
      }
    }
  }

  /** `unused_api_modules`: the adapter modules no page calls, in the order given. */
  function UnusedModules(apiModules: seq<string>, used: set<string>): (r: seq<string>)
    ensures Subseq(r, apiModules)
    ensures forall m :: m in r <==> m in apiModules && m !in used
    ensures Sorted(apiModules) ==> Sorted(r)
  {
    var r := Filter(apiModules, (m: string) => m !in used);
    assert forall m :: m in apiModules && m !in used ==> m in r by {
      forall m | m in apiModules && m !in used ensures m in r {
        var i :| 0 <= i < |apiModules| && apiModules[i] == m;
      }
    }
    if Sorted(apiModules) then FilterSorted(apiModules, (m: string) => m !in used); r else r
  }

  // ---------------------------------------------------------------------------
  // The whole inventory

  /** What the file system offers the inventory. */
  datatype Tree = Tree(
    staffDir: Path,
    pages: seq<Path>,
    apiDirs: seq<string>,
    files: set<Path>,
    texts: map<Path, string>,
    sidebar: Option<string>)

  /** The lists the inventory reports. */
  datatype Findings = Findings(
    routes: seq<PageRoute>,
    apiModules: seq<string>,
    sidebarHrefs: seq<string>,
    missingNav: seq<NavGap>,
    unlinked: seq<string>,
    usage: seq<Usage>,
    unconnected: seq<PageRoute>,
    unused: seq<string>)

  /** The computations of `main`, without the report it writes. */
  function Survey(t: Tree): (r: Findings)
    requires UnderStaff(t.staffDir, t.pages)
    ensures |r.routes| == |r.usage| == |t.pages|
    ensures Sorted(r.apiModules) && forall m :: m in r.apiModules <==> m in t.apiDirs
    ensures Sorted(r.unused)
  {
    var routes := StaffRoutes(t.staffDir, t.pages);
    var apiModules := SortedUnique(t.apiDirs);
    SortedUniqueMembers(t.apiDirs);
    var hrefs := SidebarHrefs(t.sidebar);
    var usage := PageUsage(routes, t.texts);
    var unused := UnusedModules(apiModules, AllUsed(usage));
    Findings(
      routes,
      apiModules,
      hrefs,
      MissingNavPages(t.staffDir, hrefs, t.files),
      UnlinkedRoutes(routes, hrefs),
      usage,
      Unconnected(usage),
      unused)
  }

  /** An adapter module is reported unused exactly when it is a module directory and no staff page calls it. */
  lemma UnusedMeansUncalled(t: Tree, m: string)
    requires UnderStaff(t.staffDir, t.pages)
    ensures m in Survey(t).unused <==>
      m in t.apiDirs && forall i :: 0 <= i < |t.pages| ==> m !in ApiModules(TextOf(t.texts, t.pages[i]))
  {
    var r := Survey(t);
    var routes := StaffRoutes(t.staffDir, t.pages);
    var usage := PageUsage(routes, t.texts);
    assert r.usage == usage && r.unused == UnusedModules(r.apiModules, AllUsed(usage));
    if m in r.unused {
      forall i | 0 <= i < |t.pages| ensures m !in ApiModules(TextOf(t.texts, t.pages[i])) {
        assert m !in usage[i].mods;
      }
    }
    if m in t.apiDirs && forall i :: 0 <= i < |t.pages| ==> m !in ApiModules(TextOf(t.texts, t.pages[i])) {
      forall i | 0 <= i < |usage| ensures m !in usage[i].mods {
        assert routes[i].page == t.pages[i];
      }
    }
  }

  /** A page is reported unconnected exactly when its text never calls under `/api/evergreen/`. */
  lemma UnconnectedMeansNoCall(t: Tree, i: nat)
    requires UnderStaff(t.staffDir, t.pages) && i < |t.pages|
    ensures var r := Survey(t);
      r.routes[i] in r.unconnected <==> !CallsApi(TextOf(t.texts, t.pages[i]))
  {
    var r := Survey(t);
    var routes := StaffRoutes(t.staffDir, t.pages);
    var usage := PageUsage(routes, t.texts);
    assert r.routes == routes && r.usage == usage && r.unconnected == Unconnected(usage);
    var text := TextOf(t.texts, t.pages[i]);
    forall k | 0 <= k < |usage| && usage[k].page == usage[i].page
      ensures usage[k].mods == [] <==> usage[i].mods == []
    {
      SameMembersEmpty(usage[k].mods, ApiModules(TextOf(t.texts, routes[k].page)));
      SameMembersEmpty(usage[i].mods, ApiModules(TextOf(t.texts, routes[i].page)));
    }
    assert routes[i].page == t.pages[i];
    SameMembersEmpty(usage[i].mods, ApiModules(text));
    ApiModulesEmpty(text);
    UnconnectedAt(usage, i);
  }

  /** With equal pages calling equally, a page is unconnected exactly when its own list is empty. */
  lemma UnconnectedAt(usage: seq<Usage>, i: nat)
    requires i < |usage|
    requires forall k :: 0 <= k < |usage| && usage[k].page == usage[i].page ==> (usage[k].mods == [] <==> usage[i].mods == [])
    ensures PageRoute(usage[i].route, usage[i].page) in Unconnected(usage) <==> usage[i].mods == []
  {
  }

  /** Each staff route is either linked from the sidebar or listed as unlinked, never both. */
  lemma LinkedOrUnlinked(t: Tree, i: nat)
    requires UnderStaff(t.staffDir, t.pages) && i < |t.pages|
    ensures var r := Survey(t);
      r.routes[i].route in r.sidebarHrefs <==> r.routes[i].route !in r.unlinked
  {
    var r := Survey(t);
    assert r.routes[i].route in RouteNames(r.routes);
  }

  /** A link to the route of an existing page below routable directories is never reported missing. */
  lemma LinkedPageNotMissing(t: Tree, i: nat, dirs: seq<string>)
    requires UnderStaff(t.staffDir, t.pages) && i < |t.pages|
    requires t.pages[i] == t.staffDir + dirs + [PageFile] && RoutableDirs(dirs) && t.pages[i] in t.files
    ensures forall g :: g in Survey(t).missingNav ==> g.href != Survey(t).routes[i].route
  {
    var r := Survey(t);
    PageRoundTrip(t.staffDir, dirs);
    assert RouteFromPage(t.staffDir, t.pages[i]) == Ok(r.routes[i].route);
  }
}
