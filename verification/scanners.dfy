/**
 The three regular expressions the report scripts run over source text, as
 explicit scanners with `re.findall` / `re.search` semantics: try a match at
 each position from the left, and after a match resume where it ended.

   `/api/evergreen/([a-z0-9-]+)`     the adapter module a URL or page calls
   `href:\s*"([^"]+)"`               a link target in the sidebar
   `callOpenSRF\(\s*"([^"]+)"`       an OpenSRF service an adapter calls
 */
module Scanners {
  import opened Wrappers
  import opened Seqs
  import opened Text
  import opened Sorting

  /** A match at the start of the text: its one group and how many characters it spans. */
  datatype Hit = Hit(group: string, len: nat)

  /** A matcher never reports an empty match, nor one longer than the text. */
  ghost predicate Matcher(at: string -> Option<Hit>) {
    forall t :: at(t).Some? ==> 0 < at(t).value.len <= |t|
  }

  /** The matcher reports a match with group `g` at position `j` of `s`. */
  predicate HitAt(at: string -> Option<Hit>, s: string, j: int, g: string) {
    0 <= j <= |s| && at(s[j..]).Some? && at(s[j..]).value.group == g
  }

  /** Some position of `s` starts a match whose group is `g`. */
  ghost predicate Found(at: string -> Option<Hit>, s: string, g: string) {
    exists j :: HitAt(at, s, j, g)
  }

  /** `pattern.findall(s)` for a one-group pattern that never matches empty text. */
  function FindAll(at: string -> Option<Hit>, s: string): (r: seq<string>)
    requires Matcher(at)
    ensures forall i :: 0 <= i < |r| ==> Found(at, s, r[i])
    ensures (forall j :: 0 <= j < |s| ==> at(s[j..]).None?) ==> r == []
    decreases |s|
  {
    if |s| == 0 then []
    else match at(s)
      case Some(h) =>
        assert at(s).Some? && at(s).value == h;
        assert 0 < h.len <= |s|;
        var rest := FindAll(at, s[h.len..]);
        ShiftHits(at, s, h.len, rest);
        assert HitAt(at, s, 0, h.group);
        assert Found(at, s, h.group);
        [h.group] + rest
      case None =>
        var rest := FindAll(at, s[1..]);
        ShiftHits(at, s, 1, rest);
        assert forall j :: 0 <= j < |s| - 1 ==> s[1..][j..] == s[j + 1..];
        rest
  }

  /** A match found in a suffix of `s` is a match in `s`. */
  lemma ShiftHits(at: string -> Option<Hit>, s: string, d: nat, gs: seq<string>)
    requires d <= |s|
    requires forall i :: 0 <= i < |gs| ==> Found(at, s[d..], gs[i])
    ensures forall i :: 0 <= i < |gs| ==> Found(at, s, gs[i])
  {
    forall i | 0 <= i < |gs| ensures Found(at, s, gs[i]) {
      ShiftHit(at, s, d, gs[i]);
    }
  }

  lemma ShiftHit(at: string -> Option<Hit>, s: string, d: nat, g: string)
    requires d <= |s| && Found(at, s[d..], g)
    ensures Found(at, s, g)
  {
    var j :| HitAt(at, s[d..], j, g);
    assert s[d..][j..] == s[d + j..];
    assert HitAt(at, s, d + j, g);
  }

  /** `pattern.search(s)`: the group of the leftmost match. */
  function Search(at: string -> Option<Hit>, s: string): (r: Option<string>)
    requires Matcher(at)
    ensures r.Some? ==> Found(at, s, r.value)
    decreases |s|
  {
    if |s| == 0 then None
    else match at(s)
      case Some(h) =>
        assert HitAt(at, s, 0, h.group);
        assert Found(at, s, h.group);
        Some(h.group)
      case None =>
        var r := Search(at, s[1..]);
        if r.Some? then
          ShiftHit(at, s, 1, r.value);
          r
        else r
  }

  /** The leftmost match `search` finds is the first of those `findall` lists. */
  lemma {:induction false} SearchIsFirst(at: string -> Option<Hit>, s: string)
    requires Matcher(at)
    ensures Search(at, s) == if |FindAll(at, s)| == 0 then None else Some(FindAll(at, s)[0])
    decreases |s|
  {
    if |s| > 0 && at(s).None? {
      SearchIsFirst(at, s[1..]);
    }
  }

  /** Positions where no match starts contribute nothing. */
  lemma {:induction false} FindAllSkip(at: string -> Option<Hit>, a: string, b: string)
    requires Matcher(at)
    requires forall i :: 0 <= i < |a| ==> at(a[i..] + b).None?
    ensures FindAll(at, a + b) == FindAll(at, b)
    decreases |a|
  {
    if |a| > 0 {
      assert a[0..] == a;
      assert at(a + b).None?;
      forall i | 0 <= i < |a| - 1 ensures at(a[1..][i..] + b).None? {
        assert a[1..][i..] == a[i + 1..];
      }
      FindAllSkip(at, a[1..], b);
      Peel(a, b);
      assert FindAll(at, a + b) == FindAll(at, (a + b)[1..]);
    } else {
      assert a + b == b;
    }
  }

  /** A match at the very start is listed first, and scanning resumes where it ends. */
  lemma FindAllHit(at: string -> Option<Hit>, s: string, rest: string)
    requires Matcher(at) && at(s + rest).Some? && at(s + rest).value.len == |s|
    ensures FindAll(at, s + rest) == [at(s + rest).value.group] + FindAll(at, rest)
  {
    assert (s + rest)[|s|..] == rest;
  }

  /** Whenever some position starts a match, `findall` lists something. */
  lemma {:induction false} FindAllComplete(at: string -> Option<Hit>, s: string, j: nat)
    requires Matcher(at) && j <= |s| && at(s[j..]).Some?
    ensures FindAll(at, s) != []
    decreases |s|
  {
    if at(s).None? {
      assert j > 0 && |s| > 0;
      assert s[1..][j - 1..] == s[j..];
      FindAllComplete(at, s[1..], j - 1);
    }
  }

  // ---------------------------------------------------------------------------
  // `<pre>([a-z0-9-]+)`

  predicate ModuleChar(c: char) {
    'a' <= c <= 'z' || '0' <= c <= '9' || c == '-'
  }

  /** A name `[a-z0-9-]+` matches in full. */
  predicate ModuleName(s: string) {
    |s| > 0 && forall i :: 0 <= i < |s| ==> ModuleChar(s[i])
  }

  /** The length of the longest run of module characters `s` starts with. */
  function ModuleRun(s: string): (n: nat)
    ensures n <= |s|
    ensures forall i :: 0 <= i < n ==> ModuleChar(s[i])
    ensures n < |s| ==> !ModuleChar(s[n])
    decreases |s|
  {
    if |s| > 0 && ModuleChar(s[0]) then 1 + ModuleRun(s[1..]) else 0
  }

  /** A match of `<pre>([a-z0-9-]+)` at the start of `s`; `+` is greedy. */
  function RunAt(pre: string, s: string): (r: Option<Hit>)
    ensures r.Some? ==> |pre| < r.value.len <= |s| && s[..r.value.len] == pre + r.value.group
    ensures r.Some? ==> ModuleName(r.value.group)
    ensures r.Some? ==> r.value.len == |s| || !ModuleChar(s[r.value.len])
    ensures r.None? ==> !(pre <= s) || |s| == |pre| || !ModuleChar(s[|pre|])
  {
    if pre <= s then
      var n := ModuleRun(s[|pre|..]);
      if n == 0 then None
      else
        var r := Hit(s[|pre|..|pre| + n], |pre| + n);
        assert s[..|pre| + n] == pre + r.group;
        Some(r)
    else None
  }

  /** `pre` followed by a whole module name, then anything that cannot extend the name. */
  lemma RunAtName(pre: string, v: string, rest: string)
    requires ModuleName(v) && (|rest| == 0 || !ModuleChar(rest[0]))
    ensures RunAt(pre, pre + v + rest) == Some(Hit(v, |pre| + |v|))
  {
    var s := pre + v + rest;
    Concat3(pre, v, rest);
    RunOfName(v, rest);
    assert s[|pre|..][..|v|] == v;
  }

  lemma {:induction false} RunOfName(v: string, rest: string)
    requires ModuleName(v) && (|rest| == 0 || !ModuleChar(rest[0]))
    ensures ModuleRun(v + rest) == |v|
    decreases |v|
  {
    if |v| > 1 {
      RunOfName(v[1..], rest);
      Peel(v, rest);
    } else {
      Peel(v, rest);
      assert v[1..] + rest == rest;
    }
  }

  // ---------------------------------------------------------------------------
  // `<key>\s*"([^"]+)"`

  /** `t` starts with `w` whitespace characters and then `g` in double quotes. */
  predicate QuotedValue(t: string, w: nat, g: string) {
    w + |g| + 2 <= |t| && (forall i :: 0 <= i < w ==> IsSpace(t[i])) &&
    t[w] == '"' && t[w + 1..w + 1 + |g|] == g && t[w + 1 + |g|] == '"'
  }

  /** A match of `\s*"([^"]+)"` at the start of `t`; `\s*` takes all the leading whitespace. */
  function QuotedTail(t: string): (r: Option<Hit>)
    ensures r.Some? ==> |r.value.group| > 0 && '"' !in r.value.group && r.value.len >= |r.value.group| + 2
    ensures r.Some? ==> QuotedValue(t, r.value.len - |r.value.group| - 2, r.value.group)
  {
    QuotedFrom(t, LeadingSpaces(t))
  }

  /** A match of `"([^"]+)"` at position `w` of `t`, its length counted from the start of `t`. */
  function QuotedFrom(t: string, w: nat): (r: Option<Hit>)
    ensures r.Some? ==> |r.value.group| > 0 && '"' !in r.value.group && r.value.len == w + |r.value.group| + 2
    ensures r.Some? ==> r.value.len <= |t| && t[w] == '"' && t[w + 1..w + 1 + |r.value.group|] == r.value.group
    ensures r.Some? ==> t[w + 1 + |r.value.group|] == '"'
  {
    if w >= |t| || t[w] != '"' then None
    else match FindChar(t[w + 1..], '"')
      case None => None
      case Some(k) =>
        if k == 0 then None
        else Some(Hit(t[w + 1..w + 1 + k], w + k + 2))
  }

  /** A match of `<key>\s*"([^"]+)"` at the start of `s`. */
  function QuotedAt(key: string, s: string): (r: Option<Hit>)
    ensures r.Some? ==> key <= s && QuotedHit(key, s, r.value)
  {
    if !(key <= s) then None
    else match QuotedTail(s[|key|..])
      case None => None
      case Some(h) => Some(Hit(h.group, |key| + h.len))
  }

  /** `key`, whitespace, then a quoted non-empty value is a match of exactly that length. */
  lemma QuotedAtValue(key: string, ws: string, v: string, rest: string)
    requires forall i :: 0 <= i < |ws| ==> IsSpace(ws[i])
    requires |v| > 0 && '"' !in v
    ensures QuotedAt(key, key + (ws + ['"'] + v + ['"'] + rest)) == Some(Hit(v, |key| + |ws| + |v| + 2))
  {
    QuotedBody(ws, v, rest);
    QuotedAtTail(key, ws + ['"'] + v + ['"'] + rest, Hit(v, |ws| + |v| + 2));
  }

  lemma DropFirst<T>(a: seq<T>, b: seq<T>, c: seq<T>, d: seq<T>, e: seq<T>, f: seq<T>)
    ensures a + b + c + d + e + f == a + (b + c + d + e + f)
  {
  }

  /** `key` followed by a match of the tail is a match of the whole. */
  lemma QuotedAtTail(key: string, t: string, h: Hit)
    requires QuotedTail(t) == Some(h)
    ensures QuotedAt(key, key + t) == Some(Hit(h.group, |key| + h.len))
  {
    assert (key + t)[|key|..] == t;
  }

  lemma QuotedBody(ws: string, v: string, rest: string)
    requires forall i :: 0 <= i < |ws| ==> IsSpace(ws[i])
    requires |v| > 0 && '"' !in v
    ensures QuotedTail(ws + ['"'] + v + ['"'] + rest) == Some(Hit(v, |ws| + |v| + 2))
  {
    var t := ws + ['"'] + v + ['"'] + rest;
    assert LeadingSpaces(t) == |ws| by {
      QuotedSpaces(ws, v, rest);
    }
    assert t[|ws|] == '"' && t[|ws| + 1..|ws| + 1 + |v|] == v by {
      QuotedShape(ws, '"', v, rest);
    }
    assert FindChar(t[|ws| + 1..], '"') == Some(|v|) by {
      QuotedEnd(ws, v, rest);
    }
    QuotedTailAt(t, |ws|, |v|);
  }

  lemma QuotedSpaces(ws: string, v: string, rest: string)
    requires forall i :: 0 <= i < |ws| ==> IsSpace(ws[i])
    ensures LeadingSpaces(ws + ['"'] + v + ['"'] + rest) == |ws|
  {
    QuotedShape(ws, '"', v, rest);
    assert !IsSpace('"');
    LeadingOfSpaces(ws, ['"'] + v + ['"'] + rest);
  }

  lemma QuotedEnd(ws: string, v: string, rest: string)
    requires '"' !in v
    ensures FindChar((ws + ['"'] + v + ['"'] + rest)[|ws| + 1..], '"') == Some(|v|)
  {
    QuotedShape(ws, '"', v, rest);
    FindCharAt((ws + ['"'] + v + ['"'] + rest)[|ws| + 1..], '"', |v|);
  }

  lemma QuotedTailAt(t: string, w: nat, k: nat)
    requires LeadingSpaces(t) == w && w < |t| && t[w] == '"'
    requires FindChar(t[w + 1..], '"') == Some(k) && k > 0
    ensures QuotedTail(t) == Some(Hit(t[w + 1..w + 1 + k], w + k + 2))
  {
    QuotedFromAt(t, w, k);
  }

  lemma QuotedFromAt(t: string, w: nat, k: nat)
    requires w < |t| && t[w] == '"'
    requires FindChar(t[w + 1..], '"') == Some(k) && k > 0
    ensures QuotedFrom(t, w) == Some(Hit(t[w + 1..w + 1 + k], w + k + 2))
  {
  }

  /** Where the quotes and the value sit in `ws"v"rest`. */
  lemma QuotedShape<T>(ws: seq<T>, q: T, v: seq<T>, rest: seq<T>)
    ensures var t := ws + [q] + v + [q] + rest;
      t == ws + ([q] + v + [q] + rest) && t[|ws|] == q &&
      t[|ws| + 1..] == v + [q] + rest && t[|ws| + 1..][..|v|] == v &&
      t[|ws| + 1..][|v|] == q && t[|ws| + 1..|ws| + 1 + |v|] == v
  {
    var t := ws + [q] + v + [q] + rest;
    assert t == ws + ([q] + v + [q] + rest);
    assert t[|ws| + 1..] == v + [q] + rest;
  }

  lemma {:induction false} LeadingOfSpaces(ws: string, t: string)
    requires forall i :: 0 <= i < |ws| ==> IsSpace(ws[i])
    requires |t| > 0 && !IsSpace(t[0])
    ensures LeadingSpaces(ws + t) == |ws|
  {
    var s := ws + t;
    assert s[|ws|] == t[0];
  }

  // ---------------------------------------------------------------------------
  // The three patterns

  const ApiPrefix: string := "/api/evergreen/"
  const HrefKey: string := "href:"
  const OsrfKey: string := "callOpenSRF("

  function ApiAt(s: string): (r: Option<Hit>)
    ensures r.Some? ==> 0 < r.value.len <= |s|
  {
    RunAt(ApiPrefix, s)
  }

  function HrefAt(s: string): (r: Option<Hit>)
    ensures r.Some? ==> 0 < r.value.len <= |s|
  {
    QuotedAt(HrefKey, s)
  }

  function OsrfAt(s: string): (r: Option<Hit>)
    ensures r.Some? ==> 0 < r.value.len <= |s|
  {
    QuotedAt(OsrfKey, s)
  }

  lemma Matchers()
    ensures Matcher(ApiAt) && Matcher(HrefAt) && Matcher(OsrfAt)
  {
  }

  /** `API_PREFIX_RE.findall(text)`: every listed module is a module name the text calls under `/api/evergreen/`. */
  function ApiModules(text: string): (r: seq<string>)
    ensures forall i :: 0 <= i < |r| ==> ModuleName(r[i]) && Contains(text, ApiPrefix + r[i])
  {
    Matchers();
    var r := FindAll(ApiAt, text);
    forall i | 0 <= i < |r| ensures ModuleName(r[i]) && Contains(text, ApiPrefix + r[i]) {
      var j :| HitAt(ApiAt, text, j, r[i]);
      HitContains(text, j, ApiPrefix, RunAt(ApiPrefix, text[j..]).value);
    }
    r
  }

  lemma HitContains(s: string, j: nat, pre: string, h: Hit)
    requires j <= |s| && h.len <= |s| - j && s[j..][..h.len] == pre + h.group
    ensures Contains(s, pre + h.group)
  {
    assert s[j..j + |pre + h.group|] == pre + h.group;
    assert OccursAt(s, pre + h.group, j);
  }
  /** `s` starts with `/api/evergreen/` and then a module character. */
  predicate CallStart(s: string) {
    ApiPrefix <= s && |ApiPrefix| < |s| && ModuleChar(s[|ApiPrefix|])
  }

  /** Somewhere the text has `/api/evergreen/` followed by a module character. */
  predicate CallsApi(text: string) {
    exists j :: 0 <= j <= |text| && CallStart(text[j..])
  }

  /** The module pattern matches exactly where a call starts. */
  lemma ApiAtCall(s: string)
    ensures ApiAt(s).Some? <==> CallStart(s)
  {
    if ApiAt(s).Some? {
      var h := ApiAt(s).value;
      assert s[..h.len][|ApiPrefix|] == (ApiPrefix + h.group)[|ApiPrefix|];
    }
  }

  /** `findall` lists no module exactly when the text never calls under `/api/evergreen/`. */
  lemma ApiModulesEmpty(text: string)
    ensures ApiModules(text) == [] <==> !CallsApi(text)
  {
    Matchers();
    if CallsApi(text) {
      var j :| 0 <= j <= |text| && CallStart(text[j..]);
      ApiAtCall(text[j..]);
      FindAllComplete(ApiAt, text, j);
    } else {
      forall j | 0 <= j < |text| ensures ApiAt(text[j..]).None? {
        ApiAtCall(text[j..]);
      }
    }
  }

  /** `API_PREFIX_RE.search(url).group(1)`: the first module `findall` would list, if any. */
  function FirstApiModule(url: string): (r: Option<string>)
    ensures r == if ApiModules(url) == [] then None else Some(ApiModules(url)[0])
  {
    Matchers();
    SearchIsFirst(ApiAt, url);
    Search(ApiAt, url)
  }

  /** A call `/api/evergreen/<v>` at the start of the text is listed first. */
  lemma ApiFound(v: string, rest: string)
    requires ModuleName(v) && (|rest| == 0 || !ModuleChar(rest[0]))
    ensures ApiModules(ApiPrefix + v + rest) == [v] + ApiModules(rest)
  {
    Matchers();
    RunAtName(ApiPrefix, v, rest);
    FindAllHit(ApiAt, ApiPrefix + v, rest);
  }

  /** Text without a `/` holds no call, whatever follows it. */
  lemma ApiSkip(a: string, b: string)
    requires '/' !in a
    ensures ApiModules(a + b) == ApiModules(b)
  {
    Matchers();
    assert ApiPrefix[0] == '/';
    forall i | 0 <= i < |a| ensures ApiAt(a[i..] + b).None? {
      assert (a[i..] + b)[0] == a[i];
    }
    FindAllSkip(ApiAt, a, b);
  }

  /** `HREF_RE.findall(text)`: every link target is non-empty, free of `"`, and stands quoted in the text. */
  function Hrefs(text: string): (r: seq<string>)
    ensures forall i :: 0 <= i < |r| ==> QuotedIn(text, r[i])
  {
    Matchers();
    QuotedMatchers();
    QuotedHits(HrefKey, HrefAt, text);
    FindAll(HrefAt, text)
  }

  /** `CALL_OSRF_RE.findall(text)`: every service name is non-empty, free of `"`, and stands quoted in the text. */
  function OsrfServices(text: string): (r: seq<string>)
    ensures forall i :: 0 <= i < |r| ==> QuotedIn(text, r[i])
  {
    Matchers();
    QuotedMatchers();
    QuotedHits(OsrfKey, OsrfAt, text);
    FindAll(OsrfAt, text)
  }

  /** `g` is non-empty, free of `"`, and stands quoted in `text`. */
  predicate QuotedIn(text: string, g: string) {
    |g| > 0 && '"' !in g && Contains(text, ['"'] + g + ['"'])
  }

  /** Everything a `<key>\s*"([^"]+)"` matcher reports has the shape of such a match. */
  ghost predicate QuotedMatcher(key: string, at: string -> Option<Hit>) {
    forall t :: at(t).Some? ==> QuotedHit(key, t, at(t).value)
  }

  /** `h` spans `key`, whitespace, and its non-empty, `"`-free group in double quotes at the start of `t`. */
  predicate QuotedHit(key: string, t: string, h: Hit) {
    |h.group| > 0 && '"' !in h.group && |key| + |h.group| + 2 <= h.len <= |t| &&
    QuotedValue(t[|key|..], h.len - |key| - |h.group| - 2, h.group)
  }

  lemma QuotedMatchers()
    ensures QuotedMatcher(HrefKey, HrefAt) && QuotedMatcher(OsrfKey, OsrfAt)
  {
  }

  /** Every group a `<key>\s*"([^"]+)"` scanner lists is non-empty, free of `"`, and stands quoted in the text. */
  lemma QuotedHits(key: string, at: string -> Option<Hit>, text: string)
    requires Matcher(at) && QuotedMatcher(key, at)
    ensures forall i :: 0 <= i < |FindAll(at, text)| ==> QuotedIn(text, FindAll(at, text)[i])
  {
    var r := FindAll(at, text);
    forall i | 0 <= i < |r| ensures QuotedIn(text, r[i]) {
      QuotedFound(key, at, text, r[i]);
    }
  }

  lemma QuotedFound(key: string, at: string -> Option<Hit>, text: string, g: string)
    requires QuotedMatcher(key, at) && Found(at, text, g)
    ensures QuotedIn(text, g)
  {
    var j :| HitAt(at, text, j, g);
    QuotedContains(text, j, key, at(text[j..]).value);
  }

  lemma QuotedContains(s: string, j: nat, key: string, h: Hit)
    requires j <= |s| && QuotedHit(key, s[j..], h)
    ensures Contains(s, ['"'] + h.group + ['"'])
  {
    var g := h.group;
    var w := h.len - |key| - |g| - 2;
    var t := s[j..][|key|..];
    SliceOfDrop(s, j, |key|, |key|);
    QuotedValueText(t, w, g);
    var k := j + |key| + w;
    SliceOfDrop(s, j + |key|, w, w + |g| + 2);
    assert OccursAt(s, ['"'] + g + ['"'], k);
  }

  lemma QuotedValueText(t: string, w: nat, g: string)
    requires QuotedValue(t, w, g)
    ensures t[w..w + |g| + 2] == ['"'] + g + ['"']
  {
  }

  /** A link `href: "v"` at the start of the text is listed first. */
  lemma HrefFound(ws: string, v: string, rest: string)
    requires forall i :: 0 <= i < |ws| ==> IsSpace(ws[i])
    requires |v| > 0 && '"' !in v
    ensures Hrefs(HrefKey + ws + ['"'] + v + ['"'] + rest) == [v] + Hrefs(rest)
  {
    Matchers();
    QuotedAtValue(HrefKey, ws, v, rest);
    DropFirst(HrefKey, ws, ['"'], v, ['"'], rest);
    FindAllHit(HrefAt, HrefKey + ws + ['"'] + v + ['"'], rest);
  }

  /** Text without an `h` holds no link, whatever follows it. */
  lemma HrefSkip(a: string, b: string)
    requires 'h' !in a
    ensures Hrefs(a + b) == Hrefs(b)
  {
    Matchers();
    assert HrefKey[0] == 'h';
    forall i | 0 <= i < |a| ensures HrefAt(a[i..] + b).None? {
      assert (a[i..] + b)[0] == a[i];
    }
    FindAllSkip(HrefAt, a, b);
  }

  // ---------------------------------------------------------------------------
  // `sorted(set(findall(...)))`

  /** `extract_api_usage`: the modules a file calls, sorted and without repeats. */
  function ApiUsage(text: string): (r: seq<string>)
    ensures Sorted(r) && NoDups(r)
    ensures forall m :: m in r <==> m in ApiModules(text)
  {
    var found := ApiModules(text);
    SortedUniqueMembers(found);
    SortedUnique(found)
  }

  /** `extract_open_srf_services`: the services a file calls, sorted and without repeats. */
  function OsrfUsage(text: string): (r: seq<string>)
    ensures Sorted(r) && NoDups(r)
    ensures forall m :: m in r <==> m in OsrfServices(text)
  {
    var found := OsrfServices(text);
    SortedUniqueMembers(found);
    SortedUnique(found)
  }
}
