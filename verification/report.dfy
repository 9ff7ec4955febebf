/**
 The lists the audit report derives from the API audit summary and the
 repository: the HTTP-status partition, the modules the audit never
 touched, the per-endpoint signals read from each JSON response (an `ok`
 of `false`, an empty-data or missing-configuration message, empty lists),
 the OpenSRF services the adapters call, and the feature matrix's unused
 modules.

 The JSON responses are inputs, already parsed: a name with no entry had no
 file or a file `json.loads` refused.
 */
module Report {
  import opened Wrappers
  import opened Seqs
  import opened Text
  import opened Sorting
  import opened Paths
  import opened Scanners
  import opened Summary
  import opened Inventory

  // ---------------------------------------------------------------------------
  // HTTP status

  predicate HttpOk(row: Row) {
    row.status == "200"
  }

  predicate HttpNotOk(row: Row) {
    row.status != "200"
  }

  /** `ok_http`: the rows answered with status 200, in order. */
  function OkHttp(summary: seq<Row>): (r: seq<Row>)
    ensures Subseq(r, summary)
    ensures forall row :: row in r <==> row in summary && row.status == "200"
  {
    var r := Filter(summary, HttpOk);
    assert forall row :: row in summary && HttpOk(row) ==> row in r by {
      forall row | row in summary && HttpOk(row) ensures row in r {
        var i :| 0 <= i < |summary| && summary[i] == row;
      }
    }
    r
  }

  /** `non_ok_http`: every other row, in order. */
  function NonOkHttp(summary: seq<Row>): (r: seq<Row>)
    ensures Subseq(r, summary)
    ensures forall row :: row in r <==> row in summary && row.status != "200"
  {
    var r := Filter(summary, HttpNotOk);
    assert forall row :: row in summary && HttpNotOk(row) ==> row in r by {
      forall row | row in summary && HttpNotOk(row) ensures row in r {
        var i :| 0 <= i < |summary| && summary[i] == row;
      }
    }
    r
  }

  /** The two lists partition the summary: each row is in exactly one, and together they are as long as the summary. */
  lemma HttpPartition(summary: seq<Row>)
    ensures |OkHttp(summary)| + |NonOkHttp(summary)| == |summary|
    ensures forall row :: row in summary ==> (row in OkHttp(summary) <==> row !in NonOkHttp(summary))
  {
    FilterSplit(summary, HttpOk, HttpNotOk);
  }

  // ---------------------------------------------------------------------------
  // Audit coverage

  /** `audited_modules`: the first module each summary URL names, over all rows. */
  function Audited(summary: seq<Row>): (r: set<string>)
    ensures forall m :: m in r <==> exists i :: 0 <= i < |summary| && FirstApiModule(summary[i].url) == Some(m)
  {
    if |summary| == 0 then {}
    else
      var rest := Audited(summary[1..]);
      assert forall i :: 1 <= i < |summary| ==> summary[i] == summary[1..][i - 1];
      match FirstApiModule(summary[0].url)
      case None => rest
      case Some(m) => {m} + rest
  }

  /**
   `missing_from_api_audit`: the adapter modules no summary URL names,
   sorted; the outer `sorted` finds the list already in order.
   */
  function MissingFromAudit(apiDirs: seq<string>, summary: seq<Row>): (r: seq<string>)
    ensures Sorted(r) && NoDups(r)
    ensures forall m :: m in r <==> m in apiDirs && m !in Audited(summary)
  {
    var apiModules := SortedUnique(apiDirs);
    SortedUniqueMembers(apiDirs);
    var unaudited := UnusedModules(apiModules, Audited(summary));
    SortedUniqueOfSorted(unaudited);
    SortedNoDups(unaudited);
    SortedUnique(unaudited)
  }

  // ---------------------------------------------------------------------------
  // Signals in the JSON responses

  /** A parsed JSON value; an object keeps its keys in document order. */
  datatype Json =
    | JNull
    | JBool(b: bool)
    | JNum(n: int)
    | JStr(s: string)
    | JList(items: seq<Json>)
    | JObject(fields: seq<(string, Json)>)

  /** Field `i` is the first one named `key`. */
  predicate FirstField(fields: seq<(string, Json)>, key: string, i: int) {
    0 <= i < |fields| && fields[i].0 == key && forall j :: 0 <= j < i ==> fields[j].0 != key
  }

  /** `data.get(key)`: the value of the first field named `key`, or `null` when there is none. */
  function Get(fields: seq<(string, Json)>, key: string): (v: Json)
    ensures v != JNull ==> exists i :: 0 <= i < |fields| && fields[i] == (key, v)
    ensures (forall i :: 0 <= i < |fields| ==> fields[i].0 != key) ==> v == JNull
    ensures forall i :: FirstField(fields, key, i) ==> v == fields[i].1
  {
    if |fields| == 0 then JNull
    else if fields[0].0 == key then fields[0].1
    else
      var v := Get(fields[1..], key);
      assert forall i :: 1 <= i < |fields| ==> fields[i] == fields[1..][i - 1];
      v
  }

  /** The message test, on the lower-cased message. */
  predicate FlagsMessage(msg: string) {
    var m := Lower(msg);
    Contains(m, "not configured") || (Contains(m, "no") && (Contains(m, "configured") || Contains(m, "found")))
  }

  /** `not configured` adds nothing to the test: it already holds `no` and `configured`. */
  lemma MessageTest(msg: string)
    ensures var m := Lower(msg);
      FlagsMessage(msg) <==> Contains(m, "no") && (Contains(m, "configured") || Contains(m, "found"))
  {
    var m := Lower(msg);
    if Contains(m, "not configured") {
      assert "not configured" == "no" + "t " + "configured";
      ContainsOuter(m, "no", "t ", "configured");
    }
  }

  /** The test ignores case: text the message holds in any case, the lowered message holds lowered. */
  lemma LowerKeeps(msg: string, t: string)
    requires Contains(msg, t)
    ensures Contains(Lower(msg), Lower(t))
  {
    var j := IndexOf(msg, t).value;
    assert Lower(msg)[j..j + |t|] == Lower(msg[j..j + |t|]) == Lower(t);
    assert OccursAt(Lower(msg), Lower(t), j);
  }

  /** An entry of the empty-data list: the endpoint and why it looks empty. */
  datatype Empty = Empty(name: string, why: string)

  predicate HoldsEmptyList(field: (string, Json)) {
    field.1 == JList([])
  }

  /** `"<key> is empty"` for every key holding an empty list, in key order. */
  function EmptyLists(name: string, fields: seq<(string, Json)>): (r: seq<Empty>)
    ensures |r| <= |fields|
    ensures forall e :: e in r <==> exists i :: 0 <= i < |fields| && fields[i].1 == JList([]) && e == Empty(name, fields[i].0 + " is empty")
  {
    if |fields| == 0 then []
    else
      var rest := EmptyLists(name, fields[1..]);
      assert forall i :: 1 <= i < |fields| ==> fields[i] == fields[1..][i - 1];
      if fields[0].1 == JList([]) then [Empty(name, fields[0].0 + " is empty")] + rest else rest
  }

  /** The entry `"<key> is empty"` for each of the given fields, in order. */
  function EmptyEntries(name: string, lists: seq<(string, Json)>): (r: seq<Empty>)
    ensures |r| == |lists|
    ensures forall i :: 0 <= i < |r| ==> r[i] == Empty(name, lists[i].0 + " is empty")
  {
    if |lists| == 0 then []
    else
      var rest := EmptyEntries(name, lists[1..]);
      assert forall i :: 1 <= i < |lists| ==> lists[i] == lists[1..][i - 1];
      [Empty(name, lists[0].0 + " is empty")] + rest
  }

  /** One entry per field holding an empty list, in the order of the fields. */
  lemma EmptyListsInOrder(name: string, fields: seq<(string, Json)>)
    ensures var r, empties := EmptyLists(name, fields), Filter(fields, HoldsEmptyList);
      |r| == |empties| && forall i :: 0 <= i < |r| ==> r[i] == Empty(name, empties[i].0 + " is empty")
  {
    EmptyListsEntries(name, fields);
  }

  lemma {:induction false} EmptyListsEntries(name: string, fields: seq<(string, Json)>)
    ensures EmptyLists(name, fields) == EmptyEntries(name, Filter(fields, HoldsEmptyList))
    decreases |fields|
  {
    if |fields| > 0 {
      var later := Filter(fields[1..], HoldsEmptyList);
      assert EmptyLists(name, fields[1..]) == EmptyEntries(name, later) by {
        EmptyListsEntries(name, fields[1..]);
      }
      if HoldsEmptyList(fields[0]) {
        assert Filter(fields, HoldsEmptyList) == [fields[0]] + later;
        assert ([fields[0]] + later)[1..] == later;
      }
    }
  }

  /** The message of a response object, as an empty-data entry when it reads like an empty-data message. */
  function FlaggedMessage(name: string, fields: seq<(string, Json)>): seq<Empty>
  {
    var msg := Get(fields, "message");
    if msg.JStr? && FlagsMessage(msg.s) then [Empty(name, msg.s)] else []
  }

  /** What one endpoint's response adds: an `ok: false` error, and its empty-data entries. */
  datatype Signals = Signals(okFalse: seq<(string, Json)>, empty: seq<Empty>)

  /** The signals of one response; anything but an object adds none. */
  function Inspect(name: string, data: Json): (r: Signals)
    ensures |r.okFalse| <= 1
    ensures r.okFalse != [] <==> data.JObject? && Get(data.fields, "ok") == JBool(false)
    ensures r.okFalse != [] ==> r.okFalse[0] == (name, Get(data.fields, "error"))
    ensures forall e :: e in r.empty ==> e.name == name
    ensures !data.JObject? ==> r.empty == []
  {
    match data
    case JObject(fields) =>
      var okFalse := if Get(fields, "ok") == JBool(false) then [(name, Get(fields, "error"))] else [];
      Signals(okFalse, FlaggedMessage(name, fields) + EmptyLists(name, fields))
    case _ => Signals([], [])
  }

  /** The empty-data entries of a response object: its message when flagged, then one per empty list. */
  lemma InspectEmpty(name: string, fields: seq<(string, Json)>, why: string)
    ensures var msg := Get(fields, "message");
      Empty(name, why) in Inspect(name, JObject(fields)).empty <==>
        (msg.JStr? && FlagsMessage(msg.s) && why == msg.s) ||
        exists i :: 0 <= i < |fields| && fields[i].1 == JList([]) && why == fields[i].0 + " is empty"
  {
    InspectEmptyParts(name, fields);
    var flagged, lists := FlaggedMessage(name, fields), EmptyLists(name, fields);
    assert Empty(name, why) in flagged + lists <==> Empty(name, why) in flagged || Empty(name, why) in lists;
    EmptyListsNamed(name, fields, why);
  }

  /** The empty-data entries of a response object are its flagged message followed by its empty lists. */
  lemma InspectEmptyParts(name: string, fields: seq<(string, Json)>)
    ensures Inspect(name, JObject(fields)).empty == FlaggedMessage(name, fields) + EmptyLists(name, fields)
  {
  }

  /** An entry of the empty lists names one of the fields holding an empty list. */
  lemma EmptyListsNamed(name: string, fields: seq<(string, Json)>, why: string)
    ensures Empty(name, why) in EmptyLists(name, fields) <==>
      exists i :: 0 <= i < |fields| && fields[i].1 == JList([]) && why == fields[i].0 + " is empty"
  {
    if Empty(name, why) in EmptyLists(name, fields) {
      var i :| 0 <= i < |fields| && fields[i].1 == JList([]) && Empty(name, why) == Empty(name, fields[i].0 + " is empty");
      assert why == fields[i].0 + " is empty";
    }
  }

  /** The response of `name` exists, parses, and reports `p` as an `ok: false` error. */
  predicate Reports(name: string, responses: map<string, Json>, p: (string, Json)) {
    name in responses && p in Inspect(name, responses[name]).okFalse
  }

  /** The response of `name` exists, parses, and yields the empty-data entry `e`. */
  predicate Flags(name: string, responses: map<string, Json>, e: Empty) {
    name in responses && e in Inspect(name, responses[name]).empty
  }

  /** The response of the row exists, parses to an object, and has `ok` equal to `false`. */
  predicate OkFalseRow(responses: map<string, Json>, row: Row) {
    row.name in responses && responses[row.name].JObject? && Get(responses[row.name].fields, "ok") == JBool(false)
  }

  /**
   The loop over the summary: each named response that exists and parses, in
   summary order. `ok_false` gets one entry per row whose response says
   `ok: false`, so its length is the count the report prints.
   */
  function InspectAll(summary: seq<Row>, responses: map<string, Json>): (r: Signals)
    ensures |r.okFalse| <= |summary|
  {
    if |summary| == 0 then Signals([], [])
    else
      var rest := InspectAll(summary[1..], responses);
      var s := RowSignals(responses, summary[0]);
      Signals(s.okFalse + rest.okFalse, s.empty + rest.empty)
  }

  /** An error is listed exactly when some row's response reports it, and likewise an empty-data entry. */
  lemma InspectAllMembers(summary: seq<Row>, responses: map<string, Json>)
    ensures forall p :: p in InspectAll(summary, responses).okFalse <==> exists i :: 0 <= i < |summary| && Reports(summary[i].name, responses, p)
    ensures forall e :: e in InspectAll(summary, responses).empty <==> exists i :: 0 <= i < |summary| && Flags(summary[i].name, responses, e)
  {
    OkFalseMembers(summary, responses);
    EmptyMembers(summary, responses);
  }

  lemma {:induction false} OkFalseMembers(summary: seq<Row>, responses: map<string, Json>)
    ensures forall p :: p in InspectAll(summary, responses).okFalse <==> exists i :: 0 <= i < |summary| && Reports(summary[i].name, responses, p)
    decreases |summary|
  {
    if |summary| > 0 {
      OkFalseMembers(summary[1..], responses);
      assert forall i :: 1 <= i < |summary| ==> summary[i] == summary[1..][i - 1];
    }
  }

  lemma {:induction false} EmptyMembers(summary: seq<Row>, responses: map<string, Json>)
    ensures forall e :: e in InspectAll(summary, responses).empty <==> exists i :: 0 <= i < |summary| && Flags(summary[i].name, responses, e)
    decreases |summary|
  {
    if |summary| > 0 {
      EmptyMembers(summary[1..], responses);
      assert forall i :: 1 <= i < |summary| ==> summary[i] == summary[1..][i - 1];
    }
  }

  /** What one summary row adds: the signals of its response, none when it has no parsed response. */
  function RowSignals(responses: map<string, Json>, row: Row): (r: Signals)
    ensures |r.okFalse| <= 1
    ensures r.okFalse != [] <==> OkFalseRow(responses, row)
    ensures r.okFalse != [] ==> r.okFalse[0].0 == row.name
    ensures forall p :: p in r.okFalse <==> Reports(row.name, responses, p)
    ensures forall e :: e in r.empty <==> Flags(row.name, responses, e)
  {
    if row.name in responses then Inspect(row.name, responses[row.name]) else Signals([], [])
  }

  /** `ok_false` names, in summary order, exactly the rows whose response says `ok: false`, once per row. */
  lemma {:induction false} OkFalseInOrder(summary: seq<Row>, responses: map<string, Json>)
    ensures var r, failing := InspectAll(summary, responses).okFalse, Filter(summary, (row: Row) => OkFalseRow(responses, row));
      |r| == |failing| && forall i :: 0 <= i < |r| ==> r[i].0 == failing[i].name
    decreases |summary|
  {
    if |summary| > 0 {
      OkFalseInOrder(summary[1..], responses);
      var s := RowSignals(responses, summary[0]).okFalse;
      var rest := InspectAll(summary[1..], responses).okFalse;
      OkFalseStep(summary[0], s, rest, Filter(summary[1..], (row: Row) => OkFalseRow(responses, row)), responses);
    }
  }

  lemma OkFalseStep(row: Row, s: seq<(string, Json)>, rest: seq<(string, Json)>, failing: seq<Row>, responses: map<string, Json>)
    requires |s| <= 1 && (s != [] <==> OkFalseRow(responses, row)) && (s != [] ==> s[0].0 == row.name)
    requires |rest| == |failing| && forall i :: 0 <= i < |rest| ==> rest[i].0 == failing[i].name
    ensures var r, all := s + rest, if OkFalseRow(responses, row) then [row] + failing else failing;
      |r| == |all| && forall i :: 0 <= i < |r| ==> r[i].0 == all[i].name
  {
    var r := s + rest;
    assert forall i :: |s| <= i < |r| ==> r[i] == rest[i - |s|];
  }

  /** Inspecting two runs of rows one after the other gives the first run's signals, then the second's. */
  lemma InspectAllConcat(a: seq<Row>, b: seq<Row>, responses: map<string, Json>)
    ensures InspectAll(a + b, responses).okFalse == InspectAll(a, responses).okFalse + InspectAll(b, responses).okFalse
    ensures InspectAll(a + b, responses).empty == InspectAll(a, responses).empty + InspectAll(b, responses).empty
  {
    OkFalseConcat(a, b, responses);
    EmptyConcat(a, b, responses);
  }

  lemma {:induction false} OkFalseConcat(a: seq<Row>, b: seq<Row>, responses: map<string, Json>)
    ensures InspectAll(a + b, responses).okFalse == InspectAll(a, responses).okFalse + InspectAll(b, responses).okFalse
    decreases |a|
  {
    if |a| == 0 {
      assert a + b == b;
    } else {
      var ab := a + b;
      assert ab[0] == a[0] && ab[1..] == a[1..] + b;
      OkFalseConcat(a[1..], b, responses);
      AppendAssoc(RowSignals(responses, a[0]).okFalse, InspectAll(a[1..], responses).okFalse, InspectAll(b, responses).okFalse);
    }
  }

  lemma {:induction false} EmptyConcat(a: seq<Row>, b: seq<Row>, responses: map<string, Json>)
    ensures InspectAll(a + b, responses).empty == InspectAll(a, responses).empty + InspectAll(b, responses).empty
    decreases |a|
  {
    if |a| == 0 {
      assert a + b == b;
    } else {
      var ab := a + b;
      assert ab[0] == a[0] && ab[1..] == a[1..] + b;
      EmptyConcat(a[1..], b, responses);
      AppendAssoc(RowSignals(responses, a[0]).empty, InspectAll(a[1..], responses).empty, InspectAll(b, responses).empty);
    }
  }

  lemma AppendAssoc<T>(x: seq<T>, y: seq<T>, z: seq<T>)
    ensures x + (y + z) == (x + y) + z
  {
  }

  // ---------------------------------------------------------------------------
  // OpenSRF services and the feature matrix

  /** Every service the adapter route files call, over all of them. */
  function AllServices(routeTexts: seq<string>): (r: seq<string>)
    ensures forall m :: m in r <==> exists i :: 0 <= i < |routeTexts| && m in OsrfServices(routeTexts[i])
  {
    if |routeTexts| == 0 then []
    else
      var rest := AllServices(routeTexts[1..]);
      assert forall i :: 1 <= i < |routeTexts| ==> routeTexts[i] == routeTexts[1..][i - 1];
      OsrfUsage(routeTexts[0]) + rest
  }

  /** `services`: the OpenSRF services the adapters call, sorted and without repeats. */
  function Services(routeTexts: seq<string>): (r: seq<string>)
    ensures Sorted(r) && NoDups(r)
    ensures forall m :: m in r <==> exists i :: 0 <= i < |routeTexts| && m in OsrfServices(routeTexts[i])
  {
    var all := AllServices(routeTexts);
    SortedUniqueMembers(all);
    SortedUnique(all)
  }

  /** A service name is a quoted argument of some `callOpenSRF(` in the route files. */
  lemma ServiceQuoted(routeTexts: seq<string>, m: string)
    requires m in Services(routeTexts)
    ensures exists i :: 0 <= i < |routeTexts| && QuotedIn(routeTexts[i], m)
  {
    var i :| 0 <= i < |routeTexts| && m in OsrfServices(routeTexts[i]);
    var k :| 0 <= k < |OsrfServices(routeTexts[i])| && OsrfServices(routeTexts[i])[k] == m;
  }

  /** `unused` of the feature matrix: the adapter modules no staff page calls, in sorted order. */
  function FeatureUnused(staffDir: Path, pages: seq<Path>, routeDirs: seq<string>, texts: map<Path, string>): (r: seq<string>)
    requires UnderStaff(staffDir, pages)
    ensures Sorted(r)
    ensures forall m :: m in r <==> m in routeDirs && forall i :: 0 <= i < |pages| ==> m !in ApiModules(TextOf(texts, pages[i]))
  {
    var usage := PageUsage(StaffRoutes(staffDir, pages), texts);
    var apiRoutes := SortedUnique(routeDirs);
    SortedUniqueMembers(routeDirs);
    var r := UnusedModules(apiRoutes, AllUsed(usage));
    forall m ensures m in r <==> m in routeDirs && forall i :: 0 <= i < |pages| ==> m !in ApiModules(TextOf(texts, pages[i])) {
      UsedSomewhere(staffDir, pages, texts, m);
    }
    r
  }

  lemma UsedSomewhere(staffDir: Path, pages: seq<Path>, texts: map<Path, string>, m: string)
    requires UnderStaff(staffDir, pages)
    ensures m in AllUsed(PageUsage(StaffRoutes(staffDir, pages), texts)) <==> exists i :: 0 <= i < |pages| && m in ApiModules(TextOf(texts, pages[i]))
  {
    var routes := StaffRoutes(staffDir, pages);
    var usage := PageUsage(routes, texts);
    if m in AllUsed(usage) {
      var i :| 0 <= i < |usage| && m in usage[i].mods;
      assert routes[i].page == pages[i];
    }
    if i :| 0 <= i < |pages| && m in ApiModules(TextOf(texts, pages[i])) {
      assert routes[i].page == pages[i];
      assert m in usage[i].mods;
    }
  }

  /** Given the same module directories, the feature matrix and the inventory report the same unused modules. */
  lemma FeatureMatrixAgrees(t: Tree)
    requires UnderStaff(t.staffDir, t.pages)
    ensures FeatureUnused(t.staffDir, t.pages, t.apiDirs, t.texts) == Survey(t).unused
  {
    var a := FeatureUnused(t.staffDir, t.pages, t.apiDirs, t.texts);
    var b := Survey(t).unused;
    forall m ensures m in a <==> m in b {
      UnusedMeansUncalled(t, m);
    }
    assert Elems(a) == Elems(b);
    SortedUniqueness(a, b);
  }
}
