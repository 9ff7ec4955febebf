/** Facts about the binding-clause parser: per-token rules and the documented cases. */
module ClauseFacts {
  import opened Wrappers
  import opened Text
  import opened Clause

  /** A name with no whitespace in it (an identifier, as far as the parser cares). */
  predicate Word(x: string) {
    |x| > 0 && forall i :: 0 <= i < |x| ==> !IsSpace(x[i])
  }


  /** In `a + " as " + b` with a whitespace-free `a`, the first ` as ` is the one after `a`. */
  lemma FirstAs(a: string, b: string)
    requires Word(a) && Word(b)
    ensures IndexOf(a + " as " + b, " as ") == Some(|a|)
  {
    var t := a + " as " + b;
    assert OccursAt(t, " as ", |a|) by {
      assert t[|a|..|a| + 4] == " as ";
    }
    forall j | 0 <= j < |a| ensures !OccursAt(t, " as ", j) {
      OccursFirstChar(t, " as ", j);
      assert t[j] == a[j];
    }
    var r := IndexOf(t, " as ");
    assert r.Some? && r.value <= |a|;
  }

  lemma OccursFirstChar(s: string, t: string, j: int)
    requires |t| > 0
    ensures OccursAt(s, t, j) ==> s[j] == t[0]
  {
    if OccursAt(s, t, j) {
      assert s[j..j + |t|][0] == s[j];
    }
  }

  /** A whitespace-free `a` other than `default` does not start `a + " as " + b` with `default as `. */
  lemma NotDefaultAs(a: string, rest: string)
    requires Word(a) && a != "default"
    requires |rest| > 0 && rest[0] == ' '
    ensures !("default as " <= a + rest)
  {
    var t := a + rest;
    if |a| >= 8 {
      assert t[7] == a[7];
    } else if |a| == 7 {
      assert t[..7] == a;
    } else {
      assert t[|a|] == ' ';
      assert "default as "[|a|] != ' ';
    }
  }

  lemma NoAs(x: string)
    requires Word(x)
    ensures IndexOf(x, " as ").None?
  {
    forall j ensures !OccursAt(x, " as ", j) {
      if 0 <= j && j + 4 <= |x| {
        assert x[j..j + 4][0] == x[j];
      }
    }
  }

  lemma WordStrip(x: string)
    requires Word(x)
    ensures Strip(x) == x
  {
  }

  /** A whitespace-free token passes the `type` rule, is no `default as `, and holds no ` as `. */
  lemma PlainWord(x: string)
    requires Word(x)
    ensures Strip(x) == x && DropTypePrefix(x) == x && !("default as " <= x) && IndexOf(x, " as ").None?
  {
    WordStrip(x);
    assert DropTypePrefix(x) == x by {
      if |x| > 4 {
        assert !IsSpace(x[4]);
      }
    }
    assert !("default as " <= x) by {
      if |x| >= 11 {
        assert !IsSpace(x[7]);
      }
    }
    NoAs(x);
  }

  /** `default as X` requests `X`. */
  lemma ImportDefaultAs(x: string)
    requires Word(x)
    ensures ImportedName("default as " + x) == Some(x)
  {
    var t := "default as " + x;
    assert t[0] == 'd' && t[|t| - 1] == x[|x| - 1];
    assert Strip(t) == t;
    assert t[..4] != "type";
    assert t[11..] == x;
  }

  /** `A as B` requests the exported name `A`, not the local alias `B`. */
  lemma ImportRenamed(a: string, b: string)
    requires Word(a) && Word(b)
    requires a != "type" && a != "default"
    ensures ImportedName(a + " as " + b) == Some(a)
  {
    var t := a + " as " + b;
    RenamedTokenIntact(a, b);
    NotDefaultAs(a, " as " + b);
    assert t == a + (" as " + b);
    FirstAs(a, b);
    assert t[..|a|] == a;
    WordStrip(a);
  }

  /** A bare name requests itself. */
  lemma ImportPlain(x: string)
    requires Word(x)
    ensures ImportedName(x) == Some(x)
  {
    PlainWord(x);
  }

  /** A leading `type` is stripped and the name after it is still requested. */
  lemma ImportTypeQualified(x: string)
    requires Word(x)
    ensures ImportedName("type " + x) == Some(x)
  {
    TypeDropped(x);
    PlainWord(x);
  }

  lemma TypeDropped(x: string)
    requires Word(x)
    ensures Strip("type " + x) == "type " + x
    ensures DropTypePrefix("type " + x) == x
  {
    var t := "type " + x;
    TypeShape(x);
    SpaceThenWord(x);
  }

  lemma TypeShape(x: string)
    requires Word(x)
    ensures var t := "type " + x; |t| > 4 && t[0] == 't' && t[|t| - 1] == x[|x| - 1] && t[..4] == "type" && t[4..] == " " + x
  {
  }

  lemma SpaceThenWord(x: string)
    requires Word(x)
    ensures IsSpace((" " + x)[0]) && TrimStart((" " + x)) == x
  {
    var u := " " + x;
    assert u[1..] == x;
    assert LeadingSpaces(u[1..]) == 0;
  }

  /** `a as b` with whitespace-free names is left alone by stripping and by the `type` rule. */
  lemma RenamedTokenIntact(a: string, b: string)
    requires Word(a) && Word(b)
    requires a != "type"
    ensures Strip(a + " as " + b) == a + " as " + b
    ensures DropTypePrefix(a + " as " + b) == a + " as " + b
  {
    var t := a + " as " + b;
    assert t[0] == a[0] && t[|t| - 1] == b[|b| - 1];
    NoTypePrefix(a, " as " + b);
    assert t == a + (" as " + b);
  }

  lemma NoTypePrefix(a: string, rest: string)
    requires Word(a) && a != "type"
    requires |rest| > 0 && rest[0] == ' '
    ensures DropTypePrefix(a + rest) == a + rest
  {
    var t := a + rest;
    if |a| > 4 {
      assert t[4] == a[4];
    } else if |a| == 4 {
      assert t[..4] == a;
    } else {
      assert t[|a|] == ' ';
      assert "type"[|a|] != ' ';
    }
  }

  lemma PublishedRenamed(a: string, b: string)
    requires Word(a) && Word(b)
    requires a != "default"
    ensures PublishedName(a + " as " + b) == b
  {
    var t := a + " as " + b;
    NotDefaultAs(a, " as " + b);
    assert t == a + (" as " + b);
    FirstAs(a, b);
    assert t[..|a|] == a && t[|a| + 4..] == b;
    assert SplitOnce(t, " as ") == Some((a, b));
    WordStrip(b);
  }

  /** `A as X` and `default as X` inside `export { ... } from` both publish `X`. */
  lemma ExportRenamed(a: string, b: string)
    requires Word(a) && Word(b)
    requires a != "type" && a != "default"
    ensures ExportedName(a + " as " + b) == Some(b)
  {
    RenamedTokenIntact(a, b);
    PublishedRenamed(a, b);
  }

  lemma ExportDefaultAs(x: string)
    requires Word(x)
    ensures ExportedName("default as " + x) == Some(x)
  {
    var t := "default as " + x;
    assert t[0] == 'd' && t[|t| - 1] == x[|x| - 1];
    assert Strip(t) == t;
    assert t[..4] != "type";
    assert t[11..] == x;
  }

  /** A bare name inside `export { ... } from` publishes itself. */
  lemma ExportPlain(x: string)
    requires Word(x)
    ensures ExportedName(x) == Some(x)
  {
    PlainWord(x);
  }

  // ---------------------------------------------------------------------------
  // Whole clauses

  /** The names a clause asks for depend only on its stripped text. */
  lemma StripTwice(s: string)
    ensures Strip(Strip(s)) == Strip(s)
  {
  }

  lemma ImportedNameStripped(p: string)
    ensures ImportedName(p) == ImportedName(Strip(p))
  {
    StripTwice(p);
  }

  lemma ExportedNameStripped(p: string)
    ensures ExportedName(p) == ExportedName(Strip(p))
  {
    StripTwice(p);
  }

  /** A padded `A as B` piece of an export list publishes `B`. */
  lemma ExportRenamedPadded(a: string, b: string)
    requires Word(a) && Word(b) && a != "type" && a != "default"
    ensures ExportedName(" " + (a + " as " + b)) == Some(b)
  {
    var t := a + " as " + b;
    assert t[0] == a[0] && t[|t| - 1] == b[|b| - 1];
    StripPadded(t);
    ExportedNameStripped(" " + t);
    ExportRenamed(a, b);
  }

  /** Text that already has non-space ends loses exactly the padding put around it. */
  lemma StripPadded(t: string)
    requires |t| > 0 && !IsSpace(t[0]) && !IsSpace(t[|t| - 1])
    ensures Strip(" " + t + " ") == t
    ensures Strip(" " + t) == t
  {
    var s := " " + t + " ";
    assert s[1..] == t + " ";
    assert LeadingSpaces(s[1..]) == 0;
    assert s[..|s| - 1] == " " + t;
    assert TrailingStart(s[..|s| - 1]) == |t| + 1;
    assert s[1..|t| + 1] == t;
    var u := " " + t;
    assert u[1..] == t;
    assert LeadingSpaces(u[1..]) == 0;
  }

  lemma FindLastCharAt(s: string, c: char, k: nat)
    requires k < |s| && s[k] == c && c !in s[k + 1..]
    ensures FindLastChar(s, c) == Some(k)
    decreases |s|
  {
    if k < |s| - 1 {
      assert s[|s| - 1] in s[k + 1..];
      var s' := s[..|s| - 1];
      assert s'[k + 1..] == s[k + 1..|s| - 1];
      FindLastCharAt(s', c, k);
    }
  }

  /** A token fit to sit alone between braces: non-space ends, no comma and no brace. */
  predicate Token(t: string) {
    |t| > 0 && !IsSpace(t[0]) && !IsSpace(t[|t| - 1]) && ',' !in t && '{' !in t && '}' !in t
  }

  lemma ClauseWithoutComma(raw: string)
    requires Strip(raw) == raw && |raw| > 0 && raw[0] != '*'
    requires ',' !in raw
    ensures ParseImportClause(raw) == ParseBindings({}, raw)
  {
    assert FindChar(raw, ',').None?;
  }

  lemma ClauseWithComma(raw: string, k: nat)
    requires Strip(raw) == raw && |raw| > 0 && raw[0] != '*'
    requires k < |raw| && raw[k] == ',' && ',' !in raw[..k] && '{' in raw
    ensures ParseImportClause(raw) ==
      ParseBindings(if Strip(raw[..k]) != "" then {"default"} else {}, Strip(raw[k + 1..]))
  {
    FindCharAt(raw, ',', k);
  }

  lemma ImportedNamesSingle(p: string)
    ensures ImportedNames([p]) == Contribution(ImportedName(p))
  {
    var o := ImportedName(p);
    forall n ensures n in ImportedNames([p]) <==> n in Contribution(o) {
      if n in ImportedNames([p]) {
        var q :| q in [p] && ImportedName(q) == Some(n);
        assert q == p;
      }
      if n in Contribution(o) {
        assert p in [p];
      }
    }
  }

  lemma ImportedNamePadded(t: string)
    requires Token(t)
    ensures ImportedName(" " + t + " ") == ImportedName(t)
  {
    StripPadded(t);
    ImportedNameStripped(" " + t + " ");
    ImportedNameStripped(t);
  }

  lemma BindingsBraced(imported: set<string>, t: string)
    requires "" !in imported
    requires Token(t)
    ensures ParseBindings(imported, "{ " + t + " }") == NoneIfEmpty(imported + Contribution(ImportedName(t)))
  {
    var raw := "{ " + t + " }";
    var inside := " " + t + " ";
    assert raw == "{" + inside + "}";
    FindCharAt(raw, '{', 0);
    FindLastCharAt(raw, '}', |raw| - 1);
    assert raw[1..|raw| - 1] == inside;
    assert BracedBody(raw) == Some(inside);
    SplitSingle(inside);
    ImportedNamesSingle(inside);
    ImportedNamePadded(t);
  }

  lemma SplitSingle(s: string)
    requires ',' !in s
    ensures Split(s, ',') == [s]
  {
    assert FindChar(s, ',').None?;
  }

  lemma BracedTokenStripped(t: string)
    requires Token(t)
    ensures Strip("{ " + t + " }") == "{ " + t + " }"
    ensures ',' !in "{ " + t + " }"
    ensures |"{ " + t + " }"| > 0 && ("{ " + t + " }")[0] == '{'
  {
    var raw := "{ " + t + " }";
    assert raw[0] == '{' && raw[|raw| - 1] == '}';
  }

  /** `{ t }` asks for exactly what the single token `t` contributes. */
  lemma BracedOne(t: string)
    requires Token(t)
    ensures ParseImportClause("{ " + t + " }") == NoneIfEmpty(Contribution(ImportedName(t)))
  {
    BracedClause(t);
    BindingsBraced({}, t);
    assert {} + Contribution(ImportedName(t)) == Contribution(ImportedName(t));
  }

  lemma BracedClause(t: string)
    requires Token(t)
    ensures ParseImportClause("{ " + t + " }") == ParseBindings({}, "{ " + t + " }")
  {
    BracedTokenStripped(t);
    ClauseWithoutComma("{ " + t + " }");
  }

  /**
   The braced body at given braces: with `i` the first `{` and `j` the last `}`,
   there is a body exactly when `j` comes after `i`, and it is the text between.
   */
  lemma BracedBodyAt(raw: string, i: nat, j: nat)
    requires i < |raw| && raw[i] == '{' && '{' !in raw[..i]
    requires j < |raw| && raw[j] == '}' && '}' !in raw[j + 1..]
    ensures BracedBody(raw).Some? <==> i < j
    ensures i < j ==> BracedBody(raw) == Some(raw[i + 1..j])
  {
    FindCharAt(raw, '{', i);
    FindLastCharAt(raw, '}', j);
  }

  /** The names `name` gives the pieces, one per piece that it names something for. */
  function Collect(pieces: seq<string>, name: string -> Option<string>): set<string>
  {
    set k | 0 <= k < |pieces| && name(pieces[k]).Some? :: name(pieces[k]).value
  }

  /** The names the pieces of a braced list contribute, one per piece that names something. */
  function ListNames(pieces: seq<string>): set<string>
  {
    Collect(pieces, ImportedName)
  }

  lemma CollectThree(pieces: seq<string>, name: string -> Option<string>, n0: string, n1: string, n2: string)
    requires |pieces| == 3
    requires name(pieces[0]) == Some(n0) && name(pieces[1]) == Some(n1) && name(pieces[2]) == Some(n2)
    ensures Collect(pieces, name) == {n0, n1, n2}
  {
    forall n ensures n in Collect(pieces, name) <==> n in {n0, n1, n2} {
      if n == n0 {
        assert n == name(pieces[0]).value;
      } else if n == n1 {
        assert n == name(pieces[1]).value;
      } else if n == n2 {
        assert n == name(pieces[2]).value;
      }
    }
  }

  lemma ImportedNamesIndexed(pieces: seq<string>)
    ensures ImportedNames(pieces) == ListNames(pieces)
  {
    forall n ensures n in ImportedNames(pieces) <==> n in ListNames(pieces) {
      if n in ImportedNames(pieces) {
        var p :| p in pieces && ImportedName(p) == Some(n);
        var k :| 0 <= k < |pieces| && pieces[k] == p;
      }
    }
  }

  /** Brace- and comma-free pieces, as a braced list is made of. */
  predicate ListPieces(pieces: seq<string>) {
    |pieces| >= 1 && forall k :: 0 <= k < |pieces| ==> ',' !in pieces[k] && '{' !in pieces[k] && '}' !in pieces[k]
  }

  /** A braced list adds the name of each of its pieces to what was found before it. */
  lemma BindingsList(imported: set<string>, pieces: seq<string>)
    requires "" !in imported
    requires ListPieces(pieces)
    ensures ParseBindings(imported, "{" + Join(pieces, ',') + "}") == NoneIfEmpty(imported + ListNames(pieces))
  {
    var body := Join(pieces, ',');
    var raw := "{" + body + "}";
    JoinAvoids(pieces, ',', '{');
    JoinAvoids(pieces, ',', '}');
    assert raw[0] == '{' && raw[|raw| - 1] == '}';
    assert raw[1..|raw| - 1] == body;
    BracedBodyAt(raw, 0, |raw| - 1);
    SplitJoin(pieces, ',');
    ImportedNamesIndexed(pieces);
  }

  lemma ListClauseShape(d: string, body: string)
    requires Token(d) && d[0] != '*'
    ensures var raw := d + ", {" + body + "}";
      Strip(raw) == raw && raw[0] != '*' && '{' in raw &&
      raw[|d|] == ',' && raw[..|d|] == d && ',' !in d &&
      raw[|d| + 1..] == " " + ("{" + body + "}")
  {
    var raw := d + ", {" + body + "}";
    assert raw[0] == d[0] && raw[|raw| - 1] == '}';
    assert raw[|d| + 2] == '{';
    assert raw[..|d|] == d;
    StripPlain(raw);
  }

  /**
   `D, {p1,p2,…}`: the default binding plus the name of every piece of the
   list, whatever number of pieces it has.
   */
  lemma DefaultPlusList(d: string, pieces: seq<string>)
    requires Token(d) && d[0] != '*'
    requires ListPieces(pieces)
    ensures ParseImportClause(d + ", {" + Join(pieces, ',') + "}") == Some({"default"} + ListNames(pieces))
  {
    ListClause(d, Join(pieces, ','));
    BindingsList({"default"}, pieces);
  }

  /** After a non-blank default part, the braced rest is parsed with the default already found. */
  lemma ListClause(d: string, body: string)
    requires Token(d) && d[0] != '*'
    ensures ParseImportClause(d + ", {" + body + "}") == ParseBindings({"default"}, "{" + body + "}")
  {
    var braced := "{" + body + "}";
    var raw := d + ", {" + body + "}";
    ListClauseShape(d, body);
    ClauseWithComma(raw, |d|);
    StripPlain(d);
    assert braced[0] == '{' && braced[|braced| - 1] == '}';
    StripPadded(braced);
  }

  /** Words fit for the list `x, type y, a as b`: brace- and comma-free, and `a` not a keyword. */
  predicate MixedWords(x: string, y: string, a: string, b: string) {
    Word(x) && Word(y) && Word(a) && Word(b) &&
    Token(x) && Token(y) && Token(a) && Token(b) &&
    a != "type" && a != "default"
  }

  /** `D, { x, type y, a as b }`: the default binding, a plain name, a type-qualified name and a renamed one. */
  lemma DefaultPlusMixedList(d: string, x: string, y: string, a: string, b: string)
    requires Token(d) && d[0] != '*'
    requires MixedWords(x, y, a, b)
    ensures ParseImportClause(d + ", { " + x + ", type " + y + ", " + a + " as " + b + " }") == Some({"default", x, y, a})
  {
    var pieces := [" " + x, " type " + y, " " + (a + " as " + b) + " "];
    MixedPieces(pieces, x, y, a, b);
    MixedList(d, pieces, x, y, a);
    MixedText(d, pieces, x, y, a, b);
  }

  lemma MixedList(d: string, pieces: seq<string>, x: string, y: string, a: string)
    requires Token(d) && d[0] != '*'
    requires ListPieces(pieces) && ListNames(pieces) == {x, y, a}
    ensures ParseImportClause(d + ", {" + Join(pieces, ',') + "}") == Some({"default", x, y, a})
  {
    DefaultPlusList(d, pieces);
    DefaultAndThree(ParseImportClause(d + ", {" + Join(pieces, ',') + "}"), ListNames(pieces), x, y, a);
  }

  lemma DefaultAndThree(v: Option<set<string>>, names: set<string>, x: string, y: string, a: string)
    requires v == Some({"default"} + names) && names == {x, y, a}
    ensures v == Some({"default", x, y, a})
  {
    assert {"default"} + {x, y, a} == {"default", x, y, a};
  }

  lemma MixedText(d: string, pieces: seq<string>, x: string, y: string, a: string, b: string)
    requires pieces == [" " + x, " type " + y, " " + (a + " as " + b) + " "]
    ensures d + ", {" + Join(pieces, ',') + "}" == d + ", { " + x + ", type " + y + ", " + a + " as " + b + " }"
  {
    assert Join(pieces[2..], ',') == pieces[2];
    assert Join(pieces[1..], ',') == pieces[1] + [','] + pieces[2];
    assert Join(pieces, ',') == pieces[0] + [','] + (pieces[1] + [','] + pieces[2]);
  }

  lemma MixedPieces(pieces: seq<string>, x: string, y: string, a: string, b: string)
    requires pieces == [" " + x, " type " + y, " " + (a + " as " + b) + " "]
    requires MixedWords(x, y, a, b)
    ensures ListPieces(pieces)
    ensures ListNames(pieces) == {x, y, a}
  {
    MixedFree(pieces, x, y, a, b);
    PlainPiece(pieces[0], x);
    TypePiece(pieces[1], y);
    RenamedPiece(pieces[2], a, b);
    CollectThree(pieces, ImportedName, x, y, a);
  }

  lemma MixedFree(pieces: seq<string>, x: string, y: string, a: string, b: string)
    requires pieces == [" " + x, " type " + y, " " + (a + " as " + b) + " "]
    requires MixedWords(x, y, a, b)
    ensures ListPieces(pieces)
  {
    RenamedToken(a, b);
    TypeToken(y);
    LeftPaddedFree(x);
    LeftPaddedFree("type " + y);
    PaddedFree(a + " as " + b);
    assert " type " + y == " " + ("type " + y);
    ThreeFree(pieces);
  }

  lemma ThreeFree(pieces: seq<string>)
    requires |pieces| == 3
    requires ',' !in pieces[0] && '{' !in pieces[0] && '}' !in pieces[0]
    requires ',' !in pieces[1] && '{' !in pieces[1] && '}' !in pieces[1]
    requires ',' !in pieces[2] && '{' !in pieces[2] && '}' !in pieces[2]
    ensures ListPieces(pieces)
  {
  }

  lemma PlainPiece(p: string, x: string)
    requires Word(x) && Token(x) && p == " " + x
    ensures ImportedName(p) == Some(x)
  {
    ImportPlain(x);
    PaddedName(x, x);
  }

  lemma TypePiece(p: string, y: string)
    requires Word(y) && Token(y) && p == " type " + y
    ensures ImportedName(p) == Some(y)
  {
    assert p == " " + ("type " + y);
    TypeToken(y);
    ImportTypeQualified(y);
    PaddedName("type " + y, y);
  }

  lemma RenamedPiece(p: string, a: string, b: string)
    requires Word(a) && Word(b) && Token(a) && Token(b)
    requires a != "type" && a != "default"
    requires p == " " + (a + " as " + b) + " "
    ensures ImportedName(p) == Some(a)
  {
    RenamedToken(a, b);
    ImportRenamed(a, b);
    ImportedNamePadded(a + " as " + b);
  }

  /** A token padded on both sides holds no comma or brace either. */
  lemma PaddedFree(t: string)
    requires Token(t)
    ensures ',' !in " " + t + " " && '{' !in " " + t + " " && '}' !in " " + t + " "
  {
    var s := " " + t + " ";
    assert forall i :: 1 <= i < |s| - 1 ==> s[i] == t[i - 1];
  }

  lemma LeftPaddedFree(t: string)
    requires Token(t)
    ensures ',' !in " " + t && '{' !in " " + t && '}' !in " " + t
  {
    var s := " " + t;
    assert forall i :: 1 <= i < |s| ==> s[i] == t[i - 1];
  }

  /** A piece with one leading space names what its token names. */
  lemma PaddedName(t: string, n: string)
    requires Token(t) && ImportedName(t) == Some(n)
    ensures ImportedName(" " + t) == Some(n)
  {
    StripPadded(t);
    ImportedNameStripped(" " + t);
  }

  lemma TypeToken(y: string)
    requires Word(y) && Token(y)
    ensures Token("type " + y)
  {
    var t := "type " + y;
    assert t[|t| - 1] == y[|y| - 1];
    assert forall i :: 5 <= i < |t| ==> t[i] == y[i - 5];
  }

  /** A renamed pair of brace-free, comma-free words is itself such a token. */
  lemma RenamedToken(a: string, b: string)
    requires Word(a) && Word(b) && Token(a) && Token(b)
    ensures Token(a + " as " + b)
  {
    var t := a + " as " + b;
    assert t[0] == a[0] && t[|t| - 1] == b[|b| - 1];
    forall i | 0 <= i < |t| ensures t[i] != ',' && t[i] != '{' && t[i] != '}' {
      if i < |a| {
        assert t[i] == a[i];
      } else if i >= |a| + 4 {
        assert t[i] == b[i - |a| - 4];
      }
    }
  }

  /** `D, { t }` asks for the default binding plus what `t` contributes. */
  lemma DefaultPlusBraced(d: string, t: string)
    requires Token(d) && Token(t) && d[0] != '*'
    ensures ParseImportClause(d + ", { " + t + " }") == Some({"default"} + Contribution(ImportedName(t)))
  {
    PaddedBodyText(d, t);
    ListClause(d, " " + t + " ");
    BindingsBraced({"default"}, t);
  }

  /** The one-token list `{ t }` is the braced body ` t ` with its braces. */
  lemma PaddedBodyText(d: string, t: string)
    ensures d + ", {" + (" " + t + " ") + "}" == d + ", { " + t + " }"
    ensures "{" + (" " + t + " ") + "}" == "{ " + t + " }"
  {
  }

  /** `D, { A as B }` asks for the default binding and `A`. */
  lemma DefaultPlusNamed(d: string, a: string, b: string)
    requires Word(d) && Word(a) && Word(b)
    requires Token(d) && Token(a) && Token(b)
    requires d[0] != '*' && a != "type" && a != "default"
    ensures ParseImportClause(d + ", { " + a + " as " + b + " }") == Some({"default", a})
  {
    var t := a + " as " + b;
    RenamedToken(a, b);
    ImportRenamed(a, b);
    DefaultPlusName(d, t, a);
    RenamedClauseText(d, a, b);
  }

  lemma DefaultPlusName(d: string, t: string, n: string)
    requires Token(d) && Token(t) && d[0] != '*'
    requires ImportedName(t) == Some(n)
    ensures ParseImportClause(d + ", { " + t + " }") == Some({"default", n})
  {
    DefaultPlusBraced(d, t);
    assert {"default"} + {n} == {"default", n};
  }

  lemma RenamedClauseText(d: string, a: string, b: string)
    ensures d + ", { " + a + " as " + b + " }" == d + ", { " + (a + " as " + b) + " }"
  {
  }

  lemma BraceFirstCommaShape(x: string, y: string)
    requires Token(x) && Token(y)
    ensures Strip("{ " + x + ", " + y + " }") == "{ " + x + ", " + y + " }"
    ensures ("{ " + x + ", " + y + " }")[|x| + 2] == ','
    ensures ',' !in ("{ " + x + ", " + y + " }")[..|x| + 2]
    ensures ("{ " + x + ", " + y + " }")[..|x| + 2] == "{ " + x
    ensures ("{ " + x + ", " + y + " }")[|x| + 3..] == " " + (y + " }")
  {
    var raw := "{ " + x + ", " + y + " }";
    assert raw[0] == '{' && raw[|raw| - 1] == '}';
    assert raw[..|x| + 2] == "{ " + x;
  }

  /**
   A brace-first list with a comma is cut at its first comma as if it were
   `default, named`: `{ X, Y }` asks only for the default binding.
   */
  lemma BraceFirstComma(x: string, y: string)
    requires Token(x) && Token(y) && y[0] != '*'
    ensures ParseImportClause("{ " + x + ", " + y + " }") == Some({"default"})
  {
    BraceFirstCommaSplit(x, y);
    BraceFirstCommaTail(y);
  }

  lemma BraceFirstCommaSplit(x: string, y: string)
    requires Token(x) && Token(y)
    ensures ParseImportClause("{ " + x + ", " + y + " }") == ParseBindings({"default"}, Strip(" " + (y + " }")))
  {
    var head := "{ " + x;
    var raw := "{ " + x + ", " + y + " }";
    BraceFirstCommaShape(x, y);
    assert raw[0] == '{' && '{' in raw;
    ClauseWithComma(raw, |head|);
    assert head[0] == '{' && head[|head| - 1] == x[|x| - 1];
    assert Strip(head) == head;
  }

  lemma BraceFirstCommaTail(y: string)
    requires Token(y) && y[0] != '*'
    ensures ParseBindings({"default"}, Strip(" " + (y + " }"))) == Some({"default"})
  {
    var tail := y + " }";
    assert tail[0] == y[0] && tail[|tail| - 1] == '}';
    StripPadded(tail);
    assert '{' !in tail;
    assert {"default"} + {"default"} == {"default"};
  }

  // Concrete clauses. Each literal fact sits in a lemma of its own so that the
  // solver never has to evaluate the parser on a literal.

  lemma LiteralTokens()
    ensures Word("Foo") && Token("Foo") && Word("Bar") && Token("Bar") && Word("Baz") && Token("Baz")
    ensures Word("X") && Word("A") && Token("default as X") && Token("type A")
  {
    ThreeLetters("Foo");
    ThreeLetters("Bar");
    ThreeLetters("Baz");
    assert Word("X") && Word("A");
    KeywordTokens();
  }

  lemma KeywordTokens()
    ensures Token("default as X") && Token("type A")
  {
  }

  lemma ThreeLetters(x: string)
    requires |x| == 3 && 'A' <= x[0] <= 'Z' && 'a' <= x[1] <= 'z' && 'a' <= x[2] <= 'z'
    ensures Word(x) && Token(x)
  {
  }

  /** `{ x }` with a bare name asks for exactly that name. */
  lemma BracedPlain(x: string)
    requires Word(x) && Token(x)
    ensures ParseImportClause("{ " + x + " }") == Some({x})
  {
    BracedOne(x);
    ImportPlain(x);
    assert Contribution(Some(x)) == {x};
  }

  lemma BracedBar()
    ensures ParseImportClause("{ Bar }") == Some({"Bar"})
  {
    LiteralTokens();
    assert "{ Bar }" == "{ " + "Bar" + " }";
    BracedPlain("Bar");
  }

  lemma BracedDefaultAs()
    ensures ParseImportClause("{ default as X }") == Some({"X"})
  {
    LiteralTokens();
    assert "{ default as X }" == "{ " + "default as X" + " }";
    assert "default as X" == "default as " + "X";
    BracedOne("default as X");
    ImportDefaultAs("X");
    assert Contribution(Some("X")) == {"X"};
  }

  lemma BracedType()
    ensures ParseImportClause("{ type A }") == Some({"A"})
  {
    LiteralTokens();
    assert "{ type A }" == "{ " + "type A" + " }";
    assert "type A" == "type " + "A";
    BracedOne("type A");
    ImportTypeQualified("A");
    assert Contribution(Some("A")) == {"A"};
  }

  lemma PlainDefault()
    ensures ParseImportClause("Foo") == Some({"default"})
  {
    assert Strip("Foo") == "Foo";
  }

  lemma Namespace()
    ensures ParseImportClause("* as React") == Some({"*"})
  {
    assert Strip("* as React") == "* as React";
  }

  lemma FooBarBaz()
    ensures ParseImportClause("Foo, { Bar as Baz }") == Some({"default", "Bar"})
  {
    LiteralTokens();
    assert "Foo, { Bar as Baz }" == "Foo" + ", { " + "Bar" + " as " + "Baz" + " }";
    DefaultPlusNamed("Foo", "Bar", "Baz");
  }

  /** The clauses pinned by the test suite. */
  lemma TestSuiteClauses()
    ensures ParseImportClause("Foo") == Some({"default"})
    ensures ParseImportClause("{ Bar }") == Some({"Bar"})
    ensures ParseImportClause("* as React") == Some({"*"})
    ensures ParseImportClause("Foo, { Bar as Baz }") == Some({"default", "Bar"})
    ensures ParseImportClause("{ default as X }") == Some({"X"})
  {
    PlainDefault();
    BracedBar();
    Namespace();
    FooBarBaz();
    BracedDefaultAs();
  }
}
