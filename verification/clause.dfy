/**
 The binding-clause parser of dep_scan: what an `import <clause> from "..."`
 requests, and what one entry of an `export { ... } from "..."` list publishes.
 */
module Clause {
  import opened Wrappers
  import opened Text

  /** `re.sub(r"^type\s+", "", t)`: a leading `type` keyword and the whitespace after it. */
  function DropTypePrefix(t: string): (r: string)
    ensures |r| <= |t| && r == t[|t| - |r|..]
    ensures |t| > 0 && !IsSpace(t[|t| - 1]) ==> |r| > 0 && !IsSpace(r[|r| - 1])
  {
    if |t| > 4 && t[..4] == "type" && IsSpace(t[4]) then
      var r := TrimStart(t[4..]);
      assert t[4..][|t[4..]| - 1] == t[|t| - 1];
      r
    else t
  }

  /**
   What one comma-separated piece of a braced import list contributes:
   `default as X` gives `X`, `A as B` gives the exported name `A`, a leading
   `type` is dropped and the name after it is kept, an empty piece gives nothing.
   */
  function ImportedName(part: string): (r: Option<string>)
    ensures r.Some? ==> r.value != ""
  {
    var token := Strip(part);
    if token == "" then None
    else TokenName(DropTypePrefix(token))
  }

  /** The name a stripped, `type`-free import token stands for. */
  function TokenName(token: string): (r: Option<string>)
    requires |token| > 0 && !IsSpace(token[|token| - 1])
    ensures r.Some? ==> r.value != ""
  {
    if "default as " <= token then
      DefaultAsName(token);
      Some(Strip(token[11..]))
    else
      match SplitOnce(token, " as ")
      case Some((left, _)) => if Strip(left) == "" then None else Some(Strip(left))
      case None => if token == "" then None else Some(token)
  }

  lemma DefaultAsName(token: string)
    requires "default as " <= token
    requires !IsSpace(token[|token| - 1])
    ensures Strip(token[11..]) != ""
  {
    assert token[10] == ' ';
    var rest := token[11..];
    assert rest[|rest| - 1] == token[|token| - 1];
  }

  /** The set of names a sequence of pieces contributes. */
  function ImportedNames(parts: seq<string>): (r: set<string>)
    ensures forall n :: n in r <==> exists p :: p in parts && ImportedName(p) == Some(n)
    ensures "" !in r
  {
    set p | p in parts && ImportedName(p).Some? :: ImportedName(p).value
  }

  /** The last position of `c` in `s`. */
  function FindLastChar(s: string, c: char): (r: Option<nat>)
    ensures r.Some? ==> r.value < |s| && s[r.value] == c && c !in s[r.value + 1..]
    ensures r.None? ==> c !in s
    decreases |s|
  {
    if |s| == 0 then None
    else if s[|s| - 1] == c then Some(|s| - 1)
    else
      var r := FindLastChar(s[..|s| - 1], c);
      assert s == s[..|s| - 1] + [s[|s| - 1]];
      r
  }

  /**
   `re.search(r"\{([\s\S]*)\}", raw).group(1)`: the text between the first `{`
   and the last `}`, when that `}` comes after that `{`.
   */
  function BracedBody(raw: string): (r: Option<string>)
    ensures r.Some? ==> '{' in raw && '}' in raw
    ensures '{' !in raw || '}' !in raw ==> r.None?
  {
    match (FindChar(raw, '{'), FindLastChar(raw, '}'))
    case (Some(i), Some(j)) => if i < j then Some(raw[i + 1..j]) else None
    case _ => None
  }

  /** What a single optional name adds to a set of names. */
  function Contribution(n: Option<string>): set<string>
  {
    match n
    case Some(x) => {x}
    case None => {}
  }

  /** Python's `if imported` on the way out: an empty set of names is `None`. */
  function NoneIfEmpty(s: set<string>): (r: Option<set<string>>)
    ensures r.Some? ==> r.value == s && s != {}
    ensures r.None? ==> s == {}
  {
    if s == {} then None else Some(s)
  }

  /**
   `parse_import_clause`: the exported names an import clause asks for. `*` marks
   a namespace import and `default` the default binding; `None` means nothing was
   found. A clause holding both a comma and a brace is first split at its first
   comma into a default part and the rest, whichever comes first in the text.
   */
  function ParseImportClause(clause: string): (r: Option<set<string>>)
    ensures Blank(clause) ==> r.None?
    ensures !Blank(clause) && Strip(clause)[0] == '*' ==> r == Some({"*"})
    ensures !Blank(clause) && Strip(clause)[0] != '*' && '{' !in clause ==> r == Some({"default"})
    ensures r.Some? ==> r.value != {} && "" !in r.value
  {
    var raw := Strip(clause);
    StripChars(clause, '{');
    if raw == "" then None
    else if raw[0] == '*' then Some({"*"})
    else
      var comma := FindChar(raw, ',');
      if comma.Some? && '{' in raw then
        var k := comma.value;
        ParseBindings(if Strip(raw[..k]) != "" then {"default"} else {}, Strip(raw[k + 1..]))
      else
        assert {} + {"default"} == {"default"};
        ParseBindings({}, raw)
  }

  /**
   The part of `parse_import_clause` after the default+named split: `imported`
   holds what the split found and `raw` is what is left of the clause.
   */
  function ParseBindings(imported: set<string>, raw: string): (r: Option<set<string>>)
    requires "" !in imported
    ensures '{' !in raw && raw != "" && raw[0] != '*' ==> r == Some(imported + {"default"})
    ensures r.Some? ==> imported <= r.value
    ensures r.Some? ==> r.value != {} && "" !in r.value
    ensures r.None? ==> imported == {}
  {
    if '{' !in raw && raw != "" && raw[0] != '*' then Some(imported + {"default"})
    else
      match BracedBody(raw)
      case None => NoneIfEmpty(imported)
      case Some(inside) => NoneIfEmpty(imported + ImportedNames(Split(inside, ',')))
  }

  /**
   What one comma-separated piece of an `export { ... } from` list publishes:
   `default as X` and `A as X` both publish `X`, a leading `type` is dropped and
   the name after it kept, and an empty name publishes nothing.
   */
  function ExportedName(part: string): (r: Option<string>)
    ensures r.Some? ==> r.value != ""
  {
    var token := Strip(part);
    if token == "" then None
    else
      var name := PublishedName(DropTypePrefix(token));
      if name == "" then None else Some(name)
  }

  /** The name a stripped, `type`-free export token publishes under. */
  function PublishedName(token: string): string
  {
    if "default as " <= token then Strip(token[11..])
    else
      match SplitOnce(token, " as ")
      case Some((_, right)) => Strip(right)
      case None => token
  }

  /** The set of names an `export { ... }` list publishes. */
  function ExportedNames(names: string): (r: set<string>)
    ensures forall n :: n in r <==> exists p :: p in Split(names, ',') && ExportedName(p) == Some(n)
    ensures "" !in r
  {
    set p | p in Split(names, ',') && ExportedName(p).Some? :: ExportedName(p).value
  }
}
