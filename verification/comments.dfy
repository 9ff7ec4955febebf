/**
 The comment stripper of dep_scan: block comments first, then line comments.
 Both passes are written as left-to-right scanners with the exact matching
 rules of the two substitutions, including where a match may start.
 */
module Comments {
  import opened Wrappers
  import opened Text
  import opened Seqs

  // No comment opener ("/" followed by "*") anywhere in `s`.
  predicate NoBlockOpen(s: string) {
    forall i :: 0 <= i < |s| - 1 ==> !(s[i] == '/' && s[i + 1] == '*')
  }

  // re.sub(r"/\*[\s\S]*?\*/", "", s): a "/" "*" pair opens a comment only if
  // a closing "*" "/" pair starts at or after the character following it; the
  // comment then ends at the first such closer (non-greedy) and is removed with
  // its delimiters. An opener with no closer is kept and scanning moves on by one
  // character.
  function StripBlockComments(s: string): (r: string)
    ensures |r| <= |s|
    ensures NoBlockOpen(s) ==> r == s
    decreases |s|
  {
    if |s| < 2 then s
    else if s[0] == '/' && s[1] == '*' then
      match IndexOf(s[2..], "*/")
      case Some(k) => StripBlockComments(s[2 + k + 2..])
      case None => [s[0]] + StripBlockComments(s[1..])
    else
      assert NoBlockOpen(s) ==> NoBlockOpen(s[1..]) by {
        if NoBlockOpen(s) {
          forall i | 0 <= i < |s[1..]| - 1 ensures !(s[1..][i] == '/' && s[1..][i + 1] == '*') {
            assert s[1..][i] == s[i + 1] && s[1..][i + 1] == s[i + 2];
          }
        }
      }
      [s[0]] + StripBlockComments(s[1..])
  }

  /** The suffix of `s` from its first newline on, or nothing if it has none. */
  function FromLineEnd(s: string): (r: string)
    ensures |r| <= |s| && r == s[|s| - |r|..]
    ensures |r| > 0 ==> r[0] == '\n'
    ensures multiset(r)['\n'] == multiset(s)['\n']
  {
    match FindChar(s, '\n')
    case None => ""
    case Some(k) =>
      assert s == s[..k] + s[k..];
      assert multiset(s[..k])['\n'] == 0;
      s[k..]
  }

  /**
   A line comment the substitution `(^|\s)//.*$` (multi-line mode) would match
   at index `i`: `//` at the start of a line, or right after a whitespace
   character. `lineStart` says whether index 0 is the start of a line.
   */
  predicate CommentStartAt(s: string, lineStart: bool, i: int) {
    0 <= i < |s| - 1 && s[i] == '/' && s[i + 1] == '/'
    && (if i == 0 then lineStart else IsSpace(s[i - 1]))
  }

  ghost predicate CommentFree(s: string, lineStart: bool) {
    forall i :: !CommentStartAt(s, lineStart, i)
  }

  /**
   `re.sub(r"(^|\s)//.*$", r"\1", s, flags=re.MULTILINE)` on the rest `s` of the
   text, where `lineStart` says whether `s` begins a line. A match removes the
   `//` and the rest of its line but keeps the whitespace character before it and
   the newline after it.
   */
  function StripLines(s: string, lineStart: bool): (r: string)
    ensures |r| <= |s|
    ensures multiset(r)['\n'] == multiset(s)['\n']
    decreases |s|
  {
    if |s| == 0 then ""
    else if lineStart && |s| >= 2 && s[0] == '/' && s[1] == '/' then
      StripLines(FromLineEnd(s), false)
    else if IsSpace(s[0]) && |s| >= 3 && s[1] == '/' && s[2] == '/' then
      assert s == [s[0]] + s[1..];
      [s[0]] + StripLines(FromLineEnd(s[1..]), false)
    else
      assert s == [s[0]] + s[1..];
      [s[0]] + StripLines(s[1..], s[0] == '\n')
  }

  function StripLineComments(s: string): (r: string)
    ensures |r| <= |s|
    ensures multiset(r)['\n'] == multiset(s)['\n']
  {
    StripLines(s, true)
  }

  /** `strip_comments`: block comments first, then line comments. */
  function StripComments(s: string): (r: string)
    ensures |r| <= |s|
  {
    StripLineComments(StripBlockComments(s))
  }

  // ---------------------------------------------------------------------------
  // Properties of the block pass

  // A block comment ends at the FIRST closer after its opener: text before the
  // comment with no opener of its own is kept, the comment is dropped, and
  // scanning resumes right after the first closer.
  lemma BlockCommentRemoved(a: string, c: string, b: string)
    requires NoBlockOpen(a)
    requires !Contains(c, "*/")
    ensures StripBlockComments(a + "/*" + c + "*/" + b) == a + StripBlockComments(b)
  {
    var t := "/*" + c + "*/" + b;
    assert a + "/*" + c + "*/" + b == a + t;
    PrefixKept(a, t);
    BlockCommentAtStart(c, b);
  }

  /** Text without an opener of its own, followed by something not starting with `*`, is kept as it is. */
  lemma {:induction false} PrefixKept(a: string, t: string)
    requires NoBlockOpen(a)
    requires |t| > 0 && t[0] != '*'
    ensures StripBlockComments(a + t) == a + StripBlockComments(t)
    decreases |a|
  {
    if |a| > 0 {
      NoBlockOpenTail(a);
      PrefixKept(a[1..], t);
      PrefixStep(a, t);
    } else {
      assert a + t == t;
    }
  }

  lemma PrefixStep(a: string, t: string)
    requires |a| > 0 && NoBlockOpen(a)
    requires |t| > 0 && t[0] != '*'
    requires StripBlockComments(a[1..] + t) == a[1..] + StripBlockComments(t)
    ensures StripBlockComments(a + t) == a + StripBlockComments(t)
  {
    var rest := a[1..] + t;
    Peel(a, t);
    Peel(a, StripBlockComments(t));
    assert rest[0] == (if |a| >= 2 then a[1] else t[0]);
    BlockKeepsFirst(a[0], rest);
  }

  lemma NoBlockOpenTail(a: string)
    requires |a| > 0 && NoBlockOpen(a)
    ensures NoBlockOpen(a[1..])
  {
    forall i | 0 <= i < |a[1..]| - 1 ensures !(a[1..][i] == '/' && a[1..][i + 1] == '*') {
      assert a[1..][i] == a[i + 1] && a[1..][i + 1] == a[i + 2];
    }
  }

  lemma BlockCommentAtStart(c: string, b: string)
    requires !Contains(c, "*/")
    ensures StripBlockComments("/*" + c + "*/" + b) == StripBlockComments(b)
  {
    var s := "/*" + c + "*/" + b;
    assert s[2..] == c + "*/" + b;
    FirstCloser(c, b);
    assert s[2 + |c| + 2..] == b;
  }

  lemma BlockKeepsFirst(x: char, rest: string)
    requires !(x == '/' && |rest| > 0 && rest[0] == '*')
    ensures StripBlockComments([x] + rest) == [x] + StripBlockComments(rest)
  {
    var s := [x] + rest;
    assert s[1..] == rest;
  }

  lemma FirstCloser(c: string, b: string)
    requires !Contains(c, "*/")
    ensures IndexOf(c + "*/" + b, "*/") == Some(|c|)
  {
    var t := c + "*/" + b;
    assert OccursAt(t, "*/", |c|) by {
      assert t[|c|..|c| + 2] == "*/";
    }
    forall j | 0 <= j < |c| ensures !OccursAt(t, "*/", j) {
      if j + 2 <= |c| {
        assert t[j..j + 2] == c[j..j + 2];
        assert !OccursAt(c, "*/", j);
      } else {
        assert t[j + 1] == '*';
      }
    }
    var r := IndexOf(t, "*/");
    assert r.Some? && r.value <= |c|;
  }

  // ---------------------------------------------------------------------------
  // Properties of the line pass

  lemma FromLineEndStart(s: string)
    ensures |FromLineEnd(s)| > 0 ==> FromLineEnd(s)[0] == '\n'
  {
  }

  /** The first character of the output is the first input character or a newline. */
  lemma {:induction false} StripLinesFirst(u: string, l: bool)
    ensures |StripLines(u, l)| > 0 ==> |u| > 0 && (StripLines(u, l)[0] == u[0] || StripLines(u, l)[0] == '\n')
    decreases |u|
  {
    if |u| > 0 && l && |u| >= 2 && u[0] == '/' && u[1] == '/' {
      var d := FromLineEnd(u);
      StripLinesFirst(d, false);
    }
  }

  /** A line-start `//`: the rest of its line goes. */
  lemma StripLinesAtComment(u: string, l: bool)
    requires l && |u| >= 2 && u[0] == '/' && u[1] == '/'
    ensures StripLines(u, l) == StripLines(FromLineEnd(u), false)
  {
  }

  /** A first character that starts no comment is kept. */
  lemma StripLinesPlain(u: string, l: bool)
    requires |u| > 0
    requires !(l && |u| >= 2 && u[0] == '/' && u[1] == '/')
    requires !(IsSpace(u[0]) && |u| >= 3 && u[1] == '/' && u[2] == '/')
    ensures StripLines(u, l) == [u[0]] + StripLines(u[1..], u[0] == '\n')
  {
  }

  /**
   On a single line, the line pass keeps exactly the text before the first
   comment start: a `//` at the start of the line leaves nothing, and one after
   a whitespace character leaves everything up to and including that character.
   */
  lemma {:induction false} LineCut(u: string, l: bool, i: nat)
    requires '\n' !in u
    requires CommentStartAt(u, l, i)
    requires forall j :: 0 <= j < i ==> !CommentStartAt(u, l, j)
    ensures StripLines(u, l) == u[..i]
    decreases i
  {
    if i == 0 {
      NoLineEnd(u);
    } else if i == 1 {
      NoLineEndTail(u);
      NoLineEnd(u[1..]);
    } else {
      var t := u[1..];
      LineCutShift(u, l, i);
      NoLineEndTail(u);
      LineCut(t, false, i - 1);
      LineCutStep(u, l, i);
    }
  }

  lemma NoLineEnd(u: string)
    requires '\n' !in u
    ensures FromLineEnd(u) == "" && StripLines(FromLineEnd(u), false) == ""
  {
  }

  lemma NoLineEndTail(u: string)
    requires |u| > 0 && '\n' !in u
    ensures '\n' !in u[1..] && u[0] != '\n'
  {
    assert u[0] in u;
    assert forall k :: 0 <= k < |u[1..]| ==> u[1..][k] == u[k + 1];
  }

  /** Past the first two characters, comment starts of the line sit one place later than in its tail. */
  lemma LineCutShift(u: string, l: bool, i: nat)
    requires i >= 2 && CommentStartAt(u, l, i)
    requires forall j :: 0 <= j < i ==> !CommentStartAt(u, l, j)
    ensures CommentStartAt(u[1..], false, i - 1)
    ensures forall j :: 0 <= j < i - 1 ==> !CommentStartAt(u[1..], false, j)
  {
    var t := u[1..];
    assert u == [u[0]] + t;
    CommentStartShift(u[0], t, l, false, i);
    forall j | 0 <= j < i - 1 ensures !CommentStartAt(t, false, j) {
      if j > 0 {
        CommentStartShift(u[0], t, l, false, j + 1);
      }
    }
  }

  lemma LineCutStep(u: string, l: bool, i: nat)
    requires i >= 2 && CommentStartAt(u, l, i) && u[0] != '\n'
    requires !CommentStartAt(u, l, 0) && !CommentStartAt(u, l, 1)
    requires StripLines(u[1..], false) == u[1..][..i - 1]
    ensures StripLines(u, l) == u[..i]
  {
    assert !(l && |u| >= 2 && u[0] == '/' && u[1] == '/');
    assert !(IsSpace(u[0]) && |u| >= 3 && u[1] == '/' && u[2] == '/');
    StripLinesPlain(u, l);
    PrefixCons(u, i);
  }

  lemma PrefixCons(u: string, i: nat)
    requires 1 <= i <= |u|
    ensures u[..i] == [u[0]] + u[1..][..i - 1]
  {
  }

  /** Output that starts with `//` came from input that starts with `//` off a line start. */
  lemma StripLinesSlashes(u: string, l: bool)
    ensures var r := StripLines(u, l);
      |r| >= 2 && r[0] == '/' && r[1] == '/' ==> |u| >= 2 && u[0] == '/' && u[1] == '/' && !l
  {
    var r := StripLines(u, l);
    StripLinesFirst(u, l);
    if |r| >= 2 && r[0] == '/' && r[1] == '/' {
      assert u[0] == '/' && !IsSpace(u[0]);
      if l && |u| >= 2 && u[1] == '/' {
        StripLinesAtComment(u, l);
        StripLinesFirst(FromLineEnd(u), false);
        FromLineEndStart(u);
        assert false;
      } else {
        StripLinesPlain(u, l);
        var t := StripLines(u[1..], false);
        assert r == [u[0]] + t && r[1] == t[0];
        StripLinesFirst(u[1..], false);
      }
    }
  }

  lemma CommentStartShift(c: char, t: string, l: bool, l': bool, i: int)
    requires i >= 2
    ensures CommentStartAt([c] + t, l, i) <==> CommentStartAt(t, l', i - 1)
  {
    var s := [c] + t;
    if 0 <= i < |s| - 1 {
      assert s[i] == t[i - 1] && s[i + 1] == t[i] && s[i - 1] == t[i - 2];
    }
  }

  /** What the line pass leaves holds no line comment. */
  lemma {:induction false} StripLinesCommentFree(s: string, l: bool)
    ensures CommentFree(StripLines(s, l), l)
    decreases |s|
  {
    if |s| == 0 {
    } else if l && |s| >= 2 && s[0] == '/' && s[1] == '/' {
      StripLinesCommentFree(FromLineEnd(s), false);
      FreeAfterLineStartComment(s, l);
    } else if IsSpace(s[0]) && |s| >= 3 && s[1] == '/' && s[2] == '/' {
      StripLinesCommentFree(FromLineEnd(s[1..]), false);
      FreeAfterSpacedComment(s, l);
    } else {
      StripLinesCommentFree(s[1..], s[0] == '\n');
      FreeAfterPlainChar(s, l);
    }
  }

  lemma FreeAfterLineStartComment(s: string, l: bool)
    requires l && |s| >= 2 && s[0] == '/' && s[1] == '/'
    requires CommentFree(StripLines(FromLineEnd(s), false), false)
    ensures CommentFree(StripLines(s, l), l)
  {
    var d := FromLineEnd(s);
    var r := StripLines(s, l);
    assert r == StripLines(d, false);
    StripLinesFirst(d, false);
    forall i ensures !CommentStartAt(r, l, i) {
      assert !CommentStartAt(r, false, i);
    }
  }

  lemma FreeAfterSpacedComment(s: string, l: bool)
    requires !(l && |s| >= 2 && s[0] == '/' && s[1] == '/')
    requires |s| >= 3 && IsSpace(s[0]) && s[1] == '/' && s[2] == '/'
    requires CommentFree(StripLines(FromLineEnd(s[1..]), false), false)
    ensures CommentFree(StripLines(s, l), l)
  {
    var d := FromLineEnd(s[1..]);
    var t := StripLines(d, false);
    var r := StripLines(s, l);
    assert r == [s[0]] + t;
    StripLinesFirst(d, false);
    forall i ensures !CommentStartAt(r, l, i) {
      if i >= 2 {
        CommentStartShift(s[0], t, l, false, i);
        assert !CommentStartAt(t, false, i - 1);
      } else if i == 1 && |r| > 2 {
        assert r[1] == t[0];
      }
    }
  }

  lemma FreeAfterPlainChar(s: string, l: bool)
    requires |s| > 0
    requires !(l && |s| >= 2 && s[0] == '/' && s[1] == '/')
    requires !(IsSpace(s[0]) && |s| >= 3 && s[1] == '/' && s[2] == '/')
    requires CommentFree(StripLines(s[1..], s[0] == '\n'), s[0] == '\n')
    ensures CommentFree(StripLines(s, l), l)
  {
    var u := s[1..];
    var t := StripLines(u, s[0] == '\n');
    var r := StripLines(s, l);
    assert r == [s[0]] + t;
    StripLinesSlashes(u, s[0] == '\n');
    StripLinesFirst(u, s[0] == '\n');
    forall i ensures !CommentStartAt(r, l, i) {
      if i >= 2 {
        CommentStartShift(s[0], t, l, s[0] == '\n', i);
        assert !CommentStartAt(t, s[0] == '\n', i - 1);
      } else if i == 1 && |r| > 2 {
        assert r[1] == t[0] && r[2] == t[1];
      } else if i == 0 && |r| > 1 {
        assert r[1] == t[0];
      }
    }
  }

  /** Text holding no line comment passes the line pass unchanged. */
  lemma {:induction false} StripLinesFixed(s: string, l: bool)
    requires CommentFree(s, l)
    ensures StripLines(s, l) == s
    decreases |s|
  {
    if |s| > 0 {
      assert !CommentStartAt(s, l, 0);
      assert !CommentStartAt(s, l, 1);
      var t := s[1..];
      var nl := s[0] == '\n';
      forall i ensures !CommentStartAt(t, nl, i) {
        assert !CommentStartAt(s, l, i + 1);
        if 0 <= i < |t| - 1 {
          assert t[i] == s[i + 1] && t[i + 1] == s[i + 2];
          if i > 0 {
            assert t[i - 1] == s[i];
          }
        }
      }
      StripLinesFixed(s[1..], s[0] == '\n');
      assert s == [s[0]] + s[1..];
    }
  }

  /** Stripping line comments twice is the same as stripping them once. */
  lemma LineStripIdempotent(s: string)
    ensures StripLineComments(StripLineComments(s)) == StripLineComments(s)
  {
    StripLinesCommentFree(s, true);
    StripLinesFixed(StripLines(s, true), true);
  }

  /** `//` after a non-space character, as in `http://x`, is not a comment. */
  lemma UrlSurvives()
    ensures StripComments("a = \"http://x\"") == "a = \"http://x\""
  {
    var s := "a = \"http://x\"";
    assert NoBlockOpen(s);
    forall i ensures !CommentStartAt(s, true, i) {
      if 0 <= i < |s| - 1 && s[i] == '/' && s[i + 1] == '/' {
        assert i == 10;
      }
    }
    StripLinesFixed(s, true);
  }
}
