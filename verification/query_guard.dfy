/**
 * `is_read_only_query` of the web application: the gate in front of the
 * database query tool. The query text loses its `--` line comments and its
 * block comments (slash-star to star-slash), is trimmed and upper-cased, must start with
 * `SELECT`, and must not contain any of eleven data-changing keywords as a
 * whole word.
 */
module QueryGuard {
  import opened Common
  import opened Text

  // ---------------------------------------------------------------------------
  // Comment removal, as the two `re.sub` calls do it

  /** What is left of `s` from its first line break on (nothing when it has none). */
  function FromNewline(s: string): (r: string)
    ensures |r| <= |s| && r == s[|s| - |r|..]
    ensures r == [] || r[0] == '\n'
    ensures forall i :: 0 <= i < |s| - |r| ==> s[i] != '\n'
  {
    if s == [] || s[0] == '\n' then s else FromNewline(s[1..])
  }

  /**
   * The multi-line `--` substitution: every `--` and the rest of its line
   * are removed; the line break itself stays.
   */
  function StripLineComments(s: string): (r: string)
    decreases |s|
  {
    if s == [] then []
    else if |s| >= 2 && s[0] == '-' && s[1] == '-' then
      assert s[0] != '\n';
      StripLineComments(FromNewline(s))
    else [s[0]] + StripLineComments(s[1..])
  }

  /** The position of the first comment close (star, slash) in `s` at or after `from`. */
  function FindClose(s: string, from: nat): (r: Option<nat>)
    decreases |s| - from
    ensures r.Some? ==> from <= r.value && r.value + 1 < |s| && s[r.value] == '*' && s[r.value + 1] == '/'
    ensures r.Some? ==> forall j :: from <= j < r.value ==> !(s[j] == '*' && s[j + 1] == '/')
    ensures r.None? ==> forall j :: from <= j && j + 1 < |s| ==> !(s[j] == '*' && s[j + 1] == '/')
  {
    if from + 1 >= |s| then None
    else if s[from] == '*' && s[from + 1] == '/' then Some(from)
    else FindClose(s, from + 1)
  }

  /**
   * The non-greedy, dot-matches-all block-comment `re.sub`: scanning left to
   * right, each comment opener (slash, star) that has a later closer (star,
   * slash) is removed up to and including the first such closer, across line
   * breaks; an unclosed opener stays.
   */
  function StripBlockComments(s: string): (r: string)
    decreases |s|
  {
    if s == [] then []
    else if |s| >= 2 && s[0] == '/' && s[1] == '*' && FindClose(s, 2).Some? then
      StripBlockComments(s[FindClose(s, 2).value + 2..])
    else [s[0]] + StripBlockComments(s[1..])
  }

  /** The text the keyword checks look at. */
  function Normalize(query: string): string {
    Upper(Strip(StripBlockComments(StripLineComments(query))))
  }

  // ---------------------------------------------------------------------------
  // Whole-word search

  const Keywords: seq<string> :=
    ["INSERT", "UPDATE", "DELETE", "DROP", "CREATE", "ALTER", "TRUNCATE", "GRANT", "REVOKE", "EXEC", "EXECUTE"]

  /**
   * `\bKW\b` matches at `i`: the keyword's letters sit at `i` and neither
   * neighbour is a word character (the keywords consist of word characters,
   * so this is where both boundaries hold).
   */
  predicate WordAt(n: string, kw: string, i: int) {
    && 0 <= i && i + |kw| <= |n| && n[i..i + |kw|] == kw
    && (i == 0 || !IsWordChar(n[i - 1]))
    && (i + |kw| == |n| || !IsWordChar(n[i + |kw|]))
  }

  ghost predicate ContainsWord(n: string, kw: string) {
    exists i :: WordAt(n, kw, i)
  }

  /** What `is_read_only_query` answers. */
  ghost predicate ReadOnly(query: string) {
    var n := Normalize(query);
    StartsWith(n, "SELECT") && FreeOfKeywords(n)
  }

  /** `re.search(r'\b' + kw + r'\b', n) is not None`. */
  method SearchWord(n: string, kw: string) returns (found: bool)
    ensures found <==> ContainsWord(n, kw)
  {
    var i := 0;
    while i + |kw| <= |n|
      invariant 0 <= i
      invariant forall j :: 0 <= j < i ==> !WordAt(n, kw, j)
      decreases |n| - i
    {
      if WordAt(n, kw, i) {
        return true;
      }
      i := i + 1;
    }
    found := false;
  }

  /** No keyword occurs in `n` as a whole word. */
  ghost predicate FreeOfKeywords(n: string) {
    forall k :: 0 <= k < |Keywords| ==> !ContainsWord(n, Keywords[k])
  }

  /** The keyword loop of `is_read_only_query`, in keyword order. */
  method CheckKeywords(n: string) returns (clean: bool)
    ensures clean <==> FreeOfKeywords(n)
  {
    for k := 0 to |Keywords|
      invariant forall m :: 0 <= m < k ==> !ContainsWord(n, Keywords[m])
    {
      var found := SearchWord(n, Keywords[k]);
      if found {
        return false;
      }
    }
    clean := true;
  }

  /** `is_read_only_query(query)`: the prefix test, then the keywords. */
  method IsReadOnlyQuery(query: string) returns (ok: bool)
    ensures ok <==> ReadOnly(query)
  {
    var n := Normalize(query);
    if !StartsWith(n, "SELECT") {
      return false;
    }
    ok := CheckKeywords(n);
  }

  // ---------------------------------------------------------------------------
  // Properties

  /** After line-comment removal no `--` is left anywhere. */
  lemma {:induction false} NoDoubleDashLeft(s: string)
    ensures var r := StripLineComments(s);
      forall i :: 0 <= i < |r| - 1 ==> !(r[i] == '-' && r[i + 1] == '-')
    decreases |s|
  {
    if s == [] {
    } else if |s| >= 2 && s[0] == '-' && s[1] == '-' {
      assert StripLineComments(s) == StripLineComments(FromNewline(s));
      NoDoubleDashLeft(FromNewline(s));
    } else {
      var rest := StripLineComments(s[1..]);
      NoDoubleDashLeft(s[1..]);
      KeptHead(s[1..]);
      var r := [s[0]] + rest;
      forall i | 0 <= i < |r| - 1 ensures !(r[i] == '-' && r[i + 1] == '-') {
        if i > 0 {
          assert r[i] == rest[i - 1] && r[i + 1] == rest[i];
        }
      }
    }
  }

  /** The first character survives unless it opens a comment. */
  lemma KeptHead(s: string)
    ensures var r := StripLineComments(s);
      s != [] && !(|s| >= 2 && s[0] == '-' && s[1] == '-') ==> r != [] && r[0] == s[0]
  {
  }

  /** Text without a `-` passes line-comment removal unchanged, whatever follows it. */
  lemma {:induction false} DashFreePrefix(p: string, b: string)
    requires forall i :: 0 <= i < |p| ==> p[i] != '-'
    ensures StripLineComments(p + b) == p + StripLineComments(b)
  {
    if p == [] {
      assert p + b == b;
    } else {
      var s := p + b;
      assert s[0] == p[0] && s[1..] == p[1..] + b;
      DashFreePrefix(p[1..], b);
      assert p == [p[0]] + p[1..];
    }
  }

  /** A `--` comment runs to the end of its line and no further. */
  lemma LineCommentDropped(c: string, b: string)
    requires forall i :: 0 <= i < |c| ==> c[i] != '\n'
    ensures StripLineComments("--" + c + "\n" + b) == "\n" + StripLineComments(b)
  {
    var s := "--" + c + "\n" + b;
    FromNewlineAfter(s, 2 + |c|);
    assert FromNewline(s) == "\n" + b;
    assert ("\n" + b)[1..] == b;
  }

  lemma {:induction false} FromNewlineAfter(s: string, k: nat)
    requires k < |s| && s[k] == '\n' && forall i :: 0 <= i < k ==> s[i] != '\n'
    ensures FromNewline(s) == s[k..]
  {
    if k > 0 {
      FromNewlineAfter(s[1..], k - 1);
      assert s[1..][k - 1..] == s[k..];
    }
  }

  /** A block comment with no closer inside it is removed together with its closer. */
  lemma BlockCommentDropped(c: string, b: string)
    requires forall j :: 0 <= j < |c| - 1 ==> !(c[j] == '*' && c[j + 1] == '/')
    ensures StripBlockComments("/*" + c + "*/" + b) == StripBlockComments(b)
  {
    var s := "/*" + c + "*/" + b;
    NoCloserBefore(c, b);
    FindCloseAt(s, 2, 2 + |c|);
    assert s[2 + |c| + 2..] == b;
  }

  lemma NoCloserBefore(c: string, b: string)
    requires forall j :: 0 <= j < |c| - 1 ==> !(c[j] == '*' && c[j + 1] == '/')
    ensures var s := "/*" + c + "*/" + b;
      |s| == |c| + 4 + |b| && s[2 + |c|] == '*' && s[3 + |c|] == '/' &&
      forall j :: 2 <= j < 2 + |c| ==> !(s[j] == '*' && s[j + 1] == '/')
  {
    var s := "/*" + c + "*/" + b;
    forall j | 2 <= j < 2 + |c|
      ensures !(s[j] == '*' && s[j + 1] == '/')
    {
      if j < 1 + |c| {
        assert s[j] == c[j - 2] && s[j + 1] == c[j - 1];
      } else {
        assert s[j + 1] == '*';
      }
    }
  }

  lemma {:induction false} FindCloseAt(s: string, from: nat, k: nat)
    requires from <= k && k + 1 < |s| && s[k] == '*' && s[k + 1] == '/'
    requires forall j :: from <= j < k ==> !(s[j] == '*' && s[j + 1] == '/')
    ensures FindClose(s, from) == Some(k)
    decreases k - from
  {
    if from < k {
      FindCloseAt(s, from + 1, k);
    }
  }

  /**
   * Keywords inside a leading block comment are ignored: the answer is the
   * answer for the text after the comment. The comment must hold no `-`:
   * the line-comment pass runs first, and `DashInCommentCutsCloser` shows
   * what a `--` inside the comment does instead.
   */
  lemma {:induction false} LeadingCommentIgnored(c: string, b: string)
    requires forall j :: 0 <= j < |c| ==> c[j] != '-'
    requires forall j :: 0 <= j < |c| - 1 ==> !(c[j] == '*' && c[j + 1] == '/')
    ensures ReadOnly("/*" + c + "*/" + b) <==> ReadOnly(b)
  {
    var p := "/*" + c + "*/";
    assert forall i :: 0 <= i < |p| ==> p[i] != '-';
    DashFreePrefix(p, b);
    BlockCommentDropped(c, StripLineComments(b));
    assert Normalize(p + b) == Normalize(b);
  }

  /**
   * The line-comment pass runs first, so a `--` inside a block comment cuts
   * the rest of the line, closer included: a query such as
   * `/* -- */ SELECT 1` keeps the bare opener in front and is refused,
   * although `SELECT 1` alone is accepted.
   */
  lemma DashInCommentCutsCloser(c: string, b: string)
    requires forall i :: 0 <= i < |c| ==> c[i] !in "-/*\n"
    requires forall i :: 0 <= i < |b| ==> b[i] != '\n'
    ensures StartsWith(Normalize("/*" + c + "--" + b), "/*")
    ensures !ReadOnly("/*" + c + "--" + b) && ReadOnly("SELECT 1")
  {
    var p := "/*" + c;
    forall i | 0 <= i < |p| ensures p[i] != '-' && (2 <= i ==> p[i] != '/' && p[i] != '*') {
      if i >= 2 {
        assert p[i] == c[i - 2];
      }
    }
    assert "/*" + c + "--" + b == p + ("--" + b);
    CommentCutAt(p, b);
    OpenerKept(p);
    StripKeepsOpener(p);
    SelectOneAccepted();
  }

  /** The line-comment pass keeps dash-free text and drops a `--` comment that runs to the end. */
  lemma CommentCutAt(p: string, b: string)
    requires forall i :: 0 <= i < |p| ==> p[i] != '-'
    requires forall i :: 0 <= i < |b| ==> b[i] != '\n'
    ensures StripLineComments(p + ("--" + b)) == p
  {
    DashFreePrefix(p, "--" + b);
    LineCommentToEnd(b);
    assert p + [] == p;
  }

  /** An opener followed by no star and no slash is not a comment. */
  lemma OpenerKept(p: string)
    requires |p| >= 2 && p[0] == '/' && p[1] == '*'
    requires forall i :: 2 <= i < |p| ==> p[i] != '/' && p[i] != '*'
    ensures StripBlockComments(p) == p
  {
    NoCloseFrom(p, 2);
    var t := p[1..];
    assert StripBlockComments(p) == [p[0]] + StripBlockComments(t);
    assert t[0] == '*' && t[1..] == p[2..];
    assert StripBlockComments(t) == [t[0]] + StripBlockComments(p[2..]);
    SlashFree(p[2..]);
    assert p == [p[0]] + ([t[0]] + p[2..]);
  }

  lemma {:induction false} NoCloseFrom(s: string, from: nat)
    requires forall j :: from <= j < |s| ==> s[j] != '*'
    ensures FindClose(s, from) == None
    decreases |s| - from
  {
    if from + 1 < |s| {
      NoCloseFrom(s, from + 1);
    }
  }

  lemma StripKeepsOpener(p: string)
    requires |p| >= 2 && p[..2] == "/*"
    ensures StartsWith(Upper(Strip(p)), "/*")
  {
    assert p[0] == '/' && p[1] == '*';
    assert StripLeft(p) == p;
    var r := StripRight(p);
    assert !IsSpace(p[1]);
    assert |r| >= 2;
    assert r[0] == '/' && r[1] == '*';
    OpenerUpper(r);
  }

  lemma OpenerUpper(r: string)
    requires |r| >= 2 && r[0] == '/' && r[1] == '*'
    ensures StartsWith(Upper(r), "/*")
  {
    var u := Upper(r);
    assert u[0] == UpperChar('/') == '/';
    assert u[1] == UpperChar('*') == '*';
    assert u[..2] == "/*";
  }

  /** A `--` comment on the last line takes all the rest of the text. */
  lemma LineCommentToEnd(b: string)
    requires forall i :: 0 <= i < |b| ==> b[i] != '\n'
    ensures StripLineComments("--" + b) == []
  {
    var s := "--" + b;
    assert forall i :: 0 <= i < |s| ==> s[i] != '\n';
    assert FromNewline(s) == [];
  }

  /** Text without a slash has no block comment to remove. */
  lemma {:induction false} SlashFree(s: string)
    requires forall i :: 0 <= i < |s| ==> s[i] != '/'
    ensures StripBlockComments(s) == s
  {
    if s != [] {
      SlashFree(s[1..]);
      assert s == [s[0]] + s[1..];
    }
  }

  lemma SelectOneAccepted()
    ensures ReadOnly("SELECT 1")
  {
    SelectOneHasNoComment();
    SelectOneIsStripped();
    SelectOneIsFree();
  }

  lemma SelectOneHasNoComment()
    ensures StripBlockComments(StripLineComments("SELECT 1")) == "SELECT 1"
  {
    var q := "SELECT 1";
    assert forall i :: 0 <= i < |q| ==> q[i] != '-' && q[i] != '/';
    DashFreePrefix(q, []);
    assert q + [] == q;
    SlashFree(q);
  }

  lemma SelectOneIsStripped()
    ensures Upper(Strip("SELECT 1")) == "SELECT 1"
  {
    var q := "SELECT 1";
    assert q[0] == 'S' && q[|q| - 1] == '1';
    assert StripLeft(q) == q;
    assert StripRight(q) == q;
    NoLowerIsUpper(q);
  }

  /** Text without lower-case letters is its own upper case. */
  lemma NoLowerIsUpper(s: string)
    requires forall i :: 0 <= i < |s| ==> !('a' <= s[i] <= 'z')
    ensures Upper(s) == s
  {
  }

  /** Every letter of a keyword found in a text occurs in that text. */
  lemma FoundLetter(n: string, kw: string, i: nat)
    requires i < |kw|
    ensures ContainsWord(n, kw) ==> kw[i] in n
  {
    if ContainsWord(n, kw) {
      var p :| WordAt(n, kw, p);
      assert n[p..p + |kw|][i] == n[p + i];
    }
  }

  lemma SelectOneIsFree()
    ensures FreeOfKeywords("SELECT 1")
  {
    forall k | 0 <= k < |Keywords| ensures !ContainsWord("SELECT 1", Keywords[k]) {
      // INSERT, UPDATE, DELETE, DROP, CREATE, ALTER, TRUNCATE, GRANT, REVOKE, EXEC, EXECUTE
      var i := [0, 0, 0, 0, 1, 0, 1, 0, 0, 1, 1][k];
      FoundLetter("SELECT 1", Keywords[k], i);
    }
  }

  // ---------------------------------------------------------------------------
  // Case does not matter

  /** A character map that leaves the comment and line syntax in place (both ways). */
  ghost predicate KeepsSyntax(f: char -> char) {
    && KeepsSpace(f)
    && (forall c :: f(c) == '-' <==> c == '-')
    && (forall c :: f(c) == '\n' <==> c == '\n')
    && (forall c :: f(c) == '*' <==> c == '*')
    && (forall c :: f(c) == '/' <==> c == '/')
  }

  lemma CaseMapsKeepSyntax()
    ensures KeepsSyntax(UpperChar) && KeepsSyntax(LowerChar)
  {
    CaseMapsKeepSpace();
  }

  lemma {:induction false} MapFromNewline(f: char -> char, s: string)
    requires KeepsSyntax(f)
    ensures FromNewline(MapChars(f, s)) == MapChars(f, FromNewline(s))
  {
    if s != [] && s[0] != '\n' {
      assert MapChars(f, s)[1..] == MapChars(f, s[1..]);
      MapFromNewline(f, s[1..]);
    }
  }

  lemma {:induction false} MapLineComments(f: char -> char, s: string)
    requires KeepsSyntax(f)
    ensures StripLineComments(MapChars(f, s)) == MapChars(f, StripLineComments(s))
    decreases |s|
  {
    if s == [] {
    } else if |s| >= 2 && s[0] == '-' && s[1] == '-' {
      MapFromNewline(f, s);
      MapLineComments(f, FromNewline(s));
      MapLineCommentsSkip(f, s);
    } else {
      MapLineComments(f, s[1..]);
      MapLineCommentsKeep(f, s);
    }
  }

  /** The comment case of `MapLineComments`, given the fact for the text after the comment. */
  lemma MapLineCommentsSkip(f: char -> char, s: string)
    requires KeepsSyntax(f)
    requires |s| >= 2 && s[0] == '-' && s[1] == '-'
    requires FromNewline(MapChars(f, s)) == MapChars(f, FromNewline(s))
    requires StripLineComments(MapChars(f, FromNewline(s))) == MapChars(f, StripLineComments(FromNewline(s)))
    ensures StripLineComments(MapChars(f, s)) == MapChars(f, StripLineComments(s))
  {
    var m := MapChars(f, s);
    assert m[0] == '-' && m[1] == '-';
  }

  /** The plain-character case of `MapLineComments`, given the fact for the rest. */
  lemma MapLineCommentsKeep(f: char -> char, s: string)
    requires KeepsSyntax(f)
    requires s != [] && !(|s| >= 2 && s[0] == '-' && s[1] == '-')
    requires StripLineComments(MapChars(f, s[1..])) == MapChars(f, StripLineComments(s[1..]))
    ensures StripLineComments(MapChars(f, s)) == MapChars(f, StripLineComments(s))
  {
    var m := MapChars(f, s);
    assert !(|m| >= 2 && m[0] == '-' && m[1] == '-');
    MapCharsDrop(f, s, 1);
    MapCharsCons(f, s[0], StripLineComments(s[1..]));
  }

  lemma {:induction false} MapFindClose(f: char -> char, s: string, from: nat)
    requires KeepsSyntax(f)
    ensures FindClose(MapChars(f, s), from) == FindClose(s, from)
    decreases |s| - from
  {
    if from + 1 < |s| {
      MapFindClose(f, s, from + 1);
    }
  }

  lemma {:induction false} MapBlockComments(f: char -> char, s: string)
    requires KeepsSyntax(f)
    ensures StripBlockComments(MapChars(f, s)) == MapChars(f, StripBlockComments(s))
    decreases |s|
  {
    if s != [] {
      MapFindClose(f, s, 2);
      if |s| >= 2 && s[0] == '/' && s[1] == '*' && FindClose(s, 2).Some? {
        var k := FindClose(s, 2).value + 2;
        MapBlockComments(f, s[k..]);
        MapBlockCommentsSkip(f, s);
      } else {
        MapBlockComments(f, s[1..]);
        MapBlockCommentsKeep(f, s);
      }
    }
  }

  /** The comment case of `MapBlockComments`, given the fact for the text after the closer. */
  lemma MapBlockCommentsSkip(f: char -> char, s: string)
    requires KeepsSyntax(f)
    requires |s| >= 2 && s[0] == '/' && s[1] == '*' && FindClose(s, 2).Some?
    requires FindClose(MapChars(f, s), 2) == FindClose(s, 2)
    requires var k := FindClose(s, 2).value + 2;
      StripBlockComments(MapChars(f, s[k..])) == MapChars(f, StripBlockComments(s[k..]))
    ensures StripBlockComments(MapChars(f, s)) == MapChars(f, StripBlockComments(s))
  {
    var m := MapChars(f, s);
    assert m[0] == '/' && m[1] == '*';
    MapCharsDrop(f, s, FindClose(s, 2).value + 2);
  }

  /** The plain-character case of `MapBlockComments`, given the fact for the rest. */
  lemma MapBlockCommentsKeep(f: char -> char, s: string)
    requires KeepsSyntax(f)
    requires s != [] && !(|s| >= 2 && s[0] == '/' && s[1] == '*' && FindClose(s, 2).Some?)
    requires FindClose(MapChars(f, s), 2) == FindClose(s, 2)
    requires StripBlockComments(MapChars(f, s[1..])) == MapChars(f, StripBlockComments(s[1..]))
    ensures StripBlockComments(MapChars(f, s)) == MapChars(f, StripBlockComments(s))
  {
    var m := MapChars(f, s);
    assert !(|m| >= 2 && m[0] == '/' && m[1] == '*' && FindClose(m, 2).Some?);
    MapCharsDrop(f, s, 1);
    MapCharsCons(f, s[0], StripBlockComments(s[1..]));
  }

  /** Normalisation forgets case: a query and its upper- or lower-cased form normalise alike. */
  lemma NormalizeIgnoresCase(query: string)
    ensures Normalize(Upper(query)) == Normalize(query)
    ensures Normalize(Lower(query)) == Normalize(query)
  {
    CaseMapsKeepSyntax();
    var t := StripBlockComments(StripLineComments(query));
    MapLineComments(UpperChar, query);
    MapBlockComments(UpperChar, StripLineComments(query));
    MapStrip(UpperChar, t);
    MapLineComments(LowerChar, query);
    MapBlockComments(LowerChar, StripLineComments(query));
    MapStrip(LowerChar, t);
    UpperAbsorbs(Strip(t));
  }

  /** Keyword matching is case-insensitive: changing the case of the query never changes the verdict. */
  lemma ReadOnlyIgnoresCase(query: string)
    ensures ReadOnly(Upper(query)) <==> ReadOnly(query)
    ensures ReadOnly(Lower(query)) <==> ReadOnly(query)
  {
    NormalizeIgnoresCase(query);
  }

  /** A keyword glued to further word characters, as `CREATE` in `CREATED_AT`, is not a whole word there. */
  lemma {:induction false} GluedKeywordIsNoWord(a: string, kw: string, c: char, b: string)
    requires IsWordChar(c)
    ensures !WordAt(a + kw + [c] + b, kw, |a|)
  {
    assert (a + kw + [c] + b)[|a| + |kw|] == c;
  }
}
