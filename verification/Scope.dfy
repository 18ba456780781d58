/** The storage scope of a job's credential: `credential_prefix` in `coordinator.rs` derives a
    prefix from the pinned object URIs, `scope_url` in `datasource.rs` turns it into the scope. */
module Scope {
  import opened Text

  const SEPARATOR := "://"

  function TrimSlashes(s: string): string {
    if s != [] && s[0] == '/' then TrimSlashes(s[1..]) else s
  }

  predicate EndsInSlash(s: string) { s != [] && s[|s| - 1] == '/' }

  function ScopeUrl(scheme: string, prefix: string): string {
    var p := Trim(prefix);
    var url := if Contains(p, SEPARATOR) then p else scheme + SEPARATOR + TrimSlashes(p);
    if EndsInSlash(url) then url else url + "/"
  }

  /** `zip` and `take_while` equal. */
  function Common(a: string, b: string): string {
    if a == [] || b == [] || a[0] != b[0] then [] else [a[0]] + Common(a[1..], b[1..])
  }

  function LongestCommon(uris: seq<string>): string
    requires uris != []
  {
    if |uris| == 1 then uris[0] else Common(LongestCommon(uris[..|uris| - 1]), uris[|uris| - 1])
  }

  /** Up to and including the last slash; empty when there is none. */
  function UpToSlash(s: string): string {
    if s == [] || EndsInSlash(s) then s else UpToSlash(s[..|s| - 1])
  }

  function Cut(s: string): string { if '/' in s then UpToSlash(s) else s }

  /** Narrow to the common prefix, then cut after its last slash. */
  method CredentialPrefix(uris: seq<string>) returns (prefix: string)
    ensures uris == [] ==> prefix == ""
    ensures uris != [] ==> prefix == Cut(LongestCommon(uris))
  {
    if uris == [] { return ""; }
    prefix := uris[0];
    for n := 1 to |uris|
      invariant prefix == LongestCommon(uris[..n])
    {
      assert uris[..n + 1][..n] == uris[..n];
      prefix := Common(prefix, uris[n]);
    }
    assert uris[..|uris|] == uris;
    var i := |prefix|;
    assert prefix[..i] == prefix;
    while i > 0 && prefix[i - 1] != '/'
      invariant 0 <= i <= |prefix|
      invariant UpToSlash(prefix) == UpToSlash(prefix[..i])
      invariant '/' in prefix <==> '/' in prefix[..i]
    {
      assert prefix[..i] == prefix[..i - 1] + [prefix[i - 1]];
      i := i - 1;
    }
    if i > 0 {
      assert prefix[..i][i - 1] == '/';
      prefix := prefix[..i];
    }
  }

  // ------------------------------------------------------------ the longest common prefix

  predicate Covers(p: string, uris: seq<string>) { forall i :: 0 <= i < |uris| ==> p <= uris[i] }

  lemma {:induction false} CommonIsLongest(a: string, b: string, p: string)
    ensures p <= Common(a, b) <==> p <= a && p <= b
  {
    if p == [] {
    } else if a != [] && b != [] && a[0] == b[0] {
      CommonIsLongest(a[1..], b[1..], p[1..]);
      assert a == [a[0]] + a[1..] && b == [b[0]] + b[1..] && p == [p[0]] + p[1..];
    }
  }

  /** A string is a common prefix of the URIs exactly when it is a prefix of the computed one. */
  lemma {:induction false} LongestCommonIsLongest(uris: seq<string>, p: string)
    requires uris != []
    ensures p <= LongestCommon(uris) <==> Covers(p, uris)
  {
    if |uris| > 1 {
      LongestCommonIsLongest(uris[..|uris| - 1], p);
      CommonIsLongest(LongestCommon(uris[..|uris| - 1]), uris[|uris| - 1], p);
    }
  }

  /** The result depends on which URIs there are, not on their order or repetition. */
  lemma OrderDoesNotMatter(a: seq<string>, b: seq<string>)
    requires a != [] && b != [] && (forall u :: u in a <==> u in b)
    ensures LongestCommon(a) == LongestCommon(b)
  {
    var la, lb := LongestCommon(a), LongestCommon(b);
    LongestCommonIsLongest(a, la);
    LongestCommonIsLongest(b, lb);
    assert forall i :: 0 <= i < |a| ==> a[i] in b;
    assert forall i :: 0 <= i < |b| ==> b[i] in a;
    LongestCommonIsLongest(a, lb);
    LongestCommonIsLongest(b, la);
  }

  lemma {:induction false} UpToSlashIsLongest(s: string, p: string)
    requires '/' in s
    ensures EndsInSlash(UpToSlash(s)) && UpToSlash(s) <= s
    ensures EndsInSlash(p) && p <= s ==> p <= UpToSlash(s)
  {
    if !EndsInSlash(s) {
      var front := s[..|s| - 1];
      assert s == front + [s[|s| - 1]];
      UpToSlashIsLongest(front, p);
    }
  }

  // ------------------------------------------------------------ the scope covers the objects

  lemma ContainsInLonger(a: string, b: string, pat: string)
    requires a <= b && Contains(a, pat)
    ensures Contains(b, pat)
  {
    var i :| 0 <= i <= |a| && OccursAt(a, pat, i);
    assert b[i..i + |pat|] == a[i..i + |pat|];
    assert OccursAt(b, pat, i);
  }

  lemma CutKeepsSeparator(s: string)
    requires Contains(s, SEPARATOR)
    ensures '/' in s && Contains(UpToSlash(s), SEPARATOR)
  {
    var i :| 0 <= i <= |s| && OccursAt(s, SEPARATOR, i);
    var p := s[..i + 3];
    assert s[i..i + 3][2] == '/';
    assert s[i + 2] == '/';
    UpToSlashIsLongest(s, p);
    assert p[i..i + 3] == SEPARATOR;
    assert OccursAt(p, SEPARATOR, i);
    ContainsInLonger(p, UpToSlash(s), SEPARATOR);
  }

  lemma {:induction false} TrimStartKeepsSeparator(s: string)
    requires Contains(s, SEPARATOR)
    ensures Contains(TrimStart(s), SEPARATOR)
  {
    hide IsWhitespace;
    if s != [] && IsWhitespace(s[0]) {
      var i :| 0 <= i <= |s| && OccursAt(s, SEPARATOR, i);
      assert s[i..i + 3][0] == s[i];
      ColonIsNoSpace();
      assert i > 0 && s[1..][i - 1..i + 2] == s[i..i + 3];
      assert OccursAt(s[1..], SEPARATOR, i - 1);
      TrimStartKeepsSeparator(s[1..]);
    }
  }

  lemma {:induction false} TrimEndKeepsSeparator(s: string)
    requires Contains(s, SEPARATOR)
    ensures Contains(TrimEnd(s), SEPARATOR)
  {
    hide IsWhitespace;
    if s != [] && IsWhitespace(s[|s| - 1]) {
      var i :| 0 <= i <= |s| && OccursAt(s, SEPARATOR, i);
      assert s[i..i + 3][2] == s[i + 2];
      ColonIsNoSpace();
      var front := s[..|s| - 1];
      assert i + 3 <= |front| && front[i..i + 3] == s[i..i + 3];
      assert OccursAt(front, SEPARATOR, i);
      TrimEndKeepsSeparator(front);
    }
  }

  lemma ColonIsNoSpace()
    ensures !IsWhitespace(':') && !IsWhitespace('/')
  {}

  lemma SeparatorInside(scheme: string, rest: string)
    ensures Contains(scheme + SEPARATOR + rest, SEPARATOR)
  {
    var s := scheme + SEPARATOR + rest;
    assert s[|scheme|..|scheme| + 3] == SEPARATOR;
    assert OccursAt(s, SEPARATOR, |scheme|);
  }

  lemma ScopeHasSeparator(scheme: string, prefix: string)
    ensures Contains(ScopeUrl(scheme, prefix), SEPARATOR) && EndsInSlash(ScopeUrl(scheme, prefix))
  {
    hide Trim, TrimSlashes;
    var p := Trim(prefix);
    SeparatorInside(scheme, TrimSlashes(p));
    var url := if Contains(p, SEPARATOR) then p else scheme + SEPARATOR + TrimSlashes(p);
    ContainsInLonger(url, ScopeUrl(scheme, prefix), SEPARATOR);
  }

  /** A plain bucket and path become a URL of the scheme; a prefix that already is one keeps its own. */
  lemma ScopeUrlIsExact(scheme: string, prefix: string)
    requires Trimmed(prefix) && !EndsInSlash(prefix)
    ensures Contains(prefix, SEPARATOR) ==> ScopeUrl(scheme, prefix) == prefix + "/"
    ensures !Contains(prefix, SEPARATOR) && prefix != [] && prefix[0] != '/' ==>
              ScopeUrl(scheme, prefix) == scheme + "://" + prefix + "/"
  {
    hide Contains, IsWhitespace;
    TrimSettles(prefix);
    if !Contains(prefix, SEPARATOR) && prefix != [] {
      assert (scheme + SEPARATOR + prefix)[|scheme + SEPARATOR + prefix| - 1] == prefix[|prefix| - 1];
    }
  }

  function ScopeOf(scheme: string, uris: seq<string>): string
    requires uris != []
  {
    ScopeUrl(scheme, Cut(LongestCommon(uris)))
  }

  lemma CutStartsAlike(s: string)
    requires Contains(s, SEPARATOR)
    ensures s != [] && Cut(s) != [] && Cut(s)[0] == s[0]
    ensures IsWhitespace(s[0]) || Trim(Cut(s)) == Cut(s)
  {
    hide IsWhitespace, Trim;
    CutKeepsSeparator(s);
    UpToSlashIsLongest(s, []);
    ColonIsNoSpace();
    TrimSettles(Cut(s));
  }

  /** With a separator to start from, the scope is the trimmed cut itself. */
  lemma ScopeIsTheCut(scheme: string, uris: seq<string>)
    requires uris != [] && Contains(LongestCommon(uris), SEPARATOR)
    ensures ScopeOf(scheme, uris)[0] != LongestCommon(uris)[0] || ScopeOf(scheme, uris) == Cut(LongestCommon(uris))
    ensures IsWhitespace(LongestCommon(uris)[0]) <==> ScopeOf(scheme, uris)[0] != LongestCommon(uris)[0]
    ensures ScopeOf(scheme, uris) != []
  {
    hide IsWhitespace, LongestCommon, TrimStart, TrimEnd, UpToSlash, Contains;
    var s := LongestCommon(uris);
    CutKeepsSeparator(s);
    CutStartsAlike(s);
    UpToSlashIsLongest(s, []);
    TrimStartKeepsSeparator(Cut(s));
    TrimEndKeepsSeparator(TrimStart(Cut(s)));
    TrimSettles(Cut(s));
    EmptyHasNoSeparator();
    assert Contains(Trim(Cut(s)), SEPARATOR);
  }

  lemma EmptyHasNoSeparator()
    ensures !Contains("", SEPARATOR)
  {}

  /** The scope covers every object exactly when the URIs share a scheme and separator and do not
      start with whitespace; it is then the longest prefix they share that ends in a slash. */
  lemma ScopeCoversExactly(scheme: string, uris: seq<string>)
    requires uris != []
    ensures Covers(ScopeOf(scheme, uris), uris)
       <==> Contains(LongestCommon(uris), SEPARATOR) && !IsWhitespace(LongestCommon(uris)[0])
    ensures EndsInSlash(ScopeOf(scheme, uris))
    ensures forall p :: Covers(ScopeOf(scheme, uris), uris) && Covers(p, uris) && EndsInSlash(p) ==>
              p <= ScopeOf(scheme, uris)
  {
    hide IsWhitespace, LongestCommon, ScopeUrl, Contains, UpToSlash, Covers;
    var s, scope := LongestCommon(uris), ScopeOf(scheme, uris);
    ScopeHasSeparator(scheme, Cut(s));
    LongestCommonIsLongest(uris, scope);
    EmptyHasNoSeparator();
    if Covers(scope, uris) {
      ContainsInLonger(scope, s, SEPARATOR);
    }
    if Contains(s, SEPARATOR) {
      ScopeIsTheCut(scheme, uris);
      CutKeepsSeparator(s);
      UpToSlashIsLongest(s, []);
      forall p | Covers(scope, uris) && Covers(p, uris) && EndsInSlash(p) ensures p <= scope {
        LongestCommonIsLongest(uris, p);
        UpToSlashIsLongest(s, p);
      }
    }
  }

  /** A shared `scheme://` at the start is such a separator. */
  lemma SharedSchemeCovers(scheme: string, uris: seq<string>, shared: string)
    requires uris != [] && Covers(shared + SEPARATOR, uris) && Trimmed(uris[0])
    ensures Covers(ScopeOf(scheme, uris), uris)
  {
    hide IsWhitespace, LongestCommon, ScopeOf, Contains;
    LongestCommonIsLongest(uris, shared + SEPARATOR);
    LongestCommonIsLongest(uris, LongestCommon(uris));
    assert shared + SEPARATOR == shared + SEPARATOR + "";
    SeparatorInside(shared, "");
    ContainsInLonger(shared + SEPARATOR, LongestCommon(uris), SEPARATOR);
    assert LongestCommon(uris) <= uris[0];
    ScopeCoversExactly(scheme, uris);
  }
}
