/** Rewriting job SQL for presigned reads (`rewrite_signed_urls` in `datasource.rs`): every quoted
    object URI becomes its presigned URL. The code runs one textual `replace` per object, longest
    URI first. The reference reads the text into literals, doubled quotes included, and substitutes
    whole literals all at once. */
module SignedUrls {
  import opened Wrappers
  import opened Sequences
  import opened SecretSql
  import opened QuotedPieces

  // ------------------------------------------------------------ the code

  /** `str::len`: the number of bytes in UTF-8. */
  function Utf8Length(s: string): nat {
    if s == [] then 0
    else
      (if s[0] < '\U{0080}' then 1 else if s[0] < '\U{0800}' then 2 else if s[0] < '\U{10000}' then 3 else 4)
      + Utf8Length(s[1..])
  }

  function Insert(x: Signed, sorted: seq<Signed>): seq<Signed> {
    if sorted == [] || Utf8Length(x.uri) >= Utf8Length(sorted[0].uri) then [x] + sorted
    else [sorted[0]] + Insert(x, sorted[1..])
  }

  /** Longest URI first; equal lengths keep their order. */
  function ByLength(signed: seq<Signed>): seq<Signed> {
    if signed == [] then [] else Insert(signed[0], ByLength(signed[1..]))
  }

  function Pass(s: string, x: Signed): string {
    if x.uri == "" then s else Replace(s, SqlLit(x.uri), SqlLit(x.url))
  }

  function Passes(s: string, signed: seq<Signed>): string {
    if signed == [] then s else Pass(Passes(s, signed[..|signed| - 1]), signed[|signed| - 1])
  }

  /** One textual pass per object, longest URI first. */
  method RewriteSignedUrls(sql: string, signed: seq<Signed>) returns (out: string)
    ensures out == Passes(sql, ByLength(signed))
    ensures WellListed(signed) ==> (out == Reference(sql, signed) <==> AllPlaced(sql, signed))
  {
    hide Replace, WellListed, Reference, AllPlaced;
    var pairs := ByLength(signed);
    out := sql;
    for i := 0 to |pairs|
      invariant out == Passes(sql, pairs[..i])
    {
      assert pairs[..i + 1][..i] == pairs[..i];
      if pairs[i].uri == "" { continue; }
      out := Replace(out, SqlLit(pairs[i].uri), SqlLit(pairs[i].url));
    }
    assert pairs[..|pairs|] == pairs;
    if WellListed(signed) { RewriteIsSimultaneousExactly(sql, signed); }
  }

  predicate LongestFirst(s: seq<Signed>) {
    |s| <= 1 || (Utf8Length(s[0].uri) >= Utf8Length(s[1].uri) && LongestFirst(s[1..]))
  }

  /** Sorting only reorders, and puts no shorter URI before a longer one. */
  lemma {:induction false} ByLengthSorts(signed: seq<Signed>)
    ensures multiset(ByLength(signed)) == multiset(signed)
    ensures LongestFirst(ByLength(signed))
  {
    if signed != [] {
      ByLengthSorts(signed[1..]);
      InsertKeeps(signed[0], ByLength(signed[1..]));
      InsertSorts(signed[0], ByLength(signed[1..]));
      assert signed == [signed[0]] + signed[1..];
    }
  }

  lemma {:induction false} InsertKeeps(x: Signed, sorted: seq<Signed>)
    ensures multiset(Insert(x, sorted)) == multiset(sorted) + multiset{x}
  {
    if sorted != [] && Utf8Length(x.uri) < Utf8Length(sorted[0].uri) {
      InsertKeeps(x, sorted[1..]);
      assert sorted == [sorted[0]] + sorted[1..];
    }
  }

  lemma {:induction false} InsertSorts(x: Signed, sorted: seq<Signed>)
    requires LongestFirst(sorted)
    ensures LongestFirst(Insert(x, sorted))
  {
    hide Utf8Length;
    if sorted == [] || Utf8Length(x.uri) >= Utf8Length(sorted[0].uri) {
      assert Insert(x, sorted)[1..] == sorted;
    } else {
      InsertSorts(x, sorted[1..]);
      assert Insert(x, sorted)[1..] == Insert(x, sorted[1..]);
    }
  }

  // ------------------------------------------------------------ the reference

  /** Text outside literals, a closed literal by its value, or the rest of a text whose last literal is open. */
  datatype Token = Code(text: string) | Lit(value: string) | Open(text: string)

  /** How many characters come before the next quote. */
  function CodeSpan(s: string): (n: nat)
    ensures n <= |s| && (s != [] && s[0] != '\'' ==> n > 0)
  {
    if s == [] || s[0] == '\'' then 0 else 1 + CodeSpan(s[1..])
  }

  function Tokens(s: string): seq<Token>
    decreases |s|
  {
    if s == [] then []
    else if s[0] == '\'' then
      match ReadQuoted(s[1..])
      case None => [Open(s)]
      case Some((value, rest)) => [Lit(value)] + Tokens(rest)
    else [Code(s[..CodeSpan(s)])] + Tokens(s[CodeSpan(s)..])
  }

  function Written(ts: seq<Token>): string {
    if ts == [] then ""
    else (match ts[0] case Code(t) => t case Lit(v) => SqlLit(v) case Open(t) => t) + Written(ts[1..])
  }

  /** The URL that stands for a non-empty URI. */
  function UrlFor(signed: seq<Signed>, uri: string): Option<string> {
    if uri == "" || signed == [] then None
    else if signed[0].uri == uri then Some(signed[0].url)
    else UrlFor(signed[1..], uri)
  }

  function UrlOr(signed: seq<Signed>, s: string): string {
    if UrlFor(signed, s).Some? then UrlFor(signed, s).value else s
  }

  function Substituted(ts: seq<Token>, signed: seq<Signed>): seq<Token> {
    if ts == [] then []
    else [match ts[0] case Lit(v) => Lit(UrlOr(signed, v)) case t => t] + Substituted(ts[1..], signed)
  }

  /** Every literal that is a URI becomes its URL, and nothing else changes. */
  function Reference(sql: string, signed: seq<Signed>): string { Written(Substituted(Tokens(sql), signed)) }

  /** Reading a text into literals loses nothing. */
  lemma {:induction false} TokensWriteBack(s: string)
    ensures Written(Tokens(s)) == s
    decreases |s|
  {
    if s != [] {
      hide ReadQuoted, SqlLit;
      var ts := Tokens(s);
      if s[0] != '\'' {
        TokensWriteBack(s[CodeSpan(s)..]);
        assert ts[1..] == Tokens(s[CodeSpan(s)..]);
      } else if ReadQuoted(s[1..]).None? {
        assert ts[1..] == [] && Written(ts[1..]) == "" && s + "" == s;
      } else {
        TokensWriteBack(ReadQuoted(s[1..]).value.1);
        LiteralWritesBack(s);
        assert ts[1..] == Tokens(ReadQuoted(s[1..]).value.1);
      }
    }
  }

  lemma LiteralWritesBack(s: string)
    requires s != [] && s[0] == '\'' && ReadQuoted(s[1..]).Some?
    ensures s == SqlLit(ReadQuoted(s[1..]).value.0) + ReadQuoted(s[1..]).value.1
  {
    hide ReadQuoted, Escape;
    ReadThenWrite(s[1..]);
    assert s == "'" + s[1..];
  }

  lemma {:induction false} ReadThenWrite(s: string)
    requires ReadQuoted(s).Some?
    ensures s == Escape(ReadQuoted(s).value.0) + "'" + ReadQuoted(s).value.1
  {
    var (text, rest) := ReadQuoted(s).value;
    if s[0] == '\'' && !(|s| > 1 && s[1] == '\'') {
    } else {
      var more := if s[0] == '\'' then s[2..] else s[1..];
      ReadThenWrite(more);
      assert text[1..] == ReadQuoted(more).value.0;
      assert s == (if s[0] == '\'' then "''" else [s[0]]) + more;
    }
  }

  ghost predicate IsUri(signed: seq<Signed>, uri: string) { uri != "" && exists x :: x in signed && x.uri == uri }

  /** The list names no non-empty URI twice; URIs and URLs hold no quote; no URL is itself a URI. */
  ghost predicate WellListed(signed: seq<Signed>) {
    && (forall x, y :: x in signed && y in signed && x.uri == y.uri && x.uri != "" ==> x == y)
    && (forall x :: x in signed && x.uri != "" ==> multiset(signed)[x] == 1)
    && (forall x :: x in signed ==> QuoteFree(x.uri) && QuoteFree(x.url) && !IsUri(signed, x.url))
  }

  // ------------------------------------------------------------ all passes, on pieces

  lemma {:induction false} UrlForMeans(signed: seq<Signed>, uri: string)
    ensures UrlFor(signed, uri).Some? <==> IsUri(signed, uri)
    ensures UrlFor(signed, uri).Some? ==> Signed(uri, UrlFor(signed, uri).value) in signed
  {
    if signed != [] && uri != "" && signed[0].uri != uri {
      UrlForMeans(signed[1..], uri);
      assert forall x :: x in signed <==> x == signed[0] || x in signed[1..];
    }
  }

  lemma {:induction false} UrlForLast(signed: seq<Signed>, uri: string)
    requires signed != []
    ensures
      var front, last := signed[..|signed| - 1], signed[|signed| - 1];
      UrlFor(signed, uri)
      == if UrlFor(front, uri).Some? then UrlFor(front, uri)
         else if uri != "" && last.uri == uri then Some(last.url) else None
  {
    if |signed| > 1 {
      assert signed[..|signed| - 1][1..] == signed[1..][..|signed[1..]| - 1];
      UrlForLast(signed[1..], uri);
    }
  }

  /** What all passes together do to the pieces behind the first quote. */
  function AllHits(rest: seq<string>, signed: seq<Signed>): seq<string> {
    seq(|rest|, i requires 0 <= i < |rest| => if Hit(rest, rest[i], i) then UrlOr(signed, rest[i]) else rest[i])
  }

  /** Where a URI is hit depends only on where it stands. */
  lemma {:induction false} HitStable(a: seq<string>, b: seq<string>, uri: string, i: nat)
    requires |a| == |b| && i < |a| && forall j :: 0 <= j < |a| ==> (a[j] == uri <==> b[j] == uri)
    ensures Hit(a, uri, i) == Hit(b, uri, i)
  {
    if i > 0 { HitStable(a, b, uri, i - 1); }
  }

  lemma FewerStillListed(signed: seq<Signed>)
    requires signed != [] && WellListed(signed)
    ensures WellListed(signed[..|signed| - 1])
    ensures forall x :: x in signed[..|signed| - 1] && x.uri != "" ==> x.uri != signed[|signed| - 1].uri
  {
    hide QuoteFree;
    var front, last := signed[..|signed| - 1], signed[|signed| - 1];
    assert signed == front + [last];
    forall x | x in front && x.uri != "" ensures multiset(front)[x] == 1 && x.uri != last.uri {
      assert multiset(signed)[x] == multiset(front)[x] + (if x == last then 1 else 0);
      assert x in multiset(front);
    }
    assert forall x :: x in front ==> x in signed;
  }

  /** Other objects' passes neither remove nor create an occurrence of the last URI. */
  lemma LastStaysPut(rest: seq<string>, signed: seq<Signed>, j: nat)
    requires signed != [] && WellListed(signed) && signed[|signed| - 1].uri != "" && j < |rest|
    ensures AllHits(rest, signed[..|signed| - 1])[j] == signed[|signed| - 1].uri
       <==> rest[j] == signed[|signed| - 1].uri
  {
    hide Hit, UrlFor, QuoteFree;
    var front, last := signed[..|signed| - 1], signed[|signed| - 1];
    UrlForMeans(front, rest[j]);
    FewerStillListed(signed);
    if UrlFor(front, rest[j]).Some? {
      var x := Signed(rest[j], UrlFor(front, rest[j]).value);
      assert x in signed && last in signed && !IsUri(signed, x.url);
      assert x.url != last.uri;
    }
  }

  lemma OneMorePass(rest: seq<string>, signed: seq<Signed>)
    requires signed != [] && WellListed(signed) && signed[|signed| - 1].uri != ""
    ensures Matched(AllHits(rest, signed[..|signed| - 1]), signed[|signed| - 1]) == AllHits(rest, signed)
  {
    hide Hit, UrlFor, Matched, WellListed;
    var front, last := signed[..|signed| - 1], signed[|signed| - 1];
    var m := AllHits(rest, front);
    forall j | 0 <= j < |rest| ensures m[j] == last.uri <==> rest[j] == last.uri { LastStaysPut(rest, signed, j); }
    if rest == [] {
      NothingMatched(last);
      assert m == [];
    } else {
      MatchedAt(m, last, 0);
      forall i | 0 <= i < |rest| ensures Matched(m, last)[i] == AllHits(rest, signed)[i] {
        MatchedAt(m, last, i);
        HitStable(m, rest, last.uri, i);
        HitNeedsTheUri(rest, last.uri, i);
        UrlForLast(signed, rest[i]);
        NotAmongTheRest(signed);
        UrlForMeans(front, rest[i]);
      }
    }
  }

  lemma HitNeedsTheUri(rest: seq<string>, uri: string, i: nat)
    requires i < |rest|
    ensures Hit(rest, uri, i) ==> rest[i] == uri
  {}

  lemma NotAmongTheRest(signed: seq<Signed>)
    requires signed != [] && WellListed(signed) && signed[|signed| - 1].uri != ""
    ensures !IsUri(signed[..|signed| - 1], signed[|signed| - 1].uri)
  {
    FewerStillListed(signed);
  }

  lemma EmptyUriIsSkipped(rest: seq<string>, signed: seq<Signed>)
    requires signed != [] && signed[|signed| - 1].uri == ""
    ensures AllHits(rest, signed) == AllHits(rest, signed[..|signed| - 1])
  {
    hide Hit, UrlFor;
    forall i | 0 <= i < |rest| ensures UrlFor(signed, rest[i]) == UrlFor(signed[..|signed| - 1], rest[i]) {
      UrlForLast(signed, rest[i]);
    }
  }

  lemma AllHitsIsQuoteFree(rest: seq<string>, signed: seq<Signed>)
    requires AllQuoteFree(rest) && WellListed(signed)
    ensures AllQuoteFree(AllHits(rest, signed))
  {
    hide Hit, UrlFor, QuoteFree;
    forall i | 0 <= i < |rest| ensures QuoteFree(AllHits(rest, signed)[i]) { UrlForMeans(signed, rest[i]); }
  }

  lemma NothingSigned(rest: seq<string>)
    ensures AllHits(rest, []) == rest
  {}

  /** The passes, in any order, replace exactly the hits of every object. */
  lemma {:induction false} PassesOnPieces(segs: seq<string>, signed: seq<Signed>)
    requires segs != [] && AllQuoteFree(segs) && WellListed(signed)
    ensures Passes(Joined(segs), signed) == Joined([segs[0]] + AllHits(segs[1..], signed))
    decreases |signed|
  {
    hide Joined, Replace, Matched, AllHits, WellListed, QuoteFree, SqlLit;
    var head, rest := segs[0], segs[1..];
    if signed == [] {
      NothingSigned(rest);
      assert segs == [head] + rest;
    } else {
      var front, last := signed[..|signed| - 1], signed[|signed| - 1];
      FewerStillListed(signed);
      PassesOnPieces(segs, front);
      if last.uri == "" {
        EmptyUriIsSkipped(rest, signed);
      } else {
        var m := AllHits(rest, front);
        AllHitsIsQuoteFree(rest, front);
        LastIsPlain(signed);
        ReplaceOnPieces([head] + m, last);
        assert ([head] + m)[1..] == m;
        OneMorePass(rest, signed);
      }
    }
  }

  lemma LastIsPlain(signed: seq<Signed>)
    requires signed != [] && WellListed(signed)
    ensures var last := signed[|signed| - 1];
            QuoteFree(last.uri) && QuoteFree(last.url) && SqlLit(last.uri) == Fenced(last.uri)
            && SqlLit(last.url) == Fenced(last.url)
  {
    var last := signed[|signed| - 1];
    assert last in signed;
    PlainEscape(last.uri);
    PlainEscape(last.url);
  }

  // ------------------------------------------------------------ the reference, on pieces

  /** How many pieces the first literal takes up: an empty piece between two quotes joins its neighbours. */
  function LitLength(rest: seq<string>): (n: Option<nat>)
    ensures n.Some? ==> 1 <= n.value < |rest|
  {
    if |rest| <= 1 then None
    else if rest[1] == "" && |rest| > 2 then
      match LitLength(rest[2..])
      case None => None
      case Some(n) => Some(n + 2)
    else Some(1)
  }

  function LitValue(rest: seq<string>): string {
    if |rest| <= 1 then "" else if rest[1] == "" && |rest| > 2 then rest[0] + ("'" + LitValue(rest[2..])) else rest[0]
  }

  lemma {:induction false} ReadHead(head: string, s: string)
    requires QuoteFree(head)
    ensures ReadQuoted(head + s)
         == match ReadQuoted(s) { case None => None case Some((v, rest)) => Some((head + v, rest)) }
  {
    if head == [] {
      assert head + s == s;
      assert ReadQuoted(s).Some? ==> head + ReadQuoted(s).value.0 == ReadQuoted(s).value.0;
    } else {
      assert (head + s)[0] == head[0] && head[0] in head && (head + s)[1..] == head[1..] + s;
      assert forall c :: c in head[1..] ==> c in head;
      ReadHead(head[1..], s);
      assert ReadQuoted(s).Some? ==> [head[0]] + (head[1..] + ReadQuoted(s).value.0) == head + ReadQuoted(s).value.0;
    }
  }

  /** Reading a literal off the pieces. */
  lemma {:induction false} ReadPieces(rest: seq<string>)
    requires rest != [] && AllQuoteFree(rest)
    ensures ReadQuoted(Joined(rest))
         == if LitLength(rest).None? then None else Some((LitValue(rest), Joined(rest[LitLength(rest).value..])))
    decreases |rest|
  {
    hide Joined, QuoteFree;
    JoinedStep(rest);
    ReadHead(rest[0], Tail(rest[1..]));
    if |rest| > 1 {
      var more := Joined(rest[1..]);
      JoinedStep(rest[1..]);
      ReadAtQuote(more);
      if rest[1] == "" && |rest| > 2 {
        assert rest[1..][1..] == rest[2..];
        assert more == "'" + Joined(rest[2..]) && more[1..] == Joined(rest[2..]);
        ReadPieces(rest[2..]);
        assert LitLength(rest).Some? ==> rest[2..][LitLength(rest[2..]).value..] == rest[LitLength(rest).value..];
      } else {
        FirstIsNoQuote(rest[1..]);
        assert rest[0] + "" == rest[0];
      }
    }
  }

  lemma ReadAtQuote(text: string)
    ensures ReadQuoted("'" + text)
         == if text != [] && text[0] == '\''
            then match ReadQuoted(text[1..]) { case None => None case Some((v, rest)) => Some(("'" + v, rest)) }
            else Some(("", text))
  {
    var s := "'" + text;
    assert s[1..] == text && (|s| > 1 ==> s[2..] == text[1..]);
  }

  lemma FirstIsNoQuote(segs: seq<string>)
    requires segs != [] && AllQuoteFree(segs) && (segs[0] != "" || |segs| == 1)
    ensures Joined(segs) == [] || Joined(segs)[0] != '\''
  {
    JoinedStep(segs);
    assert segs[0] != "" ==> segs[0][0] in segs[0];
  }

  lemma {:induction false} EscapeAppends(a: string, b: string)
    ensures Escape(a + b) == Escape(a) + Escape(b)
  {
    if a == [] {
      assert a + b == b;
    } else {
      assert (a + b)[1..] == a[1..] + b;
      EscapeAppends(a[1..], b);
    }
  }

  lemma EscapeQuote(v: string)
    ensures Escape("'" + v) == "''" + Escape(v)
  {
    assert ("'" + v)[1..] == v;
  }

  lemma DoubledText(a: string, v: string, inner: seq<string>)
    requires QuoteFree(a) && inner != [] && Joined(inner) == Escape(v)
    ensures Joined([a] + ([""] + inner)) == Escape(a + ("'" + v))
  {
    hide Joined, QuoteFree, Escape;
    var x := Joined(inner);
    assert ([a] + ([""] + inner))[1..] == [""] + inner && ([""] + inner)[1..] == inner;
    JoinedStep([a] + ([""] + inner));
    JoinedStep([""] + inner);
    PlainEscape(a);
    EscapeAppends(a, "'" + v);
    EscapeQuote(v);
    assert "'" + ("" + ("'" + x)) == "''" + x;
  }

  /** The pieces of a literal are its value with the quotes doubled; it holds a quote exactly when it takes
      up more than one piece. */
  lemma {:induction false} LiteralText(rest: seq<string>)
    requires AllQuoteFree(rest) && LitLength(rest).Some?
    ensures Joined(rest[..LitLength(rest).value]) == Escape(LitValue(rest))
    ensures if LitLength(rest).value == 1 then LitValue(rest) == rest[0] else !QuoteFree(LitValue(rest))
    decreases |rest|
  {
    hide Joined, Escape;
    var n := LitLength(rest).value;
    if rest[1] == "" && |rest| > 2 {
      LiteralText(rest[2..]);
      var inner, v := rest[2..][..n - 2], LitValue(rest[2..]);
      assert rest[..n] == [rest[0]] + ([""] + inner);
      DoubledText(rest[0], v, inner);
      assert (rest[0] + ("'" + v))[|rest[0]|] == '\'';
    } else {
      assert rest[..1] == [rest[0]] + [];
      JoinedHead(rest[0], []);
      PlainEscape(rest[0]);
    }
  }

  /** What the reference does to the pieces behind the first quote; `joined` says that the first of them
      continues a literal. */
  function Literally(rest: seq<string>, joined: bool, signed: seq<Signed>): seq<string> {
    if |rest| <= 1 then rest
    else
      var joins := rest[1] == "" && |rest| > 2;
      [if joined || joins then rest[0] else UrlOr(signed, rest[0]), rest[1]] + Literally(rest[2..], joins, signed)
  }

  lemma {:induction false} OpenIsLeftAlone(rest: seq<string>, joined: bool, signed: seq<Signed>)
    requires LitLength(rest).None?
    ensures Literally(rest, joined, signed) == rest
    decreases |rest|
  {
    hide UrlOr;
    if |rest| > 1 {
      OpenIsLeftAlone(rest[2..], true, signed);
      assert rest == [rest[0], rest[1]] + rest[2..];
    }
  }

  /** What is made of the first literal. */
  function FirstLiteral(rest: seq<string>, joined: bool, signed: seq<Signed>): (first: seq<string>)
    requires LitLength(rest).Some?
    ensures |first| == LitLength(rest).value
  {
    var n := LitLength(rest).value;
    if n == 1 && !joined then [UrlOr(signed, rest[0])] else rest[..n]
  }

  lemma LiterallyUnfolds(rest: seq<string>, joined: bool, signed: seq<Signed>)
    requires LitLength(rest).Some? && rest[1] == "" && |rest| > 2
    ensures LitLength(rest[2..]).Some? && LitLength(rest).value == LitLength(rest[2..]).value + 2
    ensures Literally(rest, joined, signed) == rest[..2] + Literally(rest[2..], true, signed)
  {
    hide UrlOr;
    assert rest[..2] == [rest[0], rest[1]];
  }

  lemma {:induction false} LiterallySkips(rest: seq<string>, joined: bool, signed: seq<Signed>)
    requires LitLength(rest).Some?
    ensures
      var n := LitLength(rest).value;
      Literally(rest, joined, signed)
        == FirstLiteral(rest, joined, signed) + ([rest[n]] + Literally(rest[n + 1..], false, signed))
    decreases |rest|
  {
    hide Literally, LitLength, FirstLiteral;
    if rest[1] == "" && |rest| > 2 {
      LiterallyUnfolds(rest, joined, signed);
      LiterallySkips(rest[2..], true, signed);
      LongLiteral(rest, joined, signed);
      SkipTwo(rest, LitLength(rest[2..]).value, Literally(rest[LitLength(rest).value + 1..], false, signed));
    } else {
      OneShortLiteral(rest);
      ShortLiteral(rest, joined, signed);
    }
  }

  lemma OneShortLiteral(rest: seq<string>)
    requires LitLength(rest).Some? && !(rest[1] == "" && |rest| > 2)
    ensures LitLength(rest) == Some(1)
  {}

  lemma ShortLiteral(rest: seq<string>, joined: bool, signed: seq<Signed>)
    requires LitLength(rest) == Some(1)
    ensures Literally(rest, joined, signed)
         == FirstLiteral(rest, joined, signed) + ([rest[1]] + Literally(rest[2..], false, signed))
  {
    hide UrlOr;
    assert rest[..1] == [rest[0]];
  }

  lemma LongLiteral(rest: seq<string>, joined: bool, signed: seq<Signed>)
    requires LitLength(rest).Some? && rest[1] == "" && |rest| > 2
    ensures LitLength(rest[2..]).Some?
    ensures FirstLiteral(rest, joined, signed) == rest[..LitLength(rest).value]
    ensures FirstLiteral(rest[2..], true, signed) == rest[2..][..LitLength(rest[2..]).value]
  {
  }

  lemma SkipTwo(rest: seq<string>, n: nat, more: seq<string>)
    requires n + 2 < |rest|
    ensures rest[2..][n + 1..] == rest[n + 3..]
    ensures rest[..2] + (rest[2..][..n] + ([rest[2..][n]] + more)) == rest[..n + 2] + ([rest[n + 2]] + more)
  {
    assert rest[..n + 2] == rest[..2] + rest[2..][..n];
    Associates(rest[..2], rest[2..][..n], [rest[n + 2]] + more);
  }

  lemma {:induction false} ReferenceHead(head: string, tail: string, signed: seq<Signed>)
    requires QuoteFree(head) && (tail == [] || tail[0] == '\'')
    ensures Reference(head + tail, signed) == head + Reference(tail, signed)
  {
    var s := head + tail;
    if head == [] {
      assert s == tail && head + Reference(tail, signed) == Reference(tail, signed);
    } else {
      SpanOf(head, tail);
      assert head[0] in head && s[0] == head[0];
      assert s[..|head|] == head && s[|head|..] == tail;
      var ts := Tokens(s);
      assert ts == [Code(head)] + Tokens(tail) && ts[1..] == Tokens(tail);
      assert Substituted(ts, signed)[1..] == Substituted(Tokens(tail), signed);
    }
  }

  lemma {:induction false} SpanOf(head: string, tail: string)
    requires QuoteFree(head) && (tail == [] || tail[0] == '\'')
    ensures CodeSpan(head + tail) == |head|
  {
    if head == [] {
      assert head + tail == tail;
    } else {
      assert (head + tail)[1..] == head[1..] + tail && head[0] in head;
      assert forall c :: c in head[1..] ==> c in head;
      SpanOf(head[1..], tail);
    }
  }

  lemma ReferenceAtQuote(text: string, signed: seq<Signed>)
    ensures Reference("'" + text, signed)
         == match ReadQuoted(text)
            case None => "'" + text
            case Some((v, rest)) => SqlLit(UrlOr(signed, v)) + Reference(rest, signed)
  {
    hide ReadQuoted, UrlOr;
    var s := "'" + text;
    var ts := Tokens(s);
    assert s[1..] == text;
    match ReadQuoted(text)
    case None =>
      assert ts == [Open(s)] && ts[1..] == [];
      var substituted := Substituted(ts, signed);
      assert Substituted(ts[1..], signed) == [];
      assert substituted == [Open(s)] && substituted[1..] == [];
      assert Written(substituted) == s + Written([]) == s;
    case Some((v, rest)) =>
      assert ts[1..] == Tokens(rest);
      assert Substituted(ts, signed)[1..] == Substituted(Tokens(rest), signed);
  }

  lemma LiteralThen(v: string, first: seq<string>, more: seq<string>)
    requires first != [] && more != [] && Joined(first) == Escape(v)
    ensures SqlLit(v) + Joined(more) == "'" + Joined(first + more)
  {
    hide Joined, Escape;
    JoinedAppends(first, more);
  }

  /** One literal and the text behind it, given what the reference makes of the remainder. */
  lemma ReferenceStep(rest: seq<string>, signed: seq<Signed>, more: seq<string>)
    requires rest != [] && AllQuoteFree(rest) && WellListed(signed) && LitLength(rest).Some? && more != []
    requires Reference(Joined(rest[LitLength(rest).value..]), signed) == Joined(more)
    ensures Reference("'" + Joined(rest), signed) == "'" + Joined(FirstLiteral(rest, false, signed) + more)
  {
    hide Joined, Reference, QuoteFree, UrlFor, SqlLit, LitLength, LitValue, Escape;
    var n, v, first := LitLength(rest).value, LitValue(rest), FirstLiteral(rest, false, signed);
    ReadPieces(rest);
    ReferenceAtQuote(Joined(rest), signed);
    LiteralText(rest);
    UrlForMeans(signed, v);
    if n == 1 {
      JoinedHead(first[0], []);
      assert [first[0]] + [] == first;
      PlainEscape(first[0]);
    } else {
      assert UrlOr(signed, v) == v;
    }
    LiteralThen(UrlOr(signed, v), first, more);
  }

  /** The reference substitutes exactly the pieces that are literals by themselves. */
  lemma {:induction false} ReferenceOnPieces(segs: seq<string>, signed: seq<Signed>)
    requires segs != [] && AllQuoteFree(segs) && WellListed(signed)
    ensures Reference(Joined(segs), signed) == Joined([segs[0]] + Literally(segs[1..], false, signed))
    decreases |segs|
  {
    hide Joined, Reference, QuoteFree, WellListed, Literally, UrlOr, FirstLiteral;
    var head, rest := segs[0], segs[1..];
    var after := Literally(rest, false, signed);
    JoinedStep(segs);
    ReferenceHead(head, Tail(rest), signed);
    assert ([head] + after)[1..] == after;
    JoinedStep([head] + after);
    if rest == [] {
      NothingToRead(signed);
      OpenIsLeftAlone(rest, false, signed);
    } else if LitLength(rest).None? {
      ReadPieces(rest);
      ReferenceAtQuote(Joined(rest), signed);
      OpenIsLeftAlone(rest, false, signed);
    } else {
      LiterallySkips(rest, false, signed);
      var n := LitLength(rest).value;
      var more := [rest[n]] + Literally(rest[n + 1..], false, signed);
      assert rest[n..][0] == rest[n] && rest[n..][1..] == rest[n + 1..];
      ReferenceOnPieces(rest[n..], signed);
      ReferenceStep(rest, signed, more);
    }
  }

  lemma NothingToRead(signed: seq<Signed>)
    ensures Reference("", signed) == ""
  {}

  // ------------------------------------------------------------ exactly when they agree

  /** Piece `i` of those behind the first quote is a closed literal by itself: it starts one, no doubled
      quote ties it to its neighbours, and a quote closes it. */
  predicate Alone(rest: seq<string>, i: nat)
    requires i < |rest|
  {
    && i % 2 == 0 && i < |rest| - 1
    && (i == 0 || rest[i - 1] != "")
    && (rest[i + 1] != "" || i + 1 == |rest| - 1)
  }

  lemma {:induction false} LiterallyAt(rest: seq<string>, joined: bool, signed: seq<Signed>, i: nat)
    requires i < |rest|
    ensures |Literally(rest, joined, signed)| == |rest|
    ensures Literally(rest, joined, signed)[i]
         == if Alone(rest, i) && !(joined && i == 0) then UrlOr(signed, rest[i]) else rest[i]
    decreases |rest|
  {
    hide UrlOr;
    if |rest| == 2 {
      assert rest[2..] == [] && Literally(rest[2..], false, signed) == [];
    } else if |rest| > 2 {
      var joins := rest[1] == "";
      LiterallyAt(rest[2..], joins, signed, if i < 2 then 0 else i - 2);
      if i >= 2 {
        assert rest[2..][i - 2] == rest[i];
        assert i - 2 > 0 ==> rest[2..][i - 3] == rest[i - 1];
        assert i + 1 < |rest| ==> rest[2..][i - 1] == rest[i + 1];
      }
    }
  }

  /** Piece `i` is a literal by itself or comes right after one that is the URI too. */
  predicate PlacedAt(rest: seq<string>, uri: string, i: nat)
    requires i < |rest|
  {
    Alone(rest, i) || (i > 0 && rest[i - 1] == uri && Alone(rest, i - 1))
  }

  /** Every piece that is the URI, with a quote behind it, is so placed. */
  ghost predicate Placed(rest: seq<string>, uri: string) {
    forall i :: 0 <= i < |rest| - 1 && rest[i] == uri ==> PlacedAt(rest, uri, i)
  }

  ghost predicate AllPlaced(sql: string, signed: seq<Signed>) {
    forall x :: x in signed && x.uri != "" ==> Placed(Split(sql)[1..], x.uri)
  }

  lemma {:induction false} PlacedHits(rest: seq<string>, uri: string, i: nat)
    requires Placed(rest, uri) && i < |rest|
    ensures Hit(rest, uri, i) <==> Alone(rest, i) && rest[i] == uri
  {
    if i > 0 {
      PlacedHits(rest, uri, i - 1);
      assert !(Alone(rest, i) && Alone(rest, i - 1)) by { assert i % 2 != (i - 1) % 2; }
    }
    if i < |rest| - 1 && rest[i] == uri { assert PlacedAt(rest, uri, i); }
  }

  lemma HitsArePlaced(rest: seq<string>, uri: string)
    requires forall i :: 0 <= i < |rest| ==> (Hit(rest, uri, i) <==> Alone(rest, i) && rest[i] == uri)
    ensures Placed(rest, uri)
  {
    forall i | 0 <= i < |rest| - 1 && rest[i] == uri ensures PlacedAt(rest, uri, i) {
      assert Hit(rest, uri, i) <==> (i == 0 || !Hit(rest, uri, i - 1));
    }
  }

  lemma {:induction false} ListedUrl(signed: seq<Signed>, x: Signed)
    requires WellListed(signed) && x in signed && x.uri != ""
    ensures UrlOr(signed, x.uri) == x.url && x.url != x.uri
  {
    hide UrlFor;
    UrlForMeans(signed, x.uri);
    assert !IsUri(signed, x.url);
  }

  lemma SamePiecesExactly(rest: seq<string>, signed: seq<Signed>)
    requires WellListed(signed)
    ensures AllHits(rest, signed) == Literally(rest, false, signed)
       <==> forall x :: x in signed && x.uri != "" ==> Placed(rest, x.uri)
  {
    hide WellListed, Literally, Placed, UrlFor, Hit, Alone;
    var hits, lits := AllHits(rest, signed), Literally(rest, false, signed);
    if rest == [] {
      NoPieces(signed);
      NothingIsPlaced(signed);
    } else {
      LiterallyAt(rest, false, signed, 0);
      forall i | 0 <= i < |rest|
        ensures hits[i] == lits[i] <==> UrlFor(signed, rest[i]).None? || (Hit(rest, rest[i], i) <==> Alone(rest, i))
      {
        PieceAgrees(rest, signed, i);
      }
      if forall x :: x in signed && x.uri != "" ==> Placed(rest, x.uri) {
        forall i | 0 <= i < |rest| ensures hits[i] == lits[i] {
          UrlForMeans(signed, rest[i]);
          if UrlFor(signed, rest[i]).Some? { PlacedHits(rest, rest[i], i); }
        }
      }
      if hits == lits {
        forall x | x in signed && x.uri != "" ensures Placed(rest, x.uri) { AgreeingIsPlaced(rest, signed, x); }
      }
    }
  }

  lemma NoPieces(signed: seq<Signed>)
    ensures AllHits([], signed) == Literally([], false, signed)
  {}

  lemma NothingIsPlaced(signed: seq<Signed>)
    ensures forall uri :: Placed([], uri)
  {}

  lemma PieceAgrees(rest: seq<string>, signed: seq<Signed>, i: nat)
    requires WellListed(signed) && i < |rest|
    ensures |Literally(rest, false, signed)| == |rest|
    ensures AllHits(rest, signed)[i] == Literally(rest, false, signed)[i]
       <==> UrlFor(signed, rest[i]).None? || (Hit(rest, rest[i], i) <==> Alone(rest, i))
  {
    LiterallyAt(rest, false, signed, i);
    hide WellListed, Literally, UrlFor, Hit, Alone;
    UrlForMeans(signed, rest[i]);
    if UrlFor(signed, rest[i]).Some? { ListedUrl(signed, Signed(rest[i], UrlFor(signed, rest[i]).value)); }
  }

  lemma AgreeingIsPlaced(rest: seq<string>, signed: seq<Signed>, x: Signed)
    requires WellListed(signed) && x in signed && x.uri != ""
    requires AllHits(rest, signed) == Literally(rest, false, signed)
    ensures Placed(rest, x.uri)
  {
    hide WellListed, Literally, UrlFor, Hit, Alone;
    forall i | 0 <= i < |rest| ensures Hit(rest, x.uri, i) <==> Alone(rest, i) && rest[i] == x.uri {
      PieceAgrees(rest, signed, i);
      HitNeedsTheUri(rest, x.uri, i);
      UrlForMeans(signed, rest[i]);
    }
    HitsArePlaced(rest, x.uri);
  }

  lemma {:induction false} LiterallyIsQuoteFree(rest: seq<string>, signed: seq<Signed>)
    requires AllQuoteFree(rest) && WellListed(signed)
    ensures AllQuoteFree(Literally(rest, false, signed))
  {
    hide Literally, UrlFor, QuoteFree, Alone;
    if rest == [] { NoPieces(signed); } else { LiterallyAt(rest, false, signed, 0); }
    forall i | 0 <= i < |Literally(rest, false, signed)| ensures QuoteFree(Literally(rest, false, signed)[i]) {
      LiterallyAt(rest, false, signed, i);
      UrlForMeans(signed, rest[i]);
    }
  }

  /** The passes give what the reference gives exactly when every URI is placed. */
  lemma PassesAreReferenceExactly(sql: string, signed: seq<Signed>)
    requires WellListed(signed)
    ensures Passes(sql, signed) == Reference(sql, signed) <==> AllPlaced(sql, signed)
  {
    hide Joined, Split, Passes, Reference, WellListed, AllHits, Literally, QuoteFree, Placed;
    var segs := Split(sql);
    var head, rest := segs[0], segs[1..];
    SplitJoins(sql);
    SplitIsQuoteFree(sql);
    PassesOnPieces(segs, signed);
    ReferenceOnPieces(segs, signed);
    SamePiecesExactly(rest, signed);
    AllHitsIsQuoteFree(rest, signed);
    LiterallyIsQuoteFree(rest, signed);
    var hits, lits := [head] + AllHits(rest, signed), [head] + Literally(rest, false, signed);
    SplitOfJoined(hits);
    SplitOfJoined(lits);
    assert hits[1..] == AllHits(rest, signed) && lits[1..] == Literally(rest, false, signed);
  }

  /** The order of the list changes neither side. */
  lemma SortingChangesNothing(signed: seq<Signed>, sorted: seq<Signed>, sql: string)
    requires WellListed(signed) && multiset(signed) == multiset(sorted)
    ensures WellListed(sorted)
    ensures Reference(sql, sorted) == Reference(sql, signed)
    ensures AllPlaced(sql, sorted) <==> AllPlaced(sql, signed)
  {
    hide QuoteFree, Tokens, Placed, Split;
    forall x ensures x in signed <==> x in sorted {
      assert x in signed <==> x in multiset(signed);
      assert x in sorted <==> x in multiset(sorted);
    }
    forall uri ensures IsUri(signed, uri) <==> IsUri(sorted, uri) {}
    forall s ensures UrlOr(signed, s) == UrlOr(sorted, s) {
      UrlForMeans(signed, s);
      UrlForMeans(sorted, s);
    }
    SameUrlsSameTokens(Tokens(sql), signed, sorted);
  }

  lemma {:induction false} SameUrlsSameTokens(ts: seq<Token>, a: seq<Signed>, b: seq<Signed>)
    requires forall s :: UrlOr(a, s) == UrlOr(b, s)
    ensures Substituted(ts, a) == Substituted(ts, b)
  {
    hide UrlOr;
    if ts != [] { SameUrlsSameTokens(ts[1..], a, b); }
  }

  /** The whole rewrite is the simultaneous substitution of literals exactly when every URI is placed,
      whatever the order of the list and whatever the lengths of the URIs. */
  lemma RewriteIsSimultaneousExactly(sql: string, signed: seq<Signed>)
    requires WellListed(signed)
    ensures Passes(sql, ByLength(signed)) == Reference(sql, signed) <==> AllPlaced(sql, signed)
  {
    hide Passes, Reference, ByLength, WellListed, AllPlaced;
    ByLengthSorts(signed);
    SortingChangesNothing(signed, ByLength(signed), sql);
    PassesAreReferenceExactly(sql, ByLength(signed));
  }

  // ------------------------------------------------------------ two texts the rewrite gets wrong

  lemma OnePass(segs: seq<string>, x: Signed)
    requires segs != [] && AllQuoteFree(segs) && x.uri != "" && QuoteFree(x.uri) && QuoteFree(x.url)
    ensures Pass(Joined(segs), x) == Joined([segs[0]] + Matched(segs[1..], x))
  {
    hide Replace, Joined, Matched, QuoteFree;
    PlainEscape(x.uri);
    PlainEscape(x.url);
    assert SqlLit(x.uri) == Fenced(x.uri) && SqlLit(x.url) == Fenced(x.url);
    ReplaceOnPieces(segs, x);
  }

  /** A misplaced URI makes the rewrite differ from the reference. */
  lemma MisplacedIsWrong(segs: seq<string>, x: Signed)
    requires segs != [] && AllQuoteFree(segs) && WellListed([x]) && x.uri != "" && !Placed(segs[1..], x.uri)
    ensures Pass(Joined(segs), x) != Reference(Joined(segs), [x])
  {
    hide Joined, Pass, Reference, WellListed, Placed, QuoteFree;
    assert x in [x] && [x][..|[x]| - 1] == [];
    assert Passes(Joined(segs), [x]) == Pass(Passes(Joined(segs), []), x);
    SplitOfJoined(segs);
    PassesAreReferenceExactly(Joined(segs), [x]);
  }

  lemma UvIsWellListed()
    ensures WellListed([Signed("u", "v")])
  {
    var x := Signed("u", "v");
    assert x in [x] && multiset([x])[x] == 1;
  }

  /** Text between two literals that happens to be a URI is rewritten too: `'a'u'b'`. */
  lemma TextBetweenLiteralsIsTouched()
    ensures Pass(Joined(["", "a", "u", "b", ""]), Signed("u", "v")) == Joined(["", "a", "v", "b", ""])
    ensures var text, one := Joined(["", "a", "u", "b", ""]), Signed("u", "v");
            Pass(text, one) != Reference(text, [one])
  {
    hide Joined, Replace, Pass, Reference, WellListed;
    var segs, x := ["", "a", "u", "b", ""], Signed("u", "v");
    assert segs[1..] == ["a", "u", "b", ""] && ["a", "u", "b", ""][1..] == ["u", "b", ""]
           && ["u", "b", ""][2..] == [""];
    assert Matched(["u", "b", ""], x) == ["v", "b", ""];
    assert Matched(segs[1..], x) == ["a", "v", "b", ""];
    OnePass(segs, x);
    assert [segs[0]] + Matched(segs[1..], x) == ["", "a", "v", "b", ""];
    assert segs[1..][1] == "u";
    UvIsWellListed();
    MisplacedIsWrong(segs, x);
  }

  /** So is the inside of another literal, between two doubled quotes: `'a''u''b'` is one literal. */
  lemma InsideOfALiteralIsTouched()
    ensures ReadQuoted(Joined(["a", "", "u", "", "b", ""])) == Some(("a'u'b", ""))
    ensures Pass(Joined(["", "a", "", "u", "", "b", ""]), Signed("u", "v")) == Joined(["", "a", "", "v", "", "b", ""])
    ensures Pass(Joined(["", "a", "", "u", "", "b", ""]), Signed("u", "v"))
         != Reference(Joined(["", "a", "", "u", "", "b", ""]), [Signed("u", "v")])
  {
    hide Joined, Replace, ReadQuoted, Pass, Reference, WellListed;
    var x := Signed("u", "v");
    var segs, rest := ["", "a", "", "u", "", "b", ""], ["a", "", "u", "", "b", ""];
    InsidePieces();
    OnePass(segs, x);
    assert segs[1..] == rest;
    assert [segs[0]] + Matched(rest, x) == ["", "a", "", "v", "", "b", ""];
    assert rest[2] == "u" && !Alone(rest, 2);
    UvIsWellListed();
    MisplacedIsWrong(segs, x);
  }

  lemma InsidePieces()
    ensures ReadQuoted(Joined(["a", "", "u", "", "b", ""])) == Some(("a'u'b", ""))
    ensures Matched(["a", "", "u", "", "b", ""], Signed("u", "v")) == ["a", "", "v", "", "b", ""]
  {
    var x, rest := Signed("u", "v"), ["a", "", "u", "", "b", ""];
    assert rest[1..] == ["", "u", "", "b", ""] && rest[1..][1..] == ["u", "", "b", ""]
           && rest[2..] == ["u", "", "b", ""];
    assert rest[2..][2..] == ["b", ""] && ["b", ""][1..] == [""];
    assert Matched(["b", ""], x) == ["b", ""];
    assert Matched(["u", "", "b", ""], x) == ["v", "", "b", ""];
    assert Matched(rest[1..], x) == ["", "v", "", "b", ""];
    hide ReadQuoted;
    assert LitLength(["b", ""]) == Some(1) && LitLength(rest[2..]) == Some(3) && LitLength(rest) == Some(5);
    assert LitValue(["b", ""]) == "b" && LitValue(rest[2..]) == "u" + ("'" + "b")
           && LitValue(rest) == "a" + ("'" + ("u" + ("'" + "b")));
    assert "a" + ("'" + ("u" + ("'" + "b"))) == "a'u'b";
    ReadPieces(rest);
    assert rest[5..] == [""];
    JoinedStep([""]);
  }
}
