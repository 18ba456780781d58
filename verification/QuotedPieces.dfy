/** Texts cut at their quotes, and what one textual replacement of a quoted literal does to the pieces. */
module QuotedPieces {
  import opened SecretSql
  import Text

  /** An object URI and the presigned URL that stands for it. */
  datatype Signed = Signed(uri: string, url: string)

  predicate QuoteFree(s: string) { '\'' !in s }

  ghost predicate AllQuoteFree(segs: seq<string>) { forall i :: 0 <= i < |segs| ==> QuoteFree(segs[i]) }

  /** A text cut at every quote. */
  function Split(s: string): (segs: seq<string>)
    ensures segs != []
  {
    if s == [] then [""]
    else
      var rest := Split(s[1..]);
      if s[0] == '\'' then [""] + rest else [[s[0]] + rest[0]] + rest[1..]
  }

  function Joined(segs: seq<string>): string { Text.Join(segs, "'") }

  /** Cutting at the quotes loses nothing. */
  lemma {:induction false} SplitJoins(s: string)
    ensures Joined(Split(s)) == s
  {
    if s != [] {
      hide Joined;
      SplitJoins(s[1..]);
      var rest, segs := Split(s[1..]), Split(s);
      JoinedStep(segs);
      JoinedStep(rest);
      if s[0] == '\'' {
        assert segs[1..] == rest;
        assert "" + ("'" + s[1..]) == s;
      } else {
        assert segs[1..] == rest[1..];
        assert ([s[0]] + rest[0]) + Tail(rest[1..]) == [s[0]] + (rest[0] + Tail(rest[1..]));
        assert s == [s[0]] + s[1..];
      }
    }
  }

  lemma {:induction false} SplitIsQuoteFree(s: string)
    ensures AllQuoteFree(Split(s))
  {
    if s != [] {
      SplitIsQuoteFree(s[1..]);
      var rest := Split(s[1..]);
      assert QuoteFree(rest[0]);
      assert s[0] != '\'' ==> QuoteFree([s[0]] + rest[0]);
    }
  }

  lemma {:induction false} SplitOfJoined(segs: seq<string>)
    requires segs != [] && AllQuoteFree(segs)
    ensures Split(Joined(segs)) == segs
  {
    var head, rest := segs[0], segs[1..];
    assert segs == [head] + rest;
    JoinedHead(head, rest);
    if rest == [] {
      SplitHead(head, "");
      assert head + "" == head;
    } else {
      var tail := "'" + Joined(rest);
      SplitOfJoined(rest);
      assert head + "'" + Joined(rest) == head + tail;
      assert tail[1..] == Joined(rest);
      assert Split(tail) == [""] + rest;
      SplitHead(head, tail);
      assert head + "" == head && ([""] + rest)[1..] == rest;
    }
  }

  lemma {:induction false} SplitHead(head: string, tail: string)
    requires QuoteFree(head)
    ensures Split(head + tail) == [head + Split(tail)[0]] + Split(tail)[1..]
  {
    var t := Split(tail);
    if head == [] {
      assert head + tail == tail && head + t[0] == t[0];
    } else {
      assert (head + tail)[1..] == head[1..] + tail;
      assert head[0] in head && (forall c :: c in head[1..] ==> c in head);
      SplitHead(head[1..], tail);
      var rest := [head[1..] + t[0]] + t[1..];
      assert rest[1..] == t[1..];
      assert [head[0]] + (head[1..] + t[0]) == head + t[0];
    }
  }

  // ------------------------------------------------------------ one replacement

  /** `str::replace`: leftmost matches, not overlapping. */
  function Replace(s: string, from: string, to: string): string
    requires from != []
    decreases |s|
  {
    if from <= s then to + Replace(s[|from|..], from, to)
    else if s == [] then []
    else [s[0]] + Replace(s[1..], from, to)
  }

  lemma {:induction false} PlainEscape(s: string)
    requires QuoteFree(s)
    ensures Escape(s) == s
  {
    if s != [] {
      assert s[0] in s && (forall c :: c in s[1..] ==> c in s);
      PlainEscape(s[1..]);
    }
  }

  /** Nothing matches before the first quote. */
  lemma {:induction false} ScanHead(head: string, tail: string, from: string, to: string)
    requires QuoteFree(head) && from != [] && from[0] == '\''
    ensures Replace(head + tail, from, to) == head + Replace(tail, from, to)
  {
    if head == [] {
      assert head + tail == tail;
    } else {
      var s := head + tail;
      assert s[0] == head[0] && head[0] in head;
      assert s[1..] == head[1..] + tail;
      assert forall c :: c in head[1..] ==> c in head;
      ScanHead(head[1..], tail, from, to);
      assert head == [head[0]] + head[1..];
    }
  }

  lemma {:induction false} UpToTheQuote(a: string, first: string, tail: string)
    requires QuoteFree(a) && QuoteFree(first) && (tail == [] || tail[0] == '\'')
    ensures a + "'" <= first + tail <==> tail != [] && a == first
  {
    var p, s := a + "'", first + tail;
    if a == [] {
      assert p == "'" && (first != [] ==> first[0] in first && s[0] == first[0]);
      assert first == [] ==> s == tail;
    } else if first == [] {
      assert s == tail && p[0] == a[0] && a[0] in a;
    } else {
      assert p == [a[0]] + (a[1..] + "'") && s == [first[0]] + (first[1..] + tail);
      ConsPrefix(a[0], a[1..] + "'", first[0], first[1..] + tail);
      assert (forall c :: c in a[1..] ==> c in a) && (forall c :: c in first[1..] ==> c in first);
      UpToTheQuote(a[1..], first[1..], tail);
      assert a == [a[0]] + a[1..] && first == [first[0]] + first[1..];
    }
  }

  lemma ConsPrefix(c: char, p: string, d: char, s: string)
    ensures [c] + p <= [d] + s <==> c == d && p <= s
  {
    var cp, ds := [c] + p, [d] + s;
    if cp <= ds {
      assert ds[..|cp|] == cp;
      assert cp[0] == c && ds[0] == d;
      assert s[..|p|] == ds[1..|cp|] == cp[1..] == p;
    }
    if c == d && p <= s {
      assert ds[..|cp|] == [d] + s[..|p|];
    }
  }

  /** The text from a piece's closing quote on. */
  function Tail(rest: seq<string>): string { if rest == [] then "" else "'" + Joined(rest) }

  lemma JoinedStep(segs: seq<string>)
    requires segs != []
    ensures Joined(segs) == segs[0] + Tail(segs[1..])
  {
    assert |segs| == 1 ==> segs[0] + "" == segs[0];
    assert |segs| > 1 ==> segs[0] + "'" + Joined(segs[1..]) == segs[0] + ("'" + Joined(segs[1..]));
  }

  /** A quote-free string followed by a quote starts the text exactly when it is the first piece and
      another follows. */
  lemma PieceMatches(a: string, segs: seq<string>)
    requires QuoteFree(a) && segs != [] && AllQuoteFree(segs)
    ensures a + "'" <= Joined(segs) <==> |segs| > 1 && segs[0] == a
  {
    hide QuoteFree, Joined;
    JoinedStep(segs);
    UpToTheQuote(a, segs[0], Tail(segs[1..]));
  }

  /** What replacing does to the pieces after the head: a match uses up both its quotes, so the next
      piece is passed over. */
  function Matched(rest: seq<string>, x: Signed): seq<string> {
    if |rest| <= 1 then rest
    else if rest[0] == x.uri then [x.url, rest[1]] + Matched(rest[2..], x)
    else [rest[0]] + Matched(rest[1..], x)
  }

  lemma JoinedHead(head: string, rest: seq<string>)
    ensures Joined([head] + rest) == if rest == [] then head else head + "'" + Joined(rest)
  {
    assert ([head] + rest)[1..] == rest;
  }

  lemma {:induction false} ReplaceOnPieces(segs: seq<string>, x: Signed)
    requires segs != [] && AllQuoteFree(segs) && QuoteFree(x.uri)
    ensures Replace(Joined(segs), Fenced(x.uri), Fenced(x.url)) == Joined([segs[0]] + Matched(segs[1..], x))
    decreases |segs|
  {
    hide Replace, Joined, QuoteFree, Fenced, Matched;
    var head, rest := segs[0], segs[1..];
    JoinedStep(segs);
    FencedStart(x.uri);
    ScanHead(head, Tail(rest), Fenced(x.uri), Fenced(x.url));
    if rest == [] {
      ReplaceEmpty(Fenced(x.uri), Fenced(x.url));
      NothingMatched(x);
      JoinedStep([head] + []);
    } else {
      QuoteStep(x, rest);
      if |rest| > 1 && rest[0] == x.uri {
        ReplaceOnPieces(rest[1..], x);
        MatchedJoins(head, rest, x);
      } else {
        ReplaceOnPieces(rest, x);
        UnmatchedJoins(head, rest, x);
      }
    }
  }

  function Fenced(s: string): string { "'" + s + "'" }

  lemma FencedStart(s: string)
    ensures Fenced(s) != [] && Fenced(s)[0] == '\''
  {}

  lemma NothingMatched(x: Signed)
    ensures Matched([], x) == []
  {}

  lemma ReplaceEmpty(from: string, to: string)
    requires from != []
    ensures Replace("", from, to) == ""
  {}

  lemma FencedText(s: string, text: string)
    ensures "'" + (s + ("'" + text)) == Fenced(s) + text
  {}

  lemma MatchedJoins(head: string, rest: seq<string>, x: Signed)
    requires |rest| > 1 && rest[0] == x.uri
    ensures Joined([head] + Matched(rest, x))
         == head + (Fenced(x.url) + Joined([rest[1..][0]] + Matched(rest[1..][1..], x)))
  {
    hide Joined, Fenced;
    assert rest[1..][0] == rest[1] && rest[1..][1..] == rest[2..];
    var more, matched := [rest[1]] + Matched(rest[2..], x), Matched(rest, x);
    assert matched == [x.url] + more;
    hide Matched;
    assert ([head] + matched)[1..] == matched && matched[1..] == more;
    JoinedStep([head] + matched);
    JoinedStep(matched);
    FencedText(x.url, Joined(more));
  }

  lemma UnmatchedJoins(head: string, rest: seq<string>, x: Signed)
    requires rest != [] && !(|rest| > 1 && rest[0] == x.uri)
    ensures Joined([head] + Matched(rest, x)) == head + ("'" + Joined([rest[0]] + Matched(rest[1..], x)))
  {
    hide Joined;
    var matched := Matched(rest, x);
    assert matched == [rest[0]] + Matched(rest[1..], x);
    assert ([head] + matched)[1..] == matched;
    JoinedStep([head] + matched);
  }

  lemma ReplaceAtQuote(p: string, text: string, to: string)
    ensures Replace("'" + text, "'" + p, to)
         == if p <= text then to + Replace(text[|p|..], "'" + p, to) else "'" + Replace(text, "'" + p, to)
  {
    var s, from := "'" + text, "'" + p;
    ConsPrefix('\'', p, '\'', text);
    assert s[1..] == text;
    assert from <= s ==> s[|from|..] == text[|p|..];
  }

  /** One step of the scan at a quote. */
  lemma QuoteStep(x: Signed, rest: seq<string>)
    requires rest != [] && AllQuoteFree(rest) && QuoteFree(x.uri)
    ensures Replace("'" + Joined(rest), Fenced(x.uri), Fenced(x.url))
         == if |rest| > 1 && rest[0] == x.uri
            then Fenced(x.url) + Replace(Joined(rest[1..]), Fenced(x.uri), Fenced(x.url))
            else "'" + Replace(Joined(rest), Fenced(x.uri), Fenced(x.url))
  {
    hide Replace, Joined, QuoteFree;
    var p, text := x.uri + "'", Joined(rest);
    PieceMatches(x.uri, rest);
    assert Fenced(x.uri) == "'" + p;
    ReplaceAtQuote(p, text, Fenced(x.url));
    if |rest| > 1 && rest[0] == x.uri {
      assert rest == [x.uri] + rest[1..];
      JoinedHead(x.uri, rest[1..]);
      assert text[|p|..] == Joined(rest[1..]);
    }
  }

  /** Piece `i` of those behind the first quote is replaced: it is the URI, a quote follows, and no match
      has just used up the quote before it. */
  predicate Hit(rest: seq<string>, uri: string, i: nat)
    requires i < |rest|
  {
    i < |rest| - 1 && rest[i] == uri && (i == 0 || !Hit(rest, uri, i - 1))
  }

  lemma {:induction false} HitShift(rest: seq<string>, uri: string, k: nat, i: nat)
    requires k + i < |rest| && (k == 0 || !Hit(rest, uri, k - 1))
    ensures Hit(rest[k..], uri, i) == Hit(rest, uri, k + i)
    decreases i
  {
    assert rest[k..][i] == rest[k + i];
    if i > 0 { HitShift(rest, uri, k, i - 1); }
  }

  lemma {:induction false} MatchedAt(rest: seq<string>, x: Signed, i: nat)
    requires i < |rest|
    ensures |Matched(rest, x)| == |rest|
    ensures Matched(rest, x)[i] == if Hit(rest, x.uri, i) then x.url else rest[i]
    decreases |rest|
  {
    if |rest| > 1 {
      if rest[0] == x.uri {
        if |rest| == 2 {
          assert rest[2..] == [];
        } else {
          MatchedAt(rest[2..], x, if i < 2 then 0 else i - 2);
          if i >= 2 { HitShift(rest, x.uri, 2, i - 2); }
        }
      } else {
        MatchedAt(rest[1..], x, if i < 1 then 0 else i - 1);
        if i >= 1 { HitShift(rest, x.uri, 1, i - 1); }
      }
    }
  }

  lemma {:induction false} JoinedAppends(a: seq<string>, b: seq<string>)
    requires a != [] && b != []
    ensures Joined(a + b) == Joined(a) + ("'" + Joined(b))
  {
    hide Joined;
    JoinedStep(a);
    JoinedStep(a + b);
    if |a| == 1 {
      assert (a + b)[1..] == b && a[1..] == [];
      assert a[0] + "" == a[0];
    } else {
      assert (a + b)[1..] == a[1..] + b;
      JoinedAppends(a[1..], b);
      assert a[0] + ("'" + (Joined(a[1..]) + ("'" + Joined(b)))) == (a[0] + ("'" + Joined(a[1..]))) + ("'" + Joined(b));
    }
  }
}
