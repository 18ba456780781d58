/** The string operations of the Rust standard library that the other modules rely on. */
module Text {

  /** The Unicode White_Space property, which is what `trim` removes. */
  predicate IsWhitespace(c: char) {
    || '\t' <= c <= '\r' || c == ' ' || c == '\U{0085}' || c == '\U{00A0}' || c == '\U{1680}'
    || '\U{2000}' <= c <= '\U{200A}' || c == '\U{2028}' || c == '\U{2029}'
    || c == '\U{202F}' || c == '\U{205F}' || c == '\U{3000}'
  }

  predicate OccursAt(s: string, pat: string, i: nat) { i + |pat| <= |s| && s[i..i + |pat|] == pat }

  predicate Contains(s: string, pat: string) { exists i | 0 <= i <= |s| :: OccursAt(s, pat, i) }

  function TrimStart(s: string): string {
    if s != [] && IsWhitespace(s[0]) then TrimStart(s[1..]) else s
  }

  function TrimEnd(s: string): string {
    if s != [] && IsWhitespace(s[|s| - 1]) then TrimEnd(s[..|s| - 1]) else s
  }

  function Trim(s: string): string { TrimEnd(TrimStart(s)) }

  /** No whitespace at either end. */
  predicate Trimmed(s: string) {
    s != [] ==> !IsWhitespace(s[0]) && !IsWhitespace(s[|s| - 1])
  }

  lemma {:induction false} TrimStartEnds(s: string)
    ensures var t := TrimStart(s); t != [] ==> !IsWhitespace(t[0])
  {
    hide IsWhitespace;
    if s != [] && IsWhitespace(s[0]) { TrimStartEnds(s[1..]); }
  }

  lemma {:induction false} TrimEndEnds(s: string)
    ensures var t := TrimEnd(s); t <= s && (t != [] ==> !IsWhitespace(t[|t| - 1]))
  {
    hide IsWhitespace;
    if s != [] && IsWhitespace(s[|s| - 1]) { TrimEndEnds(s[..|s| - 1]); }
  }

  /** Trimming leaves nothing to trim, and a trimmed string is what trimming leaves alone. */
  lemma TrimSettles(s: string)
    ensures Trimmed(Trim(s))
    ensures Trimmed(s) <==> Trim(s) == s
    ensures Trim(Trim(s)) == Trim(s)
  {
    hide IsWhitespace;
    TrimStartEnds(s);
    TrimEndEnds(TrimStart(s));
  }

  predicate AllWhitespace(s: string) { forall i | 0 <= i < |s| :: IsWhitespace(s[i]) }

  lemma {:induction false} TrimStartCuts(s: string) returns (cut: string)
    ensures s == cut + TrimStart(s) && AllWhitespace(cut)
  {
    hide IsWhitespace;
    cut := "";
    if s != [] && IsWhitespace(s[0]) {
      var rest := TrimStartCuts(s[1..]);
      cut := [s[0]] + rest;
    }
  }

  lemma {:induction false} TrimEndCuts(s: string) returns (cut: string)
    ensures s == TrimEnd(s) + cut && AllWhitespace(cut)
  {
    hide IsWhitespace;
    cut := "";
    if s != [] && IsWhitespace(s[|s| - 1]) {
      var rest := TrimEndCuts(s[..|s| - 1]);
      cut := rest + [s[|s| - 1]];
      assert s == s[..|s| - 1] + [s[|s| - 1]];
    }
  }

  /** Trimming cuts off whitespace at the two ends and nothing else. */
  lemma TrimIsExact(s: string) returns (before: string, behind: string)
    ensures s == before + Trim(s) + behind && AllWhitespace(before) && AllWhitespace(behind) && Trimmed(Trim(s))
  {
    hide IsWhitespace, TrimStart, TrimEnd, AllWhitespace;
    before := TrimStartCuts(s);
    behind := TrimEndCuts(TrimStart(s));
    TrimSettles(s);
  }

  /** `to_ascii_lowercase`. */
  function AsciiLower(s: string): string {
    seq(|s|, i requires 0 <= i < |s| => if 'A' <= s[i] <= 'Z' then (s[i] as int + 32) as char else s[i])
  }

  /** `join`. */
  function Join(parts: seq<string>, separator: string): string {
    if parts == [] then "" else if |parts| == 1 then parts[0] else parts[0] + separator + Join(parts[1..], separator)
  }

  /** Lowering touches the capital ASCII letters and nothing else. */
  lemma LowerIsExact(s: string)
    ensures AsciiLower("ABCDEFGHIJKLMNOPQRSTUVWXYZ") == "abcdefghijklmnopqrstuvwxyz"
    ensures |AsciiLower(s)| == |s|
    ensures forall i | 0 <= i < |s| ::
              if 'A' <= s[i] <= 'Z' then 'a' <= AsciiLower(s)[i] <= 'z' else AsciiLower(s)[i] == s[i]
  {}
}
