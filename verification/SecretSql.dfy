/** The `CREATE SECRET` text a worker hands its engine (`create_secret_sql` of the S3, Azure and
    GCS providers in `datasource.rs`), and a reader for that text which knows nothing of the
    printer but SQL's rule that a quote inside a literal is doubled. */
module SecretSql {
  import opened Wrappers
  import opened Scope
  import opened Strings = Text

  datatype SecretError = MissingField(field: string, provider: string) | InvalidSecretKey(key: string) | BadCredential

  datatype Literal = Quoted(text: string) | Bare(word: string)

  datatype Clause = Clause(key: string, literal: Literal)

  // ------------------------------------------------------------ printing

  function Escape(s: string): string {
    if s == [] then [] else (if s[0] == '\'' then "''" else [s[0]]) + Escape(s[1..])
  }

  function SqlLit(s: string): string { "'" + Escape(s) + "'" }

  function Part(key: string, literal: string): string { key + " " + literal }

  function Header(name: string): string { "CREATE OR REPLACE SECRET " + name + " (" }

  predicate KeyChar(c: char) { 'A' <= c <= 'Z' || '0' <= c <= '9' || c == '_' }

  /** `^[A-Z_][A-Z0-9_]*$` */
  predicate ValidKey(s: string) {
    s != [] && !('0' <= s[0] <= '9') && forall i :: 0 <= i < |s| ==> KeyChar(s[i])
  }

  function SecretKeyIdent(key: string, upper: string -> string): Result<string, SecretError> {
    if ValidKey(upper(key)) then Ok(upper(key)) else Err(InvalidSecretKey(key))
  }

  // ------------------------------------------------------------ reading

  predicate WordChar(c: char) { 'a' <= c <= 'z' || '0' <= c <= '9' }

  /** How many leading characters belong to a key, and to a bare word. */
  function KeySpan(s: string): (n: nat)
    ensures n <= |s|
  {
    if s == [] || !KeyChar(s[0]) then 0 else 1 + KeySpan(s[1..])
  }

  function WordSpan(s: string): (n: nat)
    ensures n <= |s|
  {
    if s == [] || !WordChar(s[0]) then 0 else 1 + WordSpan(s[1..])
  }

  /** The rest of a quoted literal whose opening quote is behind us, and what follows it. */
  function ReadQuoted(s: string): (r: Option<(string, string)>)
    ensures r.Some? ==> |r.value.1| < |s|
  {
    if s == [] then None
    else if s[0] == '\'' && !(|s| > 1 && s[1] == '\'') then Some(("", s[1..]))
    else
      match ReadQuoted(if s[0] == '\'' then s[2..] else s[1..])
      case None => None
      case Some((text, rest)) => Some(([s[0]] + text, rest))
  }

  function ReadClause(s: string): (r: Option<(Clause, string)>)
    ensures r.Some? ==> |r.value.1| < |s|
  {
    var k := KeySpan(s);
    if k == 0 || k == |s| || s[k] != ' ' then None
    else
      var rest := s[k + 1..];
      if rest != [] && rest[0] == '\'' then
        match ReadQuoted(rest[1..])
        case None => None
        case Some((text, after)) => Some((Clause(s[..k], Quoted(text)), after))
      else
        var w := WordSpan(rest);
        if w == 0 then None else Some((Clause(s[..k], Bare(rest[..w])), rest[w..]))
  }

  /** The option list up to the closing `);`, which must end the text. */
  function ReadClauses(s: string): Option<seq<Clause>>
    decreases |s|
  {
    match ReadClause(s)
    case None => None
    case Some((clause, rest)) =>
      if rest == ");" then Some([clause])
      else if ", " <= rest then
        match ReadClauses(rest[2..])
        case None => None
        case Some(more) => Some([clause] + more)
      else None
  }

  function ReadStatement(name: string, text: string): Option<seq<Clause>> {
    if Header(name) <= text then ReadClauses(text[|Header(name)|..]) else None
  }

  // ------------------------------------------------------------ reading undoes printing

  ghost predicate WellFormed(c: Clause) {
    && c.key != [] && (forall i :: 0 <= i < |c.key| ==> KeyChar(c.key[i]))
    && (c.literal.Bare? ==>
          c.literal.word != [] && forall i :: 0 <= i < |c.literal.word| ==> WordChar(c.literal.word[i]))
  }

  function Render(c: Clause): string {
    Part(c.key, match c.literal { case Quoted(t) => SqlLit(t) case Bare(w) => w })
  }

  lemma {:induction false} KeySpanOf(key: string, rest: string)
    requires (forall i :: 0 <= i < |key| ==> KeyChar(key[i])) && (rest == [] || !KeyChar(rest[0]))
    ensures KeySpan(key + rest) == |key|
  {
    if key == [] {
      assert key + rest == rest;
    } else {
      assert (key + rest)[1..] == key[1..] + rest;
      KeySpanOf(key[1..], rest);
    }
  }

  lemma {:induction false} WordSpanOf(word: string, rest: string)
    requires (forall i :: 0 <= i < |word| ==> WordChar(word[i])) && (rest == [] || !WordChar(rest[0]))
    ensures WordSpan(word + rest) == |word|
  {
    if word == [] {
      assert word + rest == rest;
    } else {
      assert (word + rest)[1..] == word[1..] + rest;
      WordSpanOf(word[1..], rest);
    }
  }

  /** Any string at all comes back from its escaped form, whatever follows but a quote. */
  lemma {:induction false} QuotedReadsBack(text: string, tail: string)
    requires tail != [] && tail[0] == '\'' && (|tail| == 1 || tail[1] != '\'')
    ensures ReadQuoted(Escape(text) + tail) == Some((text, tail[1..]))
  {
    var s := Escape(text) + tail;
    if text == [] {
      assert s == tail;
    } else {
      QuotedReadsBack(text[1..], tail);
      var more := Escape(text[1..]) + tail;
      assert text == [text[0]] + text[1..];
      if text[0] == '\'' {
        assert s[2..] == more;
      } else {
        assert s[1..] == more;
      }
    }
  }

  /** After a key and a space, the reader is left with what follows them. */
  lemma KeyReadsBack(key: string, tail: string)
    requires key != [] && forall i :: 0 <= i < |key| ==> KeyChar(key[i])
    ensures
      var s := key + " " + tail;
      KeySpan(s) == |key| && |key| < |s| && s[|key|] == ' ' && s[..|key|] == key && s[|key| + 1..] == tail
  {
    hide KeySpan;
    var s := key + " " + tail;
    assert s == key + (" " + tail);
    KeySpanOf(key, " " + tail);
  }

  lemma ClauseReadsBack(c: Clause, rest: string)
    requires WellFormed(c) && rest != [] && (rest[0] == ',' || rest[0] == ')')
    ensures ReadClause(Render(c) + rest) == Some((c, rest))
  {
    hide ReadQuoted, Escape, KeySpan, WordSpan, KeyChar, WordChar;
    match c.literal
    case Quoted(t) =>
      var tail := SqlLit(t) + rest;
      KeyReadsBack(c.key, tail);
      QuotedReadsBack(t, "'" + rest);
      assert Render(c) + rest == c.key + " " + tail;
      assert tail[1..] == Escape(t) + ("'" + rest);
      assert ("'" + rest)[1..] == rest;
    case Bare(w) =>
      BareReadsBack(c, rest);
  }

  lemma BareReadsBack(c: Clause, rest: string)
    requires WellFormed(c) && c.literal.Bare? && rest != [] && (rest[0] == ',' || rest[0] == ')')
    ensures ReadClause(Render(c) + rest) == Some((c, rest))
  {
    hide KeySpan, WordSpan, KeyChar;
    var w := c.literal.word;
    var tail := w + rest;
    KeyReadsBack(c.key, tail);
    WordSpanOf(w, rest);
    assert Render(c) + rest == c.key + " " + tail;
    assert tail[0] == w[0] && WordChar(w[0]);
    assert tail[..|w|] == w && tail[|w|..] == rest;
  }

  function Rendered(cs: seq<Clause>): seq<string> {
    seq(|cs|, i requires 0 <= i < |cs| => Render(cs[i]))
  }

  ghost predicate AllWellFormed(cs: seq<Clause>) { forall i :: 0 <= i < |cs| ==> WellFormed(cs[i]) }

  /** Reading a printed option list gives the list back, in order, and leaves nothing unread. */
  lemma {:induction false} ListReadsBack(cs: seq<Clause>)
    requires cs != [] && AllWellFormed(cs)
    ensures ReadClauses(Join(Rendered(cs), ", ") + ");") == Some(cs)
  {
    hide ReadClause, Render, WellFormed;
    var s := Join(Rendered(cs), ", ") + ");";
    if |cs| == 1 {
      assert s == Render(cs[0]) + ");";
      ClauseReadsBack(cs[0], ");");
      assert cs == [cs[0]];
    } else {
      var more := Join(Rendered(cs[1..]), ", ") + ");";
      assert Rendered(cs)[1..] == Rendered(cs[1..]);
      assert s == Render(cs[0]) + (", " + more);
      ClauseReadsBack(cs[0], ", " + more);
      ListReadsBack(cs[1..]);
      assert (", " + more)[2..] == more;
      assert ", " + more != ");";
      assert cs == [cs[0]] + cs[1..];
    }
  }

  /** The same for the whole statement. */
  lemma StatementReadsBack(name: string, cs: seq<Clause>)
    requires cs != [] && AllWellFormed(cs)
    ensures ReadStatement(name, Header(name) + Join(Rendered(cs), ", ") + ");") == Some(cs)
  {
    hide ReadClauses, Join, Rendered, Header;
    var text := Header(name) + Join(Rendered(cs), ", ") + ");";
    ListReadsBack(cs);
    assert text == Header(name) + (Join(Rendered(cs), ", ") + ");");
    assert text[|Header(name)|..] == Join(Rendered(cs), ", ") + ");";
  }

  // ------------------------------------------------------------ the three providers

  datatype Cloud = Cloud(
    keyId: Option<string>, secret: Option<string>, sessionToken: Option<string>, connectionString: Option<string>,
    region: Option<string>, endpoint: Option<string>, urlStyle: Option<string>, useSsl: Option<bool>,
    extra: seq<(string, string)>)

  datatype ProviderOptions = ProviderOptions(region: Option<string>, endpoint: Option<string>,
                                             urlStyle: Option<string>, useSsl: Option<bool>)

  function Or<T>(first: Option<T>, second: Option<T>): Option<T> { if first.Some? then first else second }

  function Text(key: string, value: Option<string>): seq<Clause> {
    if value.Some? then [Clause(key, Quoted(value.value))] else []
  }

  function Flag(key: string, value: Option<bool>): seq<Clause> {
    if value.Some? then [Clause(key, Bare(if value.value then "true" else "false"))] else []
  }

  /** The extra options, or the first key that is not an identifier. */
  function Extras(extra: seq<(string, string)>, upper: string -> string): Result<seq<Clause>, SecretError> {
    if extra == [] then Ok([])
    else
      match Extras(extra[..|extra| - 1], upper)
      case Err(e) => Err(e)
      case Ok(before) =>
        match SecretKeyIdent(extra[|extra| - 1].0, upper)
        case Err(e) => Err(e)
        case Ok(key) => Ok(before + [Clause(key, Quoted(extra[|extra| - 1].1))])
  }

  datatype Provider = S3 | Azure | Gcs

  function Scheme(p: Provider): string {
    match p case S3 => "s3" case Azure => "azure" case Gcs => "gcs"
  }

  /** The options before the extras, or what is missing. */
  function Leading(p: Provider, c: Cloud, opts: ProviderOptions): Result<seq<Clause>, SecretError> {
    match p
    case S3 =>
      if c.keyId.None? then Err(MissingField("key_id", "s3"))
      else if c.secret.None? then Err(MissingField("secret", "s3"))
      else Ok([Clause("TYPE", Bare("s3"))] + Text("KEY_ID", c.keyId) + Text("SECRET", c.secret)
              + Text("SESSION_TOKEN", c.sessionToken) + Text("REGION", Or(c.region, opts.region))
              + Text("ENDPOINT", Or(c.endpoint, opts.endpoint)) + Text("URL_STYLE", Or(c.urlStyle, opts.urlStyle))
              + Flag("USE_SSL", Or(c.useSsl, opts.useSsl)))
    case Azure =>
      if c.connectionString.None? then Err(MissingField("connection_string", "az"))
      else Ok([Clause("TYPE", Bare("azure"))] + Text("CONNECTION_STRING", c.connectionString))
    case Gcs =>
      if c.keyId.None? then Err(MissingField("key_id", "gcs"))
      else if c.secret.None? then Err(MissingField("secret", "gcs"))
      else Ok([Clause("TYPE", Bare("gcs"))] + Text("KEY_ID", c.keyId) + Text("SECRET", c.secret)
              + Text("SESSION_TOKEN", c.sessionToken) + Text("ENDPOINT", Or(c.endpoint, opts.endpoint)))
  }

  /** The option list a credential calls for: what the provider needs, the extras, the scope last. */
  function Intended(p: Provider, decoded: Result<Cloud, SecretError>, prefix: string, opts: ProviderOptions,
                    upper: string -> string)
    : Result<seq<Clause>, SecretError>
  {
    match decoded
    case Err(e) => Err(e)
    case Ok(c) =>
      match Leading(p, c, opts)
      case Err(e) => Err(e)
      case Ok(leading) =>
        match Extras(c.extra, upper)
        case Err(e) => Err(e)
        case Ok(extras) => Ok(leading + extras + [Clause("SCOPE", Quoted(ScopeUrl(Scheme(p), prefix)))])
  }

  /** The text says what was asked for: reading it yields the intended list, and there is text
      exactly when there is such a list. */
  ghost predicate Says(r: Result<string, SecretError>, name: string, intended: Result<seq<Clause>, SecretError>) {
    match intended
    case Err(e) => r == Err(e)
    case Ok(cs) => r.Ok? && ReadStatement(name, r.value) == Some(cs)
  }

  /** The parts pushed so far print the clauses `cs`. */
  ghost predicate Prints(parts: seq<string>, cs: seq<Clause>) { parts == Rendered(cs) && AllWellFormed(cs) }

  lemma PrintsOne(parts: seq<string>, cs: seq<Clause>, c: Clause)
    requires Prints(parts, cs) && WellFormed(c)
    ensures Prints(parts + [Render(c)], cs + [c])
  {
    hide Render, WellFormed;
    assert Rendered(cs + [c]) == Rendered(cs) + [Render(c)];
  }

  method PushText(parts: seq<string>, ghost cs: seq<Clause>, key: string, value: Option<string>)
    returns (more: seq<string>)
    requires Prints(parts, cs) && ValidKey(key)
    ensures Prints(more, cs + Text(key, value))
  {
    hide Prints;
    more := parts;
    if value.Some? {
      PrintsOne(parts, cs, Clause(key, Quoted(value.value)));
      more := more + [Part(key, SqlLit(value.value))];
    } else {
      assert cs + [] == cs;
    }
  }

  method PushExtras(parts: seq<string>, ghost cs: seq<Clause>, extra: seq<(string, string)>, upper: string -> string)
    returns (r: Result<seq<string>, SecretError>)
    requires Prints(parts, cs)
    ensures r.Err? <==> Extras(extra, upper).Err?
    ensures r.Err? ==> r.error == Extras(extra, upper).error
    ensures r.Ok? ==> Prints(r.value, cs + Extras(extra, upper).value)
  {
    hide Prints;
    var more := parts;
    assert cs + [] == cs;
    for i := 0 to |extra|
      invariant Extras(extra[..i], upper).Ok? && Prints(more, cs + Extras(extra[..i], upper).value)
    {
      assert extra[..i + 1][..i] == extra[..i];
      var before := Extras(extra[..i], upper).value;
      match SecretKeyIdent(extra[i].0, upper) {
        case Err(e) =>
          ErrorsPersist(extra, upper, i + 1);
          return Err(e);
        case Ok(key) =>
          var clause := Clause(key, Quoted(extra[i].1));
          PrintsOne(more, cs + before, clause);
          assert cs + before + [clause] == cs + (before + [clause]);
          more := more + [Part(key, SqlLit(extra[i].1))];
      }
    }
    assert extra[..|extra|] == extra;
    r := Ok(more);
  }

  lemma {:induction false} ErrorsPersist(extra: seq<(string, string)>, upper: string -> string, n: nat)
    requires n <= |extra| && Extras(extra[..n], upper).Err?
    ensures Extras(extra, upper) == Extras(extra[..n], upper)
    decreases |extra|
  {
    if n == |extra| {
      assert extra[..n] == extra;
    } else {
      assert extra[..|extra| - 1][..n] == extra[..n];
      ErrorsPersist(extra[..|extra| - 1], upper, n);
    }
  }

  lemma KeysAreValid()
    ensures ValidKey("TYPE") && ValidKey("KEY_ID") && ValidKey("SECRET") && ValidKey("SESSION_TOKEN")
            && ValidKey("REGION")
    ensures ValidKey("ENDPOINT") && ValidKey("URL_STYLE") && ValidKey("USE_SSL") && ValidKey("CONNECTION_STRING")
            && ValidKey("SCOPE")
  {}

  lemma WordsAreValid(key: string)
    requires ValidKey(key)
    ensures WellFormed(Clause(key, Bare("s3"))) && WellFormed(Clause(key, Bare("azure")))
            && WellFormed(Clause(key, Bare("gcs")))
    ensures WellFormed(Clause(key, Bare("true"))) && WellFormed(Clause(key, Bare("false")))
  {}

  method Begin(word: string) returns (parts: seq<string>)
    requires word in {"s3", "azure", "gcs"}
    ensures Prints(parts, [Clause("TYPE", Bare(word))])
  {
    hide WellFormed, ValidKey;
    KeysAreValid();
    WordsAreValid("TYPE");
    ghost var none: seq<Clause> := [];
    PrintsOne([], none, Clause("TYPE", Bare(word)));
    parts := [Part("TYPE", word)];
    assert [] + parts == parts && none + [Clause("TYPE", Bare(word))] == [Clause("TYPE", Bare(word))];
  }

  /** Extras, scope, and the statement around them. */
  method Finish(name: string, p: Provider, parts: seq<string>, ghost leading: seq<Clause>, extra: seq<(string, string)>,
                prefix: string, upper: string -> string)
    returns (r: Result<string, SecretError>)
    requires Prints(parts, leading)
    ensures Says(r, name, match Extras(extra, upper) {
                            case Err(e) => Err(e)
                            case Ok(extras) => Ok(leading + extras
                                                  + [Clause("SCOPE", Quoted(ScopeUrl(Scheme(p), prefix)))]) })
  {
    hide Prints, ValidKey, Extras, ScopeUrl, ReadStatement;
    KeysAreValid();
    var pushed := PushExtras(parts, leading, extra, upper);
    match pushed
    case Err(e) => r := Err(e);
    case Ok(more) =>
      var scope := ScopeUrl(Scheme(p), prefix);
      ghost var cs := leading + Extras(extra, upper).value;
      var all := PushText(more, cs, "SCOPE", Some(scope));
      Complete(name, all, cs + Text("SCOPE", Some(scope)));
      r := Ok(Header(name) + Join(all, ", ") + ");");
  }

  lemma Complete(name: string, parts: seq<string>, cs: seq<Clause>)
    requires Prints(parts, cs) && cs != []
    ensures ReadStatement(name, Header(name) + Join(parts, ", ") + ");") == Some(cs)
  {
    hide ReadStatement, Rendered, AllWellFormed;
    StatementReadsBack(name, cs);
  }

  /** Credential material wins over the provider's configured options. */
  method S3Secret(name: string, decoded: Result<Cloud, SecretError>, prefix: string, opts: ProviderOptions,
                  upper: string -> string)
    returns (r: Result<string, SecretError>)
    ensures Says(r, name, Intended(S3, decoded, prefix, opts, upper))
  {
    hide Prints, ValidKey, Extras, ScopeUrl, ReadStatement;
    if decoded.Err? { return Err(decoded.error); }
    var c := decoded.value;
    if c.keyId.None? { return Err(MissingField("key_id", "s3")); }
    if c.secret.None? { return Err(MissingField("secret", "s3")); }
    KeysAreValid();
    WordsAreValid("USE_SSL");
    var parts := Begin("s3");
    ghost var cs := [Clause("TYPE", Bare("s3"))];
    parts := PushText(parts, cs, "KEY_ID", c.keyId);
    cs := cs + Text("KEY_ID", c.keyId);
    parts := PushText(parts, cs, "SECRET", c.secret);
    cs := cs + Text("SECRET", c.secret);
    parts := PushText(parts, cs, "SESSION_TOKEN", c.sessionToken);
    cs := cs + Text("SESSION_TOKEN", c.sessionToken);
    parts := PushText(parts, cs, "REGION", Or(c.region, opts.region));
    cs := cs + Text("REGION", Or(c.region, opts.region));
    parts := PushText(parts, cs, "ENDPOINT", Or(c.endpoint, opts.endpoint));
    cs := cs + Text("ENDPOINT", Or(c.endpoint, opts.endpoint));
    parts := PushText(parts, cs, "URL_STYLE", Or(c.urlStyle, opts.urlStyle));
    cs := cs + Text("URL_STYLE", Or(c.urlStyle, opts.urlStyle));
    var ssl := Or(c.useSsl, opts.useSsl);
    if ssl.Some? {
      var word := if ssl.value then "true" else "false";
      PrintsOne(parts, cs, Clause("USE_SSL", Bare(word)));
      parts := parts + [Part("USE_SSL", word)];
    } else {
      assert cs + [] == cs;
    }
    cs := cs + Flag("USE_SSL", ssl);
    r := Finish(name, S3, parts, cs, c.extra, prefix, upper);
  }

  method AzureSecret(name: string, decoded: Result<Cloud, SecretError>, prefix: string, opts: ProviderOptions,
                     upper: string -> string)
    returns (r: Result<string, SecretError>)
    ensures Says(r, name, Intended(Azure, decoded, prefix, opts, upper))
  {
    hide Prints, ValidKey, Extras, ScopeUrl, ReadStatement;
    if decoded.Err? { return Err(decoded.error); }
    var c := decoded.value;
    if c.connectionString.None? { return Err(MissingField("connection_string", "az")); }
    KeysAreValid();
    var parts := Begin("azure");
    ghost var cs := [Clause("TYPE", Bare("azure"))];
    parts := PushText(parts, cs, "CONNECTION_STRING", c.connectionString);
    cs := cs + Text("CONNECTION_STRING", c.connectionString);
    r := Finish(name, Azure, parts, cs, c.extra, prefix, upper);
  }

  method GcsSecret(name: string, decoded: Result<Cloud, SecretError>, prefix: string, opts: ProviderOptions,
                   upper: string -> string)
    returns (r: Result<string, SecretError>)
    ensures Says(r, name, Intended(Gcs, decoded, prefix, opts, upper))
  {
    hide Prints, ValidKey, Extras, ScopeUrl, ReadStatement;
    if decoded.Err? { return Err(decoded.error); }
    var c := decoded.value;
    if c.keyId.None? { return Err(MissingField("key_id", "gcs")); }
    if c.secret.None? { return Err(MissingField("secret", "gcs")); }
    KeysAreValid();
    var parts := Begin("gcs");
    ghost var cs := [Clause("TYPE", Bare("gcs"))];
    parts := PushText(parts, cs, "KEY_ID", c.keyId);
    cs := cs + Text("KEY_ID", c.keyId);
    parts := PushText(parts, cs, "SECRET", c.secret);
    cs := cs + Text("SECRET", c.secret);
    parts := PushText(parts, cs, "SESSION_TOKEN", c.sessionToken);
    cs := cs + Text("SESSION_TOKEN", c.sessionToken);
    parts := PushText(parts, cs, "ENDPOINT", Or(c.endpoint, opts.endpoint));
    cs := cs + Text("ENDPOINT", Or(c.endpoint, opts.endpoint));
    r := Finish(name, Gcs, parts, cs, c.extra, prefix, upper);
  }

  /** An extra key that is no identifier once upper-cased means an error and no text; so there is
      text exactly when nothing required is missing and every extra key is an identifier. */
  lemma {:induction false} ExtrasAcceptedExactly(extra: seq<(string, string)>, upper: string -> string)
    ensures Extras(extra, upper).Ok? <==> forall i :: 0 <= i < |extra| ==> ValidKey(upper(extra[i].0))
    ensures Extras(extra, upper).Ok? ==>
              var cs := Extras(extra, upper).value;
              |cs| == |extra|
              && forall i :: 0 <= i < |cs| ==> cs[i] == Clause(upper(extra[i].0), Quoted(extra[i].1))
    ensures Extras(extra, upper).Err? ==>
      exists i :: 0 <= i < |extra| && !ValidKey(upper(extra[i].0))
               && (forall j :: 0 <= j < i ==> ValidKey(upper(extra[j].0)))
               && Extras(extra, upper).error == InvalidSecretKey(extra[i].0)
  {
    hide ValidKey;
    if extra != [] {
      var front := extra[..|extra| - 1];
      ExtrasAcceptedExactly(front, upper);
      assert forall i :: 0 <= i < |front| ==> front[i] == extra[i];
    }
  }

  // ------------------------------------------------------------ which value each option carries

  /** Among `cs` the key is given exactly once, with this value, or not at all. */
  ghost predicate Gives(cs: seq<Clause>, key: string, value: Option<Literal>) {
    && (forall l :: Clause(key, l) in cs <==> value == Some(l))
    && forall i, j :: 0 <= i < j < |cs| ==> !(cs[i].key == cs[j].key == key)
  }

  function Quote(value: Option<string>): Option<Literal> {
    match value case None => None case Some(t) => Some(Quoted(t))
  }

  function Word(value: Option<bool>): Option<Literal> {
    match value case None => None case Some(b) => Some(Bare(if b then "true" else "false"))
  }

  lemma GivesNothing(cs: seq<Clause>, key: string)
    requires forall i :: 0 <= i < |cs| ==> cs[i].key != key
    ensures Gives(cs, key, None)
  {}

  /** More clauses under another key leave what is given; the first clause under a key gives its value. */
  lemma GivesMore(cs: seq<Clause>, key: string, value: Option<Literal>, other: string, more: Option<Literal>)
    requires Gives(cs, key, value)
    requires key == other ==> value == None
    ensures var grown := cs + if more.Some? then [Clause(other, more.value)] else [];
            Gives(grown, key, if key == other then more else value)
  {
    var grown := cs + if more.Some? then [Clause(other, more.value)] else [];
    forall i | 0 <= i < |cs| ensures value == None ==> cs[i].key != key {
      assert Clause(cs[i].key, cs[i].literal) in cs;
    }
    if more.Some? { assert grown[|cs|] == Clause(other, more.value); }
    forall l ensures Clause(key, l) in grown <==> (if key == other then more else value) == Some(l) {
      var c := Clause(key, l);
      assert c in grown <==> c in cs || (more.Some? && c == Clause(other, more.value));
    }
  }

  /** The clauses of a table of options, leaving out those without a value. */
  function Listed(table: seq<(string, Option<Literal>)>): seq<Clause> {
    if table == [] then []
    else
      var (key, value) := table[|table| - 1];
      Listed(table[..|table| - 1]) + if value.Some? then [Clause(key, value.value)] else []
  }

  function ValueIn(table: seq<(string, Option<Literal>)>, key: string): Option<Literal> {
    if table == [] then None
    else if table[|table| - 1].0 == key then table[|table| - 1].1
    else ValueIn(table[..|table| - 1], key)
  }

  predicate DistinctKeys(table: seq<(string, Option<Literal>)>) {
    forall i, j :: 0 <= i < j < |table| ==> table[i].0 != table[j].0
  }

  lemma {:induction false} AbsentHasNone(table: seq<(string, Option<Literal>)>, key: string)
    requires forall i :: 0 <= i < |table| ==> table[i].0 != key
    ensures ValueIn(table, key) == None
  {
    if table != [] { AbsentHasNone(table[..|table| - 1], key); }
  }

  lemma {:induction false} ListedGives(table: seq<(string, Option<Literal>)>, key: string)
    requires DistinctKeys(table)
    ensures Gives(Listed(table), key, ValueIn(table, key))
  {
    if table != [] {
      hide Gives;
      var front, last := table[..|table| - 1], table[|table| - 1];
      ListedGives(front, key);
      if key == last.0 { AbsentHasNone(front, key); }
      GivesMore(Listed(front), key, ValueIn(front, key), last.0, last.1);
    }
  }

  function S3Table(c: Cloud, opts: ProviderOptions): seq<(string, Option<Literal>)> {
    [("TYPE", Some(Bare("s3"))), ("KEY_ID", Quote(c.keyId)), ("SECRET", Quote(c.secret)),
     ("SESSION_TOKEN", Quote(c.sessionToken)), ("REGION", Quote(if c.region.Some? then c.region else opts.region)),
     ("ENDPOINT", Quote(if c.endpoint.Some? then c.endpoint else opts.endpoint)),
     ("URL_STYLE", Quote(if c.urlStyle.Some? then c.urlStyle else opts.urlStyle)),
     ("USE_SSL", Word(if c.useSsl.Some? then c.useSsl else opts.useSsl))]
  }

  function GcsTable(c: Cloud, opts: ProviderOptions): seq<(string, Option<Literal>)> {
    [("TYPE", Some(Bare("gcs"))), ("KEY_ID", Quote(c.keyId)), ("SECRET", Quote(c.secret)),
     ("SESSION_TOKEN", Quote(c.sessionToken)),
     ("ENDPOINT", Quote(if c.endpoint.Some? then c.endpoint else opts.endpoint))]
  }

  function AzureTable(c: Cloud): seq<(string, Option<Literal>)> {
    [("TYPE", Some(Bare("azure"))), ("CONNECTION_STRING", Quote(c.connectionString))]
  }

  function TableOf(p: Provider, c: Cloud, opts: ProviderOptions): seq<(string, Option<Literal>)> {
    match p case S3 => S3Table(c, opts) case Gcs => GcsTable(c, opts) case Azure => AzureTable(c)
  }

  lemma ListedStep(table: seq<(string, Option<Literal>)>, key: string, value: Option<Literal>)
    ensures Listed(table + [(key, value)]) == Listed(table) + if value.Some? then [Clause(key, value.value)] else []
  {
    assert (table + [(key, value)])[..|table|] == table;
  }

  lemma NothingListed()
    ensures Listed([]) == []
  {}

  /** One more row of a table, as the option printers put it. */
  lemma NextText(t: seq<(string, Option<Literal>)>, k: nat, key: string, value: Option<string>)
    requires k < |t| && t[k] == (key, Quote(value))
    ensures Listed(t[..k + 1]) == Listed(t[..k]) + Text(key, value)
  {
    assert t[..k + 1] == t[..k] + [(key, Quote(value))];
    ListedStep(t[..k], key, Quote(value));
  }

  lemma TypeRow(t: seq<(string, Option<Literal>)>, word: string)
    requires t != [] && t[0] == ("TYPE", Some(Bare(word)))
    ensures Listed(t[..1]) == [Clause("TYPE", Bare(word))]
  {
    assert t[..1] == [] + [("TYPE", Some(Bare(word)))];
    ListedStep([], "TYPE", Some(Bare(word)));
    NothingListed();
  }

  lemma S3IsListed(c: Cloud, opts: ProviderOptions)
    requires c.keyId.Some? && c.secret.Some?
    ensures Leading(S3, c, opts) == Ok(Listed(S3Table(c, opts)))
  {
    hide Listed, Text, Flag;
    var t := S3Table(c, opts);
    TypeRow(t, "s3");
    NextText(t, 1, "KEY_ID", c.keyId);
    NextText(t, 2, "SECRET", c.secret);
    NextText(t, 3, "SESSION_TOKEN", c.sessionToken);
    NextText(t, 4, "REGION", Or(c.region, opts.region));
    NextText(t, 5, "ENDPOINT", Or(c.endpoint, opts.endpoint));
    NextText(t, 6, "URL_STYLE", Or(c.urlStyle, opts.urlStyle));
    LastFlag(t, 7, "USE_SSL", Or(c.useSsl, opts.useSsl));
    assert t[..8] == t;
  }

  lemma LastFlag(t: seq<(string, Option<Literal>)>, k: nat, key: string, value: Option<bool>)
    requires k < |t| && t[k] == (key, Word(value))
    ensures Listed(t[..k + 1]) == Listed(t[..k]) + Flag(key, value)
  {
    assert t[..k + 1] == t[..k] + [(key, Word(value))];
    ListedStep(t[..k], key, Word(value));
  }

  lemma GcsIsListed(c: Cloud, opts: ProviderOptions)
    requires c.keyId.Some? && c.secret.Some?
    ensures Leading(Gcs, c, opts) == Ok(Listed(GcsTable(c, opts)))
  {
    hide Listed, Text;
    var t := GcsTable(c, opts);
    TypeRow(t, "gcs");
    NextText(t, 1, "KEY_ID", c.keyId);
    NextText(t, 2, "SECRET", c.secret);
    NextText(t, 3, "SESSION_TOKEN", c.sessionToken);
    NextText(t, 4, "ENDPOINT", Or(c.endpoint, opts.endpoint));
    assert t[..5] == t;
  }

  lemma AzureIsListed(c: Cloud, opts: ProviderOptions)
    requires c.connectionString.Some?
    ensures Leading(Azure, c, opts) == Ok(Listed(AzureTable(c)))
  {
    hide Listed, Text;
    var t := AzureTable(c);
    TypeRow(t, "azure");
    NextText(t, 1, "CONNECTION_STRING", c.connectionString);
    assert t[..2] == t;
  }

  /** What a credential needs to be of use to a provider. */
  predicate Suffices(p: Provider, c: Cloud) {
    if p.Azure? then c.connectionString.Some? else c.keyId.Some? && c.secret.Some?
  }

  lemma TableHasDistinctKeys(p: Provider, c: Cloud, opts: ProviderOptions)
    ensures DistinctKeys(TableOf(p, c, opts))
  {
    hide Quote, Word;
  }

  /** There are options exactly when the credential has what the provider needs. Each option is then given once,
      with the credential's own field, or where that is absent and the provider has one with the configured
      option, or not at all. */
  lemma OptionsAreExact(p: Provider, c: Cloud, opts: ProviderOptions, key: string)
    ensures Leading(p, c, opts).Ok? <==> Suffices(p, c)
    ensures !Suffices(p, c) ==>
              Leading(p, c, opts).error
              == MissingField(if p.Azure? then "connection_string" else if c.keyId.None? then "key_id" else "secret",
                              match p case S3 => "s3" case Azure => "az" case Gcs => "gcs")
    ensures Suffices(p, c) ==> Gives(Leading(p, c, opts).value, key, ValueIn(TableOf(p, c, opts), key))
  {
    hide Gives, ValueIn, Listed, DistinctKeys;
    if Suffices(p, c) {
      match p {
        case S3 => S3IsListed(c, opts);
        case Gcs => GcsIsListed(c, opts);
        case Azure => AzureIsListed(c, opts);
      }
      TableHasDistinctKeys(p, c, opts);
      ListedGives(TableOf(p, c, opts), key);
    }
  }
}
