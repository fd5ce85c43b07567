/**
 The `${{ ... }}` references inside manifest values: the scanner, the token
 parser, the grammar they implement and the printer they invert.
 */
module Reference {
  import opened Prelude

  datatype Reference =
    | ServiceHost(name: string)
    | ServicePort(name: string)
    | ServiceUrl(name: string)
    | ServiceEnv(name: string, key: string)
    | Secret(key: string)
  {
    /** The service a reference points at. */
    function Service(): Option<string> {
      if Secret? then None else Some(name)
    }
  }

  datatype InvalidReference =
    | Unterminated(text: string)
    | MissingSecretName(token: string)
    | ExpectedServicePath(token: string)
    | MissingServiceName(token: string)
    | MissingVariableName(token: string)
    | ExpectedAttribute(token: string)
    | UnknownRoot(token: string)

  const OPEN := "${{"
  const CLOSE := "}}"

  // ---------- one token ----------

  /** What a token can name: nonempty keys and nonempty service names without a dot. */
  ghost predicate WellFormed(r: Reference) {
    match r
    case Secret(key) => key != ""
    case ServiceEnv(name, key) => name != "" && '.' !in name && key != ""
    case _ => r.name != "" && '.' !in r.name
  }

  function Attribute(r: Reference): string
    requires !r.Secret?
  {
    match r
    case ServiceHost(_) => "host"
    case ServicePort(_) => "port"
    case ServiceUrl(_) => "url"
    case ServiceEnv(_, key) => "env." + key
  }

  function Render(r: Reference): string {
    if r.Secret? then "secrets." + r.key else "services." + (r.name + "." + Attribute(r))
  }

  function ParseAttribute(token: string, name: string, attr: string): Result<Reference, InvalidReference> {
    if attr == "host" then Ok(ServiceHost(name))
    else if attr == "port" then Ok(ServicePort(name))
    else if attr == "url" then Ok(ServiceUrl(name))
    else
      match StripPrefix(attr, "env.")
      case Some(key) => if key != "" then Ok(ServiceEnv(name, key)) else Err(MissingVariableName(token))
      case None => Err(ExpectedAttribute(token))
  }

  function ParsePath(token: string, path: string): Result<Reference, InvalidReference> {
    match Find(path, ".")
    case None => Err(ExpectedServicePath(token))
    case Some(dot) =>
      var name, attr := path[..dot], path[dot + 1..];
      if name == "" then Err(MissingServiceName(token)) else ParseAttribute(token, name, attr)
  }

  function ParseToken(token: string): Result<Reference, InvalidReference> {
    match StripPrefix(token, "secrets.")
    case Some(key) =>
      if key == "" then Err(MissingSecretName(token)) else Ok(Secret(key))
    case None =>
      match StripPrefix(token, "services.")
      case None => Err(UnknownRoot(token))
      case Some(path) => ParsePath(token, path)
  }

  lemma NoDotBefore(path: string, dot: nat)
    requires Find(path, ".") == Some(dot)
    ensures '.' !in path[..dot]
    ensures path == path[..dot] + "." + path[dot + 1..]
  {
    forall i | 0 <= i < dot
      ensures path[i] != '.'
    {
      assert !OccursAt(path, ".", i);
      assert path[i..i + 1] == [path[i]];
    }
  }

  lemma FindFirstDot(name: string, attr: string)
    requires '.' !in name
    ensures Find(name + "." + attr, ".") == Some(|name|)
  {
    var path := name + "." + attr;
    assert OccursAt(path, ".", |name|);
    forall j | 0 <= j < |name|
      ensures !OccursAt(path, ".", j)
    {
      assert path[j..j + 1][0] == name[j];
    }
  }

  lemma AttributeBijection(token: string, name: string, attr: string, r: Reference)
    requires name != "" && '.' !in name
    ensures ParseAttribute(token, name, attr) == Ok(r) <==>
            !r.Secret? && WellFormed(r) && r.name == name && Attribute(r) == attr
  {
    if !r.Secret? && Attribute(r) == attr && r.ServiceEnv? {
      assert attr[0] == 'e';
      assert StripPrefix(attr, "env.") == Some(r.key);
    }
  }

  /** Parsing and printing a token are mutual inverses. */
  lemma TokenBijection(token: string, r: Reference)
    ensures ParseToken(token) == Ok(r) <==> WellFormed(r) && Render(r) == token
  {
    if r.Secret? {
      SecretToken(token, r);
    } else {
      ServiceToken(token, r);
    }
  }

  lemma SecretToken(token: string, r: Reference)
    requires r.Secret?
    ensures ParseToken(token) == Ok(r) <==> WellFormed(r) && Render(r) == token
  {
    if Render(r) == token {
      assert StripPrefix(token, "secrets.") == Some(r.key);
    }
  }

  lemma ServiceToken(token: string, r: Reference)
    requires !r.Secret?
    ensures ParseToken(token) == Ok(r) <==> WellFormed(r) && Render(r) == token
  {
    if WellFormed(r) && Render(r) == token {
      RenderedServiceParses(r);
    }
    if ParseToken(token) == Ok(r) {
      var path := StripPrefix(token, "services.").value;
      NoDotBefore(path, Find(path, ".").value);
      ParsedServiceRenders(token, path, Find(path, ".").value, r);
    }
  }

  lemma ParsedServiceRenders(token: string, path: string, dot: nat, r: Reference)
    requires !r.Secret?
    requires token == "services." + path
    requires dot < |path| && '.' !in path[..dot] && path == path[..dot] + "." + path[dot + 1..]
    requires path[..dot] != "" && ParseAttribute(token, path[..dot], path[dot + 1..]) == Ok(r)
    ensures WellFormed(r) && Render(r) == token
  {
    AttributeBijection(token, path[..dot], path[dot + 1..], r);
  }

  lemma StripServices(path: string)
    ensures StripPrefix("services." + path, "secrets.").None?
    ensures StripPrefix("services." + path, "services.") == Some(path)
  {
    assert ("services." + path)[2] == 'r';
  }

  lemma RenderedServiceParses(r: Reference)
    requires !r.Secret? && WellFormed(r)
    ensures ParseToken(Render(r)) == Ok(r)
  {
    var path := r.name + "." + Attribute(r);
    StripServices(path);
    FindFirstDot(r.name, Attribute(r));
    assert path[..|r.name|] == r.name && path[|r.name| + 1..] == Attribute(r);
    AttributeBijection(Render(r), r.name, Attribute(r), r);
  }

  /** The forms of the manifest documentation, written out. */
  lemma DocumentedForms(token: string, name: string, key: string)
    requires name != "" && '.' !in name && key != ""
    ensures token == "services." + name + ".host" ==> ParseToken(token) == Ok(ServiceHost(name))
    ensures token == "services." + name + ".port" ==> ParseToken(token) == Ok(ServicePort(name))
    ensures token == "services." + name + ".url" ==> ParseToken(token) == Ok(ServiceUrl(name))
    ensures token == "services." + name + (".env." + key) ==> ParseToken(token) == Ok(ServiceEnv(name, key))
    ensures token == "secrets." + key ==> ParseToken(token) == Ok(Secret(key))
  {
    if token == "services." + name + ".host" {
      ServiceForm(name, "host", ".host", ServiceHost(name));
    }
    if token == "services." + name + ".port" {
      ServiceForm(name, "port", ".port", ServicePort(name));
    }
    if token == "services." + name + ".url" {
      ServiceForm(name, "url", ".url", ServiceUrl(name));
    }
    if token == "services." + name + (".env." + key) {
      ServiceForm(name, "env." + key, ".env." + key, ServiceEnv(name, key));
    }
    if token == "secrets." + key {
      SecretForm(key);
    }
  }

  lemma SecretForm(key: string)
    requires key != ""
    ensures ParseToken("secrets." + key) == Ok(Secret(key))
  {
    TokenBijection("secrets." + key, Secret(key));
  }

  lemma ServiceForm(name: string, attr: string, dotted: string, r: Reference)
    requires !r.Secret? && WellFormed(r) && r.name == name && Attribute(r) == attr && dotted == "." + attr
    ensures ParseToken("services." + name + dotted) == Ok(r)
  {
    assert "services." + name + dotted == "services." + (name + "." + attr);
    TokenBijection("services." + name + dotted, r);
  }

  // ---------- tokens that name nothing ----------

  /** Why a token is refused. */
  ghost predicate TokenComplaint(token: string, e: InvalidReference) {
    if "secrets." <= token then token == "secrets." && e == MissingSecretName(token)
    else if "services." <= token then PathComplaint(token, token[9..], e)
    else e == UnknownRoot(token)
  }

  ghost predicate PathComplaint(token: string, path: string, e: InvalidReference) {
    || ('.' !in path && e == ExpectedServicePath(token))
    || ("." <= path && e == MissingServiceName(token))
    || exists name, attr ::
         path == name + "." + attr && name != "" && '.' !in name && AttributeComplaint(token, attr, e)
  }

  ghost predicate AttributeComplaint(token: string, attr: string, e: InvalidReference) {
    || (attr == "env." && e == MissingVariableName(token))
    || (attr !in {"host", "port", "url"} && !("env." <= attr) && e == ExpectedAttribute(token))
  }

  lemma AttributeComplaintExactly(token: string, name: string, attr: string, e: InvalidReference)
    ensures ParseAttribute(token, name, attr) == Err(e) <==> AttributeComplaint(token, attr, e)
  {
  }

  lemma DotAt(path: string, i: int)
    ensures OccursAt(path, ".", i) <==> 0 <= i < |path| && path[i] == '.'
  {
    if 0 <= i < |path| {
      assert path[i..i + 1] == [path[i]];
    }
  }

  lemma NoDots(path: string)
    requires Find(path, ".").None?
    ensures '.' !in path
  {
    forall i | 0 <= i < |path|
      ensures path[i] != '.'
    {
      DotAt(path, i);
    }
  }

  lemma PathWithoutDot(token: string, path: string, e: InvalidReference)
    requires '.' !in path
    ensures PathComplaint(token, path, e) <==> e == ExpectedServicePath(token)
  {
    assert path != "" ==> path[0] != '.';
    forall name, attr
      ensures path != name + "." + attr
    {
      assert (name + "." + attr)[|name|] == '.';
    }
  }

  /** A path has one name: what stands before its first dot. */
  lemma OneName(name: string, attr: string, other: string, rest: string)
    requires '.' !in name && '.' !in other && name + "." + attr == other + "." + rest
    ensures other == name && rest == attr
  {
    var path := name + "." + attr;
    FindFirstDot(name, attr);
    FindFirstDot(other, rest);
    assert path[..|name|] == name && path[|name| + 1..] == attr;
    assert path[..|other|] == other && path[|other| + 1..] == rest;
  }

  lemma PathWithDot(token: string, name: string, attr: string, e: InvalidReference)
    requires '.' !in name
    ensures PathComplaint(token, name + "." + attr, e) <==>
            if name == "" then e == MissingServiceName(token) else AttributeComplaint(token, attr, e)
  {
    var path := name + "." + attr;
    assert path[|name|] == '.';
    assert name != "" ==> path[0] == name[0];
    forall other, rest | path == other + "." + rest && '.' !in other
      ensures other == name && rest == attr
    {
      OneName(name, attr, other, rest);
    }
    assert "." <= path <==> name == "";
    if name != "" && AttributeComplaint(token, attr, e) {
      assert PathComplaint(token, path, e);
    }
  }

  lemma PathComplaintExactly(token: string, path: string, e: InvalidReference)
    ensures ParsePath(token, path) == Err(e) <==> PathComplaint(token, path, e)
  {
    match Find(path, ".")
    case None =>
      NoDots(path);
      PathWithoutDot(token, path, e);
    case Some(dot) =>
      NoDotBefore(path, dot);
      assert path == path[..dot] + "." + path[dot + 1..];
      PathWithDot(token, path[..dot], path[dot + 1..], e);
      AttributeComplaintExactly(token, path[..dot], path[dot + 1..], e);
  }

  /** A token is refused for exactly the reason that is wrong with it. */
  lemma TokenComplaintExactly(token: string, e: InvalidReference)
    ensures ParseToken(token) == Err(e) <==> TokenComplaint(token, e)
  {
    if "services." <= token {
      var path := token[9..];
      assert token == "services." + path;
      StripServices(path);
      PathComplaintExactly(token, path, e);
    }
  }

  // ---------- the lexical structure of a value ----------

  /** A value cut at its tokens; `Broken` is a `${{` that is never closed. */
  datatype Segments =
    | Tail(text: string)
    | Broken(literal: string, rest: string)
    | Token(literal: string, inner: string, next: Segments)

  function Flatten(segs: Segments): string {
    match segs
    case Tail(text) => text
    case Broken(literal, rest) => literal + OPEN + rest
    case Token(literal, inner, next) => literal + OPEN + inner + CLOSE + Flatten(next)
  }

  /** The first `}}` of `inner + "}}"` is the one after `inner`. */
  ghost predicate ClosesAtEnd(inner: string) {
    Free(inner, CLOSE) && (inner != "" ==> inner[|inner| - 1] != '}')
  }

  ghost predicate Lexical(segs: Segments) {
    match segs
    case Tail(text) => Free(text, OPEN)
    case Broken(literal, rest) => Free(literal, OPEN) && Free(rest, CLOSE)
    case Token(literal, inner, next) => Free(literal, OPEN) && ClosesAtEnd(inner) && Lexical(next)
  }

  /** The scanner's next move: nothing left, an unclosed token, or a token. */
  datatype Scan =
    | Finished
    | Unclosed(literal: string, text: string)
    | Found(literal: string, inner: string, rest: string)

  function NextToken(rest: string): (scan: Scan)
    ensures scan.Found? ==> |scan.rest| + 5 <= |rest|
  {
    match Find(rest, OPEN)
    case None => Finished
    case Some(start) =>
      var afterOpen := rest[start + 3..];
      match Find(afterOpen, CLOSE)
      case None => Unclosed(rest[..start], afterOpen)
      case Some(end) => Found(rest[..start], afterOpen[..end], afterOpen[end + 2..])
  }

  function Lex(value: string): Segments
    decreases |value|
  {
    match NextToken(value)
    case Finished => Tail(value)
    case Unclosed(literal, text) => Broken(literal, text)
    case Found(literal, inner, rest) => Token(literal, inner, Lex(rest))
  }

  lemma OpenAt(s: string, j: int)
    ensures OccursAt(s, OPEN, j) <==> 0 <= j && j + 3 <= |s| && s[j] == '$' && s[j + 1] == '{' && s[j + 2] == '{'
  {
    if 0 <= j && j + 3 <= |s| {
      assert s[j..j + 3] == [s[j], s[j + 1], s[j + 2]];
    }
  }

  lemma CloseAt(s: string, j: int)
    ensures OccursAt(s, CLOSE, j) <==> 0 <= j && j + 2 <= |s| && s[j] == '}' && s[j + 1] == '}'
  {
    if 0 <= j && j + 2 <= |s| {
      assert s[j..j + 2] == [s[j], s[j + 1]];
    }
  }

  lemma FindOpen(literal: string, rest: string)
    requires Free(literal, OPEN)
    ensures Find(literal + OPEN + rest, OPEN) == Some(|literal|)
  {
    var s := literal + OPEN + rest;
    OpenAt(s, |literal|);
    forall j | 0 <= j < |literal|
      ensures !OccursAt(s, OPEN, j)
    {
      OpenAt(s, j);
      OpenAt(literal, j);
    }
  }

  lemma FindClose(inner: string, rest: string)
    requires ClosesAtEnd(inner)
    ensures Find(inner + CLOSE + rest, CLOSE) == Some(|inner|)
  {
    var s := inner + CLOSE + rest;
    CloseAt(s, |inner|);
    forall j | 0 <= j < |inner|
      ensures !OccursAt(s, CLOSE, j)
    {
      CloseAt(s, j);
      CloseAt(inner, j);
    }
  }

  /** The pieces around the first `${{`. */
  lemma OpenSplit(value: string, start: nat)
    requires Find(value, OPEN) == Some(start)
    ensures start + 3 <= |value|
    ensures Free(value[..start], OPEN)
    ensures value == value[..start] + OPEN + value[start + 3..]
  {
    forall j
      ensures !OccursAt(value[..start], OPEN, j)
    {
      OpenAt(value[..start], j);
      OpenAt(value, j);
    }
  }

  /** The pieces around the first `}}`. */
  lemma CloseSplit(text: string, end: nat)
    requires Find(text, CLOSE) == Some(end)
    ensures end + 2 <= |text|
    ensures ClosesAtEnd(text[..end])
    ensures text == text[..end] + CLOSE + text[end + 2..]
  {
    CloseAt(text, end);
    CloseAt(text, end - 1);
    forall j
      ensures !OccursAt(text[..end], CLOSE, j)
    {
      CloseAt(text[..end], j);
      CloseAt(text, j);
    }
  }

  /** Cutting a value is lexical and loses nothing. */
  lemma {:induction false} FlattenLex(value: string)
    ensures Lexical(Lex(value)) && Flatten(Lex(value)) == value
    decreases |value|
  {
    var open := Find(value, OPEN);
    if open.Some? {
      OpenSplit(value, open.value);
      var afterOpen := value[open.value + 3..];
      var close := Find(afterOpen, CLOSE);
      if close.Some? {
        CloseSplit(afterOpen, close.value);
        FlattenLex(afterOpen[close.value + 2..]);
        Regroup(value[..open.value], afterOpen[..close.value], afterOpen[close.value + 2..]);
      }
    }
  }

  lemma Regroup(literal: string, inner: string, next: string)
    ensures literal + OPEN + inner + CLOSE + next == literal + OPEN + (inner + CLOSE + next)
  {
  }

  /** Every value has exactly one lexical decomposition. */
  lemma {:induction false} UniqueDecomposition(value: string, segs: Segments)
    ensures Lexical(segs) && Flatten(segs) == value <==> segs == Lex(value)
  {
    FlattenLex(value);
    if Lexical(segs) && Flatten(segs) == value {
      LexFlatten(segs);
    }
  }

  lemma {:induction false} LexFlatten(segs: Segments)
    requires Lexical(segs)
    ensures Lex(Flatten(segs)) == segs
  {
    match segs
    case Tail(text) =>
    case Broken(literal, rest) =>
      var value := literal + OPEN + rest;
      FindOpen(literal, rest);
      assert value[..|literal|] == literal && value[|literal| + 3..] == rest;
    case Token(literal, inner, next) =>
      LexToken(literal, inner, Flatten(next));
      LexFlatten(next);
  }

  lemma LexToken(literal: string, inner: string, rest: string)
    requires Free(literal, OPEN) && ClosesAtEnd(inner)
    ensures Lex(literal + OPEN + inner + CLOSE + rest) == Token(literal, inner, Lex(rest))
  {
    var afterOpen := inner + CLOSE + rest;
    var value := literal + OPEN + afterOpen;
    Regroup(literal, inner, rest);
    FindOpen(literal, afterOpen);
    assert value[..|literal|] == literal && value[|literal| + 3..] == afterOpen;
    FindClose(inner, rest);
    assert afterOpen[..|inner|] == inner && afterOpen[|inner| + 2..] == rest;
  }

  // ---------- the scanner ----------

  /** The references of a cut value, or the first error from the left. */
  function Meaning(segs: Segments): Result<seq<Reference>, InvalidReference> {
    match segs
    case Tail(_) => Ok([])
    case Broken(_, rest) => Err(Unterminated(OPEN + rest))
    case Token(_, inner, next) =>
      match ParseToken(Trim(inner))
      case Err(e) => Err(e)
      case Ok(r) => Prepend([r], Meaning(next))
  }

  function Prepend(refs: seq<Reference>, result: Result<seq<Reference>, InvalidReference>)
    : Result<seq<Reference>, InvalidReference>
  {
    match result
    case Ok(more) => Ok(refs + more)
    case Err(e) => Err(e)
  }

  /** What `parse_references` computes, as a function of the value. */
  function References(value: string): Result<seq<Reference>, InvalidReference> {
    Meaning(Lex(value))
  }

  lemma Prepending(refs: seq<Reference>, r: Reference, result: Result<seq<Reference>, InvalidReference>)
    ensures Prepend(refs, Prepend([r], result)) == Prepend(refs + [r], result)
  {
    if result.Ok? {
      assert refs + ([r] + result.value) == refs + [r] + result.value;
    }
  }

  lemma MeaningStep(refs: seq<Reference>, literal: string, inner: string, next: Segments)
    ensures var parsed := ParseToken(Trim(inner));
            Prepend(refs, Meaning(Token(literal, inner, next))) ==
            if parsed.Err? then Err(parsed.error) else Prepend(refs + [parsed.value], Meaning(next))
  {
    if ParseToken(Trim(inner)).Ok? {
      Prepending(refs, ParseToken(Trim(inner)).value, Meaning(next));
    }
  }

  method ParseReferences(value: string) returns (result: Result<seq<Reference>, InvalidReference>)
    ensures result == References(value)
    ensures result.Ok? ==> 5 * |result.value| <= |value|
  {
    var references: seq<Reference> := [];
    var rest := value;
    assert References(value) == Prepend([], References(value)) by {
      assert References(value).Ok? ==> [] + References(value).value == References(value).value;
    }
    while true
      invariant References(value) == Prepend(references, References(rest))
      invariant 5 * |references| + |rest| <= |value|
      decreases |rest|
    {
      match NextToken(rest) {
        case Finished =>
          assert references + [] == references;
          return Ok(references);
        case Unclosed(_, text) =>
          return Err(Unterminated(OPEN + text));
        case Found(literal, inner, more) =>
          MeaningStep(references, literal, inner, Lex(more));
          match ParseToken(Trim(inner)) {
            case Err(e) =>
              return Err(e);
            case Ok(reference) =>
              references := references + [reference];
              rest := more;
          }
      }
    }
  }

  // ---------- the grammar ----------

  /** A closed value whose trimmed tokens are the printed forms of `refs`, in order. */
  ghost predicate Denotes(segs: Segments, refs: seq<Reference>) {
    match segs
    case Tail(_) => refs == []
    case Broken(_, _) => false
    case Token(_, inner, next) =>
      && refs != []
      && WellFormed(refs[0])
      && Trim(inner) == Render(refs[0])
      && Denotes(next, refs[1..])
  }

  lemma PrependCancels(r: Reference, result: Result<seq<Reference>, InvalidReference>, refs: seq<Reference>)
    ensures Prepend([r], result) == Ok([r] + refs) <==> result == Ok(refs)
  {
    if result.Ok? && [r] + result.value == [r] + refs {
      assert ([r] + result.value)[1..] == result.value;
      assert ([r] + refs)[1..] == refs;
    }
  }

  lemma MeaningOfToken(literal: string, inner: string, next: Segments, refs: seq<Reference>)
    requires refs != []
    ensures Meaning(Token(literal, inner, next)) == Ok(refs) <==>
            ParseToken(Trim(inner)) == Ok(refs[0]) && Meaning(next) == Ok(refs[1..])
  {
    assert refs == [refs[0]] + refs[1..];
    var parsed := ParseToken(Trim(inner));
    if parsed == Ok(refs[0]) {
      PrependCancels(refs[0], Meaning(next), refs[1..]);
    }
  }

  lemma {:induction false} MeaningDenotes(segs: Segments, refs: seq<Reference>)
    ensures Meaning(segs) == Ok(refs) <==> Denotes(segs, refs)
  {
    match segs
    case Tail(_) =>
    case Broken(_, _) =>
    case Token(literal, inner, next) =>
      if refs != [] {
        TokenBijection(Trim(inner), refs[0]);
        MeaningDenotes(next, refs[1..]);
        MeaningOfToken(literal, inner, next, refs);
      }
  }

  /** The scanner accepts exactly the values of the grammar, with exactly these references. */
  lemma ScannerMeetsGrammar(value: string, refs: seq<Reference>)
    ensures References(value) == Ok(refs) <==>
            exists segs :: Lexical(segs) && Flatten(segs) == value && Denotes(segs, refs)
  {
    FlattenLex(value);
    MeaningDenotes(Lex(value), refs);
    forall segs | Lexical(segs) && Flatten(segs) == value
      ensures segs == Lex(value)
    {
      UniqueDecomposition(value, segs);
    }
  }

  /** The first token from the left that is wrong, and what is wrong with it. */
  ghost predicate Fails(segs: Segments, e: InvalidReference) {
    match segs
    case Tail(_) => false
    case Broken(_, rest) => e == Unterminated("${{" + rest)
    case Token(_, inner, next) =>
      || TokenComplaint(Trim(inner), e)
      || ((exists r :: WellFormed(r) && Render(r) == Trim(inner)) && Fails(next, e))
  }

  lemma {:induction false} MeaningFails(segs: Segments, e: InvalidReference)
    ensures Meaning(segs) == Err(e) <==> Fails(segs, e)
  {
    match segs
    case Tail(_) =>
    case Broken(_, _) =>
    case Token(_, inner, next) =>
      MeaningFails(next, e);
      TokenVerdict(Trim(inner), e);
  }

  lemma TokenVerdict(token: string, e: InvalidReference)
    ensures ParseToken(token).Ok? <==> exists r :: WellFormed(r) && Render(r) == token
    ensures ParseToken(token) == Err(e) <==> TokenComplaint(token, e)
  {
    TokenComplaintExactly(token, e);
    if ParseToken(token).Ok? {
      TokenBijection(token, ParseToken(token).value);
    }
    forall r | WellFormed(r) && Render(r) == token
      ensures ParseToken(token).Ok?
    {
      TokenBijection(token, r);
    }
  }

  /** A value is refused for the first thing wrong in its lexical cut. */
  lemma FirstComplaintReported(value: string, e: InvalidReference)
    ensures References(value) == Err(e) <==>
            exists segs :: Lexical(segs) && Flatten(segs) == value && Fails(segs, e)
  {
    FlattenLex(value);
    MeaningFails(Lex(value), e);
    forall segs | Lexical(segs) && Flatten(segs) == value
      ensures segs == Lex(value)
    {
      UniqueDecomposition(value, segs);
    }
  }

  // ---------- the printer ----------

  /** A literal followed by one padded reference. */
  datatype Chunk = Chunk(literal: string, left: string, ref: Reference, right: string)

  function Inner(c: Chunk): string {
    c.left + Render(c.ref) + c.right
  }

  function Print(chunks: seq<Chunk>, tail: string): string {
    if chunks == [] then tail
    else chunks[0].literal + OPEN + Inner(chunks[0]) + CLOSE + Print(chunks[1..], tail)
  }

  function RefsOf(chunks: seq<Chunk>): seq<Reference> {
    if chunks == [] then [] else [chunks[0].ref] + RefsOf(chunks[1..])
  }

  ghost predicate Printable(c: Chunk) {
    && Free(c.literal, OPEN)
    && Blank(c.left) && Blank(c.right)
    && WellFormed(c.ref)
    && Trimmed(Render(c.ref))
    && Free(Render(c.ref), CLOSE)
  }

  /** A printed token must not run its last `}` into the closing `}}`. */
  predicate Separated(c: Chunk) {
    c.right != "" || Render(c.ref)[|Render(c.ref)| - 1] != '}'
  }

  lemma FreeAroundBlanks(left: string, middle: string, right: string)
    requires Blank(left) && Blank(right) && Free(middle, CLOSE)
    ensures Free(left + middle + right, CLOSE)
  {
    var s := left + middle + right;
    forall j
      ensures !OccursAt(s, CLOSE, j)
    {
      CloseAt(s, j);
      CloseAt(middle, j - |left|);
    }
  }

  lemma ClosesWithoutLastBrace(token: string)
    requires Free(token, CLOSE) && token != "" && token[|token| - 1] == '}'
    ensures ClosesAtEnd(token[..|token| - 1])
  {
    var cut := token[..|token| - 1];
    CloseAt(token, |token| - 2);
    forall j
      ensures !OccursAt(cut, CLOSE, j)
    {
      CloseAt(cut, j);
      CloseAt(token, j);
    }
  }

  lemma {:induction false} TrimStartLength(left: string, rest: string)
    requires Blank(left)
    ensures |TrimStart(left + rest)| <= |rest|
  {
    var s := left + rest;
    if left != "" {
      assert s[0] == left[0] && s[1..] == left[1..] + rest;
      TrimStartLength(left[1..], rest);
    }
  }

  /** A token that is not separated loses its last `}` to the text after it. */
  lemma UnseparatedChunk(c: Chunk, rest: string, refs: seq<Reference>)
    requires Printable(c) && !Separated(c)
    requires References(c.literal + OPEN + Inner(c) + CLOSE + rest) == Ok(refs)
    ensures refs != [] && refs[0] != c.ref
  {
    var token := Render(c.ref);
    var cut := token[..|token| - 1];
    var inner := c.left + cut;
    assert c.literal + OPEN + Inner(c) + CLOSE + rest == c.literal + OPEN + inner + CLOSE + ("}" + rest);
    ClosesWithoutLastBrace(token);
    FreeAroundBlanks(c.left, cut, "");
    assert c.left + cut + "" == inner;
    assert inner != "" && inner[|inner| - 1] != '}' by {
      assert |token| > 1;
      assert inner[|inner| - 1] == cut[|cut| - 1];
    }
    LexToken(c.literal, inner, "}" + rest);
    MeaningDenotes(Lex(c.literal + OPEN + inner + CLOSE + ("}" + rest)), refs);
    TrimStartLength(c.left, cut);
  }

  lemma InnerOfSeparated(c: Chunk)
    requires Printable(c) && Separated(c)
    ensures ClosesAtEnd(Inner(c)) && Trim(Inner(c)) == Render(c.ref)
  {
    FreeAroundBlanks(c.left, Render(c.ref), c.right);
    TrimPadded(c.left, Render(c.ref), c.right);
  }

  lemma SeparatedChunk(c: Chunk, rest: string)
    requires Printable(c) && Separated(c)
    ensures References(c.literal + OPEN + Inner(c) + CLOSE + rest) == Prepend([c.ref], References(rest))
  {
    InnerOfSeparated(c);
    LexToken(c.literal, Inner(c), rest);
    TokenBijection(Render(c.ref), c.ref);
  }

  ghost predicate RoundTrips(chunks: seq<Chunk>, tail: string) {
    References(Print(chunks, tail)) == Ok(RefsOf(chunks))
  }

  /** Scanning a printed value gives back its references iff every token is separated. */
  lemma {:induction false} ScanPrinted(chunks: seq<Chunk>, tail: string)
    requires forall c | c in chunks :: Printable(c)
    requires Free(tail, OPEN)
    ensures RoundTrips(chunks, tail) <==> forall c | c in chunks :: Separated(c)
  {
    if chunks != [] {
      var c, rest := chunks[0], Print(chunks[1..], tail);
      assert c in chunks;
      if Separated(c) {
        SeparatedChunk(c, rest);
        ScanPrinted(chunks[1..], tail);
        PrependCancels(c.ref, References(rest), RefsOf(chunks[1..]));
      } else if References(Print(chunks, tail)) == Ok(RefsOf(chunks)) {
        UnseparatedChunk(c, rest, RefsOf(chunks));
      }
    }
  }

  /** Such a reference: the same token scans back only with a blank before its closing braces. */
  lemma UnseparatedExample()
    ensures !RoundTrips([Chunk("", "", Secret("}"), "")], "")
    ensures RoundTrips([Chunk("", "", Secret("}"), " ")], "")
  {
    var tight := Chunk("", "", Secret("}"), "");
    var padded := Chunk("", "", Secret("}"), " ");
    forall j
      ensures !OccursAt(Render(Secret("}")), CLOSE, j)
    {
      CloseAt(Render(Secret("}")), j);
    }
    assert tight in [tight];
    ScanPrinted([tight], "");
    ScanPrinted([padded], "");
  }
}
