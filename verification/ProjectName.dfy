/** Deriving a project name from a directory name, against the two validators it has to please. */
module ProjectName {
  import opened Prelude
  import Manifest
  import Routes

  const MAX_NAME: nat := 63

  predicate IsAlnum(c: char) {
    'a' <= c <= 'z' || '0' <= c <= '9'
  }

  /** One character of the lowercased input. */
  function Push(name: string, c: char): string {
    if IsAlnum(c) then name + [c]
    else if name != "" && name[|name| - 1] != '-' then name + "-"
    else name
  }

  /** The buffer after the whole input. */
  function Squeeze(lowered: string): string {
    if lowered == "" then "" else Push(Squeeze(lowered[..|lowered| - 1]), lowered[|lowered| - 1])
  }

  function Truncate(name: string): string {
    if |name| > MAX_NAME then name[..MAX_NAME] else name
  }

  /** `trim_matches('-')`. */
  function TrimHyphens(name: string): string
    decreases |name|
  {
    if name == "" then ""
    else if name[0] == '-' then TrimHyphens(name[1..])
    else if name[|name| - 1] == '-' then TrimHyphens(name[..|name| - 1])
    else name
  }

  function Sanitized(lowered: string): string {
    TrimHyphens(Truncate(Squeeze(lowered)))
  }

  /** `sanitize_project_name`, over the Unicode lowercasing of the standard library. */
  function ProjectNameOf(raw: string, toLowercase: string -> string): string {
    Sanitized(toLowercase(raw))
  }

  predicate IsAsciiName(s: string) {
    forall i | 0 <= i < |s| :: IsAlnum(s[i]) || s[i] == '-'
  }

  /** All that is used of the lowercasing: it leaves a-z, 0-9 and hyphens alone. */
  ghost predicate LeavesNamesAlone(toLowercase: string -> string) {
    forall s | IsAsciiName(s) :: toLowercase(s) == s
  }

  method SanitizeProjectName(raw: string, toLowercase: string -> string) returns (r: string)
    ensures r == ProjectNameOf(raw, toLowercase)
  {
    var lowered := toLowercase(raw);
    var name := "";
    for i := 0 to |lowered|
      invariant name == Squeeze(lowered[..i])
    {
      assert lowered[..i + 1][..i] == lowered[..i];
      if IsAlnum(lowered[i]) {
        name := name + [lowered[i]];
      } else if name != "" && name[|name| - 1] != '-' {
        name := name + "-";
      }
    }
    assert lowered[..|lowered|] == lowered;
    if |name| > MAX_NAME {
      name := name[..MAX_NAME];
    }
    r := TrimHyphens(name);
  }

  // ---------- the shape of the buffer ----------

  /** Letters, digits and single hyphens, none of them in front. */
  ghost predicate Tidy(name: string) {
    && (forall i | 0 <= i < |name| :: IsAlnum(name[i]) || name[i] == '-')
    && (name != "" ==> name[0] != '-')
    && (forall i | 0 < i < |name| :: name[i - 1] != '-' || name[i] != '-')
  }

  lemma {:induction false} SqueezeIsTidy(lowered: string)
    ensures Tidy(Squeeze(lowered))
  {
    if lowered != "" {
      SqueezeIsTidy(lowered[..|lowered| - 1]);
    }
  }

  /** Of a tidy name at most one hyphen is trimmed, at the end. */
  lemma TrimTidy(name: string)
    requires Tidy(name)
    ensures TrimHyphens(name) ==
            if name != "" && name[|name| - 1] == '-' then name[..|name| - 1] else name
    ensures Tidy(TrimHyphens(name))
  {
    if name != "" && name[|name| - 1] == '-' {
      var front := name[..|name| - 1];
      assert TrimHyphens(name) == TrimHyphens(front);
      assert front[0] == name[0];
      assert front[|front| - 1] == name[|name| - 2];
    }
  }

  lemma TruncateTidy(name: string)
    requires Tidy(name)
    ensures Tidy(Truncate(name)) && |Truncate(name)| <= MAX_NAME
  {
  }

  // ---------- what is kept of the input ----------

  function Alnums(s: string): string {
    if s == "" then ""
    else Alnums(s[..|s| - 1]) + if IsAlnum(s[|s| - 1]) then [s[|s| - 1]] else ""
  }

  lemma AlnumsOfPush(name: string, c: char)
    ensures Alnums(Push(name, c)) == Alnums(name) + if IsAlnum(c) then [c] else ""
  {
    if IsAlnum(c) {
      assert (name + [c])[..|name|] == name;
    } else {
      assert (name + "-")[..|name|] == name;
      assert Alnums(name) + "" == Alnums(name);
    }
  }

  lemma {:induction false} AlnumsOfSqueeze(lowered: string)
    ensures Alnums(Squeeze(lowered)) == Alnums(lowered)
  {
    if lowered != "" {
      AlnumsOfSqueeze(lowered[..|lowered| - 1]);
      AlnumsOfPush(Squeeze(lowered[..|lowered| - 1]), lowered[|lowered| - 1]);
    }
  }

  lemma {:induction false} AlnumsOfPrefix(s: string, n: nat)
    requires n <= |s|
    ensures Alnums(s[..n]) <= Alnums(s)
  {
    if n < |s| {
      AlnumsOfPrefix(s[..|s| - 1], n);
      assert s[..|s| - 1][..n] == s[..n];
    } else {
      assert s[..n] == s;
    }
  }

  lemma {:induction false} NoAlnums(s: string)
    ensures Alnums(s) == "" <==> forall i | 0 <= i < |s| :: !IsAlnum(s[i])
  {
    if s != "" {
      NoAlnums(s[..|s| - 1]);
      assert forall i | 0 <= i < |s| - 1 :: s[..|s| - 1][i] == s[i];
    }
  }

  lemma TrimKeepsAlnums(name: string)
    requires Tidy(name)
    ensures Alnums(TrimHyphens(name)) == Alnums(name)
  {
    TrimTidy(name);
  }

  /** The letters and digits of the result are the first ones of the input; all, if nothing was cut. */
  lemma KeepsLettersAndDigits(lowered: string)
    ensures Alnums(Sanitized(lowered)) <= Alnums(lowered)
    ensures |Squeeze(lowered)| <= MAX_NAME ==> Alnums(Sanitized(lowered)) == Alnums(lowered)
  {
    var squeezed := Squeeze(lowered);
    SqueezeIsTidy(lowered);
    TruncateTidy(squeezed);
    TrimKeepsAlnums(Truncate(squeezed));
    AlnumsOfSqueeze(lowered);
    if |squeezed| > MAX_NAME {
      AlnumsOfPrefix(squeezed, MAX_NAME);
    }
  }

  // ---------- the result ----------

  /** Both validators accept the same names. */
  lemma ValidatorsAgree(name: string)
    ensures Manifest.IsValidName(name) <==> Routes.IsValidProjectName(name)
  {
    assert forall c :: Manifest.IsNameChar(c) <==> Routes.IsNameChar(c);
  }

  lemma SanitizedIsTidy(lowered: string)
    ensures var r := Sanitized(lowered);
            Tidy(r) && |r| <= MAX_NAME && (r != "" ==> r[|r| - 1] != '-')
  {
    var name := Truncate(Squeeze(lowered));
    SqueezeIsTidy(lowered);
    TruncateTidy(Squeeze(lowered));
    TrimTidy(name);
    var r := Sanitized(lowered);
    if r != "" && name[|name| - 1] == '-' {
      assert r[|r| - 1] == name[|name| - 2];
    }
  }

  /** Nothing usable in, nothing out; otherwise a name both validators accept. */
  lemma EmptyOrValid(lowered: string)
    ensures var r := Sanitized(lowered);
            && (r == "" <==> forall i | 0 <= i < |lowered| :: !IsAlnum(lowered[i]))
            && (r != "" ==> Manifest.IsValidName(r) && Routes.IsValidProjectName(r))
  {
    var r := Sanitized(lowered);
    SanitizedIsTidy(lowered);
    ValidatorsAgree(r);
    NoAlnums(lowered);
    AlnumsOfSqueeze(lowered);
    if r == "" {
      EmptyMeansNothing(lowered);
    } else {
      KeepsLettersAndDigits(lowered);
      NoAlnums(r);
      assert IsAlnum(r[0]);
    }
  }

  lemma EmptyMeansNothing(lowered: string)
    requires Sanitized(lowered) == ""
    ensures Squeeze(lowered) == ""
  {
    SqueezeIsTidy(lowered);
    TruncateTidy(Squeeze(lowered));
    TrimTidy(Truncate(Squeeze(lowered)));
  }

  // ---------- the result, word by word ----------

  /** The words with a hyphen between neighbours. */
  function Join(words: seq<string>): string {
    if words == [] then ""
    else if |words| == 1 then words[0]
    else words[0] + "-" + Join(words[1..])
  }

  /** The buffer `name` after the further input `s`. */
  function PushAll(name: string, s: string): string {
    if s == "" then name else Push(PushAll(name, s[..|s| - 1]), s[|s| - 1])
  }

  lemma {:induction false} SqueezeIsPushAll(s: string)
    ensures Squeeze(s) == PushAll("", s)
  {
    if s != "" {
      SqueezeIsPushAll(s[..|s| - 1]);
    }
  }

  lemma {:induction false} PushAllAppend(name: string, a: string, b: string)
    ensures PushAll(name, a + b) == PushAll(PushAll(name, a), b)
    decreases |b|
  {
    if b == "" {
      assert a + b == a;
    } else {
      assert (a + b)[..|a + b| - 1] == a + b[..|b| - 1];
      PushAllAppend(name, a, b[..|b| - 1]);
    }
  }

  lemma {:induction false} PushAllWord(name: string, word: string)
    requires AllIn(word, IsAlnum)
    ensures PushAll(name, word) == name + word
  {
    if word != "" {
      PushAllWord(name, word[..|word| - 1]);
      assert IsAlnum(word[|word| - 1]);
      assert name + word == name + word[..|word| - 1] + [word[|word| - 1]];
    } else {
      assert name + word == name;
    }
  }

  lemma {:induction false} PushAllGap(name: string, gap: string)
    requires NoneIn(gap, IsAlnum) && (name != "" ==> name[|name| - 1] != '-')
    ensures PushAll(name, gap) == if name == "" || gap == "" then name else name + "-"
  {
    if gap != "" {
      PushAllGap(name, gap[..|gap| - 1]);
      assert !IsAlnum(gap[|gap| - 1]);
    }
  }

  function Hyphenated(name: string, more: string): string {
    if name == "" then more else if more == "" then name else name + "-" + more
  }

  lemma JoinFirst(name: string, words: seq<string>, gaps: seq<string>)
    requires IsCut(gaps, words, IsAlnum) && words != []
    ensures Hyphenated(name, Join(words)) == Hyphenated(Hyphenated(name, words[0]), Join(words[1..]))
  {
    if |words| > 1 {
      assert Join(words[1..]) != "";
      assert name + "-" + (words[0] + "-" + Join(words[1..])) == name + "-" + words[0] + "-" + Join(words[1..]);
    }
  }

  /** The buffer over a cut input: the words it has, the words to come, and a hyphen for a last gap. */
  lemma {:induction false} PushAllCut(name: string, gaps: seq<string>, words: seq<string>)
    requires IsCut(gaps, words, IsAlnum)
    requires name != "" ==> name[|name| - 1] != '-' && (words != [] ==> gaps[0] != "")
    ensures var joined := Hyphenated(name, Join(words));
            PushAll(name, Weave(gaps, words)) == if joined != "" && gaps[|words|] != "" then joined + "-" else joined
    decreases |words|
  {
    PushAllGap(name, gaps[0]);
    if words != [] {
      var before, word, rest := PushAll(name, gaps[0]), words[0], Weave(gaps[1..], words[1..]);
      PushAllAppend(name, gaps[0], word + rest);
      PushAllAppend(before, word, rest);
      PushAllWord(before, word);
      assert gaps[0] + word + rest == gaps[0] + (word + rest);
      var next := Hyphenated(name, word);
      assert next == before + word && IsAlnum(word[|word| - 1]) && next[|next| - 1] == word[|word| - 1];
      PushAllCut(next, gaps[1..], words[1..]);
      JoinFirst(name, words, gaps);
    }
  }

  function WithoutLastHyphen(name: string): string {
    if name != "" && name[|name| - 1] == '-' then name[..|name| - 1] else name
  }

  /** The buffer after the whole input: its words, and a hyphen for a last gap. */
  lemma SqueezeWords(lowered: string)
    ensures var joined := Join(Words(lowered, IsAlnum));
            && (Squeeze(lowered) == joined || (joined != "" && Squeeze(lowered) == joined + "-"))
            && (joined != "" ==> joined[|joined| - 1] != '-')
  {
    var words := Words(lowered, IsAlnum);
    WordsExactly(lowered, words, IsAlnum);
    var gaps :| IsCut(gaps, words, IsAlnum) && Weave(gaps, words) == lowered;
    SqueezeIsPushAll(lowered);
    PushAllCut("", gaps, words);
    JoinEnds(gaps, words);
  }

  lemma TrimmedPrefix(name: string)
    requires Tidy(name)
    ensures TrimHyphens(Truncate(name)) == WithoutLastHyphen(if |name| <= 63 then name else name[..63])
  {
    TruncateTidy(name);
    TrimTidy(Truncate(name));
  }

  /**
   The derived name is the input's words of letters and digits with a hyphen between neighbours, cut
   at 63 characters.
   */
  lemma SanitizedWords(lowered: string)
    ensures var joined := Join(Words(lowered, IsAlnum));
            Sanitized(lowered) == if |joined| <= 63 then joined else WithoutLastHyphen(joined[..63])
  {
    var joined, squeezed := Join(Words(lowered, IsAlnum)), Squeeze(lowered);
    SqueezeWords(lowered);
    SqueezeIsTidy(lowered);
    TrimmedPrefix(squeezed);
    HyphenDropped(joined, squeezed);
  }

  lemma HyphenDropped(joined: string, squeezed: string)
    requires joined != "" ==> joined[|joined| - 1] != '-'
    requires squeezed == joined || squeezed == joined + "-"
    ensures WithoutLastHyphen(if |squeezed| <= 63 then squeezed else squeezed[..63]) ==
            if |joined| <= 63 then joined else WithoutLastHyphen(joined[..63])
  {
    if squeezed == joined + "-" {
      assert squeezed[..|joined|] == joined;
      assert |joined| > 63 ==> squeezed[..63] == joined[..63];
    }
  }

  lemma {:induction false} JoinEnds(gaps: seq<string>, words: seq<string>)
    requires IsCut(gaps, words, IsAlnum)
    ensures var joined := Join(words); joined != "" ==> joined[|joined| - 1] != '-'
    decreases |words|
  {
    if words != [] {
      assert IsAlnum(words[0][|words[0]| - 1]);
      JoinEnds(gaps[1..], words[1..]);
      if |words| > 1 {
        assert Join(words[1..]) != "";
      }
    }
  }

  ghost predicate NoDoubleHyphen(name: string) {
    forall i | 0 < i < |name| :: name[i - 1] != '-' || name[i] != '-'
  }

  /** A valid name is left alone iff it has no double hyphen. */
  lemma IdentityOnTidyNames(name: string, toLowercase: string -> string)
    requires LeavesNamesAlone(toLowercase)
    requires Manifest.IsValidName(name)
    ensures ProjectNameOf(name, toLowercase) == name <==> NoDoubleHyphen(name)
  {
    assert IsAsciiName(name);
    SanitizedIsTidy(name);
    if NoDoubleHyphen(name) {
      SqueezeTidy(name, |name|);
      assert name[..|name|] == name;
      TrimTidy(name);
    }
  }

  lemma {:induction false} SqueezeTidy(name: string, n: nat)
    requires Tidy(name) && n <= |name|
    ensures Squeeze(name[..n]) == name[..n]
  {
    if n > 0 {
      SqueezeTidy(name, n - 1);
      assert name[..n][..n - 1] == name[..n - 1];
      assert name[..n] == name[..n - 1] + [name[n - 1]];
    }
  }

  /** Deriving a name from a derived name, lowercasing included, changes nothing. */
  lemma Idempotent(raw: string, toLowercase: string -> string)
    requires LeavesNamesAlone(toLowercase)
    ensures var name := ProjectNameOf(raw, toLowercase);
            ProjectNameOf(name, toLowercase) == name
  {
    var name := ProjectNameOf(raw, toLowercase);
    EmptyOrValid(toLowercase(raw));
    SanitizedIsTidy(toLowercase(raw));
    if name == "" {
      assert IsAsciiName("");
    } else {
      IdentityOnTidyNames(name, toLowercase);
    }
  }
}
