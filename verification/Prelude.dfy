/** Option, Result and the few string operations the models share. */
module Prelude {

  datatype Option<+T> = None | Some(value: T) {
    function UnwrapOr(default: T): T {
      match this
      case Some(v) => v
      case None => default
    }
  }

  datatype Result<+T, +E> = Ok(value: T) | Err(error: E)

  // ---------- substring search (`str::find`) ----------

  predicate OccursAt(s: string, pat: string, i: int) {
    0 <= i && i + |pat| <= |s| && s[i..i + |pat|] == pat
  }

  ghost predicate Free(s: string, pat: string) {
    forall i :: !OccursAt(s, pat, i)
  }

  /** The leftmost occurrence of `pat` in `s`. */
  function Find(s: string, pat: string): (r: Option<nat>)
    ensures r.Some? ==> OccursAt(s, pat, r.value) && forall j | 0 <= j < r.value :: !OccursAt(s, pat, j)
    ensures r.None? <==> Free(s, pat)
  {
    FindFrom(s, pat, 0)
  }

  function FindFrom(s: string, pat: string, from: nat): (r: Option<nat>)
    requires from <= |s|
    ensures r.Some? ==> from <= r.value && OccursAt(s, pat, r.value)
                        && forall j | from <= j < r.value :: !OccursAt(s, pat, j)
    ensures r.None? <==> forall j | from <= j :: !OccursAt(s, pat, j)
    decreases |s| - from
  {
    if OccursAt(s, pat, from) then Some(from)
    else if from == |s| then None
    else FindFrom(s, pat, from + 1)
  }

  // ---------- prefixes (`str::strip_prefix`) and trimming (`str::trim`) ----------

  function StripPrefix(s: string, prefix: string): (r: Option<string>)
    ensures r.Some? <==> prefix <= s
    ensures r.Some? ==> s == prefix + r.value
  {
    if prefix <= s then Some(s[|prefix|..]) else None
  }

  /** The Unicode `White_Space` property, which `str::trim` uses. */
  predicate IsWhitespace(c: char) {
    || '\U{9}' <= c <= '\U{D}'
    || c == ' '
    || c == '\U{85}'
    || c == '\U{A0}'
    || c == '\U{1680}'
    || '\U{2000}' <= c <= '\U{200A}'
    || c == '\U{2028}'
    || c == '\U{2029}'
    || c == '\U{202F}'
    || c == '\U{205F}'
    || c == '\U{3000}'
  }

  /** All 25 of them. */
  lemma WhitespaceExactly(c: char)
    ensures IsWhitespace(c) <==>
            c in "\t\n\U{B}\U{C}\r \U{85}\U{A0}\U{1680}\U{2000}\U{2001}\U{2002}\U{2003}\U{2004}\U{2005}"
               + "\U{2006}\U{2007}\U{2008}\U{2009}\U{200A}\U{2028}\U{2029}\U{202F}\U{205F}\U{3000}"
  {
  }

  ghost predicate Blank(s: string) {
    forall i | 0 <= i < |s| :: IsWhitespace(s[i])
  }

  ghost predicate Trimmed(s: string) {
    s != "" ==> !IsWhitespace(s[0]) && !IsWhitespace(s[|s| - 1])
  }

  function TrimStart(s: string): (r: string)
    ensures |r| <= |s|
  {
    if s != "" && IsWhitespace(s[0]) then TrimStart(s[1..]) else s
  }

  function TrimEnd(s: string): (r: string)
    ensures |r| <= |s|
  {
    if s != "" && IsWhitespace(s[|s| - 1]) then TrimEnd(s[..|s| - 1]) else s
  }

  function Trim(s: string): string {
    TrimEnd(TrimStart(s))
  }

  /** Padding is what `Trim` removes, and it is the only thing. */
  lemma TrimPadded(left: string, middle: string, right: string)
    requires Blank(left) && Blank(right) && Trimmed(middle)
    ensures Trim(left + middle + right) == middle
  {
    var rest := middle + right;
    assert left + middle + right == left + rest;
    if middle == "" {
      assert rest == right;
    } else {
      assert rest[0] == middle[0];
    }
    TrimStartPadded(left, rest, middle == "");
    TrimEndPadded(middle, right);
  }

  /** `Trim` finds the middle of any text that is blank around it. */
  lemma TrimExactly(s: string, middle: string)
    ensures Trim(s) == middle <==>
            Trimmed(middle) && exists left, right :: Blank(left) && Blank(right) && s == left + middle + right
  {
    var left := BlankStart(s);
    var right := BlankEnd(TrimStart(s));
    assert s == left + Trim(s) + right;
    forall l, r | Trimmed(middle) && Blank(l) && Blank(r) && s == l + middle + r
      ensures Trim(s) == middle
    {
      TrimPadded(l, middle, r);
    }
  }

  lemma {:induction false} BlankStart(s: string) returns (left: string)
    ensures Blank(left) && s == left + TrimStart(s)
    ensures TrimStart(s) != "" ==> !IsWhitespace(TrimStart(s)[0])
  {
    left := "";
    if s != "" && IsWhitespace(s[0]) {
      var more := BlankStart(s[1..]);
      left := [s[0]] + more;
    }
  }

  lemma {:induction false} BlankEnd(s: string) returns (right: string)
    ensures Blank(right) && s == TrimEnd(s) + right
    ensures TrimEnd(s) != "" ==> !IsWhitespace(TrimEnd(s)[|TrimEnd(s)| - 1])
  {
    right := "";
    if s != "" && IsWhitespace(s[|s| - 1]) {
      var more := BlankEnd(s[..|s| - 1]);
      right := more + [s[|s| - 1]];
    }
  }

  lemma {:induction false} TrimStartPadded(left: string, rest: string, blank: bool)
    requires Blank(left)
    requires if blank then Blank(rest) else rest != "" && !IsWhitespace(rest[0])
    ensures TrimStart(left + rest) == if blank then "" else rest
  {
    var s := left + rest;
    if left != "" {
      assert s[0] == left[0] && s[1..] == left[1..] + rest;
      TrimStartPadded(left[1..], rest, blank);
    } else if blank && rest != "" {
      assert s == rest && rest[1..] == "" + rest[1..];
      TrimStartPadded("", rest[1..], true);
    } else {
      assert s == rest;
    }
  }

  lemma {:induction false} TrimEndPadded(middle: string, right: string)
    requires Trimmed(middle) && Blank(right)
    ensures TrimEnd(middle + right) == middle
  {
    var s := middle + right;
    if right != "" {
      assert s[|s| - 1] == right[|right| - 1];
      assert s[..|s| - 1] == middle + right[..|right| - 1];
      TrimEndPadded(middle, right[..|right| - 1]);
    } else {
      assert s == middle;
    }
  }

  // ---------- words ----------

  /** How far `s` goes on with characters of a word. */
  function RunLength(s: string, inWord: char -> bool): (n: nat)
    ensures n <= |s| && (forall i | 0 <= i < n :: inWord(s[i])) && (n < |s| ==> !inWord(s[n]))
  {
    if s == "" || !inWord(s[0]) then 0 else 1 + RunLength(s[1..], inWord)
  }

  /** The nonempty maximal runs of word characters. */
  function Words(s: string, inWord: char -> bool): seq<string>
    decreases |s|
  {
    if s == "" then []
    else if !inWord(s[0]) then Words(s[1..], inWord)
    else
      var n := RunLength(s, inWord);
      [s[..n]] + Words(s[n..], inWord)
  }

  /** `gaps[0]`, `words[0]`, `gaps[1]` and so on, to the last gap. */
  function Weave(gaps: seq<string>, words: seq<string>): string
    requires |gaps| == |words| + 1
  {
    if words == [] then gaps[0] else gaps[0] + words[0] + Weave(gaps[1..], words[1..])
  }

  ghost predicate AllIn(s: string, inWord: char -> bool) {
    forall i | 0 <= i < |s| :: inWord(s[i])
  }

  ghost predicate NoneIn(s: string, inWord: char -> bool) {
    forall i | 0 <= i < |s| :: !inWord(s[i])
  }

  /** Nonempty words between gaps; only the first and the last gap may be empty. */
  ghost predicate IsCut(gaps: seq<string>, words: seq<string>, inWord: char -> bool) {
    && |gaps| == |words| + 1
    && NoneIn(gaps[0], inWord)
    && (words != [] ==>
          && words[0] != "" && AllIn(words[0], inWord)
          && (|words| > 1 ==> gaps[1] != "")
          && IsCut(gaps[1..], words[1..], inWord))
  }

  lemma {:induction false} SkipGap(gap: string, rest: string, inWord: char -> bool)
    requires forall i | 0 <= i < |gap| :: !inWord(gap[i])
    ensures Words(gap + rest, inWord) == Words(rest, inWord)
    decreases |gap|
  {
    if gap == "" {
      assert gap + rest == rest;
    } else {
      assert (gap + rest)[1..] == gap[1..] + rest;
      SkipGap(gap[1..], rest, inWord);
    }
  }

  lemma TakeWord(word: string, rest: string, inWord: char -> bool)
    requires word != "" && forall i | 0 <= i < |word| :: inWord(word[i])
    requires rest != "" ==> !inWord(rest[0])
    ensures Words(word + rest, inWord) == [word] + Words(rest, inWord)
  {
    var s := word + rest;
    var n := RunLength(s, inWord);
    assert forall i | 0 <= i < |word| :: s[i] == word[i];
    assert rest != "" ==> s[|word|] == rest[0];
    assert s[..n] == word && s[n..] == rest;
  }

  /** Whatever the gaps, the words of a cut are the words of the whole. */
  lemma {:induction false} WordsOfCut(gaps: seq<string>, words: seq<string>, inWord: char -> bool)
    requires IsCut(gaps, words, inWord)
    ensures Words(Weave(gaps, words), inWord) == words
    decreases |words|
  {
    if words == [] {
      SkipGap(gaps[0], "", inWord);
      assert gaps[0] + "" == gaps[0];
    } else {
      var rest := Weave(gaps[1..], words[1..]);
      GapFirst(gaps[1..], words[1..], inWord);
      assert gaps[0] + words[0] + rest == gaps[0] + (words[0] + rest);
      SkipGap(gaps[0], words[0] + rest, inWord);
      TakeWord(words[0], rest, inWord);
      WordsOfCut(gaps[1..], words[1..], inWord);
    }
  }

  lemma GapFirst(gaps: seq<string>, words: seq<string>, inWord: char -> bool)
    requires IsCut(gaps, words, inWord) && (words != [] ==> gaps[0] != "")
    ensures Weave(gaps, words) != "" ==> !inWord(Weave(gaps, words)[0])
  {
  }

  lemma GapGrows(c: char, gaps: seq<string>, words: seq<string>, inWord: char -> bool)
    requires IsCut(gaps, words, inWord) && !inWord(c)
    ensures var longer := [[c] + gaps[0]] + gaps[1..];
            IsCut(longer, words, inWord) && Weave(longer, words) == [c] + Weave(gaps, words)
  {
    var longer := [[c] + gaps[0]] + gaps[1..];
    assert longer[1..] == gaps[1..];
    if words != [] {
      assert [c] + gaps[0] + words[0] + Weave(gaps[1..], words[1..]) == [c] + Weave(gaps, words);
    }
  }

  lemma WordGrows(c: char, gaps: seq<string>, words: seq<string>, inWord: char -> bool)
    requires IsCut(gaps, words, inWord) && inWord(c) && words != [] && gaps[0] == ""
    ensures var longer := [[c] + words[0]] + words[1..];
            IsCut(gaps, longer, inWord) && Weave(gaps, longer) == [c] + Weave(gaps, words)
  {
    var longer := [[c] + words[0]] + words[1..];
    assert longer[1..] == words[1..];
    assert gaps[0] + ([c] + words[0]) + Weave(gaps[1..], words[1..]) == [c] + Weave(gaps, words);
  }

  lemma WordStarts(c: char, gaps: seq<string>, words: seq<string>, inWord: char -> bool)
    requires IsCut(gaps, words, inWord) && inWord(c) && (words != [] ==> gaps[0] != "")
    ensures IsCut([""] + gaps, [[c]] + words, inWord)
    ensures Weave([""] + gaps, [[c]] + words) == [c] + Weave(gaps, words)
  {
    assert ([""] + gaps)[1..] == gaps && ([[c]] + words)[1..] == words;
  }

  lemma {:induction false} SomeCut(s: string, inWord: char -> bool) returns (gaps: seq<string>, words: seq<string>)
    ensures IsCut(gaps, words, inWord) && Weave(gaps, words) == s
  {
    if s == "" {
      gaps, words := [""], [];
    } else {
      gaps, words := SomeCut(s[1..], inWord);
      if !inWord(s[0]) {
        GapGrows(s[0], gaps, words, inWord);
        gaps := [[s[0]] + gaps[0]] + gaps[1..];
      } else if words != [] && gaps[0] == "" {
        WordGrows(s[0], gaps, words, inWord);
        words := [[s[0]] + words[0]] + words[1..];
      } else {
        WordStarts(s[0], gaps, words, inWord);
        gaps, words := [""] + gaps, [[s[0]]] + words;
      }
    }
  }

  /** The words of a text are those of its cuts, and it has one. */
  lemma WordsExactly(s: string, words: seq<string>, inWord: char -> bool)
    ensures Words(s, inWord) == words <==> exists gaps :: IsCut(gaps, words, inWord) && Weave(gaps, words) == s
  {
    var gaps, cut := SomeCut(s, inWord);
    WordsOfCut(gaps, cut, inWord);
    forall others | IsCut(others, words, inWord) && Weave(others, words) == s
      ensures Words(s, inWord) == words
    {
      WordsOfCut(others, words, inWord);
    }
  }

  // ---------- prefixes of a sequence, one element at a time ----------

  lemma TakeOneMore<T>(s: seq<T>, i: nat)
    requires i < |s|
    ensures forall x :: x in s[..i + 1] <==> x in s[..i] || x == s[i]
  {
    assert s[..i + 1] == s[..i] + [s[i]];
  }
}
