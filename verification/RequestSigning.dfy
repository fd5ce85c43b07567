/** The text a client signs and the server rebuilds: no two requests share it. */
module RequestSigning {
  import opened Prelude

  // ---------- decimal rendering ----------

  predicate IsDigit(c: char) { '0' <= c <= '9' }

  function Digit(d: nat): char
    requires d < 10
  {
    '0' + d as char
  }

  function Decimal(n: nat): (s: string)
    ensures s != "" && forall i | 0 <= i < |s| :: IsDigit(s[i])
  {
    if n < 10 then [Digit(n)] else Decimal(n / 10) + [Digit(n % 10)]
  }

  function Value(s: string): nat
    requires forall i | 0 <= i < |s| :: IsDigit(s[i])
  {
    if s == "" then 0
    else
      var last := s[|s| - 1];
      assert IsDigit(last);
      10 * Value(s[..|s| - 1]) + (last - '0') as nat
  }

  lemma {:induction false} ValueOfDecimal(n: nat)
    ensures Value(Decimal(n)) == n
  {
    var s := Decimal(n);
    if n < 10 {
      assert s[..|s| - 1] == "";
    } else {
      assert s[..|s| - 1] == Decimal(n / 10);
      ValueOfDecimal(n / 10);
    }
  }

  predicate AllDigits(s: string) {
    s != "" && forall i | 0 <= i < |s| :: IsDigit(s[i])
  }

  /** `str::parse::<u64>`. */
  function ParseU64(s: string): Option<nat> {
    var digits := if s != "" && s[0] == '+' then s[1..] else s;
    if AllDigits(digits) && Value(digits) < 0x1_0000_0000_0000_0000 then Some(Value(digits)) else None
  }

  /** A rendered timestamp parses back. */
  lemma ParseRendered(n: nat)
    requires n < 0x1_0000_0000_0000_0000
    ensures ParseU64(Decimal(n)) == Some(n)
  {
    ValueOfDecimal(n);
    assert IsDigit(Decimal(n)[0]);
  }

  /** A rendering with any number of zeros in front. */
  ghost predicate Renders(s: string, n: nat) {
    exists zeros :: s == zeros + Decimal(n) && forall i | 0 <= i < |zeros| :: zeros[i] == '0'
  }

  lemma ValueStep(front: string, last: char)
    requires (forall i | 0 <= i < |front| :: IsDigit(front[i])) && IsDigit(last)
    ensures AllDigits(front + [last]) && Value(front + [last]) == 10 * Value(front) + (last - '0') as nat
  {
    var s := front + [last];
    assert s[..|s| - 1] == front;
  }

  lemma {:induction false} DigitsRender(s: string)
    requires AllDigits(s)
    ensures Renders(s, Value(s))
  {
    var front, last := s[..|s| - 1], s[|s| - 1];
    assert s == front + [last];
    ValueStep(front, last);
    if front == "" {
      OneDigit(last);
      assert s == [last];
    } else {
      DigitsRender(front);
      OneMoreDigit(front, Value(front), last);
    }
  }

  lemma OneDigit(c: char)
    requires IsDigit(c)
    ensures Renders([c], (c - '0') as nat)
  {
    assert [c] == "" + Decimal((c - '0') as nat);
  }

  lemma OneMoreDigit(front: string, n: nat, last: char)
    requires Renders(front, n) && IsDigit(last)
    ensures Renders(front + [last], 10 * n + (last - '0') as nat)
  {
    var d := (last - '0') as nat;
    var zeros :| front == zeros + Decimal(n) && forall i | 0 <= i < |zeros| :: zeros[i] == '0';
    assert Digit(d) == last;
    if n == 0 {
      assert Decimal(0) == "0";
      OneDigit(last);
      assert front + [last] == (zeros + "0") + Decimal(d);
    } else {
      NextDecimal(n, d);
      assert front + [last] == zeros + Decimal(10 * n + d);
    }
  }

  lemma NextDecimal(n: nat, d: nat)
    requires n > 0 && d < 10
    ensures Decimal(10 * n + d) == Decimal(n) + [Digit(d)]
  {
    assert (10 * n + d) / 10 == n && (10 * n + d) % 10 == d;
  }

  lemma {:induction false} ValueOfRendering(zeros: string, n: nat)
    requires forall i | 0 <= i < |zeros| :: zeros[i] == '0'
    ensures forall i | 0 <= i < |zeros + Decimal(n)| :: IsDigit((zeros + Decimal(n))[i])
    ensures Value(zeros + Decimal(n)) == n
    decreases n
  {
    var s := zeros + Decimal(n);
    if n < 10 {
      ValueOfZeros(zeros);
      assert s[..|s| - 1] == zeros;
    } else {
      ValueOfRendering(zeros, n / 10);
      assert s[..|s| - 1] == zeros + Decimal(n / 10);
    }
  }

  lemma {:induction false} ValueOfZeros(zeros: string)
    requires forall i | 0 <= i < |zeros| :: zeros[i] == '0'
    ensures (forall i | 0 <= i < |zeros| :: IsDigit(zeros[i])) && Value(zeros) == 0
  {
    if zeros != "" {
      ValueOfZeros(zeros[..|zeros| - 1]);
    }
  }

  /** What parses is a rendering of a 64-bit number, perhaps with zeros and one plus sign in front. */
  lemma ParseExactly(s: string, n: nat)
    ensures ParseU64(s) == Some(n) <==>
            n < 0x1_0000_0000_0000_0000 && (Renders(s, n) || ("+" <= s && Renders(s[1..], n)))
  {
    var digits := if s != "" && s[0] == '+' then s[1..] else s;
    assert "+" <= s <==> s != "" && s[0] == '+';
    if ParseU64(s) == Some(n) {
      DigitsRender(digits);
    }
    if Renders(s, n) {
      RenderingParses(s, n);
      assert IsDigit(s[0]);
    }
    if s != "" && s[0] == '+' && Renders(s[1..], n) {
      RenderingParses(s[1..], n);
    }
  }

  lemma RenderingParses(s: string, n: nat)
    requires Renders(s, n)
    ensures AllDigits(s) && Value(s) == n
  {
    var zeros :| s == zeros + Decimal(n) && forall i | 0 <= i < |zeros| :: zeros[i] == '0';
    ValueOfRendering(zeros, n);
  }

  // ---------- the canonical request ----------

  datatype Fields = Fields(
    keyId: string,
    timestamp: nat,
    nonce: string,
    verb: string,
    pathAndQuery: string,
    host: string,
    contentSha256: string)

  function Line(tag: string, value: string, rest: string): string {
    tag + value + "\n" + rest
  }

  function Canonical(f: Fields): string {
    Line("RAILYARD-REQUEST-V1", "",
         Line("key_id:", f.keyId,
              Line("timestamp:", Decimal(f.timestamp),
                   Line("nonce:", f.nonce,
                        Line("method:", f.verb,
                             Line("path:", f.pathAndQuery,
                                  Line("host:", f.host, "content_sha256:" + f.contentSha256)))))))
  }

  function JoinLines(lines: seq<string>): string
    requires lines != []
  {
    if |lines| == 1 then lines[0] else lines[0] + "\n" + JoinLines(lines[1..])
  }

  lemma LineJoins(tag: string, value: string, lines: seq<string>)
    requires lines != []
    ensures Line(tag, value, JoinLines(lines)) == JoinLines([tag + value] + lines)
  {
    assert ([tag + value] + lines)[1..] == lines;
  }

  /** The signed text, line by line. */
  lemma CanonicalText(f: Fields)
    ensures Canonical(f) ==
            JoinLines(["RAILYARD-REQUEST-V1", "key_id:" + f.keyId, "timestamp:" + Decimal(f.timestamp),
                       "nonce:" + f.nonce, "method:" + f.verb, "path:" + f.pathAndQuery, "host:" + f.host,
                       "content_sha256:" + f.contentSha256])
  {
    TextFromNonce(f);
    var nonce := ["nonce:" + f.nonce, "method:" + f.verb, "path:" + f.pathAndQuery, "host:" + f.host,
                  "content_sha256:" + f.contentSha256];
    LineJoins("timestamp:", Decimal(f.timestamp), nonce);
    LineJoins("key_id:", f.keyId, ["timestamp:" + Decimal(f.timestamp)] + nonce);
    LineJoins("RAILYARD-REQUEST-V1", "", ["key_id:" + f.keyId] + (["timestamp:" + Decimal(f.timestamp)] + nonce));
    assert "RAILYARD-REQUEST-V1" + "" == "RAILYARD-REQUEST-V1";
    assert ["RAILYARD-REQUEST-V1", "key_id:" + f.keyId, "timestamp:" + Decimal(f.timestamp),
            "nonce:" + f.nonce, "method:" + f.verb, "path:" + f.pathAndQuery, "host:" + f.host,
            "content_sha256:" + f.contentSha256]
        == ["RAILYARD-REQUEST-V1"] + (["key_id:" + f.keyId] + (["timestamp:" + Decimal(f.timestamp)] + nonce));
  }

  lemma TextFromNonce(f: Fields)
    ensures FromNonce(f) ==
            JoinLines(["nonce:" + f.nonce, "method:" + f.verb, "path:" + f.pathAndQuery, "host:" + f.host,
                       "content_sha256:" + f.contentSha256])
  {
    var hash := ["content_sha256:" + f.contentSha256];
    LineJoins("host:", f.host, hash);
    LineJoins("path:", f.pathAndQuery, ["host:" + f.host] + hash);
    LineJoins("method:", f.verb, ["path:" + f.pathAndQuery] + (["host:" + f.host] + hash));
    LineJoins("nonce:", f.nonce, ["method:" + f.verb] + (["path:" + f.pathAndQuery] + (["host:" + f.host] + hash)));
    assert ["nonce:" + f.nonce, "method:" + f.verb, "path:" + f.pathAndQuery, "host:" + f.host,
            "content_sha256:" + f.contentSha256]
        == ["nonce:" + f.nonce] + (["method:" + f.verb] + (["path:" + f.pathAndQuery] + (["host:" + f.host] + hash)));
  }

  /** Header values, methods, paths and hosts of HTTP requests hold no line break. */
  predicate OneLine(f: Fields) {
    '\n' !in f.keyId && '\n' !in f.nonce && '\n' !in f.verb && '\n' !in f.pathAndQuery && '\n' !in f.host
  }

  lemma LineInjective(tag: string, v: string, rest: string, v': string, rest': string)
    requires '\n' !in v && '\n' !in v'
    requires Line(tag, v, rest) == Line(tag, v', rest')
    ensures v == v' && rest == rest'
  {
    var s, s' := Line(tag, v, rest), Line(tag, v', rest');
    assert s[|tag| + |v|] == '\n' && s'[|tag| + |v'|] == '\n';
    assert forall i | 0 <= i < |v| :: s[|tag| + i] == v[i];
    assert forall i | 0 <= i < |v'| :: s'[|tag| + i] == v'[i];
    assert |v| == |v'|;
    assert v == s[|tag|..|tag| + |v|];
    assert v' == s'[|tag|..|tag| + |v|];
    assert rest == s[|tag| + |v| + 1..];
    assert rest' == s'[|tag| + |v| + 1..];
  }

  /** Equal signed texts come from equal requests: a signature covers all seven fields. */
  lemma CanonicalInjective(f: Fields, g: Fields)
    requires OneLine(f) && OneLine(g)
    ensures Canonical(f) == Canonical(g) <==> f == g
  {
    if Canonical(f) == Canonical(g) {
      PeelLines(f, g);
    }
  }

  function FromHost(f: Fields): string {
    Line("host:", f.host, "content_sha256:" + f.contentSha256)
  }

  function FromNonce(f: Fields): string {
    Line("nonce:", f.nonce, Line("method:", f.verb, Line("path:", f.pathAndQuery, FromHost(f))))
  }

  lemma PeelLines(f: Fields, g: Fields)
    requires OneLine(f) && OneLine(g) && Canonical(f) == Canonical(g)
    ensures f == g
  {
    var f2 := Line("timestamp:", Decimal(f.timestamp), FromNonce(f));
    var g2 := Line("timestamp:", Decimal(g.timestamp), FromNonce(g));
    var f1, g1 := Line("key_id:", f.keyId, f2), Line("key_id:", g.keyId, g2);
    LineInjective("RAILYARD-REQUEST-V1", "", f1, "", g1);
    LineInjective("key_id:", f.keyId, f2, g.keyId, g2);
    DigitsHoldNoBreak(f.timestamp);
    DigitsHoldNoBreak(g.timestamp);
    LineInjective("timestamp:", Decimal(f.timestamp), FromNonce(f), Decimal(g.timestamp), FromNonce(g));
    ValueOfDecimal(f.timestamp);
    ValueOfDecimal(g.timestamp);
    PeelFromNonce(f, g);
  }

  lemma PeelFromNonce(f: Fields, g: Fields)
    requires OneLine(f) && OneLine(g) && FromNonce(f) == FromNonce(g)
    ensures f.nonce == g.nonce && f.verb == g.verb && f.pathAndQuery == g.pathAndQuery
    ensures f.host == g.host && f.contentSha256 == g.contentSha256
  {
    var f2, g2 := Line("path:", f.pathAndQuery, FromHost(f)), Line("path:", g.pathAndQuery, FromHost(g));
    var f1, g1 := Line("method:", f.verb, f2), Line("method:", g.verb, g2);
    LineInjective("nonce:", f.nonce, f1, g.nonce, g1);
    LineInjective("method:", f.verb, f2, g.verb, g2);
    LineInjective("path:", f.pathAndQuery, FromHost(f), g.pathAndQuery, FromHost(g));
    var tag := "content_sha256:";
    LineInjective("host:", f.host, tag + f.contentSha256, g.host, tag + g.contentSha256);
    assert f.contentSha256 == (tag + f.contentSha256)[|tag|..];
    assert g.contentSha256 == (tag + g.contentSha256)[|tag|..];
  }

  lemma DigitsHoldNoBreak(n: nat)
    ensures '\n' !in Decimal(n)
  {
    assert !IsDigit('\n');
  }
}
