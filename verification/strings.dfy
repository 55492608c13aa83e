/** The JavaScript string primitives the core relies on: `trim`, the ASCII-exact case
    folding of a non-Unicode `/i` regular expression, and the `^https?:\/\/` scheme prefix. */
module Strings {

  /** ECMAScript WhiteSpace and LineTerminator code points: what `String.prototype.trim`
      strips from both ends. */
  predicate IsJsSpace(c: char) {
    || c == '\t' || c == '\n' || c == '\U{000B}' || c == '\U{000C}' || c == '\r' || c == ' '
    || c == '\U{00A0}' || c == '\U{1680}' || ('\U{2000}' <= c <= '\U{200A}')
    || c == '\U{2028}' || c == '\U{2029}' || c == '\U{202F}' || c == '\U{205F}'
    || c == '\U{3000}' || c == '\U{FEFF}'
  }

  predicate AllSpace(s: string) {
    forall i :: 0 <= i < |s| ==> IsJsSpace(s[i])
  }

  /** Neither end of `s` is whitespace. */
  predicate IsTrimmed(s: string) {
    |s| == 0 || (!IsJsSpace(s[0]) && !IsJsSpace(s[|s| - 1]))
  }

  /** Strips leading whitespace: the result is the longest suffix of `s` that does not
      start with whitespace. */
  function TrimStart(s: string): (r: string)
    ensures |r| <= |s| && r == s[|s| - |r|..]
    ensures forall i :: 0 <= i < |s| - |r| ==> IsJsSpace(s[i])
    ensures |r| > 0 ==> !IsJsSpace(r[0])
  {
    if |s| > 0 && IsJsSpace(s[0]) then TrimStart(s[1..]) else s
  }

  /** Strips trailing whitespace: the result is the longest prefix of `s` that does not
      end with whitespace. */
  function TrimEnd(s: string): (r: string)
    ensures |r| <= |s| && r == s[..|r|]
    ensures forall i :: |r| <= i < |s| ==> IsJsSpace(s[i])
    ensures |r| > 0 ==> !IsJsSpace(r[|r| - 1])
  {
    if |s| > 0 && IsJsSpace(s[|s| - 1]) then TrimEnd(s[..|s| - 1]) else s
  }

  /** `String.prototype.trim`: whitespace stripped from both ends, and nothing else. */
  function Trim(s: string): (r: string)
    ensures IsTrimmed(r)
    ensures |r| <= |s|
    ensures r == "" <==> AllSpace(s)
    ensures IsTrimmed(s) ==> r == s
    ensures exists i :: WindowAt(s, r, i)
  {
    var t := TrimStart(s);
    var r := TrimEnd(t);
    assert |r| > 0 ==> r[0] == t[0];
    Window(s, t, r);
    r
  }

  /** `r` sits in `s` at offset `i` with nothing but whitespace before and after it. */
  predicate WindowAt(s: string, r: string, i: int) {
    0 <= i <= |s| - |r| && r == s[i..i + |r|] && AllSpace(s[..i]) && AllSpace(s[i + |r|..])
  }

  /** A suffix of `s` after whitespace, cut before trailing whitespace, is a window of
      `s` with only whitespace around it. */
  lemma Window(s: string, t: string, r: string)
    requires |t| <= |s| && t == s[|s| - |t|..]
    requires forall k :: 0 <= k < |s| - |t| ==> IsJsSpace(s[k])
    requires |r| <= |t| && r == t[..|r|]
    requires forall k :: |r| <= k < |t| ==> IsJsSpace(t[k])
    ensures WindowAt(s, r, |s| - |t|)
  {
    var i := |s| - |t|;
    var u := s[..i];
    forall k | 0 <= k < |u| ensures IsJsSpace(u[k]) {
      assert u[k] == s[k];
    }
    var v := s[i + |r|..];
    forall k | 0 <= k < |v| ensures IsJsSpace(v[k]) {
      assert v[k] == t[|r| + k];
    }
    assert r == s[i..i + |r|];
  }

  /** `TrimStart(s)` reads `s` from its first non-whitespace character on. */
  lemma TrimStartIndex(s: string)
    ensures var u := TrimStart(s);
            forall j :: 0 <= j < |u| ==> u[j] == s[|s| - |u| + j]
  {
  }

  /** Where the trimmed string ends in `s`: at its last character, followed only by
      whitespace. */
  lemma TrimLast(s: string)
    ensures var t := Trim(s);
            var e := |s| - |TrimStart(s)| + |t|;
            && e <= |s|
            && (forall i :: e <= i < |s| ==> IsJsSpace(s[i]))
            && (|t| > 0 ==> s[e - 1] == t[|t| - 1])
  {
    assert Trim(s) == TrimEnd(TrimStart(s));
    TrimStartIndex(s);
  }

  /** Trimming is idempotent. */
  lemma TrimIdempotent(s: string)
    ensures Trim(Trim(s)) == Trim(s)
  {
  }

  /** The ASCII lower-case mapping, which is what a `/i` regular expression without the
      `u` flag applies to the ASCII letters of its pattern. */
  function AsciiLower(c: char): char {
    if 'A' <= c <= 'Z' then (c as int + 32) as char else c
  }

  function LowerAscii(s: string): string {
    seq(|s|, i requires 0 <= i < |s| => AsciiLower(s[i]))
  }

  predicate StartsWith(s: string, prefix: string) {
    |prefix| <= |s| && s[..|prefix|] == prefix
  }

  predicate EndsWith(s: string, suffix: string) {
    |suffix| <= |s| && s[|s| - |suffix|..] == suffix
  }

  /** Appending keeps a prefix. */
  lemma StartsWithAppend(a: string, b: string)
    ensures StartsWith(a + b, a)
  {
    assert (a + b)[..|a|] == a;
  }

  /** Prepending keeps a suffix. */
  lemma EndsWithPrepend(a: string, b: string, suffix: string)
    requires EndsWith(b, suffix)
    ensures EndsWith(a + b, suffix)
  {
    assert (a + b)[|a + b| - |suffix|..] == b[|b| - |suffix|..];
  }

  /** `s` starts with the lower-case `prefix`, ignoring ASCII case. */
  predicate StartsWithIgnoringCase(s: string, prefix: string) {
    |prefix| <= |s| && LowerAscii(s[..|prefix|]) == prefix
  }

  /** The length of the match of `/^https?:\/\//i` on `s`, or 0 when it does not match.
      The optional `s` is greedy, so `https://` wins over `http://`. */
  function SchemeLength(s: string): (n: nat)
    ensures n == 0 || n == 7 || n == 8
    ensures n <= |s|
    ensures n == 8 <==> StartsWithIgnoringCase(s, "https://")
    ensures n == 7 <==> StartsWithIgnoringCase(s, "http://")
  {
    SchemePrefixesExclusive(s);
    if StartsWithIgnoringCase(s, "https://") then 8
    else if StartsWithIgnoringCase(s, "http://") then 7
    else 0
  }

  /** No string starts with both `https://` and `http://`: they differ at index 4. */
  lemma SchemePrefixesExclusive(s: string)
    ensures !(StartsWithIgnoringCase(s, "https://") && StartsWithIgnoringCase(s, "http://"))
  {
    if StartsWithIgnoringCase(s, "https://") {
      assert AsciiLower(s[4]) == LowerAscii(s[..8])[4] == 's';
      assert LowerAscii(s[..7])[4] != ':';
    }
  }

  /** `/^https?:\/\//i.test(s)`. */
  predicate HasScheme(s: string) {
    SchemeLength(s) > 0
  }

  /** Anything written after a scheme prefix keeps it. */
  lemma SchemeSurvivesAppend(s: string, t: string)
    requires HasScheme(s)
    ensures SchemeLength(s + t) == SchemeLength(s)
  {
    var n := SchemeLength(s);
    assert (s + t)[..n] == s[..n];
  }

  /** A prefix that neither starts nor ends with whitespace keeps a trimmed string trimmed. */
  lemma PrefixKeepsTrimmed(p: string, t: string)
    requires |p| > 0 && !IsJsSpace(p[0]) && !IsJsSpace(p[|p| - 1])
    requires IsTrimmed(t)
    ensures IsTrimmed(p + t)
  {
    if |t| > 0 {
      assert (p + t)[|p + t| - 1] == t[|t| - 1];
    }
  }

  /** `"https://" + t` always carries the `https://` scheme. */
  lemma HttpsPrefixHasScheme(t: string)
    ensures SchemeLength("https://" + t) == 8
  {
    assert ("https://" + t)[..8] == "https://";
    assert LowerAscii("https://") == "https://";
  }
}
