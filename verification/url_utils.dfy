/** The browser's URL helpers: splitting an input into protocol and domain, the
    missing-TLD check that places the input's error marker, and re-joining the two
    input fields. */
module UrlUtils {
  import opened Wrappers
  import opened Strings

  datatype ParsedUrl = ParsedUrl(protocol: string, domain: string, fullUrl: string)

  /** `parseUrl`: the scheme the trimmed input starts with (lower-cased), or `https://`
      for a protocol-relative or scheme-less input. */
  function ParseUrl(input: string): (p: ParsedUrl)
    ensures p.protocol == "http://" || p.protocol == "https://"
    ensures |p.protocol| <= |p.fullUrl|
    ensures LowerAscii(p.fullUrl[..|p.protocol|]) == p.protocol && p.fullUrl[|p.protocol|..] == p.domain
    ensures HasScheme(Trim(input)) <==> p.fullUrl == Trim(input)
    ensures var t := Trim(input);
            HasScheme(t) ==> p.domain == t[SchemeLength(t)..]
    ensures var t := Trim(input);
            !HasScheme(t) ==> p.protocol == "https://" && p.fullUrl == "https://" + p.domain
    ensures var t := Trim(input);
            !HasScheme(t) && StartsWith(t, "//") ==> p.domain == t[2..]
    ensures var t := Trim(input);
            !HasScheme(t) && !StartsWith(t, "//") ==> p.domain == t
  {
    var t := Trim(input);
    var n := SchemeLength(t);
    if n > 0 then
      ParsedUrl(LowerAscii(t[..n]), t[n..], t)
    else
      var domain := if StartsWith(t, "//") then t[2..] else t;
      HttpsPrefixLowered(domain);
      ParsedUrl("https://", domain, "https://" + domain)
  }

  /** `"https://" + d` splits back into `https://` and `d`. */
  lemma HttpsPrefixLowered(d: string)
    ensures ("https://" + d)[..8] == "https://" && ("https://" + d)[8..] == d
    ensures LowerAscii("https://") == "https://"
  {
  }

  /** `parseUrl` looks at its input only through `trim()`. */
  lemma ParseUrlSeesTrimmed(a: string, b: string)
    requires Trim(a) == Trim(b)
    ensures ParseUrl(a) == ParseUrl(b)
  {
  }

  /** A trimmed `https://` URL parses into `https://` and the rest. */
  lemma ParseHttpsUrl(d: string)
    requires IsTrimmed("https://" + d)
    ensures ParseUrl("https://" + d) == ParsedUrl("https://", d, "https://" + d)
  {
    HttpsPrefixHasScheme(d);
    HttpsPrefixLowered(d);
  }

  /** Parsing is a fixed point on the URL it builds: re-parsing `fullUrl` gives the same
      protocol, domain and full URL. */
  lemma ParseUrlFixedPoint(input: string)
    ensures ParseUrl(ParseUrl(input).fullUrl) == ParseUrl(input)
  {
    if HasScheme(Trim(input)) {
      SchemedFixedPoint(input);
    } else {
      UnschemedFixedPoint(input);
    }
  }

  lemma SchemedFixedPoint(input: string)
    requires HasScheme(Trim(input))
    ensures ParseUrl(ParseUrl(input).fullUrl) == ParseUrl(input)
  {
    var t := Trim(input);
    assert ParseUrl(input).fullUrl == t;
    assert Trim(t) == t;
    ParseUrlSeesTrimmed(t, input);
  }

  lemma UnschemedFixedPoint(input: string)
    requires !HasScheme(Trim(input))
    ensures ParseUrl(ParseUrl(input).fullUrl) == ParseUrl(input)
  {
    var t := Trim(input);
    var p := ParseUrl(input);
    var d := p.domain;
    if StartsWith(t, "//") {
      assert d == t[2..];
    }
    assert d == t[|t| - |d|..];
    HttpsPrefixTrimmed(t, d);
    ParseHttpsUrl(d);
    assert p == ParsedUrl("https://", d, "https://" + d);
  }

  /** `https://` before a suffix of a trimmed string leaves it trimmed. */
  lemma HttpsPrefixTrimmed(t: string, d: string)
    requires IsTrimmed(t) && |d| <= |t| && d == t[|t| - |d|..]
    ensures IsTrimmed("https://" + d)
  {
    var full := "https://" + d;
    if |d| > 0 {
      assert full[|full| - 1] == d[|d| - 1] == t[|t| - 1];
    }
  }

  /** `validateTld`'s error: the missing-TLD message and the column it points at. */
  datatype TldError = TldError(position: nat)

  const MissingTldMessage: string := "URL is missing the top-level domain (TLD) like .com, .net, .org"

  /** `s.replace(/^c+/, '')`. */
  function DropLeading(s: string, c: char): (r: string)
    ensures |r| <= |s| && r == s[|s| - |r|..]
    ensures |r| > 0 ==> r[0] != c
    ensures |s| > 0 && s[0] != c ==> r == s
    ensures forall i :: 0 <= i < |s| - |r| ==> s[i] == c
  {
    if |s| > 0 && s[0] == c then
      var r := DropLeading(s[1..], c);
      assert forall i :: 1 <= i < |s| - |r| ==> s[i] == s[1..][i - 1];
      r
    else s
  }

  /** `s.replace(/c+$/, '')`. */
  function DropTrailing(s: string, c: char): (r: string)
    ensures |r| <= |s| && r == s[..|r|]
    ensures |r| > 0 ==> r[|r| - 1] != c
    ensures |s| > 0 && s[|s| - 1] != c ==> r == s
    ensures forall i :: |r| <= i < |s| ==> s[i] == c
  {
    if |s| > 0 && s[|s| - 1] == c then DropTrailing(s[..|s| - 1], c) else s
  }

  predicate IsHostStop(c: char) {
    c == '/' || c == '?' || c == '#'
  }

  /** The longest prefix of `s` holding no `/`, `?` or `#`. */
  function HostPrefix(s: string): (r: string)
    ensures |r| <= |s| && r == s[..|r|]
    ensures forall i :: 0 <= i < |r| ==> !IsHostStop(r[i])
    ensures |r| < |s| ==> IsHostStop(s[|r|])
  {
    if |s| == 0 || IsHostStop(s[0]) then "" else [s[0]] + HostPrefix(s[1..])
  }

  /** `s.split(c)[0]`: everything before the first `c`. */
  function BeforeFirst(s: string, c: char): (r: string)
    ensures |r| <= |s| && r == s[..|r|]
    ensures c !in r
    ensures |r| < |s| ==> s[|r|] == c
  {
    if |s| == 0 || s[0] == c then "" else [s[0]] + BeforeFirst(s[1..], c)
  }

  /** The last element of `s.split(c)`: everything after the last `c`. */
  function AfterLast(s: string, c: char): (r: string)
    ensures |r| <= |s| && r == s[|s| - |r|..]
    ensures c !in r
    ensures |r| < |s| ==> s[|s| - |r| - 1] == c
  {
    if |s| == 0 || s[|s| - 1] == c then "" else AfterLast(s[..|s| - 1], c) + [s[|s| - 1]]
  }

  /** The hostname `validateTld` examines: the trimmed domain without leading and
      trailing slashes, up to the first `/`, `?` or `#`; `None` where the source
      returns `null` before looking at it. */
  function Hostname(domain: string): (h: Option<string>)
    ensures h.Some? ==> h.value != "" && forall i :: 0 <= i < |h.value| ==> !IsHostStop(h.value[i])
    ensures Trim(domain) == "" ==> h.None?
    ensures var clean := DropTrailing(DropLeading(Trim(domain), '/'), '/');
            h.None? <==> clean == "" || IsHostStop(clean[0])
    ensures var clean := DropTrailing(DropLeading(Trim(domain), '/'), '/');
            h.Some? ==> StartsWith(clean, h.value) &&
                        (|h.value| < |clean| ==> IsHostStop(clean[|h.value|]))
  {
    var t := Trim(domain);
    if t == "" then None
    else
      var clean := DropTrailing(DropLeading(t, '/'), '/');
      var host := HostPrefix(clean);
      if host == "" then None else Some(host)
  }

  predicate IsAsciiDigit(c: char) {
    '0' <= c <= '9'
  }

  function DotCount(s: string): nat {
    if |s| == 0 then 0 else DotCount(s[..|s| - 1]) + (if s[|s| - 1] == '.' then 1 else 0)
  }

  /** `/^(\d+\.){3}\d+$/`: four non-empty runs of ASCII digits joined by three dots. */
  predicate IsDottedQuad(h: string) {
    && |h| > 0 && IsAsciiDigit(h[0]) && IsAsciiDigit(h[|h| - 1])
    && (forall i :: 0 <= i < |h| ==> IsAsciiDigit(h[i]) || h[i] == '.')
    && (forall i :: 0 <= i < |h| - 1 ==> h[i] == '.' ==> h[i + 1] != '.')
    && DotCount(h) == 3
  }

  predicate IsLineTerminator(c: char) {
    c == '\n' || c == '\r' || c == '\U{2028}' || c == '\U{2029}'
  }

  /** `/^\[.+\]$/`: a bracketed literal such as `[::1]`. */
  predicate IsBracketed(h: string) {
    && |h| >= 3 && h[0] == '[' && h[|h| - 1] == ']'
    && forall i :: 1 <= i < |h| - 1 ==> !IsLineTerminator(h[i])
  }

  /** `hostname.toLowerCase() === 'localhost' || hostname.startsWith('localhost:')`.
      Only ASCII letters lower-case to the letters of `localhost`, so the ASCII mapping
      decides the comparison exactly. */
  predicate IsLocalhost(h: string) {
    LowerAscii(h) == "localhost" || StartsWith(h, "localhost:")
  }

  /** A character of `[a-z0-9-]` under `/i`. */
  predicate IsTldChar(c: char) {
    IsAsciiDigit(c) || c == '-' || 'a' <= AsciiLower(c) <= 'z'
  }

  /** `/^[a-z0-9-]+$/i`. */
  predicate IsTldString(s: string) {
    |s| > 0 && forall i :: 0 <= i < |s| ==> IsTldChar(s[i])
  }

  /** The dot and TLD checks on a hostname that is neither an address nor `localhost`:
      no dot is an error at the end of the hostname; a last label whose part before any
      `:port` is shorter than two characters or not alphanumeric is an error at the
      start of that name. */
  function TldCheck(h: string): (r: Option<TldError>)
    ensures '.' !in h ==> r == Some(TldError(|h|))
    ensures '.' in h ==>
              var last := AfterLast(h, '.');
              var tld := BeforeFirst(last, ':');
              (r.Some? <==> |tld| < 2 || !IsTldString(tld)) &&
              (r.Some? ==> r.value.position == |h| - |last|)
    ensures r.Some? ==> r.value.position <= |h|
  {
    if '.' !in h then Some(TldError(|h|))
    else
      var last := AfterLast(h, '.');
      var tld := BeforeFirst(last, ':');
      if |tld| < 2 || !IsTldString(tld) then Some(TldError(|h| - |last|)) else None
  }

  /** `validateTld` as written: addresses and `localhost` are exempt, everything else
      goes through the dot and TLD checks. */
  function ValidateTldAsWritten(domain: string): (r: Option<TldError>)
    ensures r.Some? ==> Hostname(domain).Some? && r.value.position <= |Hostname(domain).value|
    ensures r.Some? ==> var h := Hostname(domain).value;
              !IsDottedQuad(h) && !IsBracketed(h) && !IsLocalhost(h) && r == TldCheck(h)
    ensures Hostname(domain).None? ==> r.None?
    ensures Hostname(domain).Some? ==> var h := Hostname(domain).value;
              !IsDottedQuad(h) && !IsBracketed(h) && !IsLocalhost(h) ==> r == TldCheck(h)
  {
    match Hostname(domain)
    case None => None
    case Some(h) =>
      if IsDottedQuad(h) || IsBracketed(h) || IsLocalhost(h) then None else TldCheck(h)
  }

  /** `validateTld` with the address exemption also applied to the hostname without its
      `:port`, as it is for `localhost:` and for the TLD itself. */
  function ValidateTld(domain: string): (r: Option<TldError>)
    ensures Trim(domain) == "" ==> r.None?
    ensures r.Some? ==> Hostname(domain).Some? && r.value.position <= |Hostname(domain).value|
    ensures r.Some? ==> var h := Hostname(domain).value;
              !IsDottedQuad(BeforeFirst(h, ':')) && !IsBracketed(h) && !IsLocalhost(h) && r == TldCheck(h)
    ensures Hostname(domain).Some? && IsDottedQuad(BeforeFirst(Hostname(domain).value, ':')) ==> r.None?
    ensures r.Some? ==> r == ValidateTldAsWritten(domain)
    ensures Hostname(domain).None? ==> r.None?
    ensures Hostname(domain).Some? ==> var h := Hostname(domain).value;
              !IsDottedQuad(BeforeFirst(h, ':')) && !IsBracketed(h) && !IsLocalhost(h) ==> r == TldCheck(h)
  {
    match Hostname(domain)
    case None => None
    case Some(h) =>
      if IsDottedQuad(BeforeFirst(h, ':')) || IsBracketed(h) || IsLocalhost(h) then None
      else
        QuadIsUncut(h);
        TldCheck(h)
  }

  /** Cutting a dotted quad at its first `:` leaves it whole: it has none. */
  lemma QuadIsUncut(h: string)
    ensures IsDottedQuad(h) ==> BeforeFirst(h, ':') == h
  {
    if IsDottedQuad(h) {
      QuadHasNoColon(h);
      BeforeAbsent(h, ':');
    }
  }

  /** A domain without any of the characters the hostname extraction strips or stops
      at is its own hostname. */
  lemma PlainHostname(d: string)
    requires |d| > 0 && !IsJsSpace(d[0]) && !IsJsSpace(d[|d| - 1])
    requires forall i :: 0 <= i < |d| ==> !IsHostStop(d[i])
    ensures Hostname(d) == Some(d)
  {
    assert IsTrimmed(d);
    var t := Trim(d);
    assert t == d;
    assert !IsHostStop(d[0]) && !IsHostStop(d[|d| - 1]);
    var lead := DropLeading(t, '/');
    assert lead == d;
    var clean := DropTrailing(lead, '/');
    assert clean == d;
    WholeHostPrefix(d);
  }

  /** A string without `/`, `?` or `#` is its own host prefix. */
  lemma WholeHostPrefix(s: string)
    requires forall i :: 0 <= i < |s| ==> !IsHostStop(s[i])
    ensures HostPrefix(s) == s
  {
  }

  /** No TLD character is whitespace, a separator the hostname checks look for, or a
      bracket. */
  lemma TldCharIsPlain(c: char)
    requires IsTldChar(c)
    ensures !IsJsSpace(c) && !IsHostStop(c) && c != '.' && c != ':' && c != '['
  {
  }

  /** A string of TLD characters holds none of the characters `TldCharIsPlain` names. */
  lemma TldStringIsPlain(s: string)
    requires IsTldString(s)
    ensures forall i :: 0 <= i < |s| ==> !IsJsSpace(s[i]) && !IsHostStop(s[i]) && s[i] != '.' && s[i] != ':' && s[i] != '['
  {
    forall i | 0 <= i < |s|
      ensures !IsJsSpace(s[i]) && !IsHostStop(s[i]) && s[i] != '.' && s[i] != ':' && s[i] != '['
    {
      TldCharIsPlain(s[i]);
    }
  }

  /** A string without dots has no dots to count. */
  lemma {:induction false} NoDotsCount(s: string)
    requires '.' !in s
    ensures DotCount(s) == 0
  {
    if |s| > 0 {
      assert s[|s| - 1] != '.';
      NoDotsCount(s[..|s| - 1]);
    }
  }

  /** `s` up to its first `c` is all of `s` when there is none. */
  lemma BeforeAbsent(s: string, c: char)
    requires c !in s
    ensures BeforeFirst(s, c) == s
  {
  }

  /** A single label, not `localhost`, is missing its TLD, and the error points at its
      end: where the TLD is to be typed. */
  lemma SingleLabelMissesTld(name: string)
    requires IsTldString(name) && !IsLocalhost(name)
    ensures ValidateTld(name) == Some(TldError(|name|))
  {
    LabelIsNotExempt(name);
    assert ValidateTld(name) == TldCheck(name);
  }

  /** A single label is its own hostname and neither an address nor bracketed. */
  lemma LabelIsNotExempt(name: string)
    requires IsTldString(name)
    ensures Hostname(name) == Some(name) && '.' !in name
    ensures !IsDottedQuad(BeforeFirst(name, ':')) && !IsBracketed(name)
  {
    TldStringIsPlain(name);
    PlainHostname(name);
    BeforeAbsent(name, ':');
    NoDotsCount(name);
  }

  /** A label followed by `.com` passes the TLD check. */
  lemma DotComHasTld(name: string)
    requires IsTldString(name)
    ensures ValidateTld(name + ".com") == None
  {
    var d := name + ".com";
    DotComIsPlain(name);
    PlainHostname(d);
    BeforeAbsent(d, ':');
    DotComIsNotLocalhost(name);
    assert !IsDottedQuad(d) by {
      assert d[|d| - 1] == 'm';
    }
    assert !IsBracketed(d) by {
      assert d[0] == name[0];
    }
    DotComTld(name);
  }

  /** `name.com` is trimmed and holds no separator character. */
  lemma DotComIsPlain(name: string)
    requires IsTldString(name)
    ensures var d := name + ".com";
            !IsJsSpace(d[0]) && !IsJsSpace(d[|d| - 1]) &&
            (forall i :: 0 <= i < |d| ==> !IsHostStop(d[i])) && ':' !in d && d[0] != '['
  {
    TldStringIsPlain(name);
    var d := name + ".com";
    assert d[0] == name[0] && d[|d| - 1] == 'm';
    forall i | 0 <= i < |d| ensures !IsHostStop(d[i]) && d[i] != ':' {
      if i < |name| {
        assert d[i] == name[i];
      }
    }
  }

  /** `name.com` is neither `localhost` nor `localhost:…`: it has a dot and no colon. */
  lemma DotComIsNotLocalhost(name: string)
    requires IsTldString(name)
    ensures !IsLocalhost(name + ".com")
  {
    DotComIsPlain(name);
    var d := name + ".com";
    assert d[|name|] == '.';
    if |d| == 9 {
      assert LowerAscii(d)[5] == AsciiLower(d[5]) == '.';
    }
    if |d| >= 10 {
      assert d[..10][9] == d[9] != ':';
    }
  }

  /** The last label of `name.com` is `com`, which is a valid TLD. */
  lemma DotComTld(name: string)
    ensures TldCheck(name + ".com") == None
  {
    var d := name + ".com";
    assert d[|d| - 4] == '.' && d[|d| - 3..] == "com";
    var last := AfterLast(d, '.');
    assert last == "com";
    BeforeAbsent("com", ':');
    assert IsTldString("com") by {
      assert IsTldChar('c') && IsTldChar('o') && IsTldChar('m');
    }
  }

  /** Where the error points is where the TLD goes: a single label gets the error at
      its end, and typing `.com` there clears it. */
  lemma AppendingTldClearsError(name: string)
    requires IsTldString(name) && !IsLocalhost(name)
    ensures ValidateTld(name) == Some(TldError(|name|))
    ensures ValidateTld(name + ".com") == None
  {
    SingleLabelMissesTld(name);
    DotComHasTld(name);
  }

  /** `s` up to its first `c` is the part before a `c` placed after a `c`-free prefix. */
  lemma BeforeSeparator(q: string, c: char, rest: string)
    requires c !in q
    ensures BeforeFirst(q + [c] + rest, c) == q
  {
    var s := q + [c] + rest;
    var r := BeforeFirst(s, c);
    assert s[|q|] == c;
  }

  /** An IPv4 address with a port is exempt from the TLD check once the exemption
      looks at the address without its port. */
  lemma IpWithPortAccepted(q: string, port: string)
    requires IsDottedQuad(q)
    requires forall i :: 0 <= i < |port| ==> IsAsciiDigit(port[i])
    ensures ValidateTld(q + ":" + port) == None
  {
    PortedAddressParts(q, port);
  }

  /** An address, a colon and a port of digits is its own hostname, and the part before
      its first colon is the address. */
  lemma PortedAddressParts(q: string, port: string)
    requires IsDottedQuad(q)
    requires forall i :: 0 <= i < |port| ==> IsAsciiDigit(port[i])
    ensures Hostname(q + ":" + port) == Some(q + ":" + port)
    ensures BeforeFirst(q + ":" + port, ':') == q
  {
    PortedAddressIsPlain(q, port);
    PlainHostname(q + ":" + port);
    QuadHasNoColon(q);
    BeforeSeparator(q, ':', port);
  }

  /** A dotted quad is made of digits and dots only. */
  lemma QuadHasNoColon(q: string)
    requires IsDottedQuad(q)
    ensures ':' !in q
  {
    forall i | 0 <= i < |q| ensures q[i] != ':' {
      assert IsAsciiDigit(q[i]) || q[i] == '.';
    }
  }

  /** An address, a colon and a port of digits starts and ends without whitespace and
      holds no `/`, `?` or `#`. */
  lemma PortedAddressIsPlain(q: string, port: string)
    requires IsDottedQuad(q)
    requires forall i :: 0 <= i < |port| ==> IsAsciiDigit(port[i])
    ensures var d := q + ":" + port;
            |d| > 0 && !IsJsSpace(d[0]) && !IsJsSpace(d[|d| - 1]) &&
            forall i :: 0 <= i < |d| ==> !IsHostStop(d[i])
  {
    var d := q + ":" + port;
    assert d[0] == q[0];
    assert IsAsciiDigit(d[|d| - 1]) || d[|d| - 1] == ':';
    forall i | 0 <= i < |d| ensures !IsHostStop(d[i]) {
      if i < |q| {
        assert d[i] == q[i];
      } else if i > |q| {
        assert d[i] == port[i - |q| - 1];
      }
    }
  }

  /** Dots are counted piecewise. */
  lemma {:induction false} DotCountAppend(a: string, b: string)
    ensures DotCount(a + b) == DotCount(a) + DotCount(b)
    decreases |b|
  {
    if |b| > 0 {
      assert (a + b)[..|a + b| - 1] == a + b[..|b| - 1];
      DotCountAppend(a, b[..|b| - 1]);
    } else {
      assert a + b == a;
    }
  }

  /** `192.168.1.1` is a dotted quad. */
  lemma SampleAddressIsDottedQuad(q: string)
    requires q == "192.168.1.1"
    ensures IsDottedQuad(q)
  {
    SampleAddressDots(q);
  }

  /** `192.168.1.1` holds three dots. */
  lemma SampleAddressDots(q: string)
    requires q == "192.168.1.1"
    ensures DotCount(q) == 3
  {
    NoDotsCount("192");
    NoDotsCount("168");
    NoDotsCount("1");
    assert DotCount(".") == 1 by {
      assert "."[..0] == "";
    }
    assert "192" + "." == "192." && "192." + "168" == "192.168" && "192.168" + "." == "192.168.";
    assert "192.168." + "1" == "192.168.1" && "192.168.1" + "." == "192.168.1." && "192.168.1." + "1" == "192.168.1.1";
    DotCountAppend("192", ".");
    DotCountAppend("192.", "168");
    DotCountAppend("192.168", ".");
    DotCountAppend("192.168.", "1");
    DotCountAppend("192.168.1", ".");
    DotCountAppend("192.168.1.", "1");
  }

  /** As written, `192.168.1.1:8080` fails the TLD check: the address test sees the
      port and does not match, and the TLD test reads `1` as a one-character TLD. The
      error points just after the last dot. */
  lemma IpWithPortRejected(h: string)
    requires h == "192.168.1.1:8080"
    ensures ValidateTldAsWritten(h) == Some(TldError(10))
  {
    SampleHostname();
    SampleIsNotExempt(h);
    assert ValidateTldAsWritten(h) == TldCheck(h);
    SampleLastLabel();
  }

  /** `192.168.1.1:8080` is neither a dotted quad, nor bracketed, nor `localhost`. */
  lemma SampleIsNotExempt(h: string)
    requires h == "192.168.1.1:8080"
    ensures !IsDottedQuad(h) && !IsBracketed(h) && !IsLocalhost(h)
  {
    assert h[11] == ':' && h[0] == '1';
    assert |LowerAscii(h)| == 16;
  }

  /** `192.168.1.1:8080` is its own hostname. */
  lemma SampleHostname()
    ensures Hostname("192.168.1.1:8080") == Some("192.168.1.1:8080")
  {
    var h := "192.168.1.1:8080";
    forall i | 0 <= i < |h| ensures !IsHostStop(h[i]) {
    }
    PlainHostname(h);
  }

  /** The last label of `192.168.1.1:8080` is `1:8080`, and its part before the port is
      one character long. */
  lemma SampleLastLabel()
    ensures var h := "192.168.1.1:8080";
            '.' in h && AfterLast(h, '.') == "1:8080" && BeforeFirst("1:8080", ':') == "1"
  {
    var h := "192.168.1.1:8080";
    assert h[9] == '.' && h[10..] == "1:8080";
    assert '.' !in "1:8080";
    BeforeSeparator("1", ':', "8080");
    assert "1" + [':'] + "8080" == "1:8080";
  }

  /** With the exemption applied to the address without its port, the same input is
      accepted. */
  lemma IpWithPortFixed(h: string)
    requires h == "192.168.1.1:8080"
    ensures ValidateTld(h) == None
  {
    SampleSplits(h);
    SampleAddressIsDottedQuad(h[..11]);
    IpWithPortAccepted(h[..11], h[12..]);
  }

  /** `192.168.1.1:8080` is the address, a colon, and a port of digits. */
  lemma SampleSplits(h: string)
    requires h == "192.168.1.1:8080"
    ensures h[..11] == "192.168.1.1" && h[..11] + ":" + h[12..] == h
    ensures forall i :: 0 <= i < |h[12..]| ==> IsAsciiDigit(h[12..][i])
  {
  }

  /** `normalizeUrl(protocol, domain)`: the trimmed protocol field followed by the
      trimmed domain field, with at most one leading `http://` or `https://` (any
      letter case) dropped from the latter. */
  function JoinUrl(protocol: string, domain: string): (r: string)
    ensures var d := Trim(domain);
            StartsWithIgnoringCase(d, "https://") ==> r == Trim(protocol) + d[8..]
    ensures var d := Trim(domain);
            StartsWithIgnoringCase(d, "http://") ==> r == Trim(protocol) + d[7..]
    ensures var d := Trim(domain);
            !HasScheme(d) ==> r == Trim(protocol) + d
    ensures StartsWith(r, Trim(protocol))
  {
    var d := Trim(domain);
    Trim(protocol) + d[SchemeLength(d)..]
  }

  /** A domain typed without a scheme is kept as it is. */
  lemma BareDomainKept(protocol: string, d: string)
    requires IsTrimmed(d) && !HasScheme(d)
    ensures JoinUrl(protocol, d) == Trim(protocol) + d
  {
  }

  /** `scheme` spells `http://` or `https://` in some mix of letter cases. */
  predicate IsSchemeSpelling(scheme: string) {
    || (|scheme| == 8 && LowerAscii(scheme) == "https://")
    || (|scheme| == 7 && LowerAscii(scheme) == "http://")
  }

  /** A scheme typed into the domain field is dropped, whichever of the two it is and
      in whatever letter case; only that one scheme is dropped. */
  lemma SchemeInDomainIsDropped(protocol: string, scheme: string, d: string)
    requires IsSchemeSpelling(scheme) && IsTrimmed(d)
    ensures JoinUrl(protocol, scheme + d) == Trim(protocol) + d
  {
    var s := scheme + d;
    SchemeSpellingIsTrimmed(scheme);
    PrefixKeepsTrimmed(scheme, d);
    assert s[..|scheme|] == scheme && s[|scheme|..] == d;
  }

  /** A scheme spelling begins with `h` or `H` and ends with `/`, so it is no whitespace
      at either end. */
  lemma SchemeSpellingIsTrimmed(scheme: string)
    requires IsSchemeSpelling(scheme)
    ensures |scheme| > 0 && !IsJsSpace(scheme[0]) && !IsJsSpace(scheme[|scheme| - 1])
  {
    var n := |scheme|;
    assert AsciiLower(scheme[0]) == LowerAscii(scheme)[0] == 'h';
    assert AsciiLower(scheme[n - 1]) == LowerAscii(scheme)[n - 1] == '/';
  }
}
