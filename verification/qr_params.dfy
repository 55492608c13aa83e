/** The QR-code link decoration: one playful query parameter appended to the short
    URL, with `&` or `?` as the separator. `Math.random` is a roll parameter. */
module QrParams {

  /** `FUNNY_PARAMS`, in the source's order. */
  const FunnyParams: seq<string> := [
    "shortened=aggressively",
    "length=uncomfortable",
    "original=regrettable",
    "cleanup=necessary",
    "regret=immediate",
    "damage=done",
    "expectations=lowered",
    "dignity=optional",
    "context=lost"
  ]

  predicate IsSeparator(c: char) {
    c == '?' || c == '&'
  }

  /** A single `key=value` pair that cannot open or split a query. */
  predicate IsQueryPair(p: string) {
    |p| > 0 && forall i :: 0 <= i < |p| ==> !IsSeparator(p[i]) && p[i] != '#'
  }

  /** Every funny parameter is one query pair. */
  lemma FunnyParamsArePairs(k: nat)
    requires k < |FunnyParams|
    ensures IsQueryPair(FunnyParams[k])
  {
    if k < 3 {
      FirstParamsArePairs(k);
    } else if k < 6 {
      MiddleParamsArePairs(k);
    } else {
      LastParamsArePairs(k);
    }
  }

  lemma FirstParamsArePairs(k: nat)
    requires k < 3
    ensures IsQueryPair(FunnyParams[k])
  {
  }

  lemma MiddleParamsArePairs(k: nat)
    requires 3 <= k < 6
    ensures IsQueryPair(FunnyParams[k])
  {
  }

  lemma LastParamsArePairs(k: nat)
    requires 6 <= k < 9
    ensures IsQueryPair(FunnyParams[k])
  {
  }

  /** `getFunnyQueryParam`: `?` followed by the entry the roll picks. */
  function GetFunnyQueryParam(roll: nat): (p: string)
    ensures |p| > 0 && p[0] == '?'
    ensures p[1..] in FunnyParams
  {
    "?" + FunnyParams[roll % |FunnyParams|]
  }

  /** The separator `addFunnyQueryParam` puts before the new pair. */
  function Separator(url: string): (c: char)
    ensures IsSeparator(c)
    ensures c == '&' <==> '?' in url
  {
    if '?' in url then '&' else '?'
  }

  /** `addFunnyQueryParam`: the URL, `&` when it already has a `?` and `?` otherwise,
      then one funny parameter without its leading `?`. */
  function AddFunnyQueryParam(url: string, roll: nat): (r: string)
    ensures |r| > |url| + 1 && r[..|url|] == url
    ensures r[|url|] == Separator(url)
    ensures r[|url| + 1..] in FunnyParams
    ensures '?' in r
  {
    var param := GetFunnyQueryParam(roll);
    var r := url + [Separator(url)] + param[1..];
    FunnyParamsArePairs(roll % |FunnyParams|);
    assert r[|url|] == Separator(url);
    assert r[|url| + 1..] == param[1..];
    QueryMarkKept(url, param[1..]);
    r
  }

  /** After the separator the URL has a `?`: its own, or the separator itself. */
  lemma QueryMarkKept(url: string, rest: string)
    ensures '?' in url + [Separator(url)] + rest
  {
    var r := url + [Separator(url)] + rest;
    if '?' in url {
      var k :| 0 <= k < |url| && url[k] == '?';
      assert r[k] == '?';
    } else {
      assert r[|url|] == '?';
    }
  }

  /** Where the last `?` or `&` of `s` is, if anywhere. */
  function LastSeparator(s: string): (k: int)
    ensures -1 <= k < |s|
    ensures k >= 0 ==> IsSeparator(s[k])
    ensures forall j :: k < j < |s| ==> !IsSeparator(s[j])
  {
    if |s| == 0 then -1
    else if IsSeparator(s[|s| - 1]) then |s| - 1
    else LastSeparator(s[..|s| - 1])
  }

  /** Removing everything from the last separator on. */
  function DropLastPair(s: string): (r: string)
    ensures |r| <= |s| && r == s[..|r|]
  {
    var k := LastSeparator(s);
    if k < 0 then s else s[..k]
  }

  /** The funny parameter is the URL's last query pair, so dropping that pair gives the
      URL back. */
  lemma DropFunnyParam(url: string, roll: nat)
    ensures DropLastPair(AddFunnyQueryParam(url, roll)) == url
  {
    var r := AddFunnyQueryParam(url, roll);
    var param := r[|url| + 1..];
    var n :| 0 <= n < |FunnyParams| && FunnyParams[n] == param;
    FunnyParamsArePairs(n);
    assert r == url + [Separator(url)] + param;
    LastSeparatorBeforePair(url, Separator(url), param);
  }

  /** A separator followed by one query pair is the last separator. */
  lemma LastSeparatorBeforePair(url: string, sep: char, param: string)
    requires IsSeparator(sep) && IsQueryPair(param)
    ensures LastSeparator(url + [sep] + param) == |url|
  {
    var r := url + [sep] + param;
    var k := LastSeparator(r);
    assert r[|url|] == sep;
    assert k >= |url|;
  }
}
