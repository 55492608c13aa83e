/** The short-code generator shared, character for character, by the redirect worker,
    the Pages `shorten` function and the browser: each random byte picks one character
    of a fixed 64-character URL-safe alphabet. The random bytes are a parameter. */
module ShortCode {

  /** One element of the `Uint8Array` filled by `crypto.getRandomValues`. */
  newtype byte = x: int | 0 <= x < 256

  /** `chars`: the 64 URL-safe characters, in the source's order. */
  const Alphabet: string :=
    "ABCDEFGHIJKLMNOPQRSTUVWXYZ" + "abcdefghijklmnopqrstuvwxyz" + "0123456789" + "-_"

  /** The default `length` argument of `generateShortCode`. */
  const DefaultLength: nat := 8

  /** The random bytes drawn for one default-length code. */
  type Bytes8 = b: seq<byte> | |b| == DefaultLength witness [0, 0, 0, 0, 0, 0, 0, 0]

  /** The character class `[A-Za-z0-9_-]`. */
  predicate IsCodeChar(c: char) {
    ('A' <= c <= 'Z') || ('a' <= c <= 'z') || ('0' <= c <= '9') || c == '_' || c == '-'
  }

  predicate IsCodeString(s: string) {
    forall i :: 0 <= i < |s| ==> IsCodeChar(s[i])
  }

  /** `/^[A-Za-z0-9_-]+$/.test(s)`: the redirect route guard. */
  predicate MatchesCodePattern(s: string) {
    |s| > 0 && IsCodeString(s)
  }

  /** The alphabet's four runs, written as ranges so that a symbolic index into them
      can be reasoned about. */
  const UpperRun: string := seq(26, i requires 0 <= i < 26 => ('A' as int + i) as char)
  const LowerRun: string := seq(26, i requires 0 <= i < 26 => ('a' as int + i) as char)
  const DigitRun: string := seq(10, i requires 0 <= i < 10 => ('0' as int + i) as char)

  lemma UpperRunLiteral() ensures UpperRun == "ABCDEFGHIJKLMNOPQRSTUVWXYZ" {}
  lemma LowerRunLiteral() ensures LowerRun == "abcdefghijklmnopqrstuvwxyz" {}
  lemma DigitRunLiteral() ensures DigitRun == "0123456789" {}

  lemma AlphabetRuns()
    ensures Alphabet == UpperRun + LowerRun + DigitRun + "-_"
  {
    UpperRunLiteral();
    LowerRunLiteral();
    DigitRunLiteral();
  }

  /** Every alphabet entry is in the route guard's character class. */
  lemma AlphabetEntryIsCodeChar(k: int)
    requires 0 <= k < |Alphabet|
    ensures IsCodeChar(Alphabet[k])
  {
    AlphabetRuns();
  }

  /** The inverse of the alphabet lookup on the route guard's character class. */
  function AlphabetIndex(c: char): (k: nat)
    requires IsCodeChar(c)
    ensures k < |Alphabet| && Alphabet[k] == c
  {
    AlphabetRuns();
    if 'A' <= c <= 'Z' then c as int - 'A' as int
    else if 'a' <= c <= 'z' then 26 + c as int - 'a' as int
    else if '0' <= c <= '9' then 52 + c as int - '0' as int
    else if c == '-' then 62
    else 63
  }

  /** `generateShortCode(bytes.length)` when `crypto.getRandomValues` yields `bytes`:
      character `i` is `Alphabet[bytes[i] % 64]`. */
  function Generate(bytes: seq<byte>): (code: string)
    ensures |code| == |bytes|
    ensures IsCodeString(code)
  {
    assert forall k :: 0 <= k < |Alphabet| ==> IsCodeChar(Alphabet[k]) by {
      forall k | 0 <= k < |Alphabet| ensures IsCodeChar(Alphabet[k]) {
        AlphabetEntryIsCodeChar(k);
      }
    }
    seq(|bytes|, i requires 0 <= i < |bytes| => Alphabet[bytes[i] as int % |Alphabet|])
  }

  /** The generator's loop, character by character, as the browser copy writes it. */
  method GenerateShortCode(bytes: seq<byte>) returns (code: string)
    ensures |code| == |bytes|
    ensures forall i :: 0 <= i < |bytes| ==> code[i] == Alphabet[bytes[i] as int % 64]
    ensures code == Generate(bytes)
  {
    code := "";
    var i := 0;
    while i < |bytes|
      invariant 0 <= i <= |bytes|
      invariant |code| == i
      invariant forall j :: 0 <= j < i ==> code[j] == Alphabet[bytes[j] as int % 64]
    {
      code := code + [Alphabet[bytes[i] as int % |Alphabet|]];
      i := i + 1;
    }
  }

  /** Every string over the alphabet is some draw's code: the generator can produce
      every code of the route guard's character class, and nothing else. */
  lemma {:induction false} EveryCodeIsGenerated(s: string)
    requires IsCodeString(s)
    ensures exists bytes :: |bytes| == |s| && Generate(bytes) == s
  {
    var bytes := seq(|s|, i requires 0 <= i < |s| => AlphabetIndex(s[i]) as byte);
    forall i | 0 <= i < |s|
      ensures Generate(bytes)[i] == s[i]
    {
      assert bytes[i] as int % |Alphabet| == AlphabetIndex(s[i]);
    }
    assert Generate(bytes) == s;
  }
}
