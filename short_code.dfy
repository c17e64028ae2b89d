/**
 * Generation of random short codes (`generateShortCode` in lib/storage.ts).
 * `Math.random()` is modelled by the draws it returns: each attempt is six
 * reals in [0, 1), one per character, and the retry on collision moves on to
 * the next attempt.
 */
module ShortCode {

  // The alphabet of lib/storage.ts, written as its three runs.
  const Lower: string := "abcdefghijklmnopqrstuvwxyz"
  const Upper: string := "ABCDEFGHIJKLMNOPQRSTUVWXYZ"
  const Digits: string := "0123456789"
  const Chars: string := Lower + Upper + Digits
  const CodeLength: nat := 6

  predicate IsAlphanumeric(c: char)
  {
    'a' <= c <= 'z' || 'A' <= c <= 'Z' || '0' <= c <= '9'
  }

  predicate AllAlphanumeric(s: string)
  {
    forall i :: 0 <= i < |s| ==> IsAlphanumeric(s[i])
  }

  /** A code the generator can produce: six characters of [a-zA-Z0-9]. */
  predicate IsShortCode(s: string)
  {
    |s| == CodeLength && AllAlphanumeric(s)
  }

  lemma LowerAlphanumeric() ensures AllAlphanumeric(Lower)
  {
    forall i | 0 <= i < |Lower| ensures IsAlphanumeric(Lower[i]) { assert Lower[i] in Lower; }
  }

  lemma UpperAlphanumeric() ensures AllAlphanumeric(Upper)
  {
    forall i | 0 <= i < |Upper| ensures IsAlphanumeric(Upper[i]) { assert Upper[i] in Upper; }
  }

  lemma DigitsAlphanumeric() ensures AllAlphanumeric(Digits)
  {
    forall i | 0 <= i < |Digits| ensures IsAlphanumeric(Digits[i]) { assert Digits[i] in Digits; }
  }

  /** The generator's alphabet has 62 characters, all of [a-zA-Z0-9]. */
  lemma CharsAreAlphanumeric()
    ensures |Chars| == 62 && AllAlphanumeric(Chars)
  {
    LowerAlphanumeric();
    UpperAlphanumeric();
    DigitsAlphanumeric();
    ConcatAlphanumeric(Lower, Upper);
    ConcatAlphanumeric(Lower + Upper, Digits);
  }

  lemma ConcatAlphanumeric(a: string, b: string)
    requires AllAlphanumeric(a) && AllAlphanumeric(b)
    ensures AllAlphanumeric(a + b)
  {
  }

  /** A value `Math.random()` can return. */
  predicate IsDraw(x: real)
  {
    0.0 <= x < 1.0
  }

  /** `Math.floor(Math.random() * chars.length)`: always a valid index into the alphabet. */
  function CharIndex(x: real): (i: nat)
    requires IsDraw(x)
    ensures i < |Chars|
    ensures i as real <= x * 62.0 < i as real + 1.0
  {
    (x * 62.0).Floor
  }

  /** One attempt: the six draws of the `for` loop. */
  predicate IsAttempt(draws: seq<real>)
  {
    |draws| == CodeLength && forall j :: 0 <= j < |draws| ==> IsDraw(draws[j])
  }

  /** The random source: every attempt it supplies is well formed. */
  predicate RandomSource(attempts: seq<seq<real>>)
  {
    forall k :: 0 <= k < |attempts| ==> IsAttempt(attempts[k])
  }

  /** The string the draws spell, one alphabet character per draw, left to right. */
  function CodeOf(draws: seq<real>): (s: string)
    requires forall j :: 0 <= j < |draws| ==> IsDraw(draws[j])
    ensures |s| == |draws|
    ensures forall j :: 0 <= j < |s| ==> s[j] == Chars[CharIndex(draws[j])]
  {
    if draws == [] then "" else CodeOf(draws[..|draws| - 1]) + [Chars[CharIndex(draws[|draws| - 1])]]
  }

  lemma CodeOfIsShortCode(draws: seq<real>)
    requires IsAttempt(draws)
    ensures IsShortCode(CodeOf(draws))
  {
    CharsAreAlphanumeric();
  }

  /** The builder loop of `generateShortCode`: appends one character per draw. */
  method BuildCode(draws: seq<real>) returns (result: string)
    requires IsAttempt(draws)
    ensures result == CodeOf(draws)
  {
    result := "";
    for i := 0 to CodeLength
      invariant result == CodeOf(draws[..i])
    {
      assert draws[..i + 1][..i] == draws[..i];
      result := result + [Chars[CharIndex(draws[i])]];
    }
    assert draws[..CodeLength] == draws;
  }

  /** Some attempt of the random source spells a code that is not taken. */
  predicate HasFree(taken: set<string>, attempts: seq<seq<real>>)
    requires RandomSource(attempts)
  {
    |attempts| > 0 && (CodeOf(attempts[0]) !in taken || HasFree(taken, attempts[1..]))
  }

  /** The code the retrying generator returns: the first attempt whose code is not taken. */
  function FirstFree(taken: set<string>, attempts: seq<seq<real>>): (code: string)
    requires RandomSource(attempts) && HasFree(taken, attempts)
    ensures IsShortCode(code)
    ensures code !in taken
  {
    CodeOfIsShortCode(attempts[0]);
    if CodeOf(attempts[0]) !in taken then CodeOf(attempts[0]) else FirstFree(taken, attempts[1..])
  }

  /** Every attempt before `k` collides and attempt `k` does not: the generator returns attempt `k`. */
  lemma {:induction false} FirstFreeIsFirstUnused(taken: set<string>, attempts: seq<seq<real>>, k: nat)
    requires RandomSource(attempts) && k < |attempts|
    requires forall j :: 0 <= j < k ==> CodeOf(attempts[j]) in taken
    requires CodeOf(attempts[k]) !in taken
    ensures HasFree(taken, attempts)
    ensures FirstFree(taken, attempts) == CodeOf(attempts[k])
  {
    if k > 0 {
      FirstFreeIsFirstUnused(taken, attempts[1..], k - 1);
    }
  }
}
