/** Character classification and lower-casing, as the estimator consumes them.

    The estimator relies on the host's Unicode tables (`str.islower`, `str.isupper`,
    `str.isdigit`, `str.isalnum`, `str.lower`). Those tables are not modelled: they are a
    parameter of every operation. No relation between the four classes is assumed — a
    character may be alphanumeric without being lower, upper or digit (a Thai letter), and
    a character may even be "lower" without being alphanumeric (a circled letter).

    A Dafny `char` is a Unicode scalar value, so the lone surrogate code points a Python
    string can hold are outside the model.
 */
module Chars {

  /** The host's classification tables. `lowerOf` is the full lower-case mapping of one
      character, which may be longer than one character. */
  datatype CharTables = CharTables(
    isLower: char -> bool,
    isUpper: char -> bool,
    isDigit: char -> bool,
    isAlnum: char -> bool,
    lowerOf: char -> string)

  /** `s.lower()`: the per-character lower-case mappings, concatenated in order. */
  function Lower(t: CharTables, s: string): (r: string)
    ensures |s| == 0 ==> r == []
    ensures (forall c :: |t.lowerOf(c)| == 1) ==> |r| == |s|
  {
    if |s| == 0 then [] else Lower(t, s[..|s| - 1]) + t.lowerOf(s[|s| - 1])
  }

  /** Lower-casing distributes over concatenation. */
  lemma {:induction false} LowerAppend(t: CharTables, a: string, b: string)
    ensures Lower(t, a + b) == Lower(t, a) + Lower(t, b)
    decreases |b|
  {
    if |b| == 0 {
      assert a + b == a;
    } else {
      var b' := b[..|b| - 1];
      assert (a + b)[..|a + b| - 1] == a + b';
      assert (a + b)[|a + b| - 1] == b[|b| - 1];
      LowerAppend(t, a, b');
    }
  }

  predicate IsAscii(c: char) {
    c as int < 128
  }

  /** ASCII lower-casing of one character. */
  function AsciiToLower(c: char): (r: char)
    ensures IsAscii(c) ==> IsAscii(r)
    ensures 'A' <= c <= 'Z' ==> r as int == c as int + 32
    ensures !('A' <= c <= 'Z') ==> r == c
  {
    if 'A' <= c <= 'Z' then (c as int + 32) as char else c
  }

  /** The tables agree with the ASCII classification on the ASCII range; outside it they
      are unconstrained. */
  ghost predicate AsciiFaithful(t: CharTables) {
    && (forall c :: IsAscii(c) ==> (t.isLower(c) <==> 'a' <= c <= 'z'))
    && (forall c :: IsAscii(c) ==> (t.isUpper(c) <==> 'A' <= c <= 'Z'))
    && (forall c :: IsAscii(c) ==> (t.isDigit(c) <==> '0' <= c <= '9'))
    && (forall c :: IsAscii(c) ==>
          (t.isAlnum(c) <==> 'a' <= c <= 'z' || 'A' <= c <= 'Z' || '0' <= c <= '9'))
    && (forall c :: IsAscii(c) ==> t.lowerOf(c) == [AsciiToLower(c)])
  }

  /** Tables that follow ASCII and treat every other character as a symbol with itself as
      lower case; one concrete instance of the parameter. */
  const AsciiOnly: CharTables := CharTables(
    c => 'a' <= c <= 'z',
    c => 'A' <= c <= 'Z',
    c => '0' <= c <= '9',
    c => 'a' <= c <= 'z' || 'A' <= c <= 'Z' || '0' <= c <= '9',
    c => [AsciiToLower(c)])

  lemma AsciiOnlyIsFaithful()
    ensures AsciiFaithful(AsciiOnly)
  {
  }

  /** On an ASCII string, tables that follow ASCII lower-case character by character. */
  lemma {:induction false} LowerOfAscii(t: CharTables, s: string)
    requires AsciiFaithful(t)
    requires forall i :: 0 <= i < |s| ==> IsAscii(s[i])
    ensures |Lower(t, s)| == |s|
    ensures forall i :: 0 <= i < |s| ==> Lower(t, s)[i] == AsciiToLower(s[i])
    decreases |s|
  {
    if |s| > 0 {
      LowerOfAscii(t, s[..|s| - 1]);
      assert t.lowerOf(s[|s| - 1]) == [AsciiToLower(s[|s| - 1])];
    }
  }

  /** An ASCII string without upper-case letters is its own lower case. */
  lemma LowerOfUncasedAscii(t: CharTables, s: string)
    requires AsciiFaithful(t)
    requires forall i :: 0 <= i < |s| ==> IsAscii(s[i]) && !('A' <= s[i] <= 'Z')
    ensures Lower(t, s) == s
  {
    LowerOfAscii(t, s);
  }
}
