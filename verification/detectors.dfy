/** The five heuristic detectors of the estimator. Each is a pure predicate of the
    password; all five are evaluated, none short-circuits another. */
module Detectors {
  import opened Chars

  /** `COMMON_PASSWORDS`: compared against the lower-cased password. */
  const CommonPasswords: set<string> := {
    "123456", "password", "qwerty", "12345678", "111111", "abc123",
    "123123", "admin", "letmein", "welcome", "iloveyou", "000000"
  }

  /** The fragments `_looks_like_keyboard_pattern` searches for, in the order `_looks_like_keyboard_pattern` lists them. */
  const KeyboardPatterns: seq<string> := ["qwerty", "asdf", "zxcv", "12345", "123456", "password"]

  /** Minimum length below which a password is too short. */
  const MinLength: nat := 8

  /** `p` occurs in `s` starting at position `i`. */
  predicate OccursAt(p: string, s: string, i: int) {
    0 <= i && i + |p| <= |s| && s[i..i + |p|] == p
  }

  /** `p in s` on strings: `p` occurs as a contiguous block of `s`. */
  function ContainsSubstring(p: string, s: string): (r: bool)
    ensures r <==> exists i :: OccursAt(p, s, i)
    decreases |s|
  {
    if |s| < |p| then false
    else if s[..|p|] == p then assert OccursAt(p, s, 0); true
    else
      var r := ContainsSubstring(p, s[1..]);
      assert r ==> exists i :: OccursAt(p, s, i) by {
        if r {
          var i :| OccursAt(p, s[1..], i);
          assert s[1..][i..i + |p|] == s[i + 1..i + 1 + |p|];
          assert OccursAt(p, s, i + 1);
        }
      }
      assert (exists i :: OccursAt(p, s, i)) ==> r by {
        if exists i :: OccursAt(p, s, i) {
          var i :| OccursAt(p, s, i);
          assert i != 0;
          assert s[1..][i - 1..i - 1 + |p|] == s[i..i + |p|];
          assert OccursAt(p, s[1..], i - 1);
        }
      }
      r
  }

  /** A fragment whose first character does not occur in `s` is not a substring of it. */
  lemma NotSubstringWithoutFirstChar(p: string, s: string)
    requires |p| > 0 && p[0] !in s
    ensures !ContainsSubstring(p, s)
  {
    forall i | 0 <= i && i + |p| <= |s|
      ensures !OccursAt(p, s, i)
    {
      assert s[i..i + |p|][0] == s[i];
    }
  }

  /** A string holding none of the fragments' first characters contains no fragment. */
  lemma NoFragmentWithoutLeadChars(s: string)
    requires 'q' !in s && 'a' !in s && 'z' !in s && '1' !in s && 'p' !in s
    ensures !AnyFragmentIn(KeyboardPatterns, s)
  {
    forall k | 0 <= k < |KeyboardPatterns|
      ensures !ContainsSubstring(KeyboardPatterns[k], s)
    {
      NotSubstringWithoutFirstChar(KeyboardPatterns[k], s);
    }
  }

  /** `any(p in s for p in patterns)`. */
  function AnyFragmentIn(patterns: seq<string>, s: string): (r: bool)
    ensures r <==> exists k :: 0 <= k < |patterns| && ContainsSubstring(patterns[k], s)
  {
    if |patterns| == 0 then false
    else
      ContainsSubstring(patterns[0], s) || (
        var r := AnyFragmentIn(patterns[1..], s);
        assert r <==> exists k :: 1 <= k < |patterns| && ContainsSubstring(patterns[k], s) by {
          if r {
            var k :| 0 <= k < |patterns| - 1 && ContainsSubstring(patterns[1..][k], s);
            assert patterns[k + 1] == patterns[1..][k];
          }
          if exists k :: 1 <= k < |patterns| && ContainsSubstring(patterns[k], s) {
            var k :| 1 <= k < |patterns| && ContainsSubstring(patterns[k], s);
            assert patterns[1..][k - 1] == patterns[k];
          }
        }
        r)
  }

  /** The distinct characters of the password (`set(pw)`). */
  function DistinctChars(pw: string): set<char> {
    set c | c in pw
  }

  /** Which detectors fire. */
  datatype Flags = Flags(tooShort: bool, common: bool, pattern: bool, lowDiversity: bool, allDigits: bool)

  /** The five detectors of `analyze_password`. Each flag holds exactly when its condition
      holds of the password: fewer than eight characters; the lower-cased password is a
      common one; a keyboard fragment occurs somewhere in the lower-cased password; at most
      two distinct characters in at least six; non-empty with every character a digit
      (`str.isdigit`). */
  function Detect(t: CharTables, pw: string): (f: Flags)
    ensures f.tooShort <==> |pw| < 8
    ensures f.common <==> Lower(t, pw) in CommonPasswords
    ensures f.pattern <==> exists k, i :: 0 <= k < |KeyboardPatterns| &&
                                          OccursAt(KeyboardPatterns[k], Lower(t, pw), i)
    ensures f.lowDiversity <==> |DistinctChars(pw)| <= 2 && |pw| >= 6
    ensures f.allDigits <==> |pw| > 0 && forall i :: 0 <= i < |pw| ==> t.isDigit(pw[i])
  {
    FragmentOccurrence(Lower(t, pw));
    Flags(
      |pw| < MinLength,
      Lower(t, pw) in CommonPasswords,
      AnyFragmentIn(KeyboardPatterns, Lower(t, pw)),
      |DistinctChars(pw)| <= 2 && |pw| >= 6,
      |pw| > 0 && forall i :: 0 <= i < |pw| ==> t.isDigit(pw[i]))
  }

  /** `_looks_like_keyboard_pattern` holds of a lower-cased string exactly when one of the
      fragments occurs in it at some position. */
  lemma FragmentOccurrence(lowered: string)
    ensures AnyFragmentIn(KeyboardPatterns, lowered) <==>
              exists k, i :: 0 <= k < |KeyboardPatterns| && OccursAt(KeyboardPatterns[k], lowered, i)
  {
    if AnyFragmentIn(KeyboardPatterns, lowered) {
      var k :| 0 <= k < |KeyboardPatterns| && ContainsSubstring(KeyboardPatterns[k], lowered);
      var i :| OccursAt(KeyboardPatterns[k], lowered, i);
    }
    if exists k, i :: 0 <= k < |KeyboardPatterns| && OccursAt(KeyboardPatterns[k], lowered, i) {
      var k, i :| 0 <= k < |KeyboardPatterns| && OccursAt(KeyboardPatterns[k], lowered, i);
      assert ContainsSubstring(KeyboardPatterns[k], lowered);
    }
  }

  /** Every entry of `COMMON_PASSWORDS` is written in lower case ASCII, so each one is matched
      by the case-insensitive test: it is its own lower case. */
  lemma CommonPasswordsAreLowerCase(t: CharTables)
    requires AsciiFaithful(t)
    ensures forall p :: p in CommonPasswords ==> Lower(t, p) == p
  {
    forall p | p in CommonPasswords
      ensures Lower(t, p) == p
    {
      assert forall i :: 0 <= i < |p| ==> ('a' <= p[i] <= 'z' || '0' <= p[i] <= '9');
      LowerOfUncasedAscii(t, p);
    }
  }

  /** "123456" is the fragment "12345" extended, so it never decides the pattern test. */
  lemma RedundantFragment(s: string)
    ensures ContainsSubstring("123456", s) ==> ContainsSubstring("12345", s)
  {
    if ContainsSubstring("123456", s) {
      var i :| OccursAt("123456", s, i);
      assert s[i..i + 5] == s[i..i + 6][..5];
      assert OccursAt("12345", s, i);
    }
  }

  /** A set holding three distinct characters of the password rules out low diversity. */
  lemma ThreeDistinctChars(pw: string, a: char, b: char, c: char)
    requires a in pw && b in pw && c in pw && a != b && b != c && a != c
    ensures |DistinctChars(pw)| >= 3
  {
    assert {a, b, c} <= DistinctChars(pw);
    assert |{a, b, c}| == 3;
    SubsetCardinality({a, b, c}, DistinctChars(pw));
  }

  lemma SubsetCardinality<T>(a: set<T>, b: set<T>)
    requires a <= b
    ensures |a| <= |b|
  {
    assert b == a + (b - a);
  }
}
