/** Feature extraction (`_charset_size`, `_entropy_bits`): the inferred alphabet size and
    the keyspace it spans. Entropy is `length * log2(charset)`; the model keeps the exact
    keyspace `charset^length` instead, whose base-2 logarithm the entropy is, and compares
    it with powers of two wherever `analyze_password` compares the entropy with a bit count. */
module Features {
  import opened Chars
  import opened Arith

  const LowerClassSize: nat := 26
  const UpperClassSize: nat := 26
  const DigitClassSize: nat := 10
  const SymbolClassSize: nat := 33

  predicate HasLower(t: CharTables, pw: string) {
    exists i :: 0 <= i < |pw| && t.isLower(pw[i])
  }

  predicate HasUpper(t: CharTables, pw: string) {
    exists i :: 0 <= i < |pw| && t.isUpper(pw[i])
  }

  predicate HasDigit(t: CharTables, pw: string) {
    exists i :: 0 <= i < |pw| && t.isDigit(pw[i])
  }

  /** A symbol is any character that is not alphanumeric. */
  predicate HasSymbol(t: CharTables, pw: string) {
    exists i :: 0 <= i < |pw| && !t.isAlnum(pw[i])
  }

  /** Sum of the class sizes of the classes present, floored at 1. */
  function CharsetSize(t: CharTables, pw: string): (r: nat)
    ensures 1 <= r <= LowerClassSize + UpperClassSize + DigitClassSize + SymbolClassSize
  {
    var size := (if HasLower(t, pw) then LowerClassSize else 0)
              + (if HasUpper(t, pw) then UpperClassSize else 0)
              + (if HasDigit(t, pw) then DigitClassSize else 0)
              + (if HasSymbol(t, pw) then SymbolClassSize else 0);
    if size < 1 then 1 else size
  }

  /** Every class present in `a` is present in `b`. */
  predicate ClassesCovered(t: CharTables, a: string, b: string) {
    && (HasLower(t, a) ==> HasLower(t, b))
    && (HasUpper(t, a) ==> HasUpper(t, b))
    && (HasDigit(t, a) ==> HasDigit(t, b))
    && (HasSymbol(t, a) ==> HasSymbol(t, b))
  }

  /** A password whose characters all occur in another has no larger charset. */
  lemma CharsetMonotone(t: CharTables, a: string, b: string)
    requires forall i :: 0 <= i < |a| ==> a[i] in b
    ensures ClassesCovered(t, a, b)
    ensures CharsetSize(t, a) <= CharsetSize(t, b)
  {
    if HasLower(t, a) {
      var i :| 0 <= i < |a| && t.isLower(a[i]);
      var j :| 0 <= j < |b| && b[j] == a[i];
    }
    if HasUpper(t, a) {
      var i :| 0 <= i < |a| && t.isUpper(a[i]);
      var j :| 0 <= j < |b| && b[j] == a[i];
    }
    if HasDigit(t, a) {
      var i :| 0 <= i < |a| && t.isDigit(a[i]);
      var j :| 0 <= j < |b| && b[j] == a[i];
    }
    if HasSymbol(t, a) {
      var i :| 0 <= i < |a| && !t.isAlnum(a[i]);
      var j :| 0 <= j < |b| && b[j] == a[i];
    }
  }

  /** Adding a character never shrinks the charset. */
  lemma CharsetGrowsOnAppend(t: CharTables, pw: string, c: char)
    ensures CharsetSize(t, pw) <= CharsetSize(t, pw + [c])
  {
    forall i | 0 <= i < |pw|
      ensures pw[i] in pw + [c]
    {
      assert (pw + [c])[i] == pw[i];
    }
    CharsetMonotone(t, pw, pw + [c]);
  }

  /** The charset depends only on which characters occur, not on their order or count. */
  lemma CharsetDependsOnCharacterSet(t: CharTables, a: string, b: string)
    requires forall i :: 0 <= i < |a| ==> a[i] in b
    requires forall i :: 0 <= i < |b| ==> b[i] in a
    ensures CharsetSize(t, a) == CharsetSize(t, b)
  {
    CharsetMonotone(t, a, b);
    CharsetMonotone(t, b, a);
  }

  function Pow(base: nat, exp: nat): (r: nat)
    ensures base >= 1 ==> r >= 1
  {
    if exp == 0 then 1 else base * Pow(base, exp - 1)
  }

  lemma {:induction false} PowMonotoneBase(a: nat, b: nat, exp: nat)
    requires a <= b
    ensures Pow(a, exp) <= Pow(b, exp)
  {
    if exp > 0 {
      PowMonotoneBase(a, b, exp - 1);
      MultiplyBoth(a, b, Pow(a, exp - 1), Pow(b, exp - 1));
    }
  }

  lemma {:induction false} PowAdd(base: nat, m: nat, n: nat)
    ensures Pow(base, m + n) == Pow(base, m) * Pow(base, n)
    decreases m
  {
    if m > 0 {
      PowAdd(base, m - 1, n);
      assert Pow(base, m + n) == base * Pow(base, m - 1 + n);
    }
  }

  lemma {:induction false} PowMultiply(base: nat, m: nat, n: nat)
    ensures Pow(Pow(base, m), n) == Pow(base, m * n)
    decreases n
  {
    if n > 0 {
      PowMultiply(base, m, n - 1);
      PowAdd(base, m, m * (n - 1));
      assert m + m * (n - 1) == m * n;
    }
  }

  /** Number of passwords of this length over this charset (`charset ** length`). */
  function Keyspace(charset: nat, length: nat): nat {
    Pow(charset, length)
  }

  /** `entropy < bits`, that is `length * log2(charset) < bits`, decided exactly on the
      integers as `charset^length < 2^bits`. */
  predicate EntropyBelow(charset: nat, length: nat, bits: nat) {
    Keyspace(charset, length) < Pow(2, bits)
  }

  /** The entropy test is monotone in the threshold and in the charset. */
  lemma EntropyBelowMonotone(charset: nat, charset': nat, length: nat, bits: nat, bits': nat)
    requires charset <= charset' && bits <= bits'
    ensures EntropyBelow(charset', length, bits) ==> EntropyBelow(charset, length, bits')
  {
    PowMonotoneBase(charset, charset', length);
    PowAdd(2, bits, bits' - bits);
    assert Pow(2, bits') == Pow(2, bits) * Pow(2, bits' - bits);
  }

  lemma {:induction false} PowOfOne(n: nat)
    ensures Pow(1, n) == 1
  {
    if n > 0 {
      PowOfOne(n - 1);
    }
  }
}
