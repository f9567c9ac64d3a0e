/** Order-preserving de-duplication (`_dedupe_keep_order`): keep the first occurrence of
    every element, drop later repeats. */
module Deduplication {

  predicate NoDuplicates<T(==)>(s: seq<T>) {
    forall i, j :: 0 <= i < j < |s| ==> s[i] != s[j]
  }

  /** Index of the first occurrence of `x` in `s`. */
  function FirstIndex<T(==)>(s: seq<T>, x: T): (k: nat)
    requires x in s
    ensures k < |s| && s[k] == x
    ensures forall j :: 0 <= j < k ==> s[j] != x
  {
    if s[0] == x then 0 else 1 + FirstIndex(s[1..], x)
  }

  /** The de-duplicated sequence, read prefix by prefix as the loop of `_dedupe_keep_order` builds it:
      the last element is kept exactly when it was not kept already. */
  function Dedupe<T(==)>(s: seq<T>): (r: seq<T>)
    ensures NoDuplicates(r)
    ensures forall i :: 0 <= i < |r| ==> r[i] in s
    ensures forall i :: 0 <= i < |s| ==> s[i] in r
    ensures |r| <= |s|
  {
    if |s| == 0 then []
    else
      var d := Dedupe(s[..|s| - 1]);
      if s[|s| - 1] in d then d else d + [s[|s| - 1]]
  }

  /** The loop of `_dedupe_keep_order`: a `seen` set beside the output list. */
  method DedupeKeepOrder<T(==)>(items: seq<T>) returns (out: seq<T>)
    ensures out == Dedupe(items)
    ensures NoDuplicates(out)
  {
    var seen: set<T> := {};
    out := [];
    var i := 0;
    while i < |items|
      invariant 0 <= i <= |items|
      invariant out == Dedupe(items[..i])
      invariant forall x :: x in seen <==> x in out
    {
      assert items[..i + 1][..i] == items[..i];
      if items[i] !in seen {
        seen := seen + {items[i]};
        out := out + [items[i]];
      }
      i := i + 1;
    }
    assert items[..|items|] == items;
  }

  lemma {:induction false} FirstIndexAppend<T>(s: seq<T>, x: T, y: T)
    requires y in s
    ensures FirstIndex(s + [x], y) == FirstIndex(s, y)
  {
    var k := FirstIndex(s, y);
    var k' := FirstIndex(s + [x], y);
    assert (s + [x])[k] == y;
    assert s[k'] == y || k' == |s|;
  }

  /** The output lists the elements in the order of their first occurrences in the input. */
  lemma {:induction false} DedupeFirstOccurrenceOrder<T>(s: seq<T>)
    ensures forall i, j :: 0 <= i < j < |Dedupe(s)| ==>
              FirstIndex(s, Dedupe(s)[i]) < FirstIndex(s, Dedupe(s)[j])
    decreases |s|
  {
    if |s| > 0 {
      var s' := s[..|s| - 1];
      var x := s[|s| - 1];
      assert s == s' + [x];
      var d := Dedupe(s');
      DedupeFirstOccurrenceOrder(s');
      forall y | y in d
        ensures FirstIndex(s, y) == FirstIndex(s', y)
      {
        FirstIndexAppend(s', x, y);
      }
      if x !in d {
        assert x !in s';
        assert FirstIndex(s, x) == |s'|;
        forall i, j | 0 <= i < j < |Dedupe(s)|
          ensures FirstIndex(s, Dedupe(s)[i]) < FirstIndex(s, Dedupe(s)[j])
        {
          assert Dedupe(s)[i] == d[i];
          if j < |d| {
            assert Dedupe(s)[j] == d[j];
          } else {
            assert Dedupe(s)[j] == x;
          }
        }
      }
    }
  }

  /** A sequence without repeats is left unchanged. */
  lemma {:induction false} DedupeOfDistinct<T>(s: seq<T>)
    requires NoDuplicates(s)
    ensures Dedupe(s) == s
    decreases |s|
  {
    if |s| > 0 {
      var s' := s[..|s| - 1];
      DedupeOfDistinct(s');
      assert s[|s| - 1] !in s';
    }
  }

  /** Two repeat-free sequences with no element in common concatenate to a repeat-free one. */
  lemma NoDuplicatesAppend<T>(a: seq<T>, b: seq<T>)
    requires NoDuplicates(a) && NoDuplicates(b)
    requires forall i :: 0 <= i < |a| ==> a[i] !in b
    ensures NoDuplicates(a + b)
  {
    forall i, j | 0 <= i < j < |a + b|
      ensures (a + b)[i] != (a + b)[j]
    {
      if i < |a| && |a| <= j {
        assert (a + b)[j] == b[j - |a|];
      }
    }
  }

  /** Applying the de-duplicator twice is the same as applying it once. */
  lemma DedupeIdempotent<T>(s: seq<T>)
    ensures Dedupe(Dedupe(s)) == Dedupe(s)
  {
    DedupeOfDistinct(Dedupe(s));
  }

  /** De-duplicating `a + b` starts with the de-duplicated `a`. */
  lemma {:induction false} DedupeAppendPrefix<T>(a: seq<T>, b: seq<T>)
    ensures |Dedupe(a)| <= |Dedupe(a + b)|
    ensures Dedupe(a + b)[..|Dedupe(a)|] == Dedupe(a)
    decreases |b|
  {
    if |b| == 0 {
      assert a + b == a;
    } else {
      var b' := b[..|b| - 1];
      assert (a + b)[..|a + b| - 1] == a + b';
      DedupeAppendPrefix(a, b');
    }
  }

  /** One element: it follows the de-duplicated `a` in the de-duplicated `a + b` exactly
      when it occurs in `b` and not in `a`. */
  lemma DedupeAppendTailElement<T>(a: seq<T>, b: seq<T>, x: T)
    ensures |Dedupe(a)| <= |Dedupe(a + b)|
    ensures x in Dedupe(a + b)[|Dedupe(a)|..] <==> x in b && x !in a
  {
    DedupeAppendPrefix(a, b);
    var d := Dedupe(a + b);
    var head := Dedupe(a);
    var n := |head|;
    var tail := d[n..];
    assert d == head + tail;
    assert x in d <==> x in a + b by { DedupeSameElements(a + b); }
    assert x in head <==> x in a by { DedupeSameElements(a); }
  }

  /** De-duplication keeps every element and adds none. */
  lemma DedupeSameElements<T>(s: seq<T>)
    ensures forall x :: x in Dedupe(s) <==> x in s
  {
    var d := Dedupe(s);
    forall x
      ensures x in d <==> x in s
    {
      if x in d {
        var k :| 0 <= k < |d| && d[k] == x;
      }
      if x in s {
        var k :| 0 <= k < |s| && s[k] == x;
      }
    }
  }

  /** What follows the de-duplicated `a` in the de-duplicated `a + b` are exactly the
      elements of `b` that do not occur in `a`. */
  lemma DedupeAppend<T>(a: seq<T>, b: seq<T>)
    ensures |Dedupe(a)| <= |Dedupe(a + b)|
    ensures Dedupe(a + b)[..|Dedupe(a)|] == Dedupe(a)
    ensures forall x :: x in Dedupe(a + b)[|Dedupe(a)|..] <==> x in b && x !in a
  {
    DedupeAppendPrefix(a, b);
    forall x ensures x in Dedupe(a + b)[|Dedupe(a)|..] <==> x in b && x !in a {
      DedupeAppendTailElement(a, b, x);
    }
  }
}
