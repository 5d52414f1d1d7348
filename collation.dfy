/**
 * The order SQLite uses to compare TEXT values under its default BINARY
 * collation: memcmp over the UTF-8 bytes.  UTF-8 preserves the order of code
 * points, so on Dafny strings (sequences of Unicode scalar values) this is the
 * lexicographic order on characters, with a proper prefix before the longer
 * string.  Python's `<=` on `str` is the same order.
 */
module Collation {

  predicate LexLe(a: string, b: string)
    decreases |a|
  {
    |a| == 0 || (|b| > 0 && (a[0] < b[0] || (a[0] == b[0] && LexLe(a[1..], b[1..]))))
  }

  lemma {:induction false} LexLeRefl(a: string)
    ensures LexLe(a, a)
    decreases |a|
  {
    if |a| > 0 {
      LexLeRefl(a[1..]);
    }
  }

  lemma {:induction false} LexLeTotal(a: string, b: string)
    ensures LexLe(a, b) || LexLe(b, a)
    decreases |a|
  {
    if |a| > 0 && |b| > 0 && a[0] == b[0] {
      LexLeTotal(a[1..], b[1..]);
    }
  }

  lemma {:induction false} LexLeTrans(a: string, b: string, c: string)
    requires LexLe(a, b) && LexLe(b, c)
    ensures LexLe(a, c)
    decreases |a|
  {
    if |a| > 0 && a[0] == b[0] && b[0] == c[0] {
      LexLeTrans(a[1..], b[1..], c[1..]);
    }
  }

  lemma {:induction false} LexLeAntisym(a: string, b: string)
    requires LexLe(a, b) && LexLe(b, a)
    ensures a == b
    decreases |a|
  {
    if |a| > 0 {
      LexLeAntisym(a[1..], b[1..]);
      assert a == [a[0]] + a[1..];
      assert b == [b[0]] + b[1..];
    }
  }

  /** Every string sorts no later than any extension of it. */
  lemma {:induction false} LexLePrefix(a: string, b: string)
    ensures LexLe(a, a + b)
    decreases |a|
  {
    if |a| > 0 {
      assert (a + b)[1..] == a[1..] + b;
      LexLePrefix(a[1..], b);
    }
  }

  /**
   * Comparing two strings that start with fields of the same width: the first
   * fields decide unless they are equal, and then the rests decide.
   */
  lemma {:induction false} LexLeConcat(a1: string, r1: string, a2: string, r2: string)
    requires |a1| == |a2|
    ensures LexLe(a1 + r1, a2 + r2) <==> (a1 == a2 && LexLe(r1, r2)) || (a1 != a2 && LexLe(a1, a2))
    decreases |a1|
  {
    if |a1| > 0 {
      assert (a1 + r1)[0] == a1[0] && (a2 + r2)[0] == a2[0];
      assert (a1 + r1)[1..] == a1[1..] + r1;
      assert (a2 + r2)[1..] == a2[1..] + r2;
      LexLeConcat(a1[1..], r1, a2[1..], r2);
      if a1[0] == a2[0] {
        assert a1 == a2 <==> a1[1..] == a2[1..] by {
          assert a1 == [a1[0]] + a1[1..];
          assert a2 == [a2[0]] + a2[1..];
        }
      }
    } else {
      assert a1 == [] && a2 == [];
      assert a1 + r1 == r1 && a2 + r2 == r2;
    }
  }
}
