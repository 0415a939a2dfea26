/** Version numbers compared component by component, most significant first. */
module Versions {

  /** Lexicographic order on version sequences of equal length: `a` is at
      least `b` when they are equal, or when at the first component where they
      differ, `a`'s is the larger. */
  predicate LexAtLeast(a: seq<int>, b: seq<int>)
    requires |a| == |b|
  {
    |a| == 0 || a[0] > b[0] || (a[0] == b[0] && LexAtLeast(a[1..], b[1..]))
  }

  lemma {:induction false} LexReflexive(a: seq<int>)
    ensures LexAtLeast(a, a)
  {
    if |a| > 0 {
      LexReflexive(a[1..]);
    }
  }

  lemma {:induction false} LexTotal(a: seq<int>, b: seq<int>)
    requires |a| == |b|
    ensures LexAtLeast(a, b) || LexAtLeast(b, a)
  {
    if |a| > 0 && a[0] == b[0] {
      LexTotal(a[1..], b[1..]);
    }
  }

  lemma {:induction false} LexAntisymmetric(a: seq<int>, b: seq<int>)
    requires |a| == |b| && LexAtLeast(a, b) && LexAtLeast(b, a)
    ensures a == b
  {
    if |a| > 0 {
      LexAntisymmetric(a[1..], b[1..]);
      assert a == [a[0]] + a[1..] && b == [b[0]] + b[1..];
    }
  }

  lemma {:induction false} LexTransitive(a: seq<int>, b: seq<int>, c: seq<int>)
    requires |a| == |b| == |c| && LexAtLeast(a, b) && LexAtLeast(b, c)
    ensures LexAtLeast(a, c)
  {
    if |a| > 0 && a[0] == b[0] == c[0] {
      LexTransitive(a[1..], b[1..], c[1..]);
    }
  }

  /** On three-component versions the order reads: the first
      component decides unless it ties, then the next, and so on. */
  lemma LexTriple(a0: int, a1: int, a2: int, b0: int, b1: int, b2: int)
    ensures LexAtLeast([a0, a1, a2], [b0, b1, b2]) <==>
      a0 > b0 || (a0 == b0 && (a1 > b1 || (a1 == b1 && a2 >= b2)))
  {
    assert [a0, a1, a2][1..] == [a1, a2] && [b0, b1, b2][1..] == [b1, b2];
    assert [a1, a2][1..] == [a2] && [b1, b2][1..] == [b2];
    assert [a2][1..] == [] && [b2][1..] == [];
    assert LexAtLeast([a2], [b2]) <==> a2 >= b2;
    assert LexAtLeast([a1, a2], [b1, b2]) <==> a1 > b1 || (a1 == b1 && a2 >= b2);
  }
}
