/**
 * Go's `<` on strings: lexicographic order on bytes. On valid UTF-8 this is the same as
 * lexicographic order on code points, which is what `Less` compares.
 */
module StrOrder {

  predicate Less(x: string, y: string)
    decreases |x|
  {
    if |x| == 0 then |y| > 0
    else if |y| == 0 then false
    else if x[0] != y[0] then x[0] < y[0]
    else Less(x[1..], y[1..])
  }

  /** The non-strict order that a sorted slice satisfies between neighbours. */
  predicate LessEq(x: string, y: string) {
    !Less(y, x)
  }

  lemma {:induction false} LessIrreflexive(x: string)
    ensures !Less(x, x)
    decreases |x|
  {
    if |x| > 0 {
      LessIrreflexive(x[1..]);
    }
  }

  lemma {:induction false} LessTransitive(x: string, y: string, z: string)
    requires Less(x, y) && Less(y, z)
    ensures Less(x, z)
    decreases |x|
  {
    if |x| > 0 && x[0] == y[0] && y[0] == z[0] {
      LessTransitive(x[1..], y[1..], z[1..]);
    }
  }

  lemma {:induction false} LessTotal(x: string, y: string)
    requires x != y
    ensures Less(x, y) || Less(y, x)
    decreases |x|
  {
    if |x| > 0 && |y| > 0 && x[0] == y[0] {
      assert x == [x[0]] + x[1..] && y == [y[0]] + y[1..];
      LessTotal(x[1..], y[1..]);
    }
  }

  lemma {:induction false} LessAsymmetric(x: string, y: string)
    requires Less(x, y)
    ensures !Less(y, x)
    decreases |x|
  {
    if |x| > 0 && |y| > 0 && x[0] == y[0] {
      LessAsymmetric(x[1..], y[1..]);
    }
  }

  lemma LessEqTransitive(x: string, y: string, z: string)
    requires LessEq(x, y) && LessEq(y, z)
    ensures LessEq(x, z)
  {
    if x != y && y != z {
      LessTotal(x, y);
      LessTotal(y, z);
      LessTransitive(x, y, z);
      LessAsymmetric(x, z);
    }
  }
}
