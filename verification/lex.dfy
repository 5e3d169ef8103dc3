/** Python's ordering of sequences (lists and strings): the first position at
    which two sequences differ decides by the element order, and a proper
    prefix ranks below the longer sequence. */
module Lex {

  ghost predicate StrictTotalOrder<T(!new)>(less: (T, T) -> bool) {
    && (forall x :: !less(x, x))
    && (forall x, y, z :: less(x, y) && less(y, z) ==> less(x, z))
    && (forall x, y :: x != y ==> less(x, y) || less(y, x))
  }

  function LexLess<T(==)>(a: seq<T>, b: seq<T>, less: (T, T) -> bool): bool
    decreases |a|
  {
    if |a| == 0 then |b| > 0
    else if |b| == 0 then false
    else if a[0] != b[0] then less(a[0], b[0])
    else LexLess(a[1..], b[1..], less)
  }

  /** Python's slice `a[0:f]` for a non-negative bound: at most `f` leading elements. */
  function Prefix<T>(a: seq<T>, f: nat): (p: seq<T>)
    ensures |p| == if f <= |a| then f else |a|
    ensures p == a[..|p|]
  {
    if f <= |a| then a[..f] else a
  }

  lemma {:induction false} LexIrreflexive<T(!new)>(a: seq<T>, less: (T, T) -> bool)
    requires StrictTotalOrder(less)
    ensures !LexLess(a, a, less)
    decreases |a|
  {
    if |a| > 0 {
      LexIrreflexive(a[1..], less);
    }
  }

  lemma {:induction false} LexTransitive<T(!new)>(a: seq<T>, b: seq<T>, c: seq<T>, less: (T, T) -> bool)
    requires StrictTotalOrder(less)
    requires LexLess(a, b, less) && LexLess(b, c, less)
    ensures LexLess(a, c, less)
    decreases |a|
  {
    if |a| > 0 {
      assert |b| > 0 && |c| > 0;
      if a[0] == b[0] && b[0] == c[0] {
        LexTransitive(a[1..], b[1..], c[1..], less);
      }
    }
  }

  lemma {:induction false} LexTotal<T(!new)>(a: seq<T>, b: seq<T>, less: (T, T) -> bool)
    requires StrictTotalOrder(less)
    requires a != b
    ensures LexLess(a, b, less) || LexLess(b, a, less)
    decreases |a|
  {
    if |a| > 0 && |b| > 0 && a[0] == b[0] {
      assert a == [a[0]] + a[1..] && b == [b[0]] + b[1..];
      LexTotal(a[1..], b[1..], less);
    }
  }

  /** Cutting both sides to the same prefix length never reverses their order. */
  lemma {:induction false} LexPrefix<T(!new)>(a: seq<T>, b: seq<T>, f: nat, less: (T, T) -> bool)
    requires LexLess(a, b, less)
    ensures Prefix(a, f) == Prefix(b, f) || LexLess(Prefix(a, f), Prefix(b, f), less)
    decreases f
  {
    if f > 0 && |a| > 0 && a[0] == b[0] {
      LexPrefix(a[1..], b[1..], f - 1, less);
      assert Prefix(a, f)[1..] == Prefix(a[1..], f - 1);
      assert Prefix(b, f)[1..] == Prefix(b[1..], f - 1);
    }
  }
}
