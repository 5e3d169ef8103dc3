/** Nominal breakpoints: the index in the sorted list where each class starts
    before ties are taken into account. */
module Breakpoints {

  /** Class `i` of `k` starts at `i * (n / k)`, plus one when `i` exceeds
      `k - n % k`. Python 2 `/` on non-negative integers is floor division,
      which is Dafny's `/` here. */
  function Nominal(n: nat, k: nat, i: nat): (b: nat)
    requires k >= 1
    ensures i * (n / k) <= b <= i * (n / k) + 1
    ensures i == 0 ==> b == 0
  {
    i * (n / k) + (if i > k - n % k then 1 else 0)
  }

  /** One nominal start per class number `0 .. k - 1`. */
  function NominalList(n: nat, k: nat): (bps: seq<int>)
    requires k >= 1
    ensures |bps| == k && bps[0] == 0
  {
    seq(k, i requires 0 <= i < k => Nominal(n, k, i))
  }

  /** Starts `bps[c]` of the classes of an `n`-record list: the first class
      starts at 0, starts never decrease, and each start is a record index. */
  ghost predicate ValidNominal(bps: seq<int>, n: nat) {
    && |bps| >= 1
    && bps[0] == 0
    && (forall i, j :: 0 <= i <= j < |bps| ==> bps[i] <= bps[j])
    && (forall i :: 0 <= i < |bps| ==> 0 <= bps[i] < n)
  }

  /** Number of records between the start of class `c` and the start of the
      next class (or the end of the list for the last class). */
  function ClassSize(bps: seq<int>, n: nat, c: nat): int
    requires c < |bps|
  {
    (if c + 1 < |bps| then bps[c + 1] else n) - bps[c]
  }

  lemma ScaleMonotone(i: nat, j: nat, base: nat)
    requires i <= j
    ensures i * base <= j * base
  {
    assert j * base == i * base + (j - i) * base;
  }

  lemma Division(n: nat, k: nat)
    requires k >= 1
    ensures n == k * (n / k) + n % k
    ensures (k - 1) * (n / k) == n - n % k - n / k
  {
  }

  /** The nominal breakpoints are valid class starts for any non-empty list. */
  lemma NominalValid(n: nat, k: nat)
    requires n >= 1 && k >= 1
    ensures ValidNominal(NominalList(n, k), n)
  {
    var bps := NominalList(n, k);
    var base, rem := n / k, n % k;
    Division(n, k);
    forall i, j | 0 <= i <= j < k ensures bps[i] <= bps[j] {
      ScaleMonotone(i, j, base);
    }
    forall i | 0 <= i < k ensures 0 <= bps[i] < n {
      ScaleMonotone(i, k - 1, base);
      if i > k - rem {
        assert rem >= 2;
      } else if base == 0 {
        assert rem >= 1;
      }
    }
  }

  /** The even spread the nominal breakpoints aim at: the last `n % k`
      classes take one extra record each. */
  function EvenNominal(n: nat, k: nat, i: nat): nat
    requires k >= 1
  {
    i * (n / k) + (if i > k - n % k then i - (k - n % k) else 0)
  }

  function EvenNominalList(n: nat, k: nat): seq<int>
    requires k >= 1
  {
    seq(k, i requires 0 <= i < k => EvenNominal(n, k, i))
  }

  /** Under the even spread every class holds `n / k` records, and the last
      `n % k` classes one more: sizes differ by at most one and never shrink
      going down the ranking. */
  lemma EvenNominalSizes(n: nat, k: nat)
    requires k >= 1
    ensures forall c :: 0 <= c < k ==>
      ClassSize(EvenNominalList(n, k), n, c) == n / k + (if c >= k - n % k then 1 else 0)
  {
    var bps := EvenNominalList(n, k);
    Division(n, k);
    forall c | 0 <= c < k
      ensures ClassSize(bps, n, c) == n / k + (if c >= k - n % k then 1 else 0)
    {
      if c + 1 < k {
        assert (c + 1) * (n / k) == c * (n / k) + n / k;
      }
    }
  }

  lemma EvenNominalValid(n: nat, k: nat)
    requires n >= 1 && k >= 1
    ensures ValidNominal(EvenNominalList(n, k), n)
  {
    var bps := EvenNominalList(n, k);
    forall i, j | 0 <= i <= j < k ensures bps[i] <= bps[j] {
      ScaleMonotone(i, j, n / k);
    }
    assert bps[k - 1] < n by {
      EvenNominalSizes(n, k);
      Division(n, k);
      assert ClassSize(bps, n, k - 1) >= 1;
    }
  }

  /** The code's breakpoints are the even spread whenever `n % k <= 2`, which
      covers every fixed scenario of the test suite. */
  lemma NominalIsEvenForSmallRemainder(n: nat, k: nat)
    requires k >= 1 && n % k <= 2
    ensures NominalList(n, k) == EvenNominalList(n, k)
  {
  }

  /** With 7 records in 4 classes the code's breakpoints give classes of
      1, 2, 1 and 3 records, where the even spread gives 1, 2, 2 and 2. */
  lemma NominalUnevenExample()
    ensures NominalList(7, 4) == [0, 1, 3, 4]
    ensures ClassSize(NominalList(7, 4), 7, 2) == 1
    ensures ClassSize(NominalList(7, 4), 7, 3) == 3
    ensures EvenNominalList(7, 4) == [0, 1, 3, 5]
  {
    assert NominalList(7, 4)[2] == 3;
    assert EvenNominalList(7, 4)[3] == 5;
  }
}
