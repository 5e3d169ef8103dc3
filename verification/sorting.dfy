/** `scores.sort(reverse=True)`: the records in descending Python order,
    whole records compared, payload fields included. */
module Sorting {
  import opened Records

  predicate SortedDesc(s: seq<Record>) {
    forall i, j {:trigger AtLeast(s[i], s[j])} :: 0 <= i < j < |s| ==> AtLeast(s[i], s[j])
  }

  /** Placing a record that ranks at or above the head in front keeps the
      list descending. */
  lemma Prepend(x: Record, s: seq<Record>)
    requires SortedDesc(s) && (|s| == 0 || AtLeast(x, s[0]))
    ensures SortedDesc([x] + s)
  {
    var r := [x] + s;
    forall i, j | 0 <= i < j < |r| ensures AtLeast(r[i], r[j]) {
      if i == 0 && j > 1 {
        assert AtLeast(s[0], s[j - 1]);
        AtLeastTransitive(x, s[0], s[j - 1]);
      } else if i > 0 {
        assert AtLeast(s[i - 1], s[j - 1]);
      }
    }
  }

  /** Places `x` after every record that ranks at or above it. */
  function Insert(x: Record, s: seq<Record>): (r: seq<Record>)
    requires SortedDesc(s)
    ensures SortedDesc(r)
    ensures multiset(r) == multiset(s) + multiset{x}
  {
    if |s| == 0 then [x]
    else if RecordLess(s[0], x) then
      Prepend(x, s);
      [x] + s
    else
      DropHead(s);
      var rest := Insert(x, s[1..]);
      assert s == [s[0]] + s[1..];
      assert AtLeast(s[0], rest[0]) by {
        assert rest[0] in multiset(rest);
        if rest[0] != x {
          assert rest[0] in multiset(s);
          HeadIsMax(s, rest[0]);
        } else {
          AtLeastTotal(s[0], x);
        }
      }
      Prepend(s[0], rest);
      [s[0]] + rest
  }

  /** The sorted permutation of the input. */
  function SortDescending(s: seq<Record>): (r: seq<Record>)
    ensures SortedDesc(r)
    ensures multiset(r) == multiset(s)
  {
    if |s| == 0 then []
    else
      assert s == [s[0]] + s[1..];
      Insert(s[0], SortDescending(s[1..]))
  }

  /** The head of a descending list ranks at or above each of its records. */
  lemma HeadIsMax(a: seq<Record>, x: Record)
    requires SortedDesc(a) && x in multiset(a)
    ensures AtLeast(a[0], x)
  {
    var i :| 0 <= i < |a| && a[i] == x;
    if i > 0 {
      assert AtLeast(a[0], a[i]);
    }
  }

  lemma DropHead(a: seq<Record>)
    requires SortedDesc(a) && |a| > 0
    ensures SortedDesc(a[1..])
    ensures multiset(a[1..]) == multiset(a) - multiset{a[0]}
  {
    assert a == [a[0]] + a[1..];
    forall i, j | 0 <= i < j < |a| - 1 ensures AtLeast(a[1..][i], a[1..][j]) {
      assert AtLeast(a[i + 1], a[j + 1]);
    }
  }

  /** There is only one descending arrangement of a multiset of records. */
  lemma {:induction false} SortedUnique(a: seq<Record>, b: seq<Record>)
    requires SortedDesc(a) && SortedDesc(b)
    requires multiset(a) == multiset(b)
    ensures a == b
    decreases |a|
  {
    if |a| > 0 {
      assert a[0] in multiset(b);
      assert b[0] in multiset(a);
      HeadIsMax(a, b[0]);
      HeadIsMax(b, a[0]);
      AtLeastAntisymmetric(a[0], b[0]);
      DropHead(a);
      DropHead(b);
      SortedUnique(a[1..], b[1..]);
      assert a == [a[0]] + a[1..] && b == [b[0]] + b[1..];
    } else {
      assert |b| == 0;
    }
  }

  /** Shuffling the input does not change the sorted order. */
  lemma SortIgnoresInputOrder(a: seq<Record>, b: seq<Record>)
    requires multiset(a) == multiset(b)
    ensures SortDescending(a) == SortDescending(b)
  {
    SortedUnique(SortDescending(a), SortDescending(b));
  }

  /** Checking neighbours is enough to establish the descending order. */
  lemma {:induction false} SortedFromNeighbours(s: seq<Record>)
    requires forall i :: 0 <= i < |s| - 1 ==> AtLeast(s[i], s[i + 1])
    ensures SortedDesc(s)
    decreases |s|
  {
    if |s| > 1 {
      SortedFromNeighbours(s[1..]);
      forall j | 0 < j < |s| ensures AtLeast(s[0], s[j]) {
        if j > 1 {
          assert AtLeast(s[1], s[j]) by { assert s[1..][0] == s[1] && s[1..][j - 1] == s[j]; }
          AtLeastTransitive(s[0], s[1], s[j]);
        }
      }
      forall i, j | 0 < i < j < |s| ensures AtLeast(s[i], s[j]) {
        assert s[1..][i - 1] == s[i] && s[1..][j - 1] == s[j];
      }
    }
  }

  /** In a descending list the score keys descend too. */
  lemma SortedKeys(s: seq<Record>, f: nat, i: int, j: int)
    requires SortedDesc(s) && 0 <= i <= j < |s|
    ensures AtLeast(Key(s[i], f), Key(s[j], f))
  {
    if i < j {
      KeyMonotone(s[i], s[j], f);
    }
  }
}
