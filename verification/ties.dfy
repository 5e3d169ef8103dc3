/** The tie scan around one breakpoint and the majority rule that moves the
    breakpoint to an edge of the run of equal score keys it falls in. */
module Ties {
  import opened Records
  import opened Sorting

  /** Every record carries the same score key. */
  predicate AllTied(s: seq<Record>, f: nat) {
    forall x, y :: x in s && y in s ==> Key(x, f) == Key(y, f)
  }

  /** The backward scan never runs past the head of the list: there are not
      two or more records that all share one key. */
  predicate NoWrap(s: seq<Record>, f: nat) {
    |s| <= 1 || !AllTied(s, f)
  }

  /** `b` is where the run of records sharing `s[i]`'s key begins. */
  ghost predicate IsRunStart(s: seq<Record>, f: nat, i: int, b: int) {
    && 0 <= b <= i < |s|
    && (forall j :: b <= j <= i ==> Key(s[j], f) == Key(s[i], f))
    && (b == 0 || Key(s[b - 1], f) != Key(s[i], f))
  }

  /** `e` is just past the end of the run of records sharing `s[i]`'s key. */
  ghost predicate IsRunEnd(s: seq<Record>, f: nat, i: int, e: int) {
    && 0 <= i < e <= |s|
    && (forall j :: i <= j < e ==> Key(s[j], f) == Key(s[i], f))
    && (e == |s| || Key(s[e], f) != Key(s[i], f))
  }

  /** Python's `s[i]` position for `-len(s) <= i < len(s)`: a negative index
      counts back from the end of the list. */
  function PyIndex(i: int, n: nat): nat
    requires 0 <= i + n && i < n
  {
    if i < 0 then i + n else i
  }

  /** The backward scan as written: for offsets `offset, offset + 1, ...`
      below `len(scores)` it counts how many records `scores[bp - offset]`
      share the key of `scores[bp]`, stopping at the first that does not.
      Once `bp - offset` is negative Python reads from the end of the list. */
  function EqualAbove(s: seq<Record>, f: nat, bp: nat, offset: nat): (r: nat)
    requires bp < |s| && 1 <= offset <= |s|
    ensures offset + r <= |s|
    decreases |s| - offset
  {
    if offset >= |s| then 0
    else if Key(s[PyIndex(bp - offset, |s|)], f) == Key(s[bp], f) then
      1 + EqualAbove(s, f, bp, offset + 1)
    else 0
  }

  /** The forward scan: counts the records from `scores[bp + offset]` on that
      share the key of `scores[bp]`, stopping at the first that does not or
      at the end of the list. */
  function EqualBelow(s: seq<Record>, f: nat, bp: nat, offset: nat): (r: nat)
    requires bp < |s| && bp + offset <= |s|
    ensures bp + offset + r <= |s|
    ensures forall j :: bp + offset <= j < bp + offset + r ==> Key(s[j], f) == Key(s[bp], f)
    ensures bp + offset + r == |s| || Key(s[bp + offset + r], f) != Key(s[bp], f)
    decreases |s| - offset
  {
    if offset >= |s| || bp + offset >= |s| then 0
    else if Key(s[bp + offset], f) == Key(s[bp], f) then
      1 + EqualBelow(s, f, bp, offset + 1)
    else 0
  }

  /** A backward scan that stops at the head of the list instead of wrapping. */
  function RunStartFrom(s: seq<Record>, f: nat, i: nat, j: nat): (b: nat)
    requires j <= i < |s|
    ensures b <= j
    decreases j
  {
    if j == 0 || Key(s[j - 1], f) != Key(s[i], f) then j
    else RunStartFrom(s, f, i, j - 1)
  }

  /** Scanning back from any position of `s[i]`'s run finds where the run begins. */
  lemma {:induction false} RunStartFromIsStart(s: seq<Record>, f: nat, i: nat, j: nat)
    requires j <= i < |s|
    requires forall m :: j <= m <= i ==> Key(s[m], f) == Key(s[i], f)
    ensures IsRunStart(s, f, i, RunStartFrom(s, f, i, j))
    decreases j
  {
    if j > 0 && Key(s[j - 1], f) == Key(s[i], f) {
      RunStartFromIsStart(s, f, i, j - 1);
    }
  }

  function RunStart(s: seq<Record>, f: nat, i: nat): (b: nat)
    requires i < |s|
    ensures b <= i
  {
    RunStartFrom(s, f, i, i)
  }

  function RunEnd(s: seq<Record>, f: nat, i: nat): (e: nat)
    requires i < |s|
    ensures i < e <= |s|
  {
    i + EqualBelow(s, f, i, 0)
  }

  lemma RunStartIsStart(s: seq<Record>, f: nat, i: nat)
    requires i < |s|
    ensures IsRunStart(s, f, i, RunStart(s, f, i))
  {
    RunStartFromIsStart(s, f, i, i);
  }

  lemma RunEndIsEnd(s: seq<Record>, f: nat, i: nat)
    requires i < |s|
    ensures IsRunEnd(s, f, i, RunEnd(s, f, i))
  {
  }

  /** The majority rule as written: with `above` tied records before `bp` and
      `below` from `bp` on, a tie of 0 and 0 keeps `bp`, an equal split or a
      majority below moves `bp` back by `above`, a majority above moves it
      forward by `below`. */
  function AdjustBreakpoint(bp: int, above: nat, below: nat): (a: int)
  {
    if above == below then
      if above == 0 then bp else bp - above
    else if above > below then bp + below
    else bp - above
  }

  /** The rule moves a start at most `above` back and `below` forward, and
      keeps it in place exactly when one side has no tie. */
  lemma AdjustBreakpointBounds(bp: int, above: nat, below: nat)
    ensures bp - above <= AdjustBreakpoint(bp, above, below) <= bp + below
    ensures AdjustBreakpoint(bp, above, below) == bp <==> above == 0 || below == 0
  {
  }

  lemma RunStartUnique(s: seq<Record>, f: nat, i: int, b1: int, b2: int)
    requires IsRunStart(s, f, i, b1) && IsRunStart(s, f, i, b2)
    ensures b1 == b2
  {
  }

  lemma RunEndUnique(s: seq<Record>, f: nat, i: int, e1: int, e2: int)
    requires IsRunEnd(s, f, i, e1) && IsRunEnd(s, f, i, e2)
    ensures e1 == e2
  {
  }

  /** A run ends no later than the first later record with another key. */
  lemma RunEndBefore(s: seq<Record>, f: nat, i: int, e: int, j: int)
    requires IsRunEnd(s, f, i, e) && i <= j < |s|
    requires Key(s[j], f) != Key(s[i], f)
    ensures e <= j
  {
  }

  /** A run starts after every earlier record with another key. */
  lemma RunStartAfter(s: seq<Record>, f: nat, i: int, b: int, j: int)
    requires IsRunStart(s, f, i, b) && 0 <= j <= i
    requires Key(s[j], f) != Key(s[i], f)
    ensures j < b
  {
  }

  /** In a descending list, records with equal keys are contiguous. */
  lemma Convex(s: seq<Record>, f: nat, i: int, j: int, l: int)
    requires SortedDesc(s) && 0 <= i <= j <= l < |s|
    requires Key(s[i], f) == Key(s[l], f)
    ensures Key(s[j], f) == Key(s[i], f)
  {
    SortedKeys(s, f, i, j);
    SortedKeys(s, f, j, l);
    AtLeastAntisymmetric(Key(s[i], f), Key(s[j], f));
  }

  /** A descending list whose first and last keys agree is all one tie. */
  lemma EndsTied(s: seq<Record>, f: nat)
    requires SortedDesc(s) && |s| > 0
    requires Key(s[0], f) == Key(s[|s| - 1], f)
    ensures AllTied(s, f)
  {
    forall x, y | x in s && y in s ensures Key(x, f) == Key(y, f) {
      var a :| 0 <= a < |s| && s[a] == x;
      var b :| 0 <= b < |s| && s[b] == y;
      Convex(s, f, 0, a, |s| - 1);
      Convex(s, f, 0, b, |s| - 1);
    }
  }

  /** Two positions in one tie run see the same run edges. */
  lemma SameRun(s: seq<Record>, f: nat, i: nat, j: nat)
    requires SortedDesc(s) && i <= j < |s|
    requires Key(s[i], f) == Key(s[j], f)
    ensures RunStart(s, f, i) == RunStart(s, f, j)
    ensures RunEnd(s, f, i) == RunEnd(s, f, j)
  {
    var b := RunStart(s, f, j);
    RunStartIsStart(s, f, i);
    RunStartIsStart(s, f, j);
    RunEndIsEnd(s, f, i);
    RunEndIsEnd(s, f, j);
    if b > i {
      Convex(s, f, i, b - 1, j);
    }
    assert IsRunStart(s, f, i, b);
    RunStartUnique(s, f, i, b, RunStart(s, f, i));
    var e := RunEnd(s, f, i);
    if e <= j {
      Convex(s, f, i, e, j);
    }
    assert IsRunEnd(s, f, j, e);
    RunEndUnique(s, f, j, e, RunEnd(s, f, j));
  }

  lemma {:induction false} EqualAboveFrom(s: seq<Record>, f: nat, bp: nat, offset: nat)
    requires bp < |s| && (|s| == 1 || Key(s[0], f) != Key(s[|s| - 1], f))
    requires 1 <= offset <= |s| && offset <= bp - RunStart(s, f, bp) + 1
    ensures EqualAbove(s, f, bp, offset) == bp - RunStart(s, f, bp) + 1 - offset
    decreases |s| - offset
  {
    var b := RunStart(s, f, bp);
    RunStartIsStart(s, f, bp);
    if offset < |s| && offset <= bp - b {
      assert PyIndex(bp - offset, |s|) == bp - offset;
      EqualAboveFrom(s, f, bp, offset + 1);
    } else if offset < |s| && b == 0 {
      assert PyIndex(bp - offset, |s|) == |s| - 1;
    }
  }

  /** Unless two or more records are all tied, the backward scan as written
      counts exactly the tied records between the start of the run and `bp`:
      it never wraps around to the end of the list. */
  lemma EqualAboveIsRunLength(s: seq<Record>, f: nat, bp: nat)
    requires SortedDesc(s) && NoWrap(s, f) && bp < |s|
    ensures EqualAbove(s, f, bp, 1) == bp - RunStart(s, f, bp)
  {
    if |s| > 1 && Key(s[0], f) == Key(s[|s| - 1], f) {
      EndsTied(s, f);
    }
    EqualAboveFrom(s, f, bp, 1);
  }

  /** What the majority rule achieves with `above` tied records before `bp`
      and `below` from `bp` on. The forward count is at least one, so the
      "no tie at all" branch is taken exactly when the record before `bp`
      has a different key; a strict majority above sends the whole run to
      the upper class; otherwise, an even split included, the whole run goes
      to the lower class. */
  ghost predicate MajorityMoves(s: seq<Record>, f: nat, bp: int, above: nat, below: nat)
    requires 0 <= bp < |s|
  {
    var adjusted := AdjustBreakpoint(bp, above, below);
    && below >= 1
    && IsRunStart(s, f, bp, bp - above)
    && IsRunEnd(s, f, bp, bp + below)
    && (above == 0 <==> (bp == 0 || Key(s[bp - 1], f) != Key(s[bp], f)))
    && (above == 0 ==> adjusted == bp)
    && (above > below ==> IsRunEnd(s, f, bp, adjusted))
    && (above <= below ==> IsRunStart(s, f, bp, adjusted))
  }

  /** The majority rule applied to the run counts around `bp`. */
  lemma MajorityOfRun(s: seq<Record>, f: nat, bp: nat, above: nat, below: nat)
    requires bp < |s| && above == bp - RunStart(s, f, bp) && below == EqualBelow(s, f, bp, 0)
    ensures MajorityMoves(s, f, bp, above, below)
  {
    var b, e := RunStart(s, f, bp), RunEnd(s, f, bp);
    RunStartIsStart(s, f, bp);
    RunEndIsEnd(s, f, bp);
    assert e == bp + below;
    if above > below {
      assert AdjustBreakpoint(bp, above, below) == e;
    } else {
      assert AdjustBreakpoint(bp, above, below) == b;
    }
  }

  /** The majority rule as written, on a descending list that is not all one
      tie: the scans count exactly the run around `bp`. */
  lemma MajorityRule(s: seq<Record>, f: nat, bp: nat)
    requires SortedDesc(s) && NoWrap(s, f) && bp < |s|
    ensures MajorityMoves(s, f, bp, EqualAbove(s, f, bp, 1), EqualBelow(s, f, bp, 0))
  {
    EqualAboveIsRunLength(s, f, bp);
    MajorityOfRun(s, f, bp, EqualAbove(s, f, bp, 1), EqualBelow(s, f, bp, 0));
  }

  /** The adjustment with the backward scan stopping at the head of the list:
      the breakpoint moves to the end of its tie run when more of the run
      lies before it than from it on, and to the start of the run otherwise.
      Either way it lands on a position no tie straddles. */
  function CorrectedAdjust(s: seq<Record>, f: nat, bp: nat): (a: int)
    requires bp < |s|
    ensures bp - RunStart(s, f, bp) > RunEnd(s, f, bp) - bp ==> a == RunEnd(s, f, bp)
    ensures bp - RunStart(s, f, bp) <= RunEnd(s, f, bp) - bp ==> a == RunStart(s, f, bp)
    ensures 0 <= a <= |s|
    ensures 0 < a < |s| ==> Key(s[a - 1], f) != Key(s[a], f)
  {
    RunStartIsStart(s, f, bp);
    RunEndIsEnd(s, f, bp);
    AdjustBreakpoint(bp, bp - RunStart(s, f, bp), RunEnd(s, f, bp) - bp)
  }

  /** Two breakpoints in order stay in order after adjustment: inside one
      run the later one is at least as far past the run's midpoint. */
  lemma CorrectedAdjustMonotone(s: seq<Record>, f: nat, bp1: nat, bp2: nat)
    requires SortedDesc(s) && bp1 <= bp2 < |s|
    ensures CorrectedAdjust(s, f, bp1) <= CorrectedAdjust(s, f, bp2)
  {
    if Key(s[bp1], f) == Key(s[bp2], f) {
      SameRun(s, f, bp1, bp2);
    } else {
      var e1, b2 := RunEnd(s, f, bp1), RunStart(s, f, bp2);
      RunEndIsEnd(s, f, bp1);
      RunStartIsStart(s, f, bp2);
      RunEndBefore(s, f, bp1, e1, bp2);
      RunStartAfter(s, f, bp2, b2, bp1);
    }
  }
}
