/** From breakpoints to classes: the adjusted breakpoint list and the slicing
    of the sorted list into one group per class. */
module Classes {
  import opened Records
  import opened Sorting
  import opened Breakpoints
  import opened Ties

  /** Where Python's slice bound `i` lands in a list of length `n`: a negative
      bound counts from the end, and the result is clamped to `[0, n]`. */
  function PyBound(i: int, n: nat): (b: nat)
    ensures b <= n
    ensures 0 <= i <= n ==> b == i
    ensures i < 0 && i + n >= 0 ==> b == i + n
  {
    if i < 0 then (if i + n < 0 then 0 else i + n)
    else if i > n then n
    else i
  }

  /** Python's `s[i:j]`. */
  function PySlice<T>(s: seq<T>, i: int, j: int): (r: seq<T>)
    ensures |r| <= |s|
    ensures 0 <= i <= j <= |s| ==> r == s[i..j]
  {
    var lo, hi := PyBound(i, |s|), PyBound(j, |s|);
    if lo < hi then s[lo..hi] else []
  }

  /** Class `c` is `scores[bps[c]:bps[c + 1]]`; the last class, whose
      successor lookup raises `IndexError`, is `scores[bps[c]:]`. */
  function Groups(s: seq<Record>, bps: seq<int>): (gs: seq<seq<Record>>)
    ensures |gs| == |bps|
    ensures forall c :: 0 <= c < |gs| ==> |gs[c]| <= |s|
  {
    seq(|bps|, c requires 0 <= c < |bps| =>
      if c + 1 < |bps| then PySlice(s, bps[c], bps[c + 1]) else PySlice(s, bps[c], |s|))
  }

  function Concat(gs: seq<seq<Record>>): seq<Record> {
    if |gs| == 0 then [] else gs[0] + Concat(gs[1..])
  }

  /** Class starts that slice an `n`-record list without gaps or overlaps. */
  ghost predicate Ordered(bps: seq<int>, n: nat) {
    && |bps| >= 1
    && bps[0] == 0
    && (forall i, j :: 0 <= i <= j < |bps| ==> bps[i] <= bps[j])
    && (forall i :: 0 <= i < |bps| ==> 0 <= bps[i] <= n)
  }

  /** No class start falls between two records with the same score key. */
  ghost predicate KeepsTies(s: seq<Record>, f: nat, bps: seq<int>) {
    forall c :: 0 <= c < |bps| && 0 < bps[c] < |s| ==> Key(s[bps[c] - 1], f) != Key(s[bps[c]], f)
  }

  /** No score key occurs in two different classes. */
  ghost predicate NoSplitTies(gs: seq<seq<Record>>, f: nat) {
    forall g, h, x, y :: 0 <= g < h < |gs| && x in gs[g] && y in gs[h] ==> Key(x, f) != Key(y, f)
  }

  function Stop(bps: seq<int>, n: nat, c: nat): int
    requires c < |bps|
  {
    if c + 1 < |bps| then bps[c + 1] else n
  }

  lemma GroupAt(s: seq<Record>, bps: seq<int>, c: nat)
    requires Ordered(bps, |s|) && c < |bps|
    ensures bps[c] <= Stop(bps, |s|, c) <= |s|
    ensures Groups(s, bps)[c] == s[bps[c]..Stop(bps, |s|, c)]
  {
    if c + 1 < |bps| {
      assert bps[c] <= bps[c + 1];
    }
  }

  lemma ConcatStep(gs: seq<seq<Record>>, c: nat)
    requires c < |gs|
    ensures Concat(gs[c..]) == gs[c] + Concat(gs[c + 1..])
  {
    assert gs[c..][1..] == gs[c + 1..];
  }

  lemma SliceSplit(s: seq<Record>, lo: int, mid: int)
    requires 0 <= lo <= mid <= |s|
    ensures s[lo..] == s[lo..mid] + s[mid..]
  {
  }

  lemma {:induction false} ConcatFrom(s: seq<Record>, bps: seq<int>, c: nat)
    requires Ordered(bps, |s|) && c < |bps|
    ensures Concat(Groups(s, bps)[c..]) == s[bps[c]..]
    decreases |bps| - c
  {
    var gs := Groups(s, bps);
    GroupAt(s, bps, c);
    ConcatStep(gs, c);
    if c + 1 < |bps| {
      ConcatFrom(s, bps, c + 1);
      SliceSplit(s, bps[c], bps[c + 1]);
    } else {
      assert gs[c + 1..] == [];
    }
  }

  /** Ordered class starts cut the list into consecutive slices whose
      concatenation is the whole list: nothing lost, repeated or reordered. */
  lemma GroupsPartition(s: seq<Record>, bps: seq<int>)
    requires Ordered(bps, |s|)
    ensures |Groups(s, bps)| == |bps|
    ensures forall c :: 0 <= c < |bps| ==> Groups(s, bps)[c] == s[bps[c]..Stop(bps, |s|, c)]
    ensures Concat(Groups(s, bps)) == s
  {
    ConcatFrom(s, bps, 0);
    assert Groups(s, bps)[0..] == Groups(s, bps);
  }

  /** Each class holds the records from its start up to the next class's start. */
  lemma GroupSizes(s: seq<Record>, bps: seq<int>)
    requires Ordered(bps, |s|)
    ensures forall c :: 0 <= c < |bps| ==> |Groups(s, bps)[c]| == ClassSize(bps, |s|, c)
  {
    GroupsPartition(s, bps);
  }

  /** Records on opposite sides of a tie-free class start have different keys. */
  lemma KeysDifferAcross(s: seq<Record>, f: nat, p: int, b: int, q: int)
    requires SortedDesc(s) && 0 <= p < b <= q < |s|
    requires Key(s[b - 1], f) != Key(s[b], f)
    ensures Key(s[p], f) != Key(s[q], f)
  {
    SortedKeys(s, f, p, b - 1);
    SortedKeys(s, f, b - 1, b);
    SortedKeys(s, f, b, q);
    StrictChain(Key(s[p], f), Key(s[b - 1], f), Key(s[b], f), Key(s[q], f));
  }

  lemma SlicePosition(s: seq<Record>, lo: int, hi: int, x: Record) returns (p: int)
    requires 0 <= lo <= hi <= |s| && x in s[lo..hi]
    ensures lo <= p < hi && s[p] == x
  {
    var g := s[lo..hi];
    var a :| 0 <= a < |g| && g[a] == x;
    p := lo + a;
  }

  /** A member of class `c` sits at a position between the class's start and stop. */
  lemma MemberPosition(s: seq<Record>, bps: seq<int>, c: nat, x: Record) returns (p: int)
    requires Ordered(bps, |s|) && c < |bps| && x in Groups(s, bps)[c]
    ensures bps[c] <= p < Stop(bps, |s|, c) && s[p] == x
  {
    GroupAt(s, bps, c);
    p := SlicePosition(s, bps[c], Stop(bps, |s|, c), x);
  }

  lemma PositionsDiffer(s: seq<Record>, f: nat, bps: seq<int>, g: nat, h: nat, p: int, q: int)
    requires SortedDesc(s) && Ordered(bps, |s|) && KeepsTies(s, f, bps)
    requires g < h < |bps| && 0 <= p < Stop(bps, |s|, g) && bps[h] <= q < |s|
    ensures Key(s[p], f) != Key(s[q], f)
  {
    var b := bps[g + 1];
    assert b <= bps[h];
    assert 0 < b < |s|;
    assert Key(s[b - 1], f) != Key(s[b], f);
    KeysDifferAcross(s, f, p, b, q);
  }

  /** With a descending list and tie-free class starts, every tie lies inside
      one class. */
  lemma GroupsKeepTies(s: seq<Record>, f: nat, bps: seq<int>)
    requires SortedDesc(s) && Ordered(bps, |s|) && KeepsTies(s, f, bps)
    ensures NoSplitTies(Groups(s, bps), f)
  {
    var gs := Groups(s, bps);
    forall g, h, x, y | 0 <= g < h < |gs| && x in gs[g] && y in gs[h]
      ensures Key(x, f) != Key(y, f)
    {
      var p := MemberPosition(s, bps, g, x);
      var q := MemberPosition(s, bps, h, y);
      PositionsDiffer(s, f, bps, g, h, p, q);
    }
  }

  /** The scans and the majority rule as written, applied to each start in
      `rest` in turn. */
  function ScanAdjusted(s: seq<Record>, f: nat, rest: seq<int>): (r: seq<int>)
    requires forall c :: 0 <= c < |rest| ==> 0 <= rest[c] < |s|
    ensures |r| == |rest|
  {
    if |rest| == 0 then []
    else
      var bp := rest[0];
      [AdjustBreakpoint(bp, EqualAbove(s, f, bp, 1), EqualBelow(s, f, bp, 0))] + ScanAdjusted(s, f, rest[1..])
  }

  /** The corrected adjustment applied to each start in `rest` in turn. */
  function CorrectedRest(s: seq<Record>, f: nat, rest: seq<int>): (r: seq<int>)
    requires forall c :: 0 <= c < |rest| ==> 0 <= rest[c] < |s|
    ensures |r| == |rest|
  {
    if |rest| == 0 then [] else [CorrectedAdjust(s, f, rest[0])] + CorrectedRest(s, f, rest[1..])
  }

  /** Lines 106-138: every breakpoint but the first is adjusted by the scans
      around its nominal position. */
  function AdjustedAsWritten(s: seq<Record>, f: nat, nominal: seq<int>): (bps: seq<int>)
    requires forall c :: 0 <= c < |nominal| ==> 0 <= nominal[c] < |s|
    ensures |bps| == |nominal|
    ensures |nominal| > 0 ==> bps[0] == nominal[0]
  {
    if |nominal| == 0 then [] else [nominal[0]] + ScanAdjusted(s, f, nominal[1..])
  }

  /** The same adjustment with a backward scan that stops at the head of the list. */
  function AdjustedCorrected(s: seq<Record>, f: nat, nominal: seq<int>): seq<int>
    requires forall c :: 0 <= c < |nominal| ==> 0 <= nominal[c] < |s|
  {
    if |nominal| == 0 then [] else [nominal[0]] + CorrectedRest(s, f, nominal[1..])
  }

  lemma {:induction false} ScanAdjustedAt(s: seq<Record>, f: nat, rest: seq<int>, c: nat)
    requires forall i :: 0 <= i < |rest| ==> 0 <= rest[i] < |s|
    requires c < |rest|
    ensures ScanAdjusted(s, f, rest)[c]
      == AdjustBreakpoint(rest[c], EqualAbove(s, f, rest[c], 1), EqualBelow(s, f, rest[c], 0))
    decreases c
  {
    if c > 0 {
      ScanAdjustedAt(s, f, rest[1..], c - 1);
    }
  }

  lemma {:induction false} CorrectedRestAt(s: seq<Record>, f: nat, rest: seq<int>, c: nat)
    requires forall i :: 0 <= i < |rest| ==> 0 <= rest[i] < |s|
    requires c < |rest|
    ensures CorrectedRest(s, f, rest)[c] == CorrectedAdjust(s, f, rest[c])
    decreases c
  {
    if c > 0 {
      CorrectedRestAt(s, f, rest[1..], c - 1);
    }
  }

  /** Class 0 keeps its start; every later class `c` starts where the scans
      and the majority rule move its nominal start. */
  lemma AsWrittenAt(s: seq<Record>, f: nat, nominal: seq<int>, c: nat)
    requires forall i :: 0 <= i < |nominal| ==> 0 <= nominal[i] < |s|
    requires c < |nominal|
    ensures |AdjustedAsWritten(s, f, nominal)| == |nominal|
    ensures AdjustedAsWritten(s, f, nominal)[c] == if c == 0 then nominal[0]
      else AdjustBreakpoint(nominal[c], EqualAbove(s, f, nominal[c], 1), EqualBelow(s, f, nominal[c], 0))
  {
    if c > 0 {
      ScanAdjustedAt(s, f, nominal[1..], c - 1);
    }
  }

  /** Class 0 keeps its start; every later class `c` starts where the
      corrected adjustment moves its nominal start. */
  lemma CorrectedAt(s: seq<Record>, f: nat, nominal: seq<int>, c: nat)
    requires forall i :: 0 <= i < |nominal| ==> 0 <= nominal[i] < |s|
    requires c < |nominal|
    ensures |AdjustedCorrected(s, f, nominal)| == |nominal|
    ensures AdjustedCorrected(s, f, nominal)[c] == if c == 0 then nominal[0] else CorrectedAdjust(s, f, nominal[c])
  {
    if c > 0 {
      CorrectedRestAt(s, f, nominal[1..], c - 1);
    }
  }

  lemma AdjustedCorrectedAt(s: seq<Record>, f: nat, nominal: seq<int>, c: nat)
    requires ValidNominal(nominal, |s|) && c < |nominal|
    ensures 0 <= AdjustedCorrected(s, f, nominal)[c] <= |s|
    ensures var b := AdjustedCorrected(s, f, nominal)[c];
      0 < b < |s| ==> Key(s[b - 1], f) != Key(s[b], f)
  {
    CorrectedAt(s, f, nominal, c);
  }

  /** Adjusting valid nominal breakpoints of a descending list yields ordered
      class starts, none of which splits a tie, with class 0 still at 0. */
  lemma CorrectedBreakpointsKeepTies(s: seq<Record>, f: nat, nominal: seq<int>)
    requires SortedDesc(s) && ValidNominal(nominal, |s|)
    ensures Ordered(AdjustedCorrected(s, f, nominal), |s|)
    ensures KeepsTies(s, f, AdjustedCorrected(s, f, nominal))
  {
    var bps := AdjustedCorrected(s, f, nominal);
    CorrectedAt(s, f, nominal, 0);
    forall i, j | 0 <= i <= j < |bps| ensures bps[i] <= bps[j] {
      CorrectedAt(s, f, nominal, j);
      if 0 < i {
        CorrectedAt(s, f, nominal, i);
        CorrectedAdjustMonotone(s, f, nominal[i], nominal[j]);
      } else {
        AdjustedCorrectedAt(s, f, nominal, j);
      }
    }
    forall c | 0 <= c < |bps|
      ensures 0 <= bps[c] <= |s|
      ensures 0 < bps[c] < |s| ==> Key(s[bps[c] - 1], f) != Key(s[bps[c]], f)
    {
      AdjustedCorrectedAt(s, f, nominal, c);
    }
  }

  /** Unless two or more records are all tied, the breakpoints as written
      are the corrected ones. */
  lemma AsWrittenIsCorrected(s: seq<Record>, f: nat, nominal: seq<int>)
    requires SortedDesc(s) && NoWrap(s, f)
    requires forall c :: 0 <= c < |nominal| ==> 0 <= nominal[c] < |s|
    ensures AdjustedAsWritten(s, f, nominal) == AdjustedCorrected(s, f, nominal)
  {
    var written, corrected := AdjustedAsWritten(s, f, nominal), AdjustedCorrected(s, f, nominal);
    if |nominal| > 0 {
      CorrectedAt(s, f, nominal, 0);
      AsWrittenAt(s, f, nominal, 0);
    }
    forall c | 0 <= c < |nominal| ensures written[c] == corrected[c] {
      AsWrittenAt(s, f, nominal, c);
      CorrectedAt(s, f, nominal, c);
      if c > 0 {
        EqualAboveIsRunLength(s, f, nominal[c]);
      }
    }
  }

  /** When no two neighbours share a key, no breakpoint moves. */
  lemma DistinctKeysKeepNominal(s: seq<Record>, f: nat, nominal: seq<int>)
    requires forall i :: 0 <= i < |s| - 1 ==> Key(s[i], f) != Key(s[i + 1], f)
    requires forall c :: 0 <= c < |nominal| ==> 0 <= nominal[c] < |s|
    ensures AdjustedCorrected(s, f, nominal) == nominal
  {
    var bps := AdjustedCorrected(s, f, nominal);
    if |nominal| > 0 {
      CorrectedAt(s, f, nominal, 0);
    }
    forall c | 0 <= c < |nominal| ensures bps[c] == nominal[c] {
      CorrectedAt(s, f, nominal, c);
      var bp := nominal[c];
      assert IsRunStart(s, f, bp, bp);
      RunStartUnique(s, f, bp, bp, RunStart(s, f, bp));
      assert IsRunEnd(s, f, bp, bp + 1);
      RunEndUnique(s, f, bp, bp + 1, RunEnd(s, f, bp));
    }
  }
}
