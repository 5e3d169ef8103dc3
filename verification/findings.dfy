/** The backward tie scan as written wraps around when every record shares
    one key: three tied records in three classes come out split. */
module Findings {
  import opened Records
  import opened Sorting
  import opened Breakpoints
  import opened Ties
  import opened Classes
  import opened Scorer

  /** Three copies of `r` are already in descending order. */
  lemma TripleSorted(r: Record)
    ensures SortDescending([r, r, r]) == [r, r, r]
  {
    var s := [r, r, r];
    assert SortedDesc(s);
    SortedUnique(SortDescending(s), s);
  }

  /** The scans as written around the nominal starts 1 and 2 of three tied
      records: from 1 the backward scan counts `scores[0]` and then, through
      index -1, `scores[2]`; from 2 it counts `scores[1]` and `scores[0]`. */
  lemma TripleScans(r: Record)
    requires |r| >= 1
    ensures EqualAbove([r, r, r], 1, 1, 1) == 2 && EqualBelow([r, r, r], 1, 1, 0) == 2
    ensures EqualAbove([r, r, r], 1, 2, 1) == 2 && EqualBelow([r, r, r], 1, 2, 0) == 1
  {
    var s := [r, r, r];
    assert PyIndex(1 - 2, 3) == 2;
  }

  lemma TripleAsWritten(r: Record)
    requires |r| >= 1
    ensures AdjustedAsWritten([r, r, r], 1, [0, 1, 2]) == [0, -1, 3]
  {
    var s, nominal := [r, r, r], [0, 1, 2];
    TripleScans(r);
    AsWrittenAt(s, 1, nominal, 0);
    AsWrittenAt(s, 1, nominal, 1);
    AsWrittenAt(s, 1, nominal, 2);
  }

  lemma TripleCorrected(r: Record)
    requires |r| >= 1
    ensures AdjustedCorrected([r, r, r], 1, [0, 1, 2]) == [0, 0, 3]
  {
    var s, nominal := [r, r, r], [0, 1, 2];
    assert IsRunStart(s, 1, 1, 0) && IsRunEnd(s, 1, 1, 3);
    assert IsRunStart(s, 1, 2, 0) && IsRunEnd(s, 1, 2, 3);
    RunStartIsStart(s, 1, 1);
    RunStartIsStart(s, 1, 2);
    RunStartUnique(s, 1, 1, 0, RunStart(s, 1, 1));
    RunStartUnique(s, 1, 2, 0, RunStart(s, 1, 2));
    CorrectedAt(s, 1, nominal, 0);
    CorrectedAt(s, 1, nominal, 1);
    CorrectedAt(s, 1, nominal, 2);
  }

  /** Slicing three records at the starts as written and as corrected. */
  lemma TripleGroups(r: Record)
    ensures Groups([r, r, r], [0, -1, 3]) == [[r, r], [r], []]
    ensures Groups([r, r, r], [0, 0, 3]) == [[], [r, r, r], []]
  {
    var s := [r, r, r];
    var written, corrected := Groups(s, [0, -1, 3]), Groups(s, [0, 0, 3]);
    assert PyBound(-1, 3) == 2;
    assert written[0] == s[0..2] == [r, r];
    assert written[1] == s[2..3] == [r];
    assert written[2] == [];
    assert corrected[0] == [];
    assert corrected[1] == s[0..3] == s;
    assert corrected[2] == [];
  }

  lemma TripleScoredAsWritten(r: Record)
    requires |r| >= 1
    ensures LewisClassScorer([r, r, r], 3, 1) == Returned([[r, r], [r], []])
  {
    TripleSorted(r);
    assert NominalList(3, 3) == [0, 1, 2];
    assert !EmptyAt([r, r, r], [0, 1, 2]);
    TripleAsWritten(r);
    TripleGroups(r);
  }

  lemma TripleScoredCorrected(r: Record)
    requires |r| >= 1
    ensures CorrectedScorer([r, r, r], 3, 1) == Returned([[], [r, r, r], []])
  {
    TripleSorted(r);
    assert EvenNominalList(3, 3) == [0, 1, 2];
    assert !EmptyAt([r, r, r], [0, 1, 2]);
    TripleCorrected(r);
    TripleGroups(r);
  }

  /** The classes as written put one tie in two classes; the corrected
      classes do not. */
  lemma TripleTies(r: Record)
    ensures !NoSplitTies([[r, r], [r], []], 1)
    ensures NoSplitTies([[], [r, r, r], []], 1)
  {
    var written: seq<seq<Record>> := [[r, r], [r], []];
    assert r in written[0] && r in written[1] && Key(r, 1) == Key(r, 1);
    assert !NoSplitTies(written, 1);
  }

  /** Three records that share one key, in three classes on that key: the
      code moves the second start to -1, so the first class is
      `scores[0:-1]`, two records, and the second `scores[-1:3]`, the third;
      one tie ends up in two classes. The corrected scan keeps all three in
      one class. */
  lemma AllTiedSplits(r: Record)
    requires |r| >= 1
    ensures var written := LewisClassScorer([r, r, r], 3, 1);
      written.Returned? && !NoSplitTies(written.classes, 1)
    ensures var corrected := CorrectedScorer([r, r, r], 3, 1);
      corrected == Returned([[], [r, r, r], []]) && NoSplitTies(corrected.classes, 1)
  {
    TripleScoredAsWritten(r);
    TripleScoredCorrected(r);
    TripleTies(r);
  }

  /** Two copies of `r` are already in descending order. */
  lemma PairSorted(r: Record)
    ensures SortDescending([r, r]) == [r, r]
  {
    var s := [r, r];
    assert SortedDesc(s);
    SortedUnique(SortDescending(s), s);
  }

  /** Two tied records in three classes: the nominal starts are 0, 0 and 1.
      From start 0 the backward scan wraps through index -1 to `scores[1]`,
      so the second start moves to -1; from start 1 one tie above and one
      below move the third start back to 0. */
  lemma PairAsWritten(r: Record)
    requires |r| >= 1
    ensures AdjustedAsWritten([r, r], 1, [0, 0, 1]) == [0, -1, 0]
  {
    var s, nominal := [r, r], [0, 0, 1];
    assert PyIndex(0 - 1, 2) == 1;
    assert EqualAbove(s, 1, 0, 1) == 1 && EqualBelow(s, 1, 0, 0) == 2;
    assert EqualAbove(s, 1, 1, 1) == 1 && EqualBelow(s, 1, 1, 0) == 1;
    AsWrittenAt(s, 1, nominal, 0);
    AsWrittenAt(s, 1, nominal, 1);
    AsWrittenAt(s, 1, nominal, 2);
  }

  /** Slicing two records at 0, -1 and 0 gives `scores[0:-1]`,
      `scores[-1:0]` and `scores[0:]`. */
  lemma PairGroups(r: Record)
    ensures Groups([r, r], [0, -1, 0]) == [[r], [], [r, r]]
  {
    var s := [r, r];
    var written := Groups(s, [0, -1, 0]);
    assert PyBound(-1, 2) == 1;
    assert written[0] == s[0..1] == [r];
    assert written[1] == [];
    assert written[2] == s;
  }

  /** As written, two tied records in three classes come back as three
      records: the classes no longer partition the input. */
  lemma PairDuplicated(r: Record)
    requires |r| >= 1
    ensures LewisClassScorer([r, r], 3, 1) == Returned([[r], [], [r, r]])
    ensures |Concat([[r], [], [r, r]])| == 3
  {
    PairSorted(r);
    assert NominalList(2, 3) == [0, 0, 1];
    assert !EmptyAt([r, r], [0, 0, 1]);
    PairAsWritten(r);
    PairGroups(r);
    var gs: seq<seq<Record>> := [[r], [], [r, r]];
    assert gs[1..] == [[], [r, r]] && gs[1..][1..] == [[r, r]] && gs[1..][1..][1..] == [];
    assert Concat(gs[1..][1..]) == [r, r] + Concat([]);
    assert Concat(gs[1..]) == [] + [r, r];
    assert Concat(gs) == [r] + [r, r];
  }
}
