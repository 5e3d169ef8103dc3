/** `LewisClassScorer(scores, num_classes, scoring_fields)`: sort, nominal
    breakpoints, tie adjustment, slicing; and the same pipeline with the two
    corrections recorded under the README's findings. */
module Scorer {
  import opened Records
  import opened Sorting
  import opened Breakpoints
  import opened Ties
  import opened Classes

  /** The exceptions the scorer can raise. */
  datatype PyError = ZeroDivisionError | IndexError

  /** The scorer either returns its list of classes or raises. */
  datatype Outcome = Returned(classes: seq<seq<Record>>) | Raised(error: PyError)

  /** `scores[i][0]` fails for some nominal breakpoint `i`: an empty record
      sits there. */
  predicate EmptyAt(sorted: seq<Record>, nominal: seq<int>): (e: bool)
    requires forall c :: 0 <= c < |nominal| ==> 0 <= nominal[c] < |sorted|
    ensures e ==> exists x :: x in sorted && |x| == 0
  {
    exists c :: 0 <= c < |nominal| && |sorted[nominal[c]]| == 0
  }

  /** Records with equal keys lie in one class once a list of ordered,
      tie-free class starts slices it. */
  lemma SlicedWell(sorted: seq<Record>, f: nat, bps: seq<int>)
    requires SortedDesc(sorted) && Ordered(bps, |sorted|) && KeepsTies(sorted, f, bps)
    ensures Concat(Groups(sorted, bps)) == sorted
    ensures NoSplitTies(Groups(sorted, bps), f)
  {
    GroupsPartition(sorted, bps);
    GroupsKeepTies(sorted, f, bps);
  }

  /** Steps 2 to 4 as written, on the sorted list: one class per nominal
      breakpoint. */
  function ClassesAsWritten(sorted: seq<Record>, f: nat, nominal: seq<int>): (gs: seq<seq<Record>>)
    requires ValidNominal(nominal, |sorted|)
    ensures |gs| == |nominal|
  {
    Groups(sorted, AdjustedAsWritten(sorted, f, nominal))
  }

  /** Unless two or more records are all tied, the classes as written
      concatenate to the descending list and keep every tie together. */
  lemma AsWrittenKeepsTies(sorted: seq<Record>, f: nat, nominal: seq<int>)
    requires ValidNominal(nominal, |sorted|)
    requires SortedDesc(sorted) && NoWrap(sorted, f)
    ensures Concat(ClassesAsWritten(sorted, f, nominal)) == sorted
    ensures NoSplitTies(ClassesAsWritten(sorted, f, nominal), f)
  {
    AsWrittenIsCorrected(sorted, f, nominal);
    CorrectedBreakpointsKeepTies(sorted, f, nominal);
    SlicedWell(sorted, f, AdjustedAsWritten(sorted, f, nominal));
  }

  /** Steps 2 to 4 with the backward scan stopping at the head of the list:
      one class per nominal breakpoint. */
  function ClassesCorrected(sorted: seq<Record>, f: nat, nominal: seq<int>): (gs: seq<seq<Record>>)
    requires ValidNominal(nominal, |sorted|)
    ensures |gs| == |nominal|
  {
    Groups(sorted, AdjustedCorrected(sorted, f, nominal))
  }

  /** For every descending list, the corrected classes concatenate to it and
      keep every tie together. */
  lemma CorrectedKeepsTies(sorted: seq<Record>, f: nat, nominal: seq<int>)
    requires ValidNominal(nominal, |sorted|)
    requires SortedDesc(sorted)
    ensures Concat(ClassesCorrected(sorted, f, nominal)) == sorted
    ensures NoSplitTies(ClassesCorrected(sorted, f, nominal), f)
  {
    CorrectedBreakpointsKeepTies(sorted, f, nominal);
    SlicedWell(sorted, f, AdjustedCorrected(sorted, f, nominal));
  }

  lemma NoWrapIgnoresOrder(a: seq<Record>, b: seq<Record>, f: nat)
    requires multiset(a) == multiset(b)
    ensures NoWrap(a, f) == NoWrap(b, f)
  {
    assert |a| == |multiset(a)| == |b|;
    assert forall x :: x in a <==> x in multiset(a);
    assert forall x :: x in b <==> x in multiset(b);
  }

  lemma NonEmptyRecords(scores: seq<Record>, sorted: seq<Record>, nominal: seq<int>)
    requires multiset(sorted) == multiset(scores)
    requires forall c :: 0 <= c < |nominal| ==> 0 <= nominal[c] < |sorted|
    requires forall x :: x in scores ==> |x| >= 1
    ensures !EmptyAt(sorted, nominal)
  {
    forall c | 0 <= c < |nominal| ensures |sorted[nominal[c]]| >= 1 {
      assert sorted[nominal[c]] in multiset(scores);
    }
  }

  /** The scorer as written. Zero classes divide by zero; a negative class
      count gives no classes; an empty list, or an empty record at a nominal
      breakpoint, raises `IndexError` when the unused list of class winning
      scores is built. Otherwise there is one class per class number, and
      unless two or more records are all tied the classes, concatenated, are
      the input sorted in descending order and no score key is shared by two
      classes. */
  function LewisClassScorer(scores: seq<Record>, numClasses: int, scoringFields: nat): (r: Outcome)
    ensures r == Raised(ZeroDivisionError) <==> numClasses == 0
    ensures numClasses < 0 ==> r == Returned([])
    ensures numClasses >= 1 && |scores| == 0 ==> r == Raised(IndexError)
    ensures numClasses >= 1 && |scores| >= 1 && (forall x :: x in scores ==> |x| >= 1) ==> r.Returned?
    ensures r.Returned? && numClasses >= 1 ==> |r.classes| == numClasses
    ensures r.Returned? && numClasses >= 1 && NoWrap(scores, scoringFields) ==>
      && SortedDesc(Concat(r.classes))
      && multiset(Concat(r.classes)) == multiset(scores)
      && NoSplitTies(r.classes, scoringFields)
  {
    if numClasses == 0 then Raised(ZeroDivisionError)
    else if numClasses < 0 then Returned([])
    else
      var sorted := SortDescending(scores);
      if |sorted| == 0 then Raised(IndexError)
      else
        var nominal := NominalList(|sorted|, numClasses);
        NominalValid(|sorted|, numClasses);
        assert (forall x :: x in scores ==> |x| >= 1) ==> !EmptyAt(sorted, nominal) by {
          if forall x :: x in scores ==> |x| >= 1 {
            NonEmptyRecords(scores, sorted, nominal);
          }
        }
        if EmptyAt(sorted, nominal) then
          Raised(IndexError)
        else
          var classes := ClassesAsWritten(sorted, scoringFields, nominal);
          NoWrapIgnoresOrder(sorted, scores, scoringFields);
          assert NoWrap(sorted, scoringFields) ==> Concat(classes) == sorted && NoSplitTies(classes, scoringFields) by {
            if NoWrap(sorted, scoringFields) {
              AsWrittenKeepsTies(sorted, scoringFields, nominal);
            }
          }
          Returned(classes)
  }

  /** The scorer with the even nominal spread and a backward scan that stops
      at the head of the list. Its error conditions are those of the code,
      but with a remainder `n % k` of 3 or more an even start can differ from
      the code's, so an empty record there raises here and not in the code
      (or the other way round). When it returns, the classes concatenate to
      the sorted input and keep every tie together, whatever the records. */
  function CorrectedScorer(scores: seq<Record>, numClasses: int, scoringFields: nat): (r: Outcome)
    ensures r == Raised(ZeroDivisionError) <==> numClasses == 0
    ensures numClasses < 0 ==> r == Returned([])
    ensures numClasses >= 1 && |scores| == 0 ==> r == Raised(IndexError)
    ensures numClasses >= 1 && |scores| >= 1 && (forall x :: x in scores ==> |x| >= 1) ==> r.Returned?
    ensures r.Returned? && numClasses >= 1 ==>
      && |r.classes| == numClasses
      && SortedDesc(Concat(r.classes))
      && multiset(Concat(r.classes)) == multiset(scores)
      && NoSplitTies(r.classes, scoringFields)
  {
    if numClasses == 0 then Raised(ZeroDivisionError)
    else if numClasses < 0 then Returned([])
    else
      var sorted := SortDescending(scores);
      if |sorted| == 0 then Raised(IndexError)
      else
        var nominal := EvenNominalList(|sorted|, numClasses);
        EvenNominalValid(|sorted|, numClasses);
        assert (forall x :: x in scores ==> |x| >= 1) ==> !EmptyAt(sorted, nominal) by {
          if forall x :: x in scores ==> |x| >= 1 {
            NonEmptyRecords(scores, sorted, nominal);
          }
        }
        if EmptyAt(sorted, nominal) then
          Raised(IndexError)
        else
          CorrectedKeepsTies(sorted, scoringFields, nominal);
          Returned(ClassesCorrected(sorted, scoringFields, nominal))
  }

  /** Shuffling the input never changes the result: the first step sorts
      whole records, payload included. */
  lemma ScorerIgnoresInputOrder(a: seq<Record>, b: seq<Record>, numClasses: int, f: nat)
    requires multiset(a) == multiset(b)
    ensures LewisClassScorer(a, numClasses, f) == LewisClassScorer(b, numClasses, f)
  {
    SortIgnoresInputOrder(a, b);
  }

  /** No two records share a score key. */
  predicate DistinctKeys(s: seq<Record>, f: nat) {
    forall i, j :: 0 <= i < j < |s| ==> Key(s[i], f) != Key(s[j], f)
  }

  /** A record that occurs at two positions occurs twice in the multiset. */
  lemma CountTwice(s: seq<Record>, i: nat, j: nat)
    requires i < j < |s|
    ensures s[i] == s[j] ==> multiset(s)[s[i]] >= 2
  {
    assert s == s[..i] + [s[i]] + s[i + 1..j] + [s[j]] + s[j + 1..];
  }

  /** In a list whose keys are pairwise distinct each record occurs at most
      once. */
  lemma {:induction false} CountOnce(s: seq<Record>, f: nat, x: Record)
    requires DistinctKeys(s, f)
    ensures multiset(s)[x] <= 1
    decreases |s|
  {
    if |s| > 0 {
      assert s == [s[0]] + s[1..];
      assert DistinctKeys(s[1..], f) by {
        forall i, j | 0 <= i < j < |s| - 1 ensures Key(s[1..][i], f) != Key(s[1..][j], f) {
          assert Key(s[i + 1], f) != Key(s[j + 1], f);
        }
      }
      CountOnce(s[1..], f, x);
      forall j | 0 <= j < |s| - 1 ensures s[1..][j] != s[0] {
        assert Key(s[0], f) != Key(s[j + 1], f);
      }
      assert s[0] !in s[1..];
    }
  }

  /** Records at two different positions of such a list differ in key. */
  lemma KeysAt(s: seq<Record>, f: nat, p: nat, q: nat)
    requires DistinctKeys(s, f) && p < |s| && q < |s|
    ensures p != q ==> Key(s[p], f) != Key(s[q], f)
  {
  }

  /** Sorting keeps the score keys pairwise distinct. */
  lemma DistinctKeysSurviveSort(scores: seq<Record>, f: nat)
    requires DistinctKeys(scores, f)
    ensures DistinctKeys(SortDescending(scores), f)
  {
    var sorted := SortDescending(scores);
    forall i, j | 0 <= i < j < |sorted| ensures Key(sorted[i], f) != Key(sorted[j], f) {
      CountTwice(sorted, i, j);
      CountOnce(scores, f, sorted[i]);
      assert sorted[i] in multiset(scores) && sorted[j] in multiset(scores);
      var p :| 0 <= p < |scores| && scores[p] == sorted[i];
      var q :| 0 <= q < |scores| && scores[q] == sorted[j];
      KeysAt(scores, f, p, q);
    }
  }

  /** On a descending list of non-empty records the scorer as written
      returns the classes cut at the adjusted nominal starts. */
  lemma ScorerOnSorted(scores: seq<Record>, numClasses: int, f: nat)
    requires numClasses >= 1 && |scores| >= 1
    requires SortedDesc(scores)
    requires forall x :: x in scores ==> |x| >= 1
    ensures ValidNominal(NominalList(|scores|, numClasses), |scores|)
    ensures LewisClassScorer(scores, numClasses, f) == Returned(ClassesAsWritten(scores, f, NominalList(|scores|, numClasses)))
  {
    SortedUnique(SortDescending(scores), scores);
    NominalValid(|scores|, numClasses);
    NonEmptyRecords(scores, scores, NominalList(|scores|, numClasses));
  }

  /** On a descending list with pairwise distinct keys no start moves. */
  lemma DistinctKeysStay(s: seq<Record>, f: nat, nominal: seq<int>)
    requires SortedDesc(s) && DistinctKeys(s, f)
    requires ValidNominal(nominal, |s|)
    ensures AdjustedAsWritten(s, f, nominal) == nominal
  {
    if |s| > 1 {
      assert Key(s[0], f) != Key(s[1], f);
      assert !AllTied(s, f);
    }
    AsWrittenIsCorrected(s, f, nominal);
    DistinctKeysKeepNominal(s, f, nominal);
  }

  lemma SortedDistinctKeysGiveNominalSizes(scores: seq<Record>, numClasses: int, f: nat)
    requires numClasses >= 1 && |scores| >= 1
    requires SortedDesc(scores) && DistinctKeys(scores, f)
    requires forall x :: x in scores ==> |x| >= 1
    ensures LewisClassScorer(scores, numClasses, f).Returned?
    ensures forall c :: 0 <= c < numClasses ==>
      |LewisClassScorer(scores, numClasses, f).classes[c]| == ClassSize(NominalList(|scores|, numClasses), |scores|, c)
  {
    var nominal := NominalList(|scores|, numClasses);
    ScorerOnSorted(scores, numClasses, f);
    DistinctKeysStay(scores, f, nominal);
    GroupSizes(scores, nominal);
  }

  /** With pairwise distinct keys no breakpoint moves, so class `c` holds
      exactly as many records as the nominal breakpoints give it, in
      whatever order the records arrive. */
  lemma DistinctKeysGiveNominalSizes(scores: seq<Record>, numClasses: int, f: nat)
    requires numClasses >= 1 && |scores| >= 1
    requires DistinctKeys(scores, f)
    requires forall x :: x in scores ==> |x| >= 1
    ensures LewisClassScorer(scores, numClasses, f).Returned?
    ensures forall c :: 0 <= c < numClasses ==>
      |LewisClassScorer(scores, numClasses, f).classes[c]| == ClassSize(NominalList(|scores|, numClasses), |scores|, c)
  {
    var sorted := SortDescending(scores);
    assert |sorted| == |multiset(sorted)| == |scores|;
    DistinctKeysSurviveSort(scores, f);
    forall x | x in sorted ensures |x| >= 1 {
      assert x in multiset(scores);
    }
    SortedDistinctKeysGiveNominalSizes(sorted, numClasses, f);
    ScorerIgnoresInputOrder(scores, sorted, numClasses, f);
  }
}
