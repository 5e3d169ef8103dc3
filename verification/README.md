# Lewis Class scorer in Dafny

This project models `LewisClassScorer` from `lewis_class.py`. The function
ranks a list of score records and divides them into a fixed number of
classes (skill tiers) of roughly equal size. It moves each class boundary so
that records with the same score key stay together.

A record is a list of fields: integer scores and text such as a name. The
score key is the first `scoring_fields` fields. The scorer runs in four steps,
each modelled in its own module:

1. `Sorting`: sort the records in descending Python 2 order. Whole records
   are compared, payload included. The order itself is defined in `Lex` and
   `Records`.
2. `Breakpoints`: compute nominal class starts `i * (n / k)`, plus one when
   `i > k - n % k`.
3. `Ties`: scan backward and forward from each nominal start to count tied
   records, then apply the majority rule to move the start.
4. `Classes`: slice the sorted list at the adjusted starts, using Python
   slice semantics. This includes negative indices, and the last class runs
   to the end of the list.

`Scorer` puts the steps together, including the exceptions the code raises.
`Scenarios` states the fixed scenarios of `lewis_class_test.py` for every
shuffle of their input. `Findings` holds the counterexample for the second
finding below.

The backward scan is modelled as written, including Python's wrap-around on
negative indices. Next to it is a corrected scan that stops at the head of
the list. The main theorems are proved for the corrected scan. They carry
over to the code whenever the list is not made entirely of two or more tied
records (`NoWrap`), because then the two scans agree (`Classes.AsWrittenIsCorrected`).

What the code does at its edges, as the model states it:

- An even split of a tie (as many tied records before the nominal start as
  from it on) goes to the lower class: the code moves the start back by the
  count above (`lewis_class.py:126-129`). The 85/85 pair of
  `test_group_boundary_shifts_up` lands in the last class.
- An empty input with `num_classes >= 1` raises `IndexError` when the
  class winning scores are read (`lewis_class.py:102`).
- The backward scan is not bounded by the head of the list: `scores[bp - offset]`
  takes a negative index as Python's wrap-around (`lewis_class.py:113`). On a
  list that is all one tie it reads the end of the list (see Findings).
- A `scoring_fields` larger than a record is not an error: the slice
  `[0:scoring_fields]` keeps the whole record (`lewis_class.py:110`).

## Model

| member | source | states |
|---|---|---|
| Records.FieldLess | lewis_class.py:83 | Python 2 `<` on two fields: integers by value, any integer below any string, strings by character code; its order laws are `Records.FieldOrder` |
| Records.RecordLess | lewis_class.py:83 | Python 2 `<` on two records: the first differing field decides, and a proper prefix ranks lower |
| Records.FieldOrder | lewis_class.py:83 | Python 2 field comparison is a strict total order: integers by value, every integer below every string, strings by character code |
| Records.AtLeastTotal | lewis_class.py:83 | any two records are comparable under the descending sort order |
| Records.AtLeastAntisymmetric | lewis_class.py:83 | two records that each rank at or above the other are equal |
| Records.KeyMonotone | lewis_class.py:110-113 | ranking two whole records ranks their score keys `[0:scoring_fields]` the same way |
| Lex.Prefix | lewis_class.py:110 | `r[0:scoring_fields]` is the first `min(scoring_fields, len(r))` fields of `r`, in order |
| Records.Key | lewis_class.py:110 | the score key of a record is `Lex.Prefix` of its fields |
| Records.KeyWholeRecord | lewis_class.py:73-75 | a score-field count at or past the record length keeps every field, so only exact duplicates tie |
| Sorting.SortDescending | lewis_class.py:83 | the sorted list is in descending order and is a permutation of the input |
| Sorting.SortedUnique | lewis_class.py:83 | a multiset of records has only one descending arrangement, so any correct sort gives the same list |
| Sorting.SortIgnoresInputOrder | lewis_class.py:83 | shuffled inputs sort to the same list |
| Breakpoints.Nominal | lewis_class.py:92-96 | class `i` nominally starts at `i * (n / k)` or one past it, and class 0 at 0 |
| Breakpoints.NominalList | lewis_class.py:91-96 | one nominal start per class number, the first at 0 |
| Breakpoints.NominalValid | lewis_class.py:85-96 | for a non-empty list, the nominal starts begin at 0, never decrease, and each indexes a record |
| Breakpoints.NominalIsEvenForSmallRemainder | lewis_class.py:85-96 | when `n % k <= 2` the code's starts equal the even spread |
| Breakpoints.NominalUnevenExample | lewis_class.py:93-95 | 7 records in 4 classes get starts 0, 1, 3, 4: the third class has 1 record and the last has 3 |
| Breakpoints.EvenNominalSizes | lewis_class.py:85-96 | under the even spread every class holds `n / k` records, and the last `n % k` classes hold one more |
| Breakpoints.EvenNominalValid | lewis_class.py:85-96 | the even spread also gives valid class starts |
| Ties.EqualAbove | lewis_class.py:111-116 | the backward count from `offset` is at most the `len(scores) - offset` offsets the loop visits; `Ties.EqualAboveIsRunLength` gives its value |
| Ties.EqualBelow | lewis_class.py:117-124 | the forward count covers exactly the records from `bp` on that share its key: all of them tie, and the next record differs or the list ends |
| Ties.EqualAboveIsRunLength | lewis_class.py:110-116 | unless the list is all one tie, the backward scan as written counts exactly the tied records between the start of the run and `bp` |
| Ties.RunStartIsStart | lewis_class.py:112-116 | the backward scan that stops at the head finds the first record of the run around `i` |
| Ties.AdjustBreakpoint | lewis_class.py:126-138 | the majority rule on the two counts, as written; `Ties.AdjustBreakpointBounds` states what it does |
| Ties.AdjustBreakpointBounds | lewis_class.py:126-138 | a start moves at most `above` back and at most `below` forward, and stays where it is exactly when one side has no tie |
| Ties.MajorityRule | lewis_class.py:106-138 | on a sorted list that is not all one tie, the count below is at least 1 and the scans find the run's edges. With no tie above, the start stays. A strict majority above moves it to the run's end; otherwise, an even split included, it moves to the run's start |
| Ties.CorrectedAdjust | lewis_class.py:126-138 | the corrected adjustment applies the same majority rule to the run's edges. Its result is a list position with no tie across it |
| Ties.CorrectedAdjustMonotone | lewis_class.py:106-138 | adjusting two starts in order keeps them in order |
| Classes.PyBound | lewis_class.py:144-148 | a slice bound lands in `[0, n]`: an in-range bound is itself, a negative one at least `-n` counts from the end |
| Classes.PySlice | lewis_class.py:144-148 | a slice is never longer than the list, and between ordered in-range bounds it is exactly the records between them |
| Classes.Groups | lewis_class.py:143-149 | one class per start, `scores[bp:next]` or `scores[bp:]` for the last, none longer than the list |
| Classes.AdjustedAsWritten | lewis_class.py:106-138 | one adjusted start per nominal start, class 0's unchanged; `Classes.AsWrittenAt` gives each position |
| Classes.GroupsPartition | lewis_class.py:143-149 | slicing at ordered starts gives classes that concatenate back to the list |
| Classes.GroupSizes | lewis_class.py:143-149 | each class has as many records as lie between its start and the next (or the end) |
| Classes.GroupsKeepTies | lewis_class.py:143-149 | slicing a descending list at starts that no tie straddles puts no score key in two classes |
| Classes.AsWrittenAt | lewis_class.py:106-138 | class 0 keeps its start, and every later start is moved by the scans and the majority rule |
| Classes.CorrectedBreakpointsKeepTies | lewis_class.py:106-138 | the corrected starts of a descending list are ordered, begin at 0, and no tie straddles them |
| Classes.AsWrittenIsCorrected | lewis_class.py:112-116 | unless the list is all one tie, the starts as written equal the corrected starts |
| Classes.DistinctKeysKeepNominal | lewis_class.py:126-128 | when no two neighbours share a key, no start moves |
| Scorer.EmptyAt | lewis_class.py:99-102 | reading `scores[i][0]` at the nominal starts fails only when the list holds an empty record |
| Scorer.ClassesAsWritten | lewis_class.py:106-149 | one class per nominal start; `Scorer.AsWrittenKeepsTies` states what the classes hold |
| Scorer.NonEmptyRecords | lewis_class.py:99-102 | when every record is non-empty, reading the first field at each nominal start succeeds |
| Scorer.AsWrittenKeepsTies | lewis_class.py:106-149 | unless the descending list is all one tie, the classes the code cuts concatenate to the list and keep every tie together |
| Scorer.CorrectedKeepsTies | lewis_class.py:106-149 | for every descending list, the classes cut at the corrected starts concatenate to the list and keep every tie together |
| Scorer.LewisClassScorer | lewis_class.py:62-149 | zero classes raise `ZeroDivisionError` (and only zero does). A negative count returns no classes. An empty list raises `IndexError`, and non-empty records always return. The result has one class per class number; unless the input is all one tie, the classes concatenate to the sorted input and no score key is in two classes |
| Scorer.CorrectedScorer | lewis_class.py:62-149 | with the even spread and the stopping scan, the same error conditions hold (zero classes, empty input, non-empty records always return), and every result concatenates to the sorted input and keeps ties together, for any records. When `n % k >= 3` an even start can differ from the code's, so an empty record can raise here and not in the code |
| Scorer.ScorerIgnoresInputOrder | lewis_class.py:83 | shuffling the input never changes the scorer's result |
| Scorer.DistinctKeysSurviveSort | lewis_class.py:83 | sorting keeps pairwise distinct score keys distinct |
| Scorer.DistinctKeysGiveNominalSizes | lewis_class.py:85-128 | on an input in any order with pairwise distinct keys and non-empty records, class `c` has exactly the nominal size |
| Scenarios.ScoreShuffled | lewis_class.py:62-149 | if a sorted list's neighbours are ordered, its records are non-empty, its ends differ and its corrected starts and slices are known, then every shuffle of it scores to those classes |
| Scenarios.SimpleScenario | lewis_class_test.py:21-32 | nine distinct records in three classes give three classes of three, best first, whatever the input order |
| Scenarios.ShortUpperClassScenario | lewis_class_test.py:34-52 | eight records in three classes give sizes 2, 3, 3; seven in two give sizes 3, 4 |
| Scenarios.TieUsesSecondaryScenario | lewis_class_test.py:54-77 | records tied on the first field are told apart by the second scoring field, and the name field is ignored |
| Scenarios.NumericalSortingScenario | lewis_class_test.py:79-86 | integer fields rank by value (100 above 20 above 3), not by their decimal text |
| Scenarios.BoundaryAt12 | lewis_class.py:131-134 | the run of three 93s around nominal start 12 has two records above it, so the start moves down to 13; the code gives the same value on this list, which is not all one tie (`Classes.AsWrittenIsCorrected`) |
| Scenarios.BoundaryAt25 | lewis_class.py:126-129 | the 85/85 pair split evenly at nominal start 25 moves back to 24, putting both in the lower class; the code gives the same value on this list (`Classes.AsWrittenIsCorrected`) |
| Scenarios.BoundaryShiftsScenario | lewis_class_test.py:88-163 | the 32 records in five classes give classes of 6, 7, 4, 7 and 8 records as the test lists them, whatever the input order |
| Findings.TripleScans | lewis_class.py:112-124 | for three tied records, the backward scan from start 1 counts 2 by wrapping through index -1. Its forward scan counts 2, and from start 2 the counts are 2 and 1 |
| Findings.TripleScoredAsWritten | lewis_class.py:62-149 | three tied one-field records in three classes score as written to classes of 2, 1 and 0 records |
| Findings.TripleScoredCorrected | lewis_class.py:62-149 | the corrected scorer puts all three in the middle class |
| Findings.AllTiedSplits | lewis_class.py:112-116 | as written, those three tied records end up in two classes; the corrected classes keep the tie together |
| Findings.PairDuplicated | lewis_class.py:112-149 | as written, two tied one-field records in three classes come back as classes of 1, 0 and 2 records: three records for an input of two |

## Left out

- `main`, argument parsing, reading space-separated score lines (skipping blank and `#` lines) and printing are input/output glue, so they are not modelled.
- The Python defaults `num_classes=3` and `scoring_fields=1` are not modelled: callers pass both arguments.
- A `scoring_fields` of `None` is not a separate case. It is modelled by any field count at or past the longest record (`Records.KeyWholeRecord`).
- A negative `scoring_fields` is not modelled, because slicing with a negative bound is not part of the scorer's contract.
- Floating-point scores and other Python types are left out; fields are integers or strings only.
- String comparison is by Unicode code point. Python 2 byte-string comparison agrees with it for ASCII names, and other encodings are not modelled.
- The sort is modelled on immutable sequences, not in place. `Sorting.SortedUnique` makes every correct sort give the same result, so the choice of algorithm does not matter.
- The commented-out debug prints are left out.

## Findings

| source | as written | input that shows it | evidently intended | confidence | as-written member | corrected member |
|---|---|---|---|---|---|---|
| lewis_class.py:93-95 | every start past `k - n % k` gets a fixed +1, so with a remainder of 3 or more the later classes are uneven | 7 records in 4 classes: starts 0, 1, 3, 4 give sizes 1, 2, 1, 3 | the last `n % k` classes each get one extra record (starts `i * (n / k) + max(0, i - (k - n % k))`), giving sizes 1, 2, 2, 2 | medium, not executed | Breakpoints.NominalUnevenExample | Breakpoints.EvenNominalSizes |
| lewis_class.py:112-116 | the backward scan reads `scores[bp - offset]` with a negative index once it passes the head, wrapping to the end of the list | three records `[5]` in three classes on one field: starts 0, -1, 3 give classes of 2, 1 and 0 records, splitting the tie. Two records `[5]` in three classes: starts 0, -1, 0 give classes of 1, 0 and 2 records, so one record appears twice | the scan stops at index 0, so the start moves to 0 and all three records share one class | high, not executed | Findings.AllTiedSplits | Scorer.CorrectedScorer |
