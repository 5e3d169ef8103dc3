/** The fixed scenarios of lewis_class_test.py, each for every shuffle of its
    input. Names are text fields; scores are integer fields. */
module Scenarios {
  import opened Records
  import opened Sorting
  import opened Breakpoints
  import opened Ties
  import opened Classes
  import opened Scorer

  /** What a fixed scenario establishes about its records in descending
      order: neighbours in order, no empty record, first and last keys
      different, the corrected breakpoints `bps` and the classes they cut. */
  ghost predicate ScenarioFacts(sorted: seq<Record>, k: nat, f: nat, bps: seq<int>, classes: seq<seq<Record>>) {
    && k >= 1 && |sorted| >= 1
    && (forall i :: 0 <= i < |sorted| - 1 ==> AtLeast(sorted[i], sorted[i + 1]))
    && (forall i :: 0 <= i < |sorted| ==> |sorted[i]| >= 1)
    && (|sorted| == 1 || Key(sorted[0], f) != Key(sorted[|sorted| - 1], f))
    && ValidNominal(NominalList(|sorted|, k), |sorted|)
    && AdjustedCorrected(sorted, f, NominalList(|sorted|, k)) == bps
    && Groups(sorted, bps) == classes
  }

  /** Whatever order the records of such a scenario arrive in, the scorer
      returns its classes: the list sorts to the same descending order, the
      backward scan does not wrap, and no record at a breakpoint is empty. */
  lemma ScoreShuffled(input: seq<Record>, sorted: seq<Record>, k: nat, f: nat, bps: seq<int>, classes: seq<seq<Record>>)
    requires multiset(input) == multiset(sorted)
    requires ScenarioFacts(sorted, k, f, bps, classes)
    ensures LewisClassScorer(input, k, f) == Returned(classes)
  {
    SortedFromNeighbours(sorted);
    SortedUnique(SortDescending(input), sorted);
    var nominal := NominalList(|sorted|, k);
    if |sorted| > 1 {
      assert sorted[0] in sorted && sorted[|sorted| - 1] in sorted;
    }
    AsWrittenIsCorrected(sorted, f, nominal);
    assert !EmptyAt(sorted, nominal);
  }

  /** Where the corrected adjustment sends `bp`, given the edges of its run. */
  lemma AdjustsTo(s: seq<Record>, f: nat, bp: nat, b: int, e: int)
    requires bp < |s| && IsRunStart(s, f, bp, b) && IsRunEnd(s, f, bp, e)
    ensures CorrectedAdjust(s, f, bp) == if bp - b > e - bp then e else b
  {
    RunStartIsStart(s, f, bp);
    RunEndIsEnd(s, f, bp);
    RunStartUnique(s, f, bp, b, RunStart(s, f, bp));
    RunEndUnique(s, f, bp, e, RunEnd(s, f, bp));
  }

  /** The key of a record on its leading field alone. */
  lemma KeyOne(r: Record)
    requires |r| >= 1
    ensures Key(r, 1) == [r[0]]
  {
  }

  function Pair(a: int, b: int): Record { [Num(a), Num(b)] }

  function Scored(score: int, name: string): Record { [Num(score), Text(name)] }

  const Simple: seq<Record> :=
    [Pair(9, 9), Pair(8, 8), Pair(7, 7), Pair(6, 6), Pair(5, 5), Pair(4, 4), Pair(3, 3), Pair(2, 2), Pair(1, 1)]

  const SimpleClasses: seq<seq<Record>> :=
    [[Pair(9, 9), Pair(8, 8), Pair(7, 7)], [Pair(6, 6), Pair(5, 5), Pair(4, 4)], [Pair(3, 3), Pair(2, 2), Pair(1, 1)]]

  lemma SimpleOrder()
    ensures |Simple| == 9
    ensures forall i :: 0 <= i < |Simple| - 1 ==> AtLeast(Simple[i], Simple[i + 1])
    ensures forall i :: 0 <= i < |Simple| ==> |Simple[i]| >= 1
    ensures forall i :: 0 <= i < |Simple| ==> Key(Simple[i], 2) == Simple[i]
  {
  }

  lemma SimpleBreakpoints()
    ensures AdjustedCorrected(Simple, 2, NominalList(9, 3)) == [0, 3, 6]
  {
    SimpleOrder();
    assert NominalList(9, 3) == [0, 3, 6];
    DistinctKeysKeepNominal(Simple, 2, NominalList(9, 3));
  }

  lemma SimpleGroups()
    ensures Groups(Simple, [0, 3, 6]) == SimpleClasses
  {
    var s, gs := Simple, SimpleClasses;
    GroupsPartition(s, [0, 3, 6]);
    assert |gs[0]| == 3 && gs[0][0] == s[0] && gs[0][1] == s[1] && gs[0][2] == s[2];
    assert gs[0] == [s[0], s[1], s[2]] && s[0..3] == [s[0], s[1], s[2]];
    assert |gs[1]| == 3 && gs[1][0] == s[3] && gs[1][1] == s[4] && gs[1][2] == s[5];
    assert gs[1] == [s[3], s[4], s[5]] && s[3..6] == [s[3], s[4], s[5]];
    assert |gs[2]| == 3 && gs[2][0] == s[6] && gs[2][1] == s[7] && gs[2][2] == s[8];
    assert gs[2] == [s[6], s[7], s[8]] && s[6..9] == [s[6], s[7], s[8]];
  }

  lemma SimpleFacts()
    ensures ScenarioFacts(Simple, 3, 2, [0, 3, 6], SimpleClasses)
  {
    SimpleOrder();
    NominalValid(|Simple|, 3);
    SimpleBreakpoints();
    SimpleGroups();
  }

  /** test_simple: nine records with distinct scores in three classes of three,
      whatever order they arrive in. */
  lemma SimpleScenario(input: seq<Record>)
    requires multiset(input) == multiset(Simple)
    ensures LewisClassScorer(input, 3, 2) == Returned(SimpleClasses)
  {
    SimpleFacts();
    ScoreShuffled(input, Simple, 3, 2, [0, 3, 6], SimpleClasses);
  }

  const Eight: seq<Record> :=
    [Pair(9, 9), Pair(8, 8), Pair(7, 7), Pair(6, 6), Pair(5, 5), Pair(4, 4), Pair(3, 3), Pair(1, 1)]

  const EightClasses: seq<seq<Record>> :=
    [[Pair(9, 9), Pair(8, 8)], [Pair(7, 7), Pair(6, 6), Pair(5, 5)], [Pair(4, 4), Pair(3, 3), Pair(1, 1)]]

  lemma EightOrder()
    ensures |Eight| == 8
    ensures forall i :: 0 <= i < |Eight| - 1 ==> AtLeast(Eight[i], Eight[i + 1])
    ensures forall i :: 0 <= i < |Eight| ==> |Eight[i]| >= 1
    ensures forall i :: 0 <= i < |Eight| ==> Key(Eight[i], 2) == Eight[i]
  {
  }

  lemma EightBreakpoints()
    ensures AdjustedCorrected(Eight, 2, NominalList(8, 3)) == [0, 2, 5]
  {
    EightOrder();
    assert NominalList(8, 3) == [0, 2, 5];
    DistinctKeysKeepNominal(Eight, 2, NominalList(8, 3));
  }

  lemma EightGroups()
    ensures Groups(Eight, [0, 2, 5]) == EightClasses
  {
    var s, gs := Eight, EightClasses;
    GroupsPartition(s, [0, 2, 5]);
    assert |gs[0]| == 2 && gs[0][0] == s[0] && gs[0][1] == s[1];
    assert gs[0] == [s[0], s[1]] && s[0..2] == [s[0], s[1]];
    assert |gs[1]| == 3 && gs[1][0] == s[2] && gs[1][1] == s[3] && gs[1][2] == s[4];
    assert gs[1] == [s[2], s[3], s[4]] && s[2..5] == [s[2], s[3], s[4]];
    assert |gs[2]| == 3 && gs[2][0] == s[5] && gs[2][1] == s[6] && gs[2][2] == s[7];
    assert gs[2] == [s[5], s[6], s[7]] && s[5..8] == [s[5], s[6], s[7]];
  }

  const Seven: seq<Record> :=
    [Pair(9, 9), Pair(8, 8), Pair(7, 7), Pair(6, 6), Pair(5, 5), Pair(4, 4), Pair(3, 3)]

  const SevenClasses: seq<seq<Record>> :=
    [[Pair(9, 9), Pair(8, 8), Pair(7, 7)], [Pair(6, 6), Pair(5, 5), Pair(4, 4), Pair(3, 3)]]

  lemma SevenOrder()
    ensures |Seven| == 7
    ensures forall i :: 0 <= i < |Seven| - 1 ==> AtLeast(Seven[i], Seven[i + 1])
    ensures forall i :: 0 <= i < |Seven| ==> |Seven[i]| >= 1
    ensures forall i :: 0 <= i < |Seven| ==> Key(Seven[i], 2) == Seven[i]
  {
  }

  lemma SevenBreakpoints()
    ensures AdjustedCorrected(Seven, 2, NominalList(7, 2)) == [0, 3]
  {
    SevenOrder();
    assert NominalList(7, 2) == [0, 3];
    DistinctKeysKeepNominal(Seven, 2, NominalList(7, 2));
  }

  lemma SevenGroups()
    ensures Groups(Seven, [0, 3]) == SevenClasses
  {
    var s, gs := Seven, SevenClasses;
    GroupsPartition(s, [0, 3]);
    assert |gs[0]| == 3 && gs[0][0] == s[0] && gs[0][1] == s[1] && gs[0][2] == s[2];
    assert gs[0] == [s[0], s[1], s[2]] && s[0..3] == [s[0], s[1], s[2]];
    assert |gs[1]| == 4 && gs[1][0] == s[3] && gs[1][1] == s[4] && gs[1][2] == s[5] && gs[1][3] == s[6];
    assert gs[1] == [s[3], s[4], s[5], s[6]] && s[3..7] == [s[3], s[4], s[5], s[6]];
  }

  lemma EightFacts()
    ensures ScenarioFacts(Eight, 3, 2, [0, 2, 5], EightClasses)
  {
    EightOrder();
    NominalValid(|Eight|, 3);
    EightBreakpoints();
    EightGroups();
  }

  lemma EightScenario(input: seq<Record>)
    requires multiset(input) == multiset(Eight)
    ensures LewisClassScorer(input, 3, 2) == Returned(EightClasses)
  {
    EightFacts();
    ScoreShuffled(input, Eight, 3, 2, [0, 2, 5], EightClasses);
  }

  lemma SevenFacts()
    ensures ScenarioFacts(Seven, 2, 2, [0, 3], SevenClasses)
  {
    SevenOrder();
    NominalValid(|Seven|, 2);
    SevenBreakpoints();
    SevenGroups();
  }

  lemma SevenScenario(input: seq<Record>)
    requires multiset(input) == multiset(Seven)
    ensures LewisClassScorer(input, 2, 2) == Returned(SevenClasses)
  {
    SevenFacts();
    ScoreShuffled(input, Seven, 2, 2, [0, 3], SevenClasses);
  }

  /** test_short_upper_class: when the records do not divide evenly, the upper
      classes are the short ones, whatever order the records arrive in. */
  lemma ShortUpperClassScenario(eight: seq<Record>, seven: seq<Record>)
    requires multiset(eight) == multiset(Eight)
    requires multiset(seven) == multiset(Seven)
    ensures LewisClassScorer(eight, 3, 2) == Returned(EightClasses)
    ensures LewisClassScorer(seven, 2, 2) == Returned(SevenClasses)
  {
    EightScenario(eight);
    SevenScenario(seven);
  }

  function Named(a: int, b: int, name: string): Record { [Num(a), Num(b), Text(name)] }

  const Names: seq<Record> := [
    Named(0, 9, "Aaron"), Named(0, 8, "Brian"), Named(0, 7, "Chuck"),
    Named(0, 6, "Doris"), Named(0, 5, "Elena"), Named(0, 4, "Frank"),
    Named(0, 3, "Gavin"), Named(0, 2, "Hanna"), Named(0, 1, "Irine")]

  const NamesClasses: seq<seq<Record>> := [
    [Named(0, 9, "Aaron"), Named(0, 8, "Brian"), Named(0, 7, "Chuck")],
    [Named(0, 6, "Doris"), Named(0, 5, "Elena"), Named(0, 4, "Frank")],
    [Named(0, 3, "Gavin"), Named(0, 2, "Hanna"), Named(0, 1, "Irine")]]

  lemma NamesOrder()
    ensures |Names| == 9
    ensures forall i :: 0 <= i < |Names| - 1 ==> AtLeast(Names[i], Names[i + 1])
    ensures forall i :: 0 <= i < |Names| ==> |Names[i]| >= 1
    ensures forall i :: 0 <= i < |Names| ==> Key(Names[i], 2) == Names[i][..2]
  {
  }

  lemma NamesBreakpoints()
    ensures Key(Names[0], 2) != Key(Names[8], 2)
    ensures AdjustedCorrected(Names, 2, NominalList(9, 3)) == [0, 3, 6]
  {
    NamesOrder();
    assert forall i :: 0 <= i < |Names| ==> Names[i][..2] == [Num(0), Names[i][1]];
    assert NominalList(9, 3) == [0, 3, 6];
    DistinctKeysKeepNominal(Names, 2, NominalList(9, 3));
  }

  lemma NamesGroups()
    ensures Groups(Names, [0, 3, 6]) == NamesClasses
  {
    var s, gs := Names, NamesClasses;
    GroupsPartition(s, [0, 3, 6]);
    assert |gs[0]| == 3 && gs[0][0] == s[0] && gs[0][1] == s[1] && gs[0][2] == s[2];
    assert gs[0] == [s[0], s[1], s[2]] && s[0..3] == [s[0], s[1], s[2]];
    assert |gs[1]| == 3 && gs[1][0] == s[3] && gs[1][1] == s[4] && gs[1][2] == s[5];
    assert gs[1] == [s[3], s[4], s[5]] && s[3..6] == [s[3], s[4], s[5]];
    assert |gs[2]| == 3 && gs[2][0] == s[6] && gs[2][1] == s[7] && gs[2][2] == s[8];
    assert gs[2] == [s[6], s[7], s[8]] && s[6..9] == [s[6], s[7], s[8]];
  }

  lemma NamesFacts()
    ensures ScenarioFacts(Names, 3, 2, [0, 3, 6], NamesClasses)
  {
    NamesOrder();
    NominalValid(|Names|, 3);
    NamesBreakpoints();
    NamesGroups();
  }

  /** test_tie_uses_secondary: with the first score field tied throughout,
      the second one decides, whatever order the records arrive in. */
  lemma TieUsesSecondaryScenario(input: seq<Record>)
    requires multiset(input) == multiset(Names)
    ensures LewisClassScorer(input, 3, 2) == Returned(NamesClasses)
  {
    NamesFacts();
    ScoreShuffled(input, Names, 3, 2, [0, 3, 6], NamesClasses);
  }

  const Numbers: seq<Record> := [[Num(100)], [Num(20)], [Num(3)]]

  const NumbersClasses: seq<seq<Record>> := [[[Num(100)]], [[Num(20)]], [[Num(3)]]]

  lemma NumbersOrder()
    ensures |Numbers| == 3
    ensures forall i :: 0 <= i < |Numbers| - 1 ==> AtLeast(Numbers[i], Numbers[i + 1])
    ensures forall i :: 0 <= i < |Numbers| ==> |Numbers[i]| >= 1
    ensures forall i :: 0 <= i < |Numbers| ==> Key(Numbers[i], 1) == Numbers[i]
  {
  }

  lemma NumbersBreakpoints()
    ensures AdjustedCorrected(Numbers, 1, NominalList(3, 3)) == [0, 1, 2]
  {
    NumbersOrder();
    assert NominalList(3, 3) == [0, 1, 2];
    DistinctKeysKeepNominal(Numbers, 1, NominalList(3, 3));
  }

  lemma NumbersGroups()
    ensures Groups(Numbers, [0, 1, 2]) == NumbersClasses
  {
    var s, gs := Numbers, NumbersClasses;
    GroupsPartition(s, [0, 1, 2]);
    assert |gs[0]| == 1 && gs[0][0] == s[0];
    assert gs[0] == [s[0]] && s[0..1] == [s[0]];
    assert |gs[1]| == 1 && gs[1][0] == s[1];
    assert gs[1] == [s[1]] && s[1..2] == [s[1]];
    assert |gs[2]| == 1 && gs[2][0] == s[2];
    assert gs[2] == [s[2]] && s[2..3] == [s[2]];
  }

  lemma NumbersFacts()
    ensures ScenarioFacts(Numbers, 3, 1, [0, 1, 2], NumbersClasses)
  {
    NumbersOrder();
    NominalValid(|Numbers|, 3);
    NumbersBreakpoints();
    NumbersGroups();
  }

  /** test_numerical_sorting: integer fields rank by value, not by their
      decimal spelling, whatever order the records arrive in. */
  lemma NumericalSortingScenario(input: seq<Record>)
    requires multiset(input) == multiset(Numbers)
    ensures LewisClassScorer(input, 3, 1) == Returned(NumbersClasses)
  {
    NumbersFacts();
    ScoreShuffled(input, Numbers, 3, 1, [0, 1, 2], NumbersClasses);
  }

  const Boundary: seq<Record> := [
    Scored(100, "Jim"), Scored(99, "John"), Scored(99, "Jan"), Scored(98, "Terry"), Scored(96, "Susie"), Scored(96, "Eric"),
    Scored(95, "Mike"), Scored(95, "Dolly"), Scored(94, "Sam"), Scored(94, "Dana"),
    Scored(93, "Joshua"), Scored(93, "Janie"), Scored(93, "Debbie"),
    Scored(92, "Patty"), Scored(92, "Lucy"), Scored(91, "Zelda"), Scored(91, "George"),
    Scored(90, "Rita"), Scored(90, "Paul"), Scored(90, "Pamela"), Scored(90, "Ofelia"),
    Scored(89, "Greg"), Scored(89, "Art"), Scored(88, "Olga"),
    Scored(85, "Mary"), Scored(85, "Joseph"), Scored(84, "Will"), Scored(80, "Lee"), Scored(79, "Renee"),
    Scored(75, "Jonathon"), Scored(74, "Lisa"), Scored(70, "Bart")]

  const BoundaryClasses: seq<seq<Record>> := [
    [Scored(100, "Jim"), Scored(99, "John"), Scored(99, "Jan"), Scored(98, "Terry"), Scored(96, "Susie"), Scored(96, "Eric")],
    [Scored(95, "Mike"), Scored(95, "Dolly"), Scored(94, "Sam"), Scored(94, "Dana"),
     Scored(93, "Joshua"), Scored(93, "Janie"), Scored(93, "Debbie")],
    [Scored(92, "Patty"), Scored(92, "Lucy"), Scored(91, "Zelda"), Scored(91, "George")],
    [Scored(90, "Rita"), Scored(90, "Paul"), Scored(90, "Pamela"), Scored(90, "Ofelia"),
     Scored(89, "Greg"), Scored(89, "Art"), Scored(88, "Olga")],
    [Scored(85, "Mary"), Scored(85, "Joseph"), Scored(84, "Will"), Scored(80, "Lee"), Scored(79, "Renee"),
     Scored(75, "Jonathon"), Scored(74, "Lisa"), Scored(70, "Bart")]]

  lemma BoundaryUpperOrder()
    ensures forall i :: 0 <= i < 16 ==> AtLeast(Boundary[i], Boundary[i + 1])
  {
  }

  lemma BoundaryLowerOrder()
    ensures forall i :: 16 <= i < 31 ==> AtLeast(Boundary[i], Boundary[i + 1])
  {
  }

  lemma BoundaryOrder()
    ensures |Boundary| == 32
    ensures forall i :: 0 <= i < |Boundary| - 1 ==> AtLeast(Boundary[i], Boundary[i + 1])
    ensures forall i :: 0 <= i < |Boundary| ==> |Boundary[i]| >= 1
    ensures Key(Boundary[0], 1) != Key(Boundary[31], 1)
  {
    BoundaryUpperOrder();
    BoundaryLowerOrder();
    KeyOne(Boundary[0]);
    KeyOne(Boundary[31]);
  }

  /** When the records from `b` up to `e` share one leading field and their
      neighbours outside that range do not, `[b, e)` is the tie run of every
      position in it on a one-field key. */
  lemma LeadingRun(s: seq<Record>, b: nat, e: nat, bp: nat)
    requires 0 < b <= bp < e < |s|
    requires forall j :: b - 1 <= j <= e ==> |s[j]| >= 1
    requires forall j :: b <= j < e ==> s[j][0] == s[bp][0]
    requires s[b - 1][0] != s[bp][0] && s[e][0] != s[bp][0]
    ensures CorrectedAdjust(s, 1, bp) == if bp - b > e - bp then e else b
  {
    forall j | b - 1 <= j <= e ensures Key(s[j], 1) == [s[j][0]] {
      KeyOne(s[j]);
    }
    AdjustsTo(s, 1, bp, b, e);
  }

  lemma BoundaryAt6()
    ensures CorrectedAdjust(Boundary, 1, 6) == 6
  {
    LeadingRun(Boundary, 6, 8, 6);
  }

  lemma BoundaryAt12()
    ensures CorrectedAdjust(Boundary, 1, 12) == 13
  {
    LeadingRun(Boundary, 10, 13, 12);
  }

  lemma BoundaryAt18()
    ensures CorrectedAdjust(Boundary, 1, 18) == 17
  {
    LeadingRun(Boundary, 17, 21, 18);
  }

  lemma BoundaryAt25()
    ensures CorrectedAdjust(Boundary, 1, 25) == 24
  {
    LeadingRun(Boundary, 24, 26, 25);
  }

  /** One more start in front of starts whose corrected adjustments are known. */
  lemma RestCons(s: seq<Record>, f: nat, x: int, rest: seq<int>, b: int, vals: seq<int>)
    requires 0 <= x < |s|
    requires forall c :: 0 <= c < |rest| ==> 0 <= rest[c] < |s|
    requires CorrectedAdjust(s, f, x) == b && CorrectedRest(s, f, rest) == vals
    ensures CorrectedRest(s, f, [x] + rest) == [b] + vals
  {
    assert ([x] + rest)[1..] == rest;
  }

  lemma RestOne(s: seq<Record>, f: nat, n1: int, b1: int)
    requires 0 <= n1 < |s| && CorrectedAdjust(s, f, n1) == b1
    ensures CorrectedRest(s, f, [n1]) == [b1]
  {
    RestCons(s, f, n1, [], b1, []);
    assert [n1] + [] == [n1];
  }

  lemma RestTwo(s: seq<Record>, f: nat, n1: int, n2: int, b1: int, b2: int)
    requires 0 <= n1 < |s| && 0 <= n2 < |s|
    requires CorrectedAdjust(s, f, n1) == b1 && CorrectedRest(s, f, [n2]) == [b2]
    ensures CorrectedRest(s, f, [n1, n2]) == [b1, b2]
  {
    RestCons(s, f, n1, [n2], b1, [b2]);
    assert [n1] + [n2] == [n1, n2];
  }

  lemma RestThree(s: seq<Record>, f: nat, n1: int, n2: int, n3: int, b1: int, b2: int, b3: int)
    requires 0 <= n1 < |s| && 0 <= n2 < |s| && 0 <= n3 < |s|
    requires CorrectedAdjust(s, f, n1) == b1 && CorrectedRest(s, f, [n2, n3]) == [b2, b3]
    ensures CorrectedRest(s, f, [n1, n2, n3]) == [b1, b2, b3]
  {
    assert forall c :: 0 <= c < 2 ==> 0 <= [n2, n3][c] < |s|;
    RestCons(s, f, n1, [n2, n3], b1, [b2, b3]);
    assert [n1] + [n2, n3] == [n1, n2, n3];
  }

  lemma RestFour(s: seq<Record>, f: nat, n1: int, n2: int, n3: int, n4: int, b1: int, b2: int, b3: int, b4: int)
    requires 0 <= n1 < |s| && 0 <= n2 < |s| && 0 <= n3 < |s| && 0 <= n4 < |s|
    requires CorrectedAdjust(s, f, n1) == b1 && CorrectedRest(s, f, [n2, n3, n4]) == [b2, b3, b4]
    ensures CorrectedRest(s, f, [n1, n2, n3, n4]) == [b1, b2, b3, b4]
  {
    assert forall c :: 0 <= c < 3 ==> 0 <= [n2, n3, n4][c] < |s|;
    RestCons(s, f, n1, [n2, n3, n4], b1, [b2, b3, b4]);
    assert [n1] + [n2, n3, n4] == [n1, n2, n3, n4];
  }

  /** Five nominal starts whose corrected adjustments are known one by one. */
  lemma AdjustedFive(s: seq<Record>, f: nat, n0: int, n1: int, n2: int, n3: int, n4: int,
                     b1: int, b2: int, b3: int, b4: int)
    requires 0 <= n0 < |s| && 0 <= n1 < |s| && 0 <= n2 < |s| && 0 <= n3 < |s| && 0 <= n4 < |s|
    requires CorrectedAdjust(s, f, n1) == b1 && CorrectedAdjust(s, f, n2) == b2
    requires CorrectedAdjust(s, f, n3) == b3 && CorrectedAdjust(s, f, n4) == b4
    ensures AdjustedCorrected(s, f, [n0, n1, n2, n3, n4]) == [n0, b1, b2, b3, b4]
  {
    RestOne(s, f, n4, b4);
    RestTwo(s, f, n3, n4, b3, b4);
    RestThree(s, f, n2, n3, n4, b2, b3, b4);
    RestFour(s, f, n1, n2, n3, n4, b1, b2, b3, b4);
    assert [n0, n1, n2, n3, n4][1..] == [n1, n2, n3, n4];
  }

  /** The nominal starts 6, 12, 18 and 25 fall on the runs 6..7, 10..12,
      17..20 and 24..25. */
  lemma BoundaryBreakpoints()
    ensures AdjustedCorrected(Boundary, 1, NominalList(32, 5)) == [0, 6, 13, 17, 24]
  {
    assert NominalList(32, 5) == [0, 6, 12, 18, 25];
    BoundaryAt6();
    BoundaryAt12();
    BoundaryAt18();
    BoundaryAt25();
    AdjustedFive(Boundary, 1, 0, 6, 12, 18, 25, 6, 13, 17, 24);
  }

  /** Each class of the 32-record test, element by element. */
  lemma BoundaryClass0()
    ensures Boundary[0..6] == BoundaryClasses[0]
  {
    var s, g := Boundary, BoundaryClasses[0];
    assert |g| == 6;
    assert g[0] == s[0] && g[1] == s[1] && g[2] == s[2] && g[3] == s[3] && g[4] == s[4] && g[5] == s[5];
    assert g == [s[0], s[1], s[2], s[3], s[4], s[5]];
    assert s[0..6] == [s[0], s[1], s[2], s[3], s[4], s[5]];
  }

  lemma BoundaryClass1()
    ensures Boundary[6..13] == BoundaryClasses[1]
  {
    var s, g := Boundary, BoundaryClasses[1];
    assert |g| == 7;
    assert g[0] == s[6] && g[1] == s[7] && g[2] == s[8] && g[3] == s[9] && g[4] == s[10] && g[5] == s[11] && g[6] == s[12];
    assert g == [s[6], s[7], s[8], s[9], s[10], s[11], s[12]];
    assert s[6..13] == [s[6], s[7], s[8], s[9], s[10], s[11], s[12]];
  }

  lemma BoundaryClass2()
    ensures Boundary[13..17] == BoundaryClasses[2]
  {
    var s, g := Boundary, BoundaryClasses[2];
    assert |g| == 4;
    assert g[0] == s[13] && g[1] == s[14] && g[2] == s[15] && g[3] == s[16];
    assert g == [s[13], s[14], s[15], s[16]];
    assert s[13..17] == [s[13], s[14], s[15], s[16]];
  }

  lemma BoundaryClass3()
    ensures Boundary[17..24] == BoundaryClasses[3]
  {
    var s, g := Boundary, BoundaryClasses[3];
    assert |g| == 7;
    assert g[0] == s[17] && g[1] == s[18] && g[2] == s[19] && g[3] == s[20] && g[4] == s[21] && g[5] == s[22] && g[6] == s[23];
    assert g == [s[17], s[18], s[19], s[20], s[21], s[22], s[23]];
    assert s[17..24] == [s[17], s[18], s[19], s[20], s[21], s[22], s[23]];
  }

  lemma BoundaryClass4()
    ensures Boundary[24..32] == BoundaryClasses[4]
  {
    var s, g := Boundary, BoundaryClasses[4];
    assert |g| == 8;
    assert g[0] == s[24] && g[1] == s[25] && g[2] == s[26] && g[3] == s[27] && g[4] == s[28] && g[5] == s[29] && g[6] == s[30] && g[7] == s[31];
    assert g == [s[24], s[25], s[26], s[27], s[28], s[29], s[30], s[31]];
    assert s[24..32] == [s[24], s[25], s[26], s[27], s[28], s[29], s[30], s[31]];
  }

  lemma BoundaryGroups()
    ensures Groups(Boundary, [0, 6, 13, 17, 24]) == BoundaryClasses
  {
    GroupsPartition(Boundary, [0, 6, 13, 17, 24]);
    BoundaryClass0();
    BoundaryClass1();
    BoundaryClass2();
    BoundaryClass3();
    BoundaryClass4();
  }

  lemma BoundaryFacts()
    ensures ScenarioFacts(Boundary, 5, 1, [0, 6, 13, 17, 24], BoundaryClasses)
  {
    BoundaryOrder();
    NominalValid(|Boundary|, 5);
    BoundaryBreakpoints();
    BoundaryGroups();
  }

  /** test_group_boundary_shifts_up: a run of three 93s astride the nominal
      start 12 moves up-list start to 13, and the even 85/85 split at 25 goes
      to the lower class, whatever order the records arrive in. */
  lemma BoundaryShiftsScenario(input: seq<Record>)
    requires multiset(input) == multiset(Boundary)
    ensures LewisClassScorer(input, 5, 1) == Returned(BoundaryClasses)
  {
    BoundaryFacts();
    ScoreShuffled(input, Boundary, 5, 1, [0, 6, 13, 17, 24], BoundaryClasses);
  }
}
