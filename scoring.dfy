/** The similarity indices and the weighted scorer (`calcJaccard`, `calcDice`, `similarity`). */
module Scoring {
  import opened Results
  import opened Records

  /** A subset is no larger than its superset, and equally large only when equal. */
  lemma {:induction false} SubsetCard(a: set<string>, b: set<string>)
    requires a <= b
    ensures |a| <= |b| && (|a| == |b| ==> a == b)
    decreases |b|
  {
    if a != b {
      assert !(b <= a);
      var x :| x in b && x !in a;
      SubsetCard(a, b - {x});
    }
  }

  /** A ratio of a count to a larger positive count lies in [0, 1], and is 1 or 0 exactly
      when the counts are equal or the first is 0. */
  lemma Ratio(num: nat, den: nat)
    requires num <= den && den > 0
    ensures 0.0 <= (num as real) / (den as real) <= 1.0
    ensures (num as real) / (den as real) == 1.0 <==> num == den
    ensures (num as real) / (den as real) == 0.0 <==> num == 0
  {
    var q := (num as real) / (den as real);
    assert q * (den as real) == num as real;
  }

  /** `calcJaccard`: the size of the intersection of the two lists' sets over the size of
      their union. Two empty lists divide by zero, which the callers must rule out. */
  function Jaccard(a: seq<string>, b: seq<string>): (r: real)
    requires a != [] || b != []
    ensures 0.0 <= r <= 1.0
  {
    var s1, s2 := ToSet(a), ToSet(b);
    assert (if a != [] then a[0] else b[0]) in s1 + s2;
    SubsetCard(s1 * s2, s1 + s2);
    Ratio(|s1 * s2|, |s1 + s2|);
    (|s1 * s2| as real) / (|s1 + s2| as real)
  }

  /** `calcDice`: twice the size of the intersection over the sum of the two set sizes. */
  function Dice(a: seq<string>, b: seq<string>): (r: real)
    requires a != [] || b != []
    ensures 0.0 <= r <= 1.0
  {
    var s1, s2 := ToSet(a), ToSet(b);
    assert (if a != [] then a[0] in s1 else b[0] in s2);
    SubsetCard(s1 * s2, s1);
    SubsetCard(s1 * s2, s2);
    Ratio(2 * |s1 * s2|, |s1| + |s2|);
    assert (|s1 * s2| as real) * 2.0 == (2 * |s1 * s2|) as real;
    (|s1 * s2| as real) * 2.0 / ((|s1| + |s2|) as real)
  }

  lemma JaccardSymmetric(a: seq<string>, b: seq<string>)
    requires a != [] || b != []
    ensures Jaccard(a, b) == Jaccard(b, a)
  {
    assert ToSet(a) * ToSet(b) == ToSet(b) * ToSet(a);
    assert ToSet(a) + ToSet(b) == ToSet(b) + ToSet(a);
  }

  lemma DiceSymmetric(a: seq<string>, b: seq<string>)
    requires a != [] || b != []
    ensures Dice(a, b) == Dice(b, a)
  {
    assert ToSet(a) * ToSet(b) == ToSet(b) * ToSet(a);
  }

  /** The Jaccard index is 1 exactly when the two lists hold the same words. */
  lemma JaccardOneIffSameWords(a: seq<string>, b: seq<string>)
    requires a != [] || b != []
    ensures Jaccard(a, b) == 1.0 <==> ToSet(a) == ToSet(b)
  {
    var s1, s2 := ToSet(a), ToSet(b);
    assert (if a != [] then a[0] else b[0]) in s1 + s2;
    SubsetCard(s1 * s2, s1 + s2);
    Ratio(|s1 * s2|, |s1 + s2|);
    if s1 * s2 == s1 + s2 {
      assert s1 <= s2 && s2 <= s1;
    }
  }

  /** The Jaccard index is 0 exactly when the two lists share no word. */
  lemma JaccardZeroIffDisjoint(a: seq<string>, b: seq<string>)
    requires a != [] || b != []
    ensures Jaccard(a, b) == 0.0 <==> ToSet(a) !! ToSet(b)
  {
    var s1, s2 := ToSet(a), ToSet(b);
    assert (if a != [] then a[0] else b[0]) in s1 + s2;
    if Jaccard(a, b) == 0.0 {
      assert |s1 * s2| == 0;
      assert s1 * s2 == {};
    }
  }

  /** The Dice coefficient is 1 exactly when the two lists hold the same words. */
  lemma DiceOneIffSameWords(a: seq<string>, b: seq<string>)
    requires a != [] || b != []
    ensures Dice(a, b) == 1.0 <==> ToSet(a) == ToSet(b)
  {
    var s1, s2 := ToSet(a), ToSet(b);
    assert (if a != [] then a[0] in s1 else b[0] in s2);
    SubsetCard(s1 * s2, s1);
    SubsetCard(s1 * s2, s2);
    var common := |s1 * s2|;
    Ratio(2 * common, |s1| + |s2|);
    assert (common as real) * 2.0 == (2 * common) as real;
    // twice the common count equals the sum only when it equals both sizes
    assert 2 * common == |s1| + |s2| <==> common == |s1| && common == |s2|;
    assert common == |s1| && common == |s2| <==> s1 * s2 == s1 && s1 * s2 == s2;
  }

  /** The Dice coefficient is 0 exactly when the two lists share no word. */
  lemma DiceZeroIffDisjoint(a: seq<string>, b: seq<string>)
    requires a != [] || b != []
    ensures Dice(a, b) == 0.0 <==> ToSet(a) !! ToSet(b)
  {
    var s1, s2 := ToSet(a), ToSet(b);
    assert (if a != [] then a[0] in s1 else b[0] in s2);
    if Dice(a, b) == 0.0 {
      assert |s1 * s2| == 0;
      assert s1 * s2 == {};
    }
  }

  /** Both indices see only the sets of words, so repeated words change nothing. */
  lemma IndicesIgnoreRepeats(a: seq<string>, b: seq<string>, a': seq<string>, b': seq<string>)
    requires a != [] || b != []
    requires ToSet(a) == ToSet(a') && ToSet(b) == ToSet(b')
    ensures a' != [] || b' != []
    ensures Jaccard(a, b) == Jaccard(a', b') && Dice(a, b) == Dice(a', b')
  {
    if a != [] {
      assert a[0] in ToSet(a');
    } else {
      assert b[0] in ToSet(b');
    }
  }

  function Abs(x: int): nat {
    if x < 0 then -x else x
  }

  /** The year weight of one profile year: 1 for the same year, falling by 1/2005 a year. */
  function YearMultiplier(userYear: int, year: int): real {
    1.0 - (Abs(userYear - year) as real) / 2005.0
  }

  /** The running maximum of lines 116-120: it starts at 0 and takes a profile year's
      multiplier only when that is larger, so it is the maximum of 0 and all of them. */
  function BestYearMultiplier(userYears: seq<int>, year: int): (m: real)
    ensures 0.0 <= m <= 1.0
    ensures forall k :: 0 <= k < |userYears| ==> YearMultiplier(userYears[k], year) <= m
    ensures m == 0.0 || exists k :: 0 <= k < |userYears| && m == YearMultiplier(userYears[k], year)
  {
    if userYears == [] then 0.0
    else
      var best := BestYearMultiplier(userYears[..|userYears| - 1], year);
      var multiplier := YearMultiplier(userYears[|userYears| - 1], year);
      assert forall k :: 0 <= k < |userYears| - 1 ==> userYears[..|userYears| - 1][k] == userYears[k];
      if multiplier > best then multiplier else best
  }

  /** A profile year equal to the candidate's gives the full multiplier. */
  lemma SameYearGivesFullMultiplier(userYears: seq<int>, year: int)
    requires year in userYears
    ensures BestYearMultiplier(userYears, year) == 1.0
  {
    var k :| 0 <= k < |userYears| && userYears[k] == year;
    assert YearMultiplier(userYears[k], year) == 1.0;
  }

  /** What `similarity` returns: ZeroDivisionError when both keyword lists are empty,
      otherwise the two weighted sums, each between 0 and 1. */
  function SimilarityScores(userKeywords: seq<string>, userAuthors: seq<string>, userYears: seq<int>,
                            author: string, year: int, keywords: seq<string>): (r: Result<Scores>)
    ensures r.Failure? <==> keywords == [] && userKeywords == []
    ensures r.Failure? ==> r.error == ZeroDivisionError
    ensures r.Success? ==> 0.0 <= r.value.jaccard <= 1.0 && 0.0 <= r.value.dice <= 1.0
  {
    if keywords == [] && userKeywords == [] then Failure(ZeroDivisionError)
    else
      var bonus := if author in userAuthors then 1.0 else 0.0;
      var m := BestYearMultiplier(userYears, year);
      Success(Scores(0.2 * Jaccard(keywords, userKeywords) + 0.4 * bonus + 0.4 * m,
                     0.5 * Dice(keywords, userKeywords) + 0.3 * bonus + 0.2 * m))
  }

  /** The loop at lines 116-120: the running maximum of the year multipliers, from 0. */
  method BestYear(userYears: seq<int>, year: int) returns (bestYearMultiplier: real)
    ensures bestYearMultiplier == BestYearMultiplier(userYears, year)
  {
    bestYearMultiplier := 0.0;
    for i := 0 to |userYears|
      invariant bestYearMultiplier == BestYearMultiplier(userYears[..i], year)
    {
      var multiplier := YearMultiplier(userYears[i], year);
      assert userYears[..i + 1][..i] == userYears[..i];
      if multiplier > bestYearMultiplier {
        bestYearMultiplier := multiplier;
      }
    }
    assert userYears[..|userYears|] == userYears;
  }

  /** `similarity`: the two scores accumulated step by step; `title` is not used. */
  method Similarity(userKeywords: seq<string>, userAuthors: seq<string>, userYears: seq<int>,
                    title: string, author: string, year: int, keywords: seq<string>)
    returns (r: Result<Scores>)
    ensures r == SimilarityScores(userKeywords, userAuthors, userYears, author, year, keywords)
  {
    if keywords == [] && userKeywords == [] {
      return Failure(ZeroDivisionError);
    }
    var jaccardScore := 0.0;
    var diceScore := 0.0;
    jaccardScore := jaccardScore + 0.2 * Jaccard(keywords, userKeywords);
    diceScore := diceScore + 0.5 * Dice(keywords, userKeywords);
    if author in userAuthors {
      jaccardScore := jaccardScore + 0.4;
      diceScore := diceScore + 0.3;
    }
    var bestYearMultiplier := BestYear(userYears, year);
    jaccardScore := jaccardScore + 0.4 * bestYearMultiplier;
    diceScore := diceScore + 0.2 * bestYearMultiplier;
    r := Success(Scores(jaccardScore, diceScore));
  }

  /** Same words, a profile author and a profile year give the top score on both scales. */
  lemma PerfectMatchScoresOne(userKeywords: seq<string>, userAuthors: seq<string>, userYears: seq<int>,
                              author: string, year: int, keywords: seq<string>)
    requires keywords != [] && ToSet(keywords) == ToSet(userKeywords)
    requires author in userAuthors && year in userYears
    ensures SimilarityScores(userKeywords, userAuthors, userYears, author, year, keywords) == Success(Scores(1.0, 1.0))
  {
    JaccardOneIffSameWords(keywords, userKeywords);
    DiceOneIffSameWords(keywords, userKeywords);
    SameYearGivesFullMultiplier(userYears, year);
  }

  /** A profile built from titles with keywords {a, b} and {b, c}, author "smith" and year
      2000, against a candidate with keywords {b, c} by "smith" from 2000: the keyword
      indices are 2/3 and 4/5, so the scores are 14/15 and 9/10. */
  lemma ProfileScenario()
    ensures SimilarityScores(["a", "b", "b", "c"], ["smith"], [2000], "smith", 2000, ["b", "c"])
            == Success(Scores(14.0 / 15.0, 9.0 / 10.0))
  {
    var s1, s2 := ToSet(["b", "c"]), ToSet(["a", "b", "b", "c"]);
    assert s1 == {"b", "c"};
    assert s2 == {"a", "b", "c"};
    assert s1 * s2 == {"b", "c"};
    assert s1 + s2 == {"a", "b", "c"};
    SameYearGivesFullMultiplier([2000], 2000);
  }
}
