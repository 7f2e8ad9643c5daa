/** One pass of the driver loop for one user (lines 179-263): profile, scan, the two top
    lists, their overlap, the golden standard and its overlaps. The scan is the corrected
    one that excludes every rated book. */
module Session {
  import opened Results
  import opened Records
  import opened Sorting
  import opened Profiles
  import opened Golden
  import opened Ranking

  /** What the driver writes out for one user. */
  datatype Recommendation = Recommendation(
    topJaccard: seq<Scored>, topDice: seq<Scored>, listSimilarity: real,
    golden: seq<GoldenEntry>, goldenJaccardSimilarity: real, goldenDiceSimilarity: real)

  /** A top list cut from a list of unrated books holds unrated books only. */
  lemma TopOfUnrated(graded: seq<Scored>, rated: seq<string>)
    requires |graded| >= 10 && forall i :: 0 <= i < |graded| ==> graded[i].isbn !in rated
    ensures forall e :: e in SortBy(graded, ScoreLe)[..10] ==> e.isbn !in rated
  {
    SortedPrefixMembers(graded, ScoreLe, 10);
  }

  /** A golden list built from two lists of unrated books holds unrated books only. */
  lemma GoldenOfUnrated(topJaccard: seq<Scored>, topDice: seq<Scored>, rated: seq<string>)
    requires |Merged(topJaccard, topDice)| >= 10
    requires forall e :: e in topJaccard ==> e.isbn !in rated
    requires forall e :: e in topDice ==> e.isbn !in rated
    ensures forall e :: e in SortBy(Merged(topJaccard, topDice), GoldenLe)[..10] ==> e.isbn !in rated
  {
    var merged := Merged(topJaccard, topDice);
    SortedPrefixMembers(merged, GoldenLe, 10);
    OccurrencesCountLists(topJaccard, topDice);
    forall e | e in merged ensures e.isbn !in rated {
      if e.isbn in ScoredIsbnsOf(topJaccard) {
        var k :| 0 <= k < |topJaccard| && ScoredIsbnsOf(topJaccard)[k] == e.isbn;
        assert topJaccard[k] in topJaccard;
      } else {
        var k :| 0 <= k < |topDice| && ScoredIsbnsOf(topDice)[k] == e.isbn;
        assert topDice[k] in topDice;
      }
    }
  }

  /** The profile lines 194-196 build from the details of the top-rated books: every title
      keyword of those books in order, and one lower-cased author and one year per book. */
  predicate IsProfileOf(profile: Profile, infos: seq<BookInfo>, tokenize: string -> seq<string>,
                        stopWords: set<string>, lower: string -> string) {
    && profile.keywords == ProfileKeywords(infos, tokenize, stopWords)
    && |profile.authors| == |infos| && (forall i :: 0 <= i < |infos| ==> profile.authors[i] == lower(infos[i].author))
    && |profile.years| == |infos| && (forall i :: 0 <= i < |infos| ==> profile.years[i] == infos[i].year)
  }

  /** Lines 182-196: the user's top three ratings (best first, none left out rated higher)
      and the profile built from the details of their books. */
  method UserProfile(userId: int, ratings: seq<RatingRow>, books: seq<Book>,
                     tokenize: string -> seq<string>, stopWords: set<string>, lower: string -> string)
    returns (topRatings: seq<Rated>, profile: Profile)
    ensures var rated := RatedBooks(userId, ratings);
            && |topRatings| == (if |rated| < 3 then |rated| else 3)
            && multiset(topRatings) <= multiset(rated)
            && (forall i, j :: 0 <= i < j < |topRatings| ==> topRatings[i].rating >= topRatings[j].rating)
            && (topRatings != [] ==>
                  forall x | x in multiset(rated) - multiset(topRatings) :: x.rating <= topRatings[|topRatings| - 1].rating)
    ensures IsProfileOf(profile, LookupAll(topRatings, books), tokenize, stopWords, lower)
  {
    var ratedBooks := RatedBooks(userId, ratings);
    topRatings := TopThreeRatings(ratedBooks);
    var topThreeBooks := TopThreeBooks(topRatings, books);
    var userKeywords := TopThreeKeywords(topThreeBooks, tokenize, stopWords);
    var userAuthors := TopThreeAuthors(topThreeBooks, lower);
    var userYears := TopThreeYears(topThreeBooks);
    profile := Profile(userKeywords, userAuthors, userYears);
  }

  /** Lines 201-260 for one profile and the user's rated ISBNs: the scan raises
      ZeroDivisionError exactly when the profile has no keyword and some unrated catalog book
      has none either, and IndexError otherwise exactly when fewer than ten catalog books are
      unrated. On success the two top lists are the ten best of the intended scan, every book
      recommended is unrated, the golden list is the golden standard of the two top lists,
      and the three shares are their positional overlaps. */
  method RankForProfile(profile: Profile, rated: seq<string>, filteredBooks: seq<Book>,
                        tokenize: string -> seq<string>, stopWords: set<string>, lower: string -> string)
    returns (r: Result<Recommendation>)
    ensures r.Failure? ==>
              || (r.error == ZeroDivisionError && profile.keywords == [] && HasBareUnrated(rated, filteredBooks, tokenize, stopWords))
              || (r.error == IndexError && |UnratedIsbns(rated, filteredBooks)| < 10)
    ensures profile.keywords == [] && HasBareUnrated(rated, filteredBooks, tokenize, stopWords) ==>
              r == Failure(ZeroDivisionError)
    ensures |UnratedIsbns(rated, filteredBooks)| >= 10 && !(profile.keywords == [] && HasBareUnrated(rated, filteredBooks, tokenize, stopWords)) ==>
              r.Success?
    ensures r.Success? ==>
              var graded := ScanIntended(profile, rated, filteredBooks, tokenize, stopWords, lower);
              && graded.Success?
              && |graded.value.jaccard| >= 10 && |graded.value.dice| >= 10
              && r.value.topJaccard == SortBy(graded.value.jaccard, ScoreLe)[..10]
              && r.value.topDice == SortBy(graded.value.dice, ScoreLe)[..10]
    ensures r.Success? ==>
              && |r.value.topJaccard| == 10 && |r.value.topDice| == 10 && |r.value.golden| == 10
              && (forall e :: e in r.value.topJaccard ==> e.isbn !in rated)
              && (forall e :: e in r.value.topDice ==> e.isbn !in rated)
              && (forall e :: e in r.value.golden ==> e.isbn !in rated)
              && r.value.golden == SortBy(Merged(r.value.topJaccard, r.value.topDice), GoldenLe)[..10]
              && r.value.listSimilarity == OverlapOfTen(ScoredIsbnsOf(r.value.topJaccard), ScoredIsbnsOf(r.value.topDice))
              && r.value.goldenJaccardSimilarity == OverlapOfTen(GoldenIsbnsOf(r.value.golden), ScoredIsbnsOf(r.value.topJaccard))
              && r.value.goldenDiceSimilarity == OverlapOfTen(GoldenIsbnsOf(r.value.golden), ScoredIsbnsOf(r.value.topDice))
              && 0.0 <= r.value.listSimilarity <= 1.0
              && 0.0 <= r.value.goldenJaccardSimilarity <= 1.0
              && 0.0 <= r.value.goldenDiceSimilarity <= 1.0
  {
    var graded := ScanUnratedCandidates(profile, rated, filteredBooks, tokenize, stopWords, lower);
    ScanIntendedFails(profile, rated, filteredBooks, tokenize, stopWords, lower);
    if graded.Failure? {
      ScanIntendedRaisesDivision(profile, rated, filteredBooks, tokenize, stopWords, lower);
      return Failure(graded.error);
    }
    ScanIntendedScoresUnrated(profile, rated, filteredBooks, tokenize, stopWords, lower);
    assert |graded.value.jaccard| == |UnratedIsbns(rated, filteredBooks)| == |graded.value.dice| by {
      assert |ScoredIsbnsOf(graded.value.jaccard)| == |graded.value.jaccard|;
    }
    var ranked := TopTen(graded.value.jaccard, graded.value.dice);
    if ranked.Failure? {
      return Failure(ranked.error);
    }
    var topJaccard, topDice := ranked.value.topJaccard, ranked.value.topDice;
    TopOfUnrated(graded.value.jaccard, rated);
    TopOfUnrated(graded.value.dice, rated);

    // ten Jaccard books always give the golden list its ten entries
    TenJaccardBooksSuffice(topJaccard, topDice);
    var goldenList := GoldenStandard(topJaccard, topDice);
    assert goldenList.Success?;
    GoldenOfUnrated(topJaccard, topDice, rated);
    var avgGoldenJaccard, avgGoldenDice := GoldenOverlap(goldenList.value, topJaccard, topDice);
    r := Success(Recommendation(topJaccard, topDice, ranked.value.averageOverlap,
                                goldenList.value, avgGoldenJaccard, avgGoldenDice));
  }

  /** One session: the user's top three ratings (best first, none left out rated higher)
      and the profile built from their books; then the scan, which raises ZeroDivisionError
      exactly when the profile has no keyword and some unrated catalog book has none either,
      and IndexError otherwise exactly when fewer than ten catalog books are unrated. On
      success the two top lists are the ten best of the intended scan against that profile,
      every book recommended is one the user has not rated, the golden list is the golden
      standard of the two top lists, and the three shares are their positional overlaps. */
  method RecommendForUser(userId: int, ratings: seq<RatingRow>, books: seq<Book>, filteredBooks: seq<Book>,
                          tokenize: string -> seq<string>, stopWords: set<string>, lower: string -> string)
    returns (topRatings: seq<Rated>, profile: Profile, r: Result<Recommendation>)
    ensures var rated := RatedBooks(userId, ratings);
            && |topRatings| == (if |rated| < 3 then |rated| else 3)
            && multiset(topRatings) <= multiset(rated)
            && (forall i, j :: 0 <= i < j < |topRatings| ==> topRatings[i].rating >= topRatings[j].rating)
            && (topRatings != [] ==>
                  forall x | x in multiset(rated) - multiset(topRatings) :: x.rating <= topRatings[|topRatings| - 1].rating)
    ensures IsProfileOf(profile, LookupAll(topRatings, books), tokenize, stopWords, lower)
    ensures var rated := RatedIsbnsOf(RatedBooks(userId, ratings));
            r.Failure? ==>
              || (r.error == ZeroDivisionError && profile.keywords == [] && HasBareUnrated(rated, filteredBooks, tokenize, stopWords))
              || (r.error == IndexError && |UnratedIsbns(rated, filteredBooks)| < 10)
    ensures var rated := RatedIsbnsOf(RatedBooks(userId, ratings));
            profile.keywords == [] && HasBareUnrated(rated, filteredBooks, tokenize, stopWords) ==>
              r == Failure(ZeroDivisionError)
    ensures var rated := RatedIsbnsOf(RatedBooks(userId, ratings));
            |UnratedIsbns(rated, filteredBooks)| >= 10 && !(profile.keywords == [] && HasBareUnrated(rated, filteredBooks, tokenize, stopWords)) ==>
              r.Success?
    ensures r.Success? ==>
              var rated := RatedIsbnsOf(RatedBooks(userId, ratings));
              var graded := ScanIntended(profile, rated, filteredBooks, tokenize, stopWords, lower);
              && graded.Success?
              && |graded.value.jaccard| >= 10 && |graded.value.dice| >= 10
              && r.value.topJaccard == SortBy(graded.value.jaccard, ScoreLe)[..10]
              && r.value.topDice == SortBy(graded.value.dice, ScoreLe)[..10]
    ensures r.Success? ==>
              var rated := RatedIsbnsOf(RatedBooks(userId, ratings));
              && |r.value.topJaccard| == 10 && |r.value.topDice| == 10 && |r.value.golden| == 10
              && (forall e :: e in r.value.topJaccard ==> e.isbn !in rated)
              && (forall e :: e in r.value.topDice ==> e.isbn !in rated)
              && (forall e :: e in r.value.golden ==> e.isbn !in rated)
              && r.value.golden == SortBy(Merged(r.value.topJaccard, r.value.topDice), GoldenLe)[..10]
              && r.value.listSimilarity == OverlapOfTen(ScoredIsbnsOf(r.value.topJaccard), ScoredIsbnsOf(r.value.topDice))
              && r.value.goldenJaccardSimilarity == OverlapOfTen(GoldenIsbnsOf(r.value.golden), ScoredIsbnsOf(r.value.topJaccard))
              && r.value.goldenDiceSimilarity == OverlapOfTen(GoldenIsbnsOf(r.value.golden), ScoredIsbnsOf(r.value.topDice))
              && 0.0 <= r.value.listSimilarity <= 1.0
              && 0.0 <= r.value.goldenJaccardSimilarity <= 1.0
              && 0.0 <= r.value.goldenDiceSimilarity <= 1.0
  {
    var ratedBooks := RatedBooks(userId, ratings);
    var isbn := RatedIsbns(ratedBooks);
    assert isbn == RatedIsbnsOf(ratedBooks);
    topRatings, profile := UserProfile(userId, ratings, books, tokenize, stopWords, lower);
    r := RankForProfile(profile, isbn, filteredBooks, tokenize, stopWords, lower);
  }
}
