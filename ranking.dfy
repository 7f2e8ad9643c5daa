/** The ranking pass of the driver loop: the candidate scan (lines 199-213), the sort and
    top-ten cut with the positional overlap (lines 215-229), and the overlap of the golden
    list with both top lists (lines 248-259). */
module Ranking {
  import opened Results
  import opened Records
  import opened Sorting
  import opened KeywordExtractor
  import opened Scoring
  import opened Profiles

  /** Python's `x in s` on two strings: `x` occurs in `s` as a contiguous piece. */
  predicate IsSubstring(x: string, s: string)
    decreases |s|
  {
    x <= s || (s != [] && IsSubstring(x, s[1..]))
  }

  /** The driver's variable `ISBN`: the list of rated ISBNs from line 186 until line 207
      rebinds it to the ISBN string of the candidate being scored. */
  datatype IsbnVar = RatedList(isbns: seq<string>) | CandidateIsbn(isbn: string)

  /** The exclusion test `book[0] in ISBN` of line 204: list membership while the variable
      holds the rated list, a substring test once it holds a candidate's ISBN. */
  predicate Excluded(isbn: string, v: IsbnVar) {
    match v
    case RatedList(isbns) => isbn in isbns
    case CandidateIsbn(last) => IsSubstring(isbn, last)
  }

  /** The two lists the scan appends to, `gradedBooksJaccard` and `gradedBooksDice`. */
  datatype Graded = Graded(jaccard: seq<Scored>, dice: seq<Scored>)

  datatype ScanState = ScanState(isbnVar: IsbnVar, graded: Graded)

  /** Both scores of one catalog book; the author is lower-cased first (line 211). */
  function ScoreBook(p: Profile, b: Book, tokenize: string -> seq<string>, stopWords: set<string>,
                     lower: string -> string): Result<Scores> {
    SimilarityScores(p.keywords, p.authors, p.years, lower(b.author), b.year, TitleKeywords(b.title, tokenize, stopWords))
  }

  /** Appends one scored book to both lists. */
  function AddScored(g: Graded, b: Book, sc: Scores): Graded {
    Graded(g.jaccard + [Scored(b.isbn, b.title, b.author, b.year, sc.jaccard)],
           g.dice + [Scored(b.isbn, b.title, b.author, b.year, sc.dice)])
  }

  /** The scan as written: the state after the catalog rows `catalog`, or the exception. */
  function ScanAsWritten(p: Profile, rated: seq<string>, catalog: seq<Book>, tokenize: string -> seq<string>,
                         stopWords: set<string>, lower: string -> string): Result<ScanState>
  {
    if catalog == [] then Success(ScanState(RatedList(rated), Graded([], [])))
    else
      match ScanAsWritten(p, rated, catalog[..|catalog| - 1], tokenize, stopWords, lower)
      case Failure(e) => Failure(e)
      case Success(st) =>
        var b := catalog[|catalog| - 1];
        if Excluded(b.isbn, st.isbnVar) then Success(st)
        else
          match ScoreBook(p, b, tokenize, stopWords, lower)
          case Failure(e) => Failure(e)
          case Success(sc) => Success(ScanState(CandidateIsbn(b.isbn), AddScored(st.graded, b, sc)))
  }

  /** Once the scan has raised, the rest of the catalog does not matter. */
  lemma {:induction false} ScanAsWrittenFailurePersists(p: Profile, rated: seq<string>, catalog: seq<Book>, i: nat,
      tokenize: string -> seq<string>, stopWords: set<string>, lower: string -> string)
    requires i <= |catalog| && ScanAsWritten(p, rated, catalog[..i], tokenize, stopWords, lower).Failure?
    ensures ScanAsWritten(p, rated, catalog, tokenize, stopWords, lower)
            == ScanAsWritten(p, rated, catalog[..i], tokenize, stopWords, lower)
    decreases |catalog| - i
  {
    if i < |catalog| {
      assert catalog[..i + 1][..i] == catalog[..i];
      ScanAsWrittenFailurePersists(p, rated, catalog, i + 1, tokenize, stopWords, lower);
    } else {
      assert catalog[..i] == catalog;
    }
  }

  /** The candidate scan exactly as the driver runs it, with the rebinding of `ISBN`. */
  method ScanCandidates(p: Profile, rated: seq<string>, catalog: seq<Book>, tokenize: string -> seq<string>,
                        stopWords: set<string>, lower: string -> string) returns (r: Result<Graded>)
    ensures r == match ScanAsWritten(p, rated, catalog, tokenize, stopWords, lower)
                 case Success(st) => Success(st.graded)
                 case Failure(e) => Failure(e)
  {
    var isbn := RatedList(rated);
    var gradedBooksJaccard: seq<Scored> := [];
    var gradedBooksDice: seq<Scored> := [];
    for i := 0 to |catalog|
      invariant ScanAsWritten(p, rated, catalog[..i], tokenize, stopWords, lower)
                == Success(ScanState(isbn, Graded(gradedBooksJaccard, gradedBooksDice)))
    {
      var book := catalog[i];
      assert catalog[..i + 1][..i] == catalog[..i];
      if Excluded(book.isbn, isbn) {
        continue;
      }
      isbn := CandidateIsbn(book.isbn);
      var keywords := GetKeywords(tokenize(book.title), stopWords);
      var scores := Similarity(p.keywords, p.authors, p.years, book.title, lower(book.author), book.year, keywords);
      if scores.Failure? {
        ScanAsWrittenFailurePersists(p, rated, catalog, i + 1, tokenize, stopWords, lower);
        return Failure(scores.error);
      }
      gradedBooksJaccard := gradedBooksJaccard + [Scored(book.isbn, book.title, book.author, book.year, scores.value.jaccard)];
      gradedBooksDice := gradedBooksDice + [Scored(book.isbn, book.title, book.author, book.year, scores.value.dice)];
    }
    assert catalog[..|catalog|] == catalog;
    r := Success(Graded(gradedBooksJaccard, gradedBooksDice));
  }

  /** The exclusion the scan evidently intends: skip every book the user has rated. */
  function ScanIntended(p: Profile, rated: seq<string>, catalog: seq<Book>, tokenize: string -> seq<string>,
                        stopWords: set<string>, lower: string -> string): Result<Graded>
  {
    if catalog == [] then Success(Graded([], []))
    else
      match ScanIntended(p, rated, catalog[..|catalog| - 1], tokenize, stopWords, lower)
      case Failure(e) => Failure(e)
      case Success(g) =>
        var b := catalog[|catalog| - 1];
        if b.isbn in rated then Success(g)
        else
          match ScoreBook(p, b, tokenize, stopWords, lower)
          case Failure(e) => Failure(e)
          case Success(sc) => Success(AddScored(g, b, sc))
  }

  /** The scan with the exclusion it evidently intends: the rated list is never rebound. */
  method ScanUnratedCandidates(p: Profile, rated: seq<string>, catalog: seq<Book>, tokenize: string -> seq<string>,
                               stopWords: set<string>, lower: string -> string) returns (r: Result<Graded>)
    ensures r == ScanIntended(p, rated, catalog, tokenize, stopWords, lower)
  {
    var gradedBooksJaccard: seq<Scored> := [];
    var gradedBooksDice: seq<Scored> := [];
    for i := 0 to |catalog|
      invariant ScanIntended(p, rated, catalog[..i], tokenize, stopWords, lower)
                == Success(Graded(gradedBooksJaccard, gradedBooksDice))
    {
      var book := catalog[i];
      assert catalog[..i + 1][..i] == catalog[..i];
      if book.isbn in rated {
        continue;
      }
      var keywords := GetKeywords(tokenize(book.title), stopWords);
      var scores := Similarity(p.keywords, p.authors, p.years, book.title, lower(book.author), book.year, keywords);
      if scores.Failure? {
        ScanIntendedFailurePersists(p, rated, catalog, i + 1, tokenize, stopWords, lower);
        return Failure(scores.error);
      }
      gradedBooksJaccard := gradedBooksJaccard + [Scored(book.isbn, book.title, book.author, book.year, scores.value.jaccard)];
      gradedBooksDice := gradedBooksDice + [Scored(book.isbn, book.title, book.author, book.year, scores.value.dice)];
    }
    assert catalog[..|catalog|] == catalog;
    r := Success(Graded(gradedBooksJaccard, gradedBooksDice));
  }

  lemma {:induction false} ScanIntendedFailurePersists(p: Profile, rated: seq<string>, catalog: seq<Book>, i: nat,
      tokenize: string -> seq<string>, stopWords: set<string>, lower: string -> string)
    requires i <= |catalog| && ScanIntended(p, rated, catalog[..i], tokenize, stopWords, lower).Failure?
    ensures ScanIntended(p, rated, catalog, tokenize, stopWords, lower)
            == ScanIntended(p, rated, catalog[..i], tokenize, stopWords, lower)
    decreases |catalog| - i
  {
    if i < |catalog| {
      assert catalog[..i + 1][..i] == catalog[..i];
      ScanIntendedFailurePersists(p, rated, catalog, i + 1, tokenize, stopWords, lower);
    } else {
      assert catalog[..i] == catalog;
    }
  }

  /** The ISBNs of the catalog rows the user has not rated, in catalog order. */
  function UnratedIsbns(rated: seq<string>, catalog: seq<Book>): seq<string> {
    if catalog == [] then []
    else
      var b := catalog[|catalog| - 1];
      UnratedIsbns(rated, catalog[..|catalog| - 1]) + (if b.isbn in rated then [] else [b.isbn])
  }

  /** The intended scan scores exactly the unrated books, in catalog order, with the two
      lists in step, never a rated one. */
  lemma ScanIntendedScoresUnrated(p: Profile, rated: seq<string>, catalog: seq<Book>,
      tokenize: string -> seq<string>, stopWords: set<string>, lower: string -> string)
    requires ScanIntended(p, rated, catalog, tokenize, stopWords, lower).Success?
    ensures var g := ScanIntended(p, rated, catalog, tokenize, stopWords, lower).value;
            && |g.jaccard| == |g.dice|
            && ScoredIsbnsOf(g.jaccard) == UnratedIsbns(rated, catalog)
            && ScoredIsbnsOf(g.dice) == UnratedIsbns(rated, catalog)
            && (forall i :: 0 <= i < |g.jaccard| ==> g.jaccard[i].isbn !in rated)
            && (forall i :: 0 <= i < |g.dice| ==> g.dice[i].isbn !in rated)
  {
    var g := ScanIntended(p, rated, catalog, tokenize, stopWords, lower).value;
    ScanIntendedIsbns(p, rated, catalog, tokenize, stopWords, lower);
    UnratedIsbnsUnrated(rated, catalog);
    var u := UnratedIsbns(rated, catalog);
    assert |g.jaccard| == |u| == |g.dice|;
    forall i | 0 <= i < |g.jaccard| ensures g.jaccard[i].isbn !in rated && g.dice[i].isbn !in rated {
      assert ScoredIsbnsOf(g.jaccard)[i] == u[i] && ScoredIsbnsOf(g.dice)[i] == u[i];
    }
  }

  /** Both lists of the intended scan name the unrated books, in catalog order. */
  lemma {:induction false} ScanIntendedIsbns(p: Profile, rated: seq<string>, catalog: seq<Book>,
      tokenize: string -> seq<string>, stopWords: set<string>, lower: string -> string)
    requires ScanIntended(p, rated, catalog, tokenize, stopWords, lower).Success?
    ensures var g := ScanIntended(p, rated, catalog, tokenize, stopWords, lower).value;
            ScoredIsbnsOf(g.jaccard) == UnratedIsbns(rated, catalog) && ScoredIsbnsOf(g.dice) == UnratedIsbns(rated, catalog)
  {
    if catalog != [] {
      var prefix := catalog[..|catalog| - 1];
      ScanIntendedIsbns(p, rated, prefix, tokenize, stopWords, lower);
      var g0 := ScanIntended(p, rated, prefix, tokenize, stopWords, lower).value;
      var g := ScanIntended(p, rated, catalog, tokenize, stopWords, lower).value;
      var b := catalog[|catalog| - 1];
      if b.isbn !in rated {
        assert ScoreBook(p, b, tokenize, stopWords, lower).Success?;
        var sc := ScoreBook(p, b, tokenize, stopWords, lower).value;
        assert g == AddScored(g0, b, sc);
        assert ScoredIsbnsOf(g.jaccard) == ScoredIsbnsOf(g0.jaccard) + [b.isbn];
        assert ScoredIsbnsOf(g.dice) == ScoredIsbnsOf(g0.dice) + [b.isbn];
      } else {
        assert g == g0;
      }
    }
  }

  /** No rated ISBN is among the unrated ones. */
  lemma {:induction false} UnratedIsbnsUnrated(rated: seq<string>, catalog: seq<Book>)
    ensures forall i :: 0 <= i < |UnratedIsbns(rated, catalog)| ==> UnratedIsbns(rated, catalog)[i] !in rated
  {
    if catalog != [] {
      UnratedIsbnsUnrated(rated, catalog[..|catalog| - 1]);
    }
  }

  /** The only exception the intended scan can raise is the division by zero of line 96. */
  lemma {:induction false} ScanIntendedRaisesDivision(p: Profile, rated: seq<string>, catalog: seq<Book>,
      tokenize: string -> seq<string>, stopWords: set<string>, lower: string -> string)
    ensures ScanIntended(p, rated, catalog, tokenize, stopWords, lower).Failure? ==>
            ScanIntended(p, rated, catalog, tokenize, stopWords, lower).error == ZeroDivisionError
  {
    if catalog != [] {
      ScanIntendedRaisesDivision(p, rated, catalog[..|catalog| - 1], tokenize, stopWords, lower);
    }
  }

  /** Some unrated book of the catalog has no title keyword. */
  predicate HasBareUnrated(rated: seq<string>, catalog: seq<Book>, tokenize: string -> seq<string>, stopWords: set<string>) {
    exists b :: b in catalog && b.isbn !in rated && TitleKeywords(b.title, tokenize, stopWords) == []
  }

  /** The intended scan raises exactly when the profile has no keyword and some unrated
      candidate has none either. */
  lemma {:induction false} ScanIntendedFails(p: Profile, rated: seq<string>, catalog: seq<Book>,
      tokenize: string -> seq<string>, stopWords: set<string>, lower: string -> string)
    ensures ScanIntended(p, rated, catalog, tokenize, stopWords, lower).Failure? <==>
            p.keywords == [] &&
            exists b :: b in catalog && b.isbn !in rated && TitleKeywords(b.title, tokenize, stopWords) == []
  {
    if catalog != [] {
      var prefix, last := catalog[..|catalog| - 1], catalog[|catalog| - 1];
      ScanIntendedFails(p, rated, prefix, tokenize, stopWords, lower);
      ScanIntendedStepFails(p, rated, catalog, tokenize, stopWords, lower);
      HasBareUnratedStep(rated, catalog, tokenize, stopWords);
      assert HasBareUnrated(rated, catalog, tokenize, stopWords) <==>
             exists b :: b in catalog && b.isbn !in rated && TitleKeywords(b.title, tokenize, stopWords) == [];
    }
  }

  lemma HasBareUnratedStep(rated: seq<string>, catalog: seq<Book>, tokenize: string -> seq<string>, stopWords: set<string>)
    requires catalog != []
    ensures var last := catalog[|catalog| - 1];
            HasBareUnrated(rated, catalog, tokenize, stopWords) <==>
            HasBareUnrated(rated, catalog[..|catalog| - 1], tokenize, stopWords) ||
            (last.isbn !in rated && TitleKeywords(last.title, tokenize, stopWords) == [])
  {
    var prefix, last := catalog[..|catalog| - 1], catalog[|catalog| - 1];
    assert catalog == prefix + [last];
    if b :| b in catalog && b.isbn !in rated && TitleKeywords(b.title, tokenize, stopWords) == [] {
      if b != last {
        assert b in prefix;
      }
    }
  }

  /** One step of the intended scan raises when an earlier step did, or when the new
      candidate is unrated and scoring it divides by zero. */
  lemma ScanIntendedStepFails(p: Profile, rated: seq<string>, catalog: seq<Book>,
      tokenize: string -> seq<string>, stopWords: set<string>, lower: string -> string)
    requires catalog != []
    ensures var last := catalog[|catalog| - 1];
            ScanIntended(p, rated, catalog, tokenize, stopWords, lower).Failure? <==>
            ScanIntended(p, rated, catalog[..|catalog| - 1], tokenize, stopWords, lower).Failure? ||
            (last.isbn !in rated && p.keywords == [] && TitleKeywords(last.title, tokenize, stopWords) == [])
  {
  }

  /** A catalog row for the finding examples below: the given ISBN and title, no author,
      published in 2000. */
  function ExampleBook(isbn: string, title: string): Book {
    Book(isbn, title, "", 2000)
  }

  /** Finding: after the first candidate has been scored, a rated book is no longer
      excluded. The user rated "0001" only; "0002" is scored first and rebinds `ISBN` to
      "0002", so the rated "0001" is scored as well. The intended scan skips it. */
  lemma RatedBookScoredAsWritten(p: Profile, tokenize: string -> seq<string>, stopWords: set<string>,
                                 lower: string -> string, t1: string, t2: string)
    requires p.keywords != []
    ensures var catalog := [ExampleBook("0002", t1), ExampleBook("0001", t2)];
            && ScanAsWritten(p, ["0001"], catalog, tokenize, stopWords, lower).Success?
            && ScoredIsbnsOf(ScanAsWritten(p, ["0001"], catalog, tokenize, stopWords, lower).value.graded.jaccard) == ["0002", "0001"]
            && ScanIntended(p, ["0001"], catalog, tokenize, stopWords, lower).Success?
            && ScoredIsbnsOf(ScanIntended(p, ["0001"], catalog, tokenize, stopWords, lower).value.jaccard) == ["0002"]
  {
    RatedBookAsWritten(p, tokenize, stopWords, lower, t1, t2);
    RatedBookIntended(p, tokenize, stopWords, lower, t1, t2);
  }

  /** The scan as written over "0002", "0001" with "0001" rated scores both books. */
  lemma RatedBookAsWritten(p: Profile, tokenize: string -> seq<string>, stopWords: set<string>,
                           lower: string -> string, t1: string, t2: string)
    requires p.keywords != []
    ensures var catalog := [ExampleBook("0002", t1), ExampleBook("0001", t2)];
            && ScanAsWritten(p, ["0001"], catalog, tokenize, stopWords, lower).Success?
            && ScoredIsbnsOf(ScanAsWritten(p, ["0001"], catalog, tokenize, stopWords, lower).value.graded.jaccard) == ["0002", "0001"]
  {
    var catalog := [ExampleBook("0002", t1), ExampleBook("0001", t2)];
    var b1, b2 := catalog[0], catalog[1];
    assert catalog[..1] == [b1] && [b1][..0] == [] && catalog[..2] == catalog;
    var sc1 := ScoreBook(p, b1, tokenize, stopWords, lower);
    var sc2 := ScoreBook(p, b2, tokenize, stopWords, lower);
    assert sc1.Success? && sc2.Success?;
    var g1 := AddScored(Graded([], []), b1, sc1.value);
    assert ScanAsWritten(p, ["0001"], [b1], tokenize, stopWords, lower) == Success(ScanState(CandidateIsbn("0002"), g1));
    RatedIsbnNotInCandidate();
    assert ScanAsWritten(p, ["0001"], catalog, tokenize, stopWords, lower)
           == Success(ScanState(CandidateIsbn("0001"), AddScored(g1, b2, sc2.value)));
  }

  /** "0001" is not a substring of "0002", so once `ISBN` is "0002" the rated book passes. */
  lemma RatedIsbnNotInCandidate()
    ensures !Excluded("0001", CandidateIsbn("0002"))
  {
    assert "0001"[3] != "0002"[3];
    assert "0002"[1..] == "002" && "002"[1..] == "02" && "02"[1..] == "2" && "2"[1..] == "";
  }

  /** The intended scan over the same catalog skips the rated "0001". */
  lemma RatedBookIntended(p: Profile, tokenize: string -> seq<string>, stopWords: set<string>,
                          lower: string -> string, t1: string, t2: string)
    requires p.keywords != []
    ensures var catalog := [ExampleBook("0002", t1), ExampleBook("0001", t2)];
            && ScanIntended(p, ["0001"], catalog, tokenize, stopWords, lower).Success?
            && ScoredIsbnsOf(ScanIntended(p, ["0001"], catalog, tokenize, stopWords, lower).value.jaccard) == ["0002"]
  {
    var catalog := [ExampleBook("0002", t1), ExampleBook("0001", t2)];
    var b1 := catalog[0];
    assert catalog[..1] == [b1] && [b1][..0] == [];
    var sc1 := ScoreBook(p, b1, tokenize, stopWords, lower);
    assert sc1.Success?;
    var g1 := AddScored(Graded([], []), b1, sc1.value);
    assert ScanIntended(p, ["0001"], [b1], tokenize, stopWords, lower) == Success(g1);
    assert ScanIntended(p, ["0001"], catalog, tokenize, stopWords, lower) == Success(g1);
  }

  /** Finding: an unrated book whose ISBN is a piece of the last scored candidate's ISBN is
      skipped. The user rated nothing; "0123" is scored and then "012" is excluded. */
  lemma PieceOfIsbnSkippedAsWritten(p: Profile, tokenize: string -> seq<string>, stopWords: set<string>,
                                    lower: string -> string, t1: string, t2: string)
    requires p.keywords != []
    ensures var catalog := [ExampleBook("0123", t1), ExampleBook("012", t2)];
            && ScanAsWritten(p, [], catalog, tokenize, stopWords, lower).Success?
            && ScoredIsbnsOf(ScanAsWritten(p, [], catalog, tokenize, stopWords, lower).value.graded.jaccard) == ["0123"]
            && ScanIntended(p, [], catalog, tokenize, stopWords, lower).Success?
            && ScoredIsbnsOf(ScanIntended(p, [], catalog, tokenize, stopWords, lower).value.jaccard) == ["0123", "012"]
  {
    var catalog := [ExampleBook("0123", t1), ExampleBook("012", t2)];
    var b1, b2 := catalog[0], catalog[1];
    assert catalog[..1] == [b1] && [b1][..0] == [] && catalog[..2] == catalog;
    var sc1 := ScoreBook(p, b1, tokenize, stopWords, lower);
    var sc2 := ScoreBook(p, b2, tokenize, stopWords, lower);
    assert sc1.Success? && sc2.Success?;
    var g1 := AddScored(Graded([], []), b1, sc1.value);
    assert ScanAsWritten(p, [], [b1], tokenize, stopWords, lower) == Success(ScanState(CandidateIsbn("0123"), g1));
    assert IsSubstring("012", "0123");
    assert ScanAsWritten(p, [], catalog, tokenize, stopWords, lower) == Success(ScanState(CandidateIsbn("0123"), g1));
    assert ScanIntended(p, [], [b1], tokenize, stopWords, lower) == Success(g1);
    assert ScanIntended(p, [], catalog, tokenize, stopWords, lower) == Success(AddScored(g1, b2, sc2.value));
  }

  /** `sort(key = lambda x: x[4], reverse = True)`: descending by score, stable. */
  predicate ScoreLe(a: Scored, b: Scored) {
    a.score >= b.score
  }

  lemma ScoreLeIsPreorder()
    ensures TotalPreorder(ScoreLe)
  {
  }

  /** The number of positions below `n` where the two lists agree. */
  function PositionalMatches(x: seq<string>, y: seq<string>, n: nat): (c: nat)
    requires n <= |x| && n <= |y|
    ensures c <= n
  {
    if n == 0 then 0
    else PositionalMatches(x, y, n - 1) + (if x[n - 1] == y[n - 1] then 1 else 0)
  }

  /** All positions agree exactly when the two prefixes are equal. */
  lemma {:induction false} PositionalMatchesAll(x: seq<string>, y: seq<string>, n: nat)
    requires n <= |x| && n <= |y|
    ensures PositionalMatches(x, y, n) == n <==> x[..n] == y[..n]
  {
    if n > 0 {
      PositionalMatchesAll(x, y, n - 1);
      assert x[..n] == x[..n - 1] + [x[n - 1]];
      assert y[..n] == y[..n - 1] + [y[n - 1]];
      if x[..n] == y[..n] {
        assert x[..n][..n - 1] == x[..n - 1] && y[..n][..n - 1] == y[..n - 1];
        assert x[..n][n - 1] == x[n - 1] && y[..n][n - 1] == y[n - 1];
      }
    }
  }

  /** The share of agreeing positions among ten, `count / 10`. */
  function OverlapOfTen(x: seq<string>, y: seq<string>): (f: real)
    requires |x| >= 10 && |y| >= 10
    ensures 0.0 <= f <= 1.0
    ensures f == 1.0 <==> x[..10] == y[..10]
  {
    PositionalMatchesAll(x, y, 10);
    PositionalMatches(x, y, 10) as real / 10.0
  }

  datatype Ranked = Ranked(topJaccard: seq<Scored>, topDice: seq<Scored>, averageOverlap: real)

  /** Lines 215-229: both lists sorted by score, the first ten of each copied, and the
      positions where both name the same ISBN counted. IndexError when a list has fewer
      than ten entries. */
  method TopTen(gradedJaccard: seq<Scored>, gradedDice: seq<Scored>) returns (r: Result<Ranked>)
    ensures r.Success? <==> |gradedJaccard| >= 10 && |gradedDice| >= 10
    ensures r.Failure? ==> r.error == IndexError
    ensures r.Success? ==>
              && r.value.topJaccard == SortBy(gradedJaccard, ScoreLe)[..10]
              && r.value.topDice == SortBy(gradedDice, ScoreLe)[..10]
              && r.value.averageOverlap == OverlapOfTen(ScoredIsbnsOf(r.value.topJaccard), ScoredIsbnsOf(r.value.topDice))
  {
    var sortedJaccard := SortBy(gradedJaccard, ScoreLe);
    var sortedDice := SortBy(gradedDice, ScoreLe);
    var topJaccard: seq<Scored> := [];
    var topDice: seq<Scored> := [];
    var matches := 0;
    for j := 0 to 10
      invariant j <= |sortedJaccard| && j <= |sortedDice|
      invariant topJaccard == sortedJaccard[..j] && topDice == sortedDice[..j]
      invariant matches == PositionalMatches(ScoredIsbnsOf(sortedJaccard), ScoredIsbnsOf(sortedDice), j)
    {
      if j >= |sortedJaccard| || j >= |sortedDice| {
        return Failure(IndexError);
      }
      PositionalMatchesStep(sortedJaccard, sortedDice, j);
      topJaccard := topJaccard + [sortedJaccard[j]];
      topDice := topDice + [sortedDice[j]];
      if sortedJaccard[j].isbn == sortedDice[j].isbn {
        matches := matches + 1;
      }
    }
    var averageOverlap := matches as real;
    averageOverlap := averageOverlap / 10.0;
    PositionalMatchesPrefix(ScoredIsbnsOf(sortedJaccard), ScoredIsbnsOf(sortedDice), ScoredIsbnsOf(topJaccard), ScoredIsbnsOf(topDice), 10);
    return Success(Ranked(topJaccard, topDice, averageOverlap));
  }

  /** One more position of two scored lists: both prefixes grow by one entry, and the
      count grows by one exactly when the two entries name the same ISBN. */
  lemma PositionalMatchesStep(x: seq<Scored>, y: seq<Scored>, j: nat)
    requires j < |x| && j < |y|
    ensures x[..j + 1] == x[..j] + [x[j]] && y[..j + 1] == y[..j] + [y[j]]
    ensures PositionalMatches(ScoredIsbnsOf(x), ScoredIsbnsOf(y), j + 1) ==
            PositionalMatches(ScoredIsbnsOf(x), ScoredIsbnsOf(y), j) + (if x[j].isbn == y[j].isbn then 1 else 0)
  {
  }

  /** Counting over a prefix sees only the prefix. */
  lemma {:induction false} PositionalMatchesPrefix(x: seq<string>, y: seq<string>, x': seq<string>, y': seq<string>, n: nat)
    requires n <= |x| && n <= |y| && n <= |x'| && n <= |y'|
    requires x[..n] == x'[..n] && y[..n] == y'[..n]
    ensures PositionalMatches(x, y, n) == PositionalMatches(x', y', n)
  {
    if n > 0 {
      assert x[..n - 1] == x'[..n - 1] && y[..n - 1] == y'[..n - 1] by {
        assert x[..n][..n - 1] == x[..n - 1] && x'[..n][..n - 1] == x'[..n - 1];
        assert y[..n][..n - 1] == y[..n - 1] && y'[..n][..n - 1] == y'[..n - 1];
      }
      assert x[n - 1] == x[..n][n - 1] && x'[n - 1] == x'[..n][n - 1];
      assert y[n - 1] == y[..n][n - 1] && y'[n - 1] == y'[..n][n - 1];
      PositionalMatchesPrefix(x, y, x', y', n - 1);
    }
  }

  /** Each top list holds ten of its graded books, best score first, with no graded book
      left out scoring above the tenth, and ties in catalog order. */
  lemma TopTenIsBest(graded: seq<Scored>)
    requires |graded| >= 10
    ensures var sorted := SortBy(graded, ScoreLe);
            var top := sorted[..10];
            && (forall i, j :: 0 <= i < j < 10 ==> top[i].score >= top[j].score)
            && multiset(top) <= multiset(graded)
            && (forall e | e in multiset(graded) - multiset(top) :: e.score <= top[9].score)
            && (forall k :: Ties(sorted, k, ScoreLe) == Ties(graded, k, ScoreLe))
  {
    var sorted := SortBy(graded, ScoreLe);
    var top := sorted[..10];
    ScoreLeIsPreorder();
    SortBySorted(graded, ScoreLe);
    forall k ensures Ties(sorted, k, ScoreLe) == Ties(graded, k, ScoreLe) {
      SortByStable(graded, k, ScoreLe);
    }
    forall i, j | 0 <= i < j < 10 ensures top[i].score >= top[j].score {
      assert ScoreLe(sorted[i], sorted[j]);
    }
    TopOfSorted(sorted, ScoreLe, 10);
    forall e | e in multiset(graded) - multiset(top) ensures e.score <= top[9].score {
      assert ScoreLe(sorted[9], e);
    }
  }

  /** Lines 248-259: the share of the ten positions where the golden list names the same
      ISBN as the Jaccard list, and as the Dice list. */
  method GoldenOverlap(goldenList: seq<GoldenEntry>, topJaccard: seq<Scored>, topDice: seq<Scored>)
    returns (avgGoldenJaccard: real, avgGoldenDice: real)
    requires |goldenList| >= 10 && |topJaccard| >= 10 && |topDice| >= 10
    ensures avgGoldenJaccard == OverlapOfTen(GoldenIsbnsOf(goldenList), ScoredIsbnsOf(topJaccard))
    ensures avgGoldenDice == OverlapOfTen(GoldenIsbnsOf(goldenList), ScoredIsbnsOf(topDice))
  {
    var matchesJaccard, matchesDice := 0, 0;
    for j := 0 to 10
      invariant matchesJaccard == PositionalMatches(GoldenIsbnsOf(goldenList), ScoredIsbnsOf(topJaccard), j)
      invariant matchesDice == PositionalMatches(GoldenIsbnsOf(goldenList), ScoredIsbnsOf(topDice), j)
    {
      if goldenList[j].isbn == topJaccard[j].isbn {
        matchesJaccard := matchesJaccard + 1;
      }
      if goldenList[j].isbn == topDice[j].isbn {
        matchesDice := matchesDice + 1;
      }
    }
    avgGoldenJaccard := matchesJaccard as real / 10.0;
    avgGoldenDice := matchesDice as real / 10.0;
  }
}
