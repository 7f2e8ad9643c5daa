/** Profile building: the user's ratings, their three best, the catalog rows of those books,
    and the keywords, authors and years taken from them (lines 10-89). */
module Profiles {
  import opened Records
  import opened Sorting
  import opened KeywordExtractor

  /** `getRatedBooks`: the query over the ratings table, the user's rows in table order. */
  function RatedBooks(userId: int, ratings: seq<RatingRow>): (r: seq<Rated>)
    ensures forall x :: x in r <==> exists row :: row in ratings && row.user == userId && x == Rated(row.isbn, row.rating)
  {
    if ratings == [] then []
    else
      var rest, row := ratings[..|ratings| - 1], ratings[|ratings| - 1];
      assert ratings == rest + [row];
      RatedBooks(userId, rest) + (if row.user == userId then [Rated(row.isbn, row.rating)] else [])
  }

  /** `getRatedISBN`: the ISBN column of the user's ratings, in order. */
  method RatedIsbns(rated: seq<Rated>) returns (isbns: seq<string>)
    ensures |isbns| == |rated| && forall i :: 0 <= i < |rated| ==> isbns[i] == rated[i].isbn
  {
    isbns := [];
    for i := 0 to |rated|
      invariant |isbns| == i && forall k :: 0 <= k < i ==> isbns[k] == rated[k].isbn
    {
      isbns := isbns + [rated[i].isbn];
    }
  }

  /** `sort_values(by=['Book-Rating'], ascending=False)` compares ratings only. */
  predicate RatingLe(a: Rated, b: Rated) {
    a.rating >= b.rating
  }

  lemma RatingLeIsPreorder()
    ensures TotalPreorder(RatingLe)
  {
  }

  /** The first `n` ratings after the sort are ratings of the user. */
  lemma TopRatingsFromInput(rated: seq<Rated>, n: nat, top: seq<Rated>)
    requires n <= |rated| && top == SortBy(rated, RatingLe)[..n]
    ensures multiset(top) <= multiset(rated)
  {
    var sorted := SortBy(rated, RatingLe);
    assert sorted == top + sorted[n..];
    assert multiset(sorted) == multiset(top) + multiset(sorted[n..]);
  }

  /** The first `n` ratings after the sort are best first. */
  lemma TopRatingsDescend(rated: seq<Rated>, n: nat, top: seq<Rated>)
    requires n <= |rated| && top == SortBy(rated, RatingLe)[..n]
    ensures forall i, j :: 0 <= i < j < |top| ==> top[i].rating >= top[j].rating
  {
    var sorted := SortBy(rated, RatingLe);
    assert SortedBy(sorted, RatingLe) by {
      RatingLeIsPreorder();
      SortBySorted(rated, RatingLe);
    }
    forall i, j | 0 <= i < j < |top| ensures top[i].rating >= top[j].rating {
      assert RatingLe(sorted[i], sorted[j]);
    }
  }

  /** No rating left out of the first `n` is above the last one kept. */
  lemma TopRatingsBeatLeftOut(rated: seq<Rated>, n: nat, top: seq<Rated>)
    requires 0 < n <= |rated| && top == SortBy(rated, RatingLe)[..n]
    ensures forall r | r in multiset(rated) - multiset(top) :: r.rating <= top[n - 1].rating
  {
    assert forall e | e in multiset(rated) - multiset(top) :: RatingLe(top[n - 1], e) by {
      RatingLeIsPreorder();
      SortedPrefixLeftOut(rated, RatingLe, n, top);
    }
  }

  /** `getTopThreeRatings`: at most three of the user's ratings, best first, and no rating
      left out beats the worst one kept. */
  method TopThreeRatings(rated: seq<Rated>) returns (top: seq<Rated>)
    ensures |top| == if |rated| < 3 then |rated| else 3
    ensures multiset(top) <= multiset(rated)
    ensures forall i, j :: 0 <= i < j < |top| ==> top[i].rating >= top[j].rating
    ensures top != [] ==> forall r | r in multiset(rated) - multiset(top) :: r.rating <= top[|top| - 1].rating
  {
    var sorted := SortBy(rated, RatingLe);
    var n := if |sorted| < 3 then |sorted| else 3;
    var userRatings := sorted[..n];
    top := [];
    for i := 0 to |userRatings|
      invariant top == userRatings[..i]
    {
      top := top + [userRatings[i]];
    }
    assert top == userRatings;
    TopRatingsFromInput(rated, n, top);
    TopRatingsDescend(rated, n, top);
    if n > 0 {
      TopRatingsBeatLeftOut(rated, n, top);
    }
  }

  function InfoOf(b: Book): BookInfo {
    BookInfo(b.title, b.author, b.year)
  }

  /** `books.query('ISBN == @isbn')`: the catalog rows with that ISBN, in table order. */
  function Lookup(isbn: string, books: seq<Book>): (r: seq<BookInfo>)
    ensures forall x :: x in r <==> exists b :: b in books && b.isbn == isbn && x == InfoOf(b)
  {
    if books == [] then []
    else
      var rest, b := books[..|books| - 1], books[|books| - 1];
      assert books == rest + [b];
      Lookup(isbn, rest) + (if b.isbn == isbn then [InfoOf(b)] else [])
  }

  /** The rows found for each rating, concatenated in rating order. */
  function LookupAll(top: seq<Rated>, books: seq<Book>): seq<BookInfo> {
    if top == [] then []
    else LookupAll(top[..|top| - 1], books) + Lookup(top[|top| - 1].isbn, books)
  }

  /** `getTopThreeBooks`: the details of every catalog row matching a top rating. */
  method TopThreeBooks(top: seq<Rated>, books: seq<Book>) returns (infos: seq<BookInfo>)
    ensures infos == LookupAll(top, books)
  {
    infos := [];
    for i := 0 to |top|
      invariant infos == LookupAll(top[..i], books)
    {
      var bookData := Lookup(top[i].isbn, books);
      assert top[..i + 1][..i] == top[..i];
      for j := 0 to |bookData|
        invariant infos == LookupAll(top[..i], books) + bookData[..j]
      {
        infos := infos + [bookData[j]];
      }
      assert bookData[..|bookData|] == bookData;
    }
    assert top[..|top|] == top;
  }

  /** The ISBN is the catalog's key. */
  predicate UniqueIsbns(books: seq<Book>) {
    forall i, j :: 0 <= i < j < |books| ==> books[i].isbn != books[j].isbn
  }

  /** An ISBN missing from the catalog contributes no row. */
  lemma {:induction false} LookupMissing(isbn: string, books: seq<Book>)
    requires forall k :: 0 <= k < |books| ==> books[k].isbn != isbn
    ensures Lookup(isbn, books) == []
  {
    if books != [] {
      var rest := books[..|books| - 1];
      assert forall k :: 0 <= k < |rest| ==> rest[k] == books[k];
      LookupMissing(isbn, rest);
    }
  }

  /** With unique ISBNs a lookup finds at most one row. */
  lemma {:induction false} LookupAtMostOne(isbn: string, books: seq<Book>)
    requires UniqueIsbns(books)
    ensures |Lookup(isbn, books)| <= 1
  {
    if books != [] {
      var rest, b := books[..|books| - 1], books[|books| - 1];
      LookupAtMostOne(isbn, rest);
      if b.isbn == isbn {
        forall k | 0 <= k < |rest| ensures rest[k].isbn != isbn {
          assert rest[k] == books[k];
        }
        LookupMissing(isbn, rest);
      }
    }
  }

  /** A catalog keyed by ISBN gives at most one book per rating. */
  lemma {:induction false} LookupAllBound(top: seq<Rated>, books: seq<Book>)
    requires UniqueIsbns(books)
    ensures |LookupAll(top, books)| <= |top|
  {
    if top != [] {
      LookupAllBound(top[..|top| - 1], books);
      LookupAtMostOne(top[|top| - 1].isbn, books);
    }
  }

  /** The keywords of one title. */
  function TitleKeywords(title: string, tokenize: string -> seq<string>, stopWords: set<string>): seq<string> {
    Keywords(tokenize(title), stopWords)
  }

  /** Every title's keywords, concatenated in book order; repeats across titles stay. */
  function ProfileKeywords(infos: seq<BookInfo>, tokenize: string -> seq<string>, stopWords: set<string>): seq<string> {
    if infos == [] then []
    else ProfileKeywords(infos[..|infos| - 1], tokenize, stopWords)
         + TitleKeywords(infos[|infos| - 1].title, tokenize, stopWords)
  }

  /** `getTopThreeKeywords`: the loop that extends the list with each title's keywords. */
  method TopThreeKeywords(infos: seq<BookInfo>, tokenize: string -> seq<string>, stopWords: set<string>)
    returns (keywords: seq<string>)
    ensures keywords == ProfileKeywords(infos, tokenize, stopWords)
  {
    keywords := [];
    for i := 0 to |infos|
      invariant keywords == ProfileKeywords(infos[..i], tokenize, stopWords)
    {
      var titleKeywords := GetKeywords(tokenize(infos[i].title), stopWords);
      assert infos[..i + 1][..i] == infos[..i];
      keywords := keywords + titleKeywords;
    }
    assert infos[..|infos|] == infos;
  }

  /** A profile keyword is an eligible token of one of the titles. */
  lemma {:induction false} ProfileKeywordsMembers(infos: seq<BookInfo>, tokenize: string -> seq<string>, stopWords: set<string>)
    ensures forall x :: x in ProfileKeywords(infos, tokenize, stopWords) <==>
              exists b :: b in infos && x in tokenize(b.title) && Eligible(x, stopWords)
  {
    if infos != [] {
      var rest, b := infos[..|infos| - 1], infos[|infos| - 1];
      ProfileKeywordsMembers(rest, tokenize, stopWords);
      KeywordsMembers(tokenize(b.title), stopWords);
      assert infos == rest + [b];
    }
  }

  /** Two books with the same title put every keyword into the profile twice. */
  lemma ProfileKeywordsKeepRepeats(info: BookInfo, tokenize: string -> seq<string>)
    requires tokenize(info.title) == ["dune"]
    ensures ProfileKeywords([info, info], tokenize, {}) == ["dune", "dune"]
  {
    assert TitleKeywords(info.title, tokenize, {}) == ["dune"] by {
      assert ["dune"][..0] == [];
      assert Eligible("dune", {});
    }
    assert [info, info][..1] == [info];
    assert [info][..0] == [];
    assert ProfileKeywords([info], tokenize, {}) == ["dune"];
  }

  /** `getTopThreeAuthors`: each book's author, lower-cased by `lower`. */
  method TopThreeAuthors(infos: seq<BookInfo>, lower: string -> string) returns (authors: seq<string>)
    ensures |authors| == |infos| && forall i :: 0 <= i < |infos| ==> authors[i] == lower(infos[i].author)
  {
    authors := [];
    for i := 0 to |infos|
      invariant |authors| == i && forall k :: 0 <= k < i ==> authors[k] == lower(infos[k].author)
    {
      authors := authors + [lower(infos[i].author)];
    }
  }

  /** `getTopThreeYears`: each book's year of publication. */
  method TopThreeYears(infos: seq<BookInfo>) returns (years: seq<int>)
    ensures |years| == |infos| && forall i :: 0 <= i < |infos| ==> years[i] == infos[i].year
  {
    years := [];
    for i := 0 to |infos|
      invariant |years| == i && forall k :: 0 <= k < i ==> years[k] == infos[k].year
    {
      years := years + [infos[i].year];
    }
  }
}
