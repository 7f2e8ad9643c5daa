/** The records that flow through the pipeline: catalog rows, ratings, scored candidates,
    golden-standard entries and the user profile. */
module Records {

  /** A catalog row: ISBN (the table's key), title, author and year of publication. */
  datatype Book = Book(isbn: string, title: string, author: string, year: int)

  /** A row of the ratings table. */
  datatype RatingRow = RatingRow(user: int, isbn: string, rating: int)

  /** A rating of the current user, the `(ISBN, Book-Rating)` projection. */
  datatype Rated = Rated(isbn: string, rating: int)

  /** The details of a rated book, `(Title, Author, Year)`. */
  datatype BookInfo = BookInfo(title: string, author: string, year: int)

  /** A candidate book with one of its two scores, `(ISBN, Title, Author, Year, score)`. */
  datatype Scored = Scored(isbn: string, title: string, author: string, year: int, score: real)

  /** A golden-standard entry, `(ISBN, Title, Author, Year, Occurences, Total score)`. */
  datatype GoldenEntry = GoldenEntry(isbn: string, title: string, author: string, year: int,
                                     occurrences: int, total: real)

  /** The taste profile built from the top-rated books. The lists may repeat values. */
  datatype Profile = Profile(keywords: seq<string>, authors: seq<string>, years: seq<int>)

  /** The pair of scores `similarity` returns. */
  datatype Scores = Scores(jaccard: real, dice: real)

  /** The ISBN column of a list of ratings. */
  function RatedIsbnsOf(rated: seq<Rated>): seq<string> {
    seq(|rated|, i requires 0 <= i < |rated| => rated[i].isbn)
  }

  /** The ISBN column of a list of scored candidates. */
  function ScoredIsbnsOf(s: seq<Scored>): seq<string> {
    seq(|s|, i requires 0 <= i < |s| => s[i].isbn)
  }

  /** The ISBN column of a golden-standard list. */
  function GoldenIsbnsOf(g: seq<GoldenEntry>): seq<string> {
    seq(|g|, i requires 0 <= i < |g| => g[i].isbn)
  }

  /** The set of the strings in a list, Python's `set(a)`. */
  function ToSet(a: seq<string>): (s: set<string>)
    ensures forall x :: x in s <==> x in a
  {
    set x | x in a
  }
}
