/** The golden-standard reconciler (`getGoldenStandard`, lines 129-162): the two top lists
    are merged by ISBN, sorted by the key `(occurrences, -total)` and cut to ten entries. */
module Golden {
  import opened Results
  import opened Records
  import opened Sorting

  /** `[item for item in topDice if item[0] == ISBN]`: the entries with that ISBN, in order.
      The first of them is the first entry of `topDice` with that ISBN. */
  function MatchesOf(isbn: string, topDice: seq<Scored>): (r: seq<Scored>)
    ensures forall x :: x in r ==> x in topDice && x.isbn == isbn
    ensures r == [] <==> isbn !in ScoredIsbnsOf(topDice)
    ensures r != [] ==> exists k :: 0 <= k < |topDice| && topDice[k] == r[0] &&
                          forall j :: 0 <= j < k ==> topDice[j].isbn != isbn
  {
    if topDice == [] then []
    else
      var rest := MatchesOf(isbn, topDice[1..]);
      assert forall k :: 1 <= k < |topDice| ==> ScoredIsbnsOf(topDice)[k] == ScoredIsbnsOf(topDice[1..])[k - 1];
      assert ScoredIsbnsOf(topDice) == [topDice[0].isbn] + ScoredIsbnsOf(topDice[1..]);
      if topDice[0].isbn == isbn then [topDice[0]] + rest
      else
        assert rest != [] ==> exists k :: 0 <= k < |topDice| && topDice[k] == rest[0] &&
                                forall j :: 0 <= j < k ==> topDice[j].isbn != isbn by {
          if rest != [] {
            var k :| 0 <= k < |topDice[1..]| && topDice[1..][k] == rest[0] &&
                     forall j :: 0 <= j < k ==> topDice[1..][j].isbn != isbn;
            assert topDice[k + 1] == rest[0];
            assert forall j :: 0 <= j < k + 1 ==> topDice[j].isbn != isbn by {
              forall j | 0 <= j < k + 1 ensures topDice[j].isbn != isbn {
                if j > 0 {
                  assert topDice[j] == topDice[1..][j - 1];
                }
              }
            }
          }
        }
        rest
  }

  /** The entry for one book of the Jaccard list (lines 136-144). */
  function JaccardEntry(book: Scored, topDice: seq<Scored>): GoldenEntry {
    var found := MatchesOf(book.isbn, topDice);
    if found != [] then GoldenEntry(book.isbn, book.title, book.author, book.year, 2, (book.score + found[0].score) / 2.0)
    else GoldenEntry(book.isbn, book.title, book.author, book.year, 1, book.score)
  }

  /** The entry for a book found in one list only. */
  function SingleEntry(book: Scored): GoldenEntry {
    GoldenEntry(book.isbn, book.title, book.author, book.year, 1, book.score)
  }

  function JaccardEntries(topJaccard: seq<Scored>, topDice: seq<Scored>): seq<GoldenEntry> {
    seq(|topJaccard|, i requires 0 <= i < |topJaccard| => JaccardEntry(topJaccard[i], topDice))
  }

  /** The Dice books whose ISBN was not checked, in Dice order (lines 148-152). */
  function DiceOnlyEntries(topDice: seq<Scored>, checked: seq<string>): seq<GoldenEntry> {
    if topDice == [] then []
    else
      var book := topDice[|topDice| - 1];
      DiceOnlyEntries(topDice[..|topDice| - 1], checked) + (if book.isbn in checked then [] else [SingleEntry(book)])
  }

  /** The list `golden` before it is sorted. */
  function Merged(topJaccard: seq<Scored>, topDice: seq<Scored>): seq<GoldenEntry> {
    JaccardEntries(topJaccard, topDice) + DiceOnlyEntries(topDice, ScoredIsbnsOf(topJaccard))
  }

  /** The sort key `(x[4], -x[5])` ascending: occurrence 1 before occurrence 2, and the
      higher total first among equal occurrences. */
  predicate GoldenLe(a: GoldenEntry, b: GoldenEntry) {
    a.occurrences < b.occurrences || (a.occurrences == b.occurrences && a.total >= b.total)
  }

  lemma GoldenLeIsPreorder()
    ensures TotalPreorder(GoldenLe)
  {
  }

  lemma JaccardEntriesSnoc(topJaccard: seq<Scored>, topDice: seq<Scored>, i: nat)
    requires i < |topJaccard|
    ensures JaccardEntries(topJaccard[..i + 1], topDice) == JaccardEntries(topJaccard[..i], topDice) + [JaccardEntry(topJaccard[i], topDice)]
    ensures ScoredIsbnsOf(topJaccard[..i + 1]) == ScoredIsbnsOf(topJaccard[..i]) + [topJaccard[i].isbn]
  {
  }

  lemma DiceOnlyEntriesSnoc(topDice: seq<Scored>, checked: seq<string>, i: nat)
    requires i < |topDice|
    ensures DiceOnlyEntries(topDice[..i + 1], checked) ==
            DiceOnlyEntries(topDice[..i], checked) + (if topDice[i].isbn in checked then [] else [SingleEntry(topDice[i])])
  {
    assert topDice[..i + 1][..i] == topDice[..i];
  }

  /** The loop at lines 135-145: one entry per Jaccard book, and the ISBNs checked. */
  method JaccardPass(topJaccard: seq<Scored>, topDice: seq<Scored>) returns (golden: seq<GoldenEntry>, checkedIsbn: seq<string>)
    ensures golden == JaccardEntries(topJaccard, topDice)
    ensures checkedIsbn == ScoredIsbnsOf(topJaccard)
  {
    golden := [];
    checkedIsbn := [];
    for i := 0 to |topJaccard|
      invariant golden == JaccardEntries(topJaccard[..i], topDice)
      invariant checkedIsbn == ScoredIsbnsOf(topJaccard[..i])
    {
      var book := topJaccard[i];
      var isbn := book.isbn;
      var found := MatchesOf(isbn, topDice);
      JaccardEntriesSnoc(topJaccard, topDice, i);
      var entry;
      if found != [] {
        var totalScore := (book.score + found[0].score) / 2.0;
        entry := GoldenEntry(book.isbn, book.title, book.author, book.year, 2, totalScore);
      } else {
        entry := GoldenEntry(book.isbn, book.title, book.author, book.year, 1, book.score);
      }
      assert entry == JaccardEntry(book, topDice);
      golden := golden + [entry];
      checkedIsbn := checkedIsbn + [isbn];
    }
    assert topJaccard[..|topJaccard|] == topJaccard;
  }

  /** The loop at lines 148-152: the Dice books whose ISBN was not checked are appended. */
  method DicePass(golden0: seq<GoldenEntry>, topDice: seq<Scored>, checkedIsbn: seq<string>) returns (golden: seq<GoldenEntry>)
    ensures golden == golden0 + DiceOnlyEntries(topDice, checkedIsbn)
  {
    golden := golden0;
    for i := 0 to |topDice|
      invariant golden == golden0 + DiceOnlyEntries(topDice[..i], checkedIsbn)
    {
      var book := topDice[i];
      DiceOnlyEntriesSnoc(topDice, checkedIsbn, i);
      if book.isbn in checkedIsbn {
        continue;
      }
      golden := golden + [GoldenEntry(book.isbn, book.title, book.author, book.year, 1, book.score)];
    }
    assert topDice[..|topDice|] == topDice;
  }

  /** `getGoldenStandard`. It raises IndexError when the merged list has fewer than ten
      entries; otherwise it returns the first ten of the sorted merged list. */
  method GoldenStandard(topJaccard: seq<Scored>, topDice: seq<Scored>) returns (r: Result<seq<GoldenEntry>>)
    ensures r.Success? <==> |Merged(topJaccard, topDice)| >= 10
    ensures r.Failure? ==> r.error == IndexError
    ensures r.Success? ==> r.value == SortBy(Merged(topJaccard, topDice), GoldenLe)[..10]
  {
    var golden, checkedIsbn := JaccardPass(topJaccard, topDice);
    golden := DicePass(golden, topDice, checkedIsbn);
    assert golden == Merged(topJaccard, topDice);
    golden := SortBy(golden, GoldenLe);
    r := FirstTen(golden);
  }

  /** The loop at lines 159-160: the first ten entries, or IndexError at the first
      position past the end. */
  method FirstTen(golden: seq<GoldenEntry>) returns (r: Result<seq<GoldenEntry>>)
    ensures r.Success? <==> |golden| >= 10
    ensures r.Failure? ==> r.error == IndexError
    ensures r.Success? ==> r.value == golden[..10]
  {
    var topGolden: seq<GoldenEntry> := [];
    for i := 0 to 10
      invariant i <= |golden| && topGolden == golden[..i]
    {
      if i >= |golden| {
        return Failure(IndexError);
      }
      topGolden := topGolden + [golden[i]];
    }
    return Success(topGolden);
  }

  /** One entry per Jaccard book, in order: occurrence 2 and the mean with the first Dice
      entry of the same ISBN when there is one, occurrence 1 and its own score otherwise.
      The Dice-only entries follow: each is the single entry, with its Dice score, of a Dice
      book whose ISBN is not in the Jaccard list, and every such book has one. */
  lemma MergedShape(topJaccard: seq<Scored>, topDice: seq<Scored>)
    ensures var m := Merged(topJaccard, topDice);
      && |m| >= |topJaccard|
      && (forall i :: 0 <= i < |topJaccard| ==>
            && m[i].isbn == topJaccard[i].isbn && m[i].title == topJaccard[i].title
            && m[i].author == topJaccard[i].author && m[i].year == topJaccard[i].year
            && (m[i].occurrences == 2 <==> topJaccard[i].isbn in ScoredIsbnsOf(topDice))
            && (m[i].occurrences == 2 ==>
                  (exists k :: 0 <= k < |topDice| && topDice[k].isbn == topJaccard[i].isbn &&
                     (forall j :: 0 <= j < k ==> topDice[j].isbn != topJaccard[i].isbn) &&
                     m[i].total == (topJaccard[i].score + topDice[k].score) / 2.0))
            && (m[i].occurrences != 2 ==> m[i].occurrences == 1 && m[i].total == topJaccard[i].score))
      && (forall i :: |topJaccard| <= i < |m| ==>
            m[i].occurrences == 1 && m[i].isbn in ScoredIsbnsOf(topDice) && m[i].isbn !in ScoredIsbnsOf(topJaccard))
    ensures forall i :: |topJaccard| <= i < |Merged(topJaccard, topDice)| ==>
              exists k :: 0 <= k < |topDice| && topDice[k].isbn !in ScoredIsbnsOf(topJaccard) &&
                          Merged(topJaccard, topDice)[i] == SingleEntry(topDice[k])
    ensures forall k :: 0 <= k < |topDice| && topDice[k].isbn !in ScoredIsbnsOf(topJaccard) ==>
              SingleEntry(topDice[k]) in Merged(topJaccard, topDice)[|topJaccard|..]
  {
    var m := Merged(topJaccard, topDice);
    var je := JaccardEntries(topJaccard, topDice);
    var checked := ScoredIsbnsOf(topJaccard);
    var tail := DiceOnlyEntries(topDice, checked);
    assert m[|topJaccard|..] == tail;
    DiceOnlyEntriesFrom(topDice, checked);
    DiceOnlyEntriesComplete(topDice, checked);
    forall i | |topJaccard| <= i < |m|
      ensures m[i].occurrences == 1 && m[i].isbn in ScoredIsbnsOf(topDice) && m[i].isbn !in checked
      ensures exists k :: 0 <= k < |topDice| && topDice[k].isbn !in checked && m[i] == SingleEntry(topDice[k])
    {
      var e := tail[i - |je|];
      assert m[i] == e;
      assert e in tail;
      var k :| 0 <= k < |topDice| && e == SingleEntry(topDice[k]) && topDice[k].isbn !in checked;
      assert ScoredIsbnsOf(topDice)[k] == e.isbn;
    }
  }

  /** Every Dice book whose ISBN is not checked has its single entry among the Dice-only ones. */
  lemma {:induction false} DiceOnlyEntriesComplete(topDice: seq<Scored>, checked: seq<string>)
    ensures forall k :: 0 <= k < |topDice| && topDice[k].isbn !in checked ==>
              SingleEntry(topDice[k]) in DiceOnlyEntries(topDice, checked)
  {
    if topDice != [] {
      var rest := topDice[..|topDice| - 1];
      DiceOnlyEntriesComplete(rest, checked);
      forall k | 0 <= k < |topDice| && topDice[k].isbn !in checked
        ensures SingleEntry(topDice[k]) in DiceOnlyEntries(topDice, checked)
      {
        if k < |rest| {
          assert topDice[k] == rest[k];
        }
      }
    }
  }

  /** Every Dice-only entry is the single entry of an unchecked Dice book. */
  lemma {:induction false} DiceOnlyEntriesFrom(topDice: seq<Scored>, checked: seq<string>)
    ensures forall e :: e in DiceOnlyEntries(topDice, checked) ==>
              exists k :: 0 <= k < |topDice| && e == SingleEntry(topDice[k]) && topDice[k].isbn !in checked
  {
    if topDice != [] {
      var rest := topDice[..|topDice| - 1];
      DiceOnlyEntriesFrom(rest, checked);
      forall e | e in DiceOnlyEntries(topDice, checked)
        ensures exists k :: 0 <= k < |topDice| && e == SingleEntry(topDice[k]) && topDice[k].isbn !in checked
      {
        if e in DiceOnlyEntries(rest, checked) {
          var k :| 0 <= k < |rest| && e == SingleEntry(rest[k]) && rest[k].isbn !in checked;
          assert topDice[k] == rest[k];
        } else {
          assert e == SingleEntry(topDice[|topDice| - 1]);
        }
      }
    }
  }

  /** Occurrence 2 exactly for a book on both lists; occurrence 1 for a book on one only. */
  lemma OccurrencesCountLists(topJaccard: seq<Scored>, topDice: seq<Scored>)
    ensures forall e :: e in Merged(topJaccard, topDice) ==>
      var inJ, inD := e.isbn in ScoredIsbnsOf(topJaccard), e.isbn in ScoredIsbnsOf(topDice);
      (e.occurrences == 2 && inJ && inD) || (e.occurrences == 1 && inJ != inD)
  {
    var m := Merged(topJaccard, topDice);
    MergedShape(topJaccard, topDice);
    forall e | e in m
      ensures var inJ, inD := e.isbn in ScoredIsbnsOf(topJaccard), e.isbn in ScoredIsbnsOf(topDice);
              (e.occurrences == 2 && inJ && inD) || (e.occurrences == 1 && inJ != inD)
    {
      var i :| 0 <= i < |m| && m[i] == e;
      if i < |topJaccard| {
        assert ScoredIsbnsOf(topJaccard)[i] == e.isbn;
      }
    }
  }

  /** With ten Jaccard books the merged list is long enough for the fixed cut. */
  lemma TenJaccardBooksSuffice(topJaccard: seq<Scored>, topDice: seq<Scored>)
    requires |topJaccard| >= 10
    ensures |Merged(topJaccard, topDice)| >= 10
  {
    MergedShape(topJaccard, topDice);
  }

  /** The sorted list is a stable permutation of the merged one in key order, and the ten
      kept entries are the first ten in that order: each entry left out sorts after them. */
  lemma GoldenOrder(topJaccard: seq<Scored>, topDice: seq<Scored>)
    requires |Merged(topJaccard, topDice)| >= 10
    ensures var m := Merged(topJaccard, topDice);
            var sorted := SortBy(m, GoldenLe);
            var top := sorted[..10];
            && multiset(sorted) == multiset(m)
            && (forall k :: Ties(sorted, k, GoldenLe) == Ties(m, k, GoldenLe))
            && (forall i, j :: 0 <= i < j < |top| ==>
                  top[i].occurrences < top[j].occurrences ||
                  (top[i].occurrences == top[j].occurrences && top[i].total >= top[j].total))
            && multiset(top) <= multiset(m)
            && (forall e | e in multiset(m) - multiset(top) :: GoldenLe(top[9], e))
  {
    var m := Merged(topJaccard, topDice);
    var sorted := SortBy(m, GoldenLe);
    var top := sorted[..10];
    GoldenLeIsPreorder();
    SortBySorted(m, GoldenLe);
    forall k ensures Ties(sorted, k, GoldenLe) == Ties(m, k, GoldenLe) {
      SortByStable(m, k, GoldenLe);
    }
    forall i, j | 0 <= i < j < |top|
      ensures top[i].occurrences < top[j].occurrences ||
              (top[i].occurrences == top[j].occurrences && top[i].total >= top[j].total)
    {
      assert GoldenLe(sorted[i], sorted[j]);
    }
    TopOfSorted(sorted, GoldenLe, 10);
  }
}
