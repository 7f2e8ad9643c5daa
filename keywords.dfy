/** Keyword extraction from a book title (`getKeywords`). Lower-casing, the replacement of
    non-word characters and NLTK's `word_tokenize` happen before this point: the tokens
    and the stop-word set are inputs. */
module KeywordExtractor {

  /** Words that describe the edition rather than the book. */
  const Blacklist: set<string> := {"paperback", "novel", "vol", "hardcover", "edition"}

  /** A token worth keeping: no stop word, not blacklisted, at least two characters. */
  predicate Eligible(t: string, stopWords: set<string>) {
    t !in stopWords && t !in Blacklist && |t| > 1
  }

  /** Reference definition: the eligible tokens, each at its first occurrence, in order. */
  function Keywords(tokens: seq<string>, stopWords: set<string>): seq<string> {
    if tokens == [] then []
    else
      var rest, t := tokens[..|tokens| - 1], tokens[|tokens| - 1];
      Keywords(rest, stopWords) + (if Eligible(t, stopWords) && t !in rest then [t] else [])
  }

  /** The index of the first occurrence of `x` in `s`. */
  function FirstIndex(s: seq<string>, x: string): (i: nat)
    requires x in s
    ensures i < |s| && s[i] == x && x !in s[..i]
  {
    if s[0] == x then 0
    else
      assert x in s[1..];
      var j := FirstIndex(s[1..], x);
      assert s[..j + 1] == [s[0]] + s[1..][..j];
      1 + j
  }

  /** The loop at lines 64-67: a token is appended when it is eligible and not yet kept. */
  method GetKeywords(tokens: seq<string>, stopWords: set<string>) returns (keywords: seq<string>)
    ensures keywords == Keywords(tokens, stopWords)
  {
    keywords := [];
    for i := 0 to |tokens|
      invariant keywords == Keywords(tokens[..i], stopWords)
    {
      var t := tokens[i];
      assert tokens[..i + 1][..i] == tokens[..i];
      KeywordsMembers(tokens[..i], stopWords);
      if t !in stopWords && t !in Blacklist && t !in keywords && |t| > 1 {
        keywords := keywords + [t];
      }
    }
    assert tokens[..|tokens|] == tokens;
  }

  /** A keyword is exactly an eligible token. */
  lemma {:induction false} KeywordsMembers(tokens: seq<string>, stopWords: set<string>)
    ensures forall x :: x in Keywords(tokens, stopWords) <==> x in tokens && Eligible(x, stopWords)
  {
    if tokens != [] {
      var rest := tokens[..|tokens| - 1];
      KeywordsMembers(rest, stopWords);
      assert tokens == rest + [tokens[|tokens| - 1]];
    }
  }

  predicate NoDuplicates(s: seq<string>) {
    forall i, j :: 0 <= i < j < |s| ==> s[i] != s[j]
  }

  /** Every element of `r` is in `s`, and `r` lists them in the order of their first
      occurrence in `s`. */
  predicate InFirstOccurrenceOrder(r: seq<string>, s: seq<string>) {
    (forall x :: x in r ==> x in s) &&
    forall i, j :: 0 <= i < j < |r| && r[i] in s && r[j] in s ==> FirstIndex(s, r[i]) < FirstIndex(s, r[j])
  }

  /** No keyword is kept twice. */
  lemma {:induction false} KeywordsDistinct(tokens: seq<string>, stopWords: set<string>)
    ensures NoDuplicates(Keywords(tokens, stopWords))
  {
    if tokens != [] {
      var rest := tokens[..|tokens| - 1];
      KeywordsDistinct(rest, stopWords);
      KeywordsMembers(rest, stopWords);
      var prev, r := Keywords(rest, stopWords), Keywords(tokens, stopWords);
      var t := tokens[|tokens| - 1];
      assert r == prev + (if Eligible(t, stopWords) && t !in rest then [t] else []);
      forall i, j | 0 <= i < j < |r| ensures r[i] != r[j] {
        if j < |prev| {
          assert r[i] == prev[i] && r[j] == prev[j];
          assert prev[i] != prev[j];
        } else {
          assert r[j] == t && t !in rest;
          assert r[i] == prev[i] && prev[i] in prev;
          assert prev[i] in rest;
        }
      }
    }
  }

  /** Keywords appear in the order of their first occurrence among the tokens, so they
      form a subsequence of the tokens. */
  lemma {:induction false} KeywordsInFirstOccurrenceOrder(tokens: seq<string>, stopWords: set<string>)
    ensures InFirstOccurrenceOrder(Keywords(tokens, stopWords), tokens)
  {
    KeywordsMembers(tokens, stopWords);
    if tokens != [] {
      var rest, t := tokens[..|tokens| - 1], tokens[|tokens| - 1];
      var prev := Keywords(rest, stopWords);
      KeywordsInFirstOccurrenceOrder(rest, stopWords);
      KeywordsMembers(rest, stopWords);
      var r := Keywords(tokens, stopWords);
      assert tokens == rest + [t];
      assert r == prev + (if Eligible(t, stopWords) && t !in rest then [t] else []);
      forall i, j | 0 <= i < j < |r|
        ensures FirstIndex(tokens, r[i]) < FirstIndex(tokens, r[j])
      {
        assert r[i] == prev[i] && prev[i] in rest;
        FirstIndexSnoc(rest, t, prev[i]);
        if j < |prev| {
          assert r[j] == prev[j] && prev[j] in rest;
          FirstIndexSnoc(rest, t, prev[j]);
        } else {
          assert r[j] == t && t !in rest;
        }
      }
    }
  }

  /** A token already present keeps its first index when another is appended; a new one
      gets the last index. */
  lemma FirstIndexSnoc(rest: seq<string>, t: string, x: string)
    requires x in rest
    ensures FirstIndex(rest + [t], x) == FirstIndex(rest, x)
    ensures t !in rest ==> FirstIndex(rest + [t], t) == |rest|
  {
    var i, j := FirstIndex(rest + [t], x), FirstIndex(rest, x);
    assert (rest + [t])[..j] == rest[..j];
    if t !in rest {
      var k := FirstIndex(rest + [t], t);
      assert (rest + [t])[..|rest|] == rest;
    }
  }

  lemma GreatNovelExample()
    ensures Keywords(["the", "great", "novel", "paperback", "edition"], {"the"}) == ["great"]
  {
    var stop: set<string> := {"the"};
    assert Keywords(["the"], stop) == [] by {
      assert ["the"][..0] == [];
    }
    assert Keywords(["the", "great"], stop) == ["great"] by {
      assert ["the", "great"][..1] == ["the"];
      assert Eligible("great", stop);
    }
    assert Keywords(["the", "great", "novel"], stop) == ["great"] by {
      assert ["the", "great", "novel"][..2] == ["the", "great"];
    }
    assert Keywords(["the", "great", "novel", "paperback"], stop) == ["great"] by {
      assert ["the", "great", "novel", "paperback"][..3] == ["the", "great", "novel"];
    }
    assert ["the", "great", "novel", "paperback", "edition"][..4] == ["the", "great", "novel", "paperback"];
  }
}
