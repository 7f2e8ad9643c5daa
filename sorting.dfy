/** The stable sort that both `DataFrame.sort_values` and `list.sort` stand for here.
    An ordering is given as `le(a, b)`, "a may be placed before b"; a descending sort
    on a key is the ordering `key(a) >= key(b)`. */
module Sorting {

  /** `le` is total and transitive: a key comparison. */
  ghost predicate TotalPreorder<T(!new)>(le: (T, T) -> bool) {
    && (forall a, b :: le(a, b) || le(b, a))
    && (forall a, b, c :: le(a, b) && le(b, c) ==> le(a, c))
  }

  ghost predicate SortedBy<T>(s: seq<T>, le: (T, T) -> bool) {
    forall i, j :: 0 <= i < j < |s| ==> le(s[i], s[j])
  }

  /** The elements of `s` whose key equals that of `k`, in list order. */
  function Ties<T>(s: seq<T>, k: T, le: (T, T) -> bool): seq<T> {
    if s == [] then []
    else TieOf(s[0], k, le) + Ties(s[1..], k, le)
  }

  /** `x` goes in front of the first element it may precede, so in front of its ties. */
  function Insert<T(==)>(x: T, s: seq<T>, le: (T, T) -> bool): (r: seq<T>)
    ensures multiset(r) == multiset(s) + multiset{x}
  {
    if s == [] || le(x, s[0]) then [x] + s
    else
      assert s == [s[0]] + s[1..];
      [s[0]] + Insert(x, s[1..], le)
  }

  /** Insertion sort from the back: every element is inserted in front of its later ties. */
  function SortBy<T(==)>(s: seq<T>, le: (T, T) -> bool): (r: seq<T>)
    ensures multiset(r) == multiset(s) && |r| == |s|
  {
    if s == [] then []
    else
      assert s == [s[0]] + s[1..];
      Insert(s[0], SortBy(s[1..], le), le)
  }

  lemma {:induction false} InsertSorted<T(!new)>(x: T, s: seq<T>, le: (T, T) -> bool)
    requires TotalPreorder(le) && SortedBy(s, le)
    ensures SortedBy(Insert(x, s, le), le)
  {
    if s == [] || le(x, s[0]) {
    } else {
      var t := Insert(x, s[1..], le);
      InsertSorted(x, s[1..], le);
      forall e | e in t ensures le(s[0], e) {
        assert e in multiset(t);
        if e != x {
          assert e in multiset(s[1..]);
        }
      }
    }
  }

  lemma {:induction false} SortBySorted<T(!new)>(s: seq<T>, le: (T, T) -> bool)
    requires TotalPreorder(le)
    ensures SortedBy(SortBy(s, le), le)
  {
    if s != [] {
      SortBySorted(s[1..], le);
      InsertSorted(s[0], SortBy(s[1..], le), le);
    }
  }

  /** The one-element contribution of `x` to `Ties(_, k, le)`. */
  function TieOf<T>(x: T, k: T, le: (T, T) -> bool): seq<T> {
    if le(x, k) && le(k, x) then [x] else []
  }

  lemma TiesCons<T>(x: T, s: seq<T>, k: T, le: (T, T) -> bool)
    ensures Ties([x] + s, k, le) == TieOf(x, k, le) + Ties(s, k, le)
  {
    assert ([x] + s)[1..] == s;
  }

  /** Inserting never moves an element across one of its ties. */
  lemma {:induction false} InsertTies<T(!new)>(x: T, s: seq<T>, k: T, le: (T, T) -> bool)
    requires TotalPreorder(le)
    ensures Ties(Insert(x, s, le), k, le) == Ties([x] + s, k, le)
  {
    if s == [] || le(x, s[0]) {
    } else {
      var y, rest := s[0], s[1..];
      assert s == [y] + rest;
      // x does not precede y, so x and y cannot both tie with k
      assert TieOf(y, k, le) == [] || TieOf(x, k, le) == [];
      calc {
        Ties(Insert(x, s, le), k, le);
        Ties([y] + Insert(x, rest, le), k, le);
        { TiesCons(y, Insert(x, rest, le), k, le); }
        TieOf(y, k, le) + Ties(Insert(x, rest, le), k, le);
        { InsertTies(x, rest, k, le); TiesCons(x, rest, k, le); }
        TieOf(y, k, le) + (TieOf(x, k, le) + Ties(rest, k, le));
        TieOf(x, k, le) + (TieOf(y, k, le) + Ties(rest, k, le));
        { TiesCons(y, rest, k, le); }
        TieOf(x, k, le) + Ties(s, k, le);
        { TiesCons(x, s, k, le); }
        Ties([x] + s, k, le);
      }
    }
  }

  /** The sort is stable: for every key, the elements with that key keep their order. */
  lemma {:induction false} SortByStable<T(!new)>(s: seq<T>, k: T, le: (T, T) -> bool)
    requires TotalPreorder(le)
    ensures Ties(SortBy(s, le), k, le) == Ties(s, k, le)
  {
    if s != [] {
      SortByStable(s[1..], k, le);
      InsertTies(s[0], SortBy(s[1..], le), k, le);
      TiesCons(s[0], SortBy(s[1..], le), k, le);
      TiesCons(s[0], s[1..], k, le);
      assert s == [s[0]] + s[1..];
    }
  }

  /** No element left out of the first k of the sorted list may be placed before the
      last one kept. */
  lemma SortedPrefixLeftOut<T(!new)>(s: seq<T>, le: (T, T) -> bool, k: nat, top: seq<T>)
    requires TotalPreorder(le) && 0 < k <= |s| && top == SortBy(s, le)[..k]
    ensures forall e | e in multiset(s) - multiset(top) :: le(top[k - 1], e)
  {
    var sorted := SortBy(s, le);
    SortBySorted(s, le);
    TopOfSorted(sorted, le, k);
  }

  /** The first `k` elements of a sorted list: together with the rest they are the whole
      list, and every element left out may follow the last one kept. */
  lemma TopOfSorted<T>(s: seq<T>, le: (T, T) -> bool, k: nat)
    requires SortedBy(s, le) && 0 < k <= |s|
    ensures multiset(s[..k]) <= multiset(s)
    ensures multiset(s) - multiset(s[..k]) == multiset(s[k..])
    ensures forall e | e in multiset(s) - multiset(s[..k]) :: le(s[k - 1], e)
  {
    assert s == s[..k] + s[k..];
    assert multiset(s) == multiset(s[..k]) + multiset(s[k..]);
    forall e | e in multiset(s[k..]) ensures le(s[k - 1], e) {
      assert e in s[k..];
      var j :| k <= j < |s| && s[j] == e;
    }
  }

  /** The first `n` elements of a sort are elements of the sorted list. */
  lemma SortedPrefixMembers<T(!new)>(s: seq<T>, le: (T, T) -> bool, n: nat)
    requires n <= |s|
    ensures forall x :: x in SortBy(s, le)[..n] ==> x in s
  {
    forall x | x in SortBy(s, le)[..n] ensures x in s {
      assert x in multiset(SortBy(s, le));
    }
  }
}
