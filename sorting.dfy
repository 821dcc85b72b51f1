/** The two orderings the system relies on: ascending by a string key
    (`ORDER BY full_name`, JavaScript's default `sort()` of department labels)
    and descending by a date (`ORDER BY date DESC`). Both are stable insertion
    sorts; callers only rely on the result being an ordered permutation. */
module Sorting {
  import opened Text
  import opened Seqs

  /** Every element's key is at most the key of every later element. */
  ghost predicate SortedBy<T>(s: seq<T>, key: T -> string) {
    forall i, j :: 0 <= i < j < |s| ==> StrLe(key(s[i]), key(s[j]))
  }

  /** Keys increase strictly; in particular no key repeats. */
  ghost predicate StrictlySortedBy<T>(s: seq<T>, key: T -> string) {
    forall i, j :: 0 <= i < j < |s| ==> StrLt(key(s[i]), key(s[j]))
  }

  ghost predicate NeighboursSortedBy<T>(s: seq<T>, key: T -> string) {
    forall i :: 0 <= i < |s| - 1 ==> StrLe(key(s[i]), key(s[i + 1]))
  }

  ghost predicate NeighboursStrictlySortedBy<T>(s: seq<T>, key: T -> string) {
    forall i :: 0 <= i < |s| - 1 ==> StrLt(key(s[i]), key(s[i + 1]))
  }

  lemma {:induction false} NeighboursSortedIsSorted<T>(s: seq<T>, key: T -> string)
    requires NeighboursSortedBy(s, key)
    ensures SortedBy(s, key)
  {
    if |s| > 1 {
      NeighboursSortedIsSorted(s[1..], key);
      forall j | 1 <= j < |s| ensures StrLe(key(s[0]), key(s[j])) {
        if j > 1 {
          assert StrLe(key(s[1]), key(s[j])) by { assert s[1..][0] == s[1] && s[1..][j - 1] == s[j]; }
          StrLeTransitive(key(s[0]), key(s[1]), key(s[j]));
        }
      }
      forall i, j | 0 <= i < j < |s| ensures StrLe(key(s[i]), key(s[j])) {
        if i > 0 {
          assert s[1..][i - 1] == s[i] && s[1..][j - 1] == s[j];
        }
      }
    }
  }

  lemma {:induction false} NeighboursStrictlySortedIsStrictlySorted<T>(s: seq<T>, key: T -> string)
    requires NeighboursStrictlySortedBy(s, key)
    ensures StrictlySortedBy(s, key)
  {
    if |s| > 1 {
      NeighboursStrictlySortedIsStrictlySorted(s[1..], key);
      forall j | 1 <= j < |s| ensures StrLt(key(s[0]), key(s[j])) {
        if j > 1 {
          assert StrLt(key(s[1]), key(s[j])) by { assert s[1..][0] == s[1] && s[1..][j - 1] == s[j]; }
          StrLtTransitive(key(s[0]), key(s[1]), key(s[j]));
        }
      }
      forall i, j | 0 <= i < j < |s| ensures StrLt(key(s[i]), key(s[j])) {
        if i > 0 {
          assert s[1..][i - 1] == s[i] && s[1..][j - 1] == s[j];
        }
      }
    }
  }

  lemma NeighboursSortedTail<T>(s: seq<T>, key: T -> string)
    requires s != []
    ensures NeighboursSortedBy(s, key) ==> NeighboursSortedBy(s[1..], key)
    ensures NeighboursStrictlySortedBy(s, key) ==> NeighboursStrictlySortedBy(s[1..], key)
  {
    if NeighboursSortedBy(s, key) {
      forall i | 0 <= i < |s[1..]| - 1 ensures StrLe(key(s[1..][i]), key(s[1..][i + 1])) {
        assert s[1..][i] == s[i + 1] && s[1..][i + 1] == s[i + 2];
      }
    }
    if NeighboursStrictlySortedBy(s, key) {
      forall i | 0 <= i < |s[1..]| - 1 ensures StrLt(key(s[1..][i]), key(s[1..][i + 1])) {
        assert s[1..][i] == s[i + 1] && s[1..][i + 1] == s[i + 2];
      }
    }
  }

  lemma NeighboursSortedCons<T>(x: T, s: seq<T>, key: T -> string)
    requires s != []
    ensures NeighboursSortedBy(s, key) && StrLe(key(x), key(s[0])) ==> NeighboursSortedBy([x] + s, key)
    ensures NeighboursStrictlySortedBy(s, key) && StrLt(key(x), key(s[0])) ==> NeighboursStrictlySortedBy([x] + s, key)
  {
    var r := [x] + s;
    if NeighboursSortedBy(s, key) && StrLe(key(x), key(s[0])) {
      forall i | 0 <= i < |r| - 1 ensures StrLe(key(r[i]), key(r[i + 1])) {
        if i > 0 { assert r[i] == s[i - 1] && r[i + 1] == s[i]; }
      }
    }
    if NeighboursStrictlySortedBy(s, key) && StrLt(key(x), key(s[0])) {
      forall i | 0 <= i < |r| - 1 ensures StrLt(key(r[i]), key(r[i + 1])) {
        if i > 0 { assert r[i] == s[i - 1] && r[i + 1] == s[i]; }
      }
    }
  }

  /** Inserts `x` in front of the first element whose key is not below x's. */
  function InsertByKey<T>(x: T, s: seq<T>, key: T -> string): (r: seq<T>)
    requires NeighboursSortedBy(s, key)
    ensures NeighboursSortedBy(r, key)
    ensures multiset(r) == multiset(s) + multiset{x}
    ensures |r| == |s| + 1 && (r[0] == x || (s != [] && r[0] == s[0]))
  {
    if s == [] then [x]
    else if StrLe(key(x), key(s[0])) then
      NeighboursSortedCons(x, s, key);
      [x] + s
    else
      NeighboursSortedTail(s, key);
      var rest := InsertByKey(x, s[1..], key);
      assert s == [s[0]] + s[1..];
      assert StrLe(key(s[0]), key(rest[0])) by {
        StrLtTrichotomy(key(x), key(s[0]));
        if rest[0] != x { assert rest[0] == s[1]; }
      }
      NeighboursSortedCons(s[0], rest, key);
      [s[0]] + rest
  }

  /** Inserting a key that is not there yet keeps the keys strictly increasing. */
  lemma {:induction false} InsertByKeyStrict<T>(x: T, s: seq<T>, key: T -> string)
    requires NeighboursSortedBy(s, key) && NeighboursStrictlySortedBy(s, key)
    requires forall y :: y in s ==> key(y) != key(x)
    ensures NeighboursStrictlySortedBy(InsertByKey(x, s, key), key)
    decreases |s|
  {
    if s != [] {
      assert s[0] in s;
      StrLtTrichotomy(key(x), key(s[0]));
      if StrLe(key(x), key(s[0])) {
        NeighboursSortedCons(x, s, key);
      } else {
        NeighboursSortedTail(s, key);
        assert forall y :: y in s[1..] ==> y in s;
        InsertByKeyStrict(x, s[1..], key);
        var rest := InsertByKey(x, s[1..], key);
        assert StrLt(key(s[0]), key(rest[0])) by {
          if rest[0] != x { assert rest[0] == s[1]; }
        }
        NeighboursSortedCons(s[0], rest, key);
      }
    }
  }

  /** Ascending stable sort by `key`. */
  function SortByKey<T(!new)>(s: seq<T>, key: T -> string): (r: seq<T>)
    ensures NeighboursSortedBy(r, key)
    ensures multiset(r) == multiset(s)
    ensures DistinctBy(s, key) ==> NeighboursStrictlySortedBy(r, key)
  {
    if s == [] then []
    else
      var rest := SortByKey(s[1..], key);
      assert s == [s[0]] + s[1..];
      assert DistinctBy(s, key) ==> NeighboursStrictlySortedBy(InsertByKey(s[0], rest, key), key) by {
        if DistinctBy(s, key) {
          DistinctByTail(s, key);
          HeadKeyFresh(s, rest, key);
          InsertByKeyStrict(s[0], rest, key);
        }
      }
      InsertByKey(s[0], rest, key)
  }

  /** The sorted sequence is ordered pairwise, not only between neighbours. */
  lemma SortByKeySorted<T(!new)>(s: seq<T>, key: T -> string)
    ensures SortedBy(SortByKey(s, key), key)
    ensures DistinctBy(s, key) ==> StrictlySortedBy(SortByKey(s, key), key)
  {
    NeighboursSortedIsSorted(SortByKey(s, key), key);
    if DistinctBy(s, key) {
      NeighboursStrictlySortedIsStrictlySorted(SortByKey(s, key), key);
    }
  }

  /** Every element's date is at least that of every later element. */
  ghost predicate DescendingBy<T>(s: seq<T>, date: T -> int) {
    forall i, j :: 0 <= i < j < |s| ==> date(s[i]) >= date(s[j])
  }

  ghost predicate StrictlyDescendingBy<T>(s: seq<T>, date: T -> int) {
    forall i, j :: 0 <= i < j < |s| ==> date(s[i]) > date(s[j])
  }

  /** Neighbour comparisons go through a named predicate, so that the
      quantifiers below trigger on the pair and not on `date(s[i])` alone. */
  predicate NotBefore<T>(x: T, y: T, date: T -> int) {
    date(x) >= date(y)
  }

  predicate After<T>(x: T, y: T, date: T -> int) {
    date(x) > date(y)
  }

  ghost predicate NeighboursDescendingBy<T>(s: seq<T>, date: T -> int) {
    forall i :: 0 <= i < |s| - 1 ==> NotBefore(s[i], s[i + 1], date)
  }

  ghost predicate NeighboursStrictlyDescendingBy<T>(s: seq<T>, date: T -> int) {
    forall i :: 0 <= i < |s| - 1 ==> After(s[i], s[i + 1], date)
  }

  lemma {:induction false} NeighboursDescendingIsDescending<T>(s: seq<T>, date: T -> int)
    requires NeighboursDescendingBy(s, date)
    ensures DescendingBy(s, date)
    ensures NeighboursStrictlyDescendingBy(s, date) ==> StrictlyDescendingBy(s, date)
  {
    if |s| > 1 {
      NeighboursDescendingIsDescending(s[1..], date);
      forall i, j | 0 <= i < j < |s|
        ensures date(s[i]) >= date(s[j])
        ensures NeighboursStrictlyDescendingBy(s, date) ==> date(s[i]) > date(s[j])
      {
        if i > 0 {
          assert s[1..][i - 1] == s[i] && s[1..][j - 1] == s[j];
        } else if j > 1 {
          assert s[1..][0] == s[1] && s[1..][j - 1] == s[j];
        }
      }
    }
  }

  lemma NeighboursDescendingTail<T>(s: seq<T>, date: T -> int)
    requires s != []
    ensures NeighboursDescendingBy(s, date) ==> NeighboursDescendingBy(s[1..], date)
    ensures NeighboursStrictlyDescendingBy(s, date) ==> NeighboursStrictlyDescendingBy(s[1..], date)
  {
    if NeighboursDescendingBy(s, date) {
      forall i | 0 <= i < |s[1..]| - 1 ensures NotBefore(s[1..][i], s[1..][i + 1], date) {
        assert s[1..][i] == s[i + 1] && s[1..][i + 1] == s[i + 2];
      }
    }
    if NeighboursStrictlyDescendingBy(s, date) {
      forall i | 0 <= i < |s[1..]| - 1 ensures After(s[1..][i], s[1..][i + 1], date) {
        assert s[1..][i] == s[i + 1] && s[1..][i + 1] == s[i + 2];
      }
    }
  }

  lemma NeighboursDescendingCons<T>(x: T, s: seq<T>, date: T -> int)
    requires s != []
    ensures NeighboursDescendingBy(s, date) && NotBefore(x, s[0], date) ==> NeighboursDescendingBy([x] + s, date)
    ensures NeighboursStrictlyDescendingBy(s, date) && After(x, s[0], date) ==> NeighboursStrictlyDescendingBy([x] + s, date)
  {
    var r := [x] + s;
    if NeighboursDescendingBy(s, date) && NotBefore(x, s[0], date) {
      forall i | 0 <= i < |r| - 1 ensures NotBefore(r[i], r[i + 1], date) {
        if i > 0 { assert r[i] == s[i - 1] && r[i + 1] == s[i]; }
      }
    }
    if NeighboursStrictlyDescendingBy(s, date) && After(x, s[0], date) {
      forall i | 0 <= i < |r| - 1 ensures After(r[i], r[i + 1], date) {
        if i > 0 { assert r[i] == s[i - 1] && r[i + 1] == s[i]; }
      }
    }
  }

  /** Inserts `x` in front of the first element whose date is not above x's. */
  function InsertByDateDesc<T>(x: T, s: seq<T>, date: T -> int): (r: seq<T>)
    requires NeighboursDescendingBy(s, date)
    ensures NeighboursDescendingBy(r, date)
    ensures multiset(r) == multiset(s) + multiset{x}
    ensures |r| == |s| + 1 && (r[0] == x || (s != [] && r[0] == s[0]))
  {
    if s == [] then [x]
    else if date(x) >= date(s[0]) then
      NeighboursDescendingCons(x, s, date);
      [x] + s
    else
      NeighboursDescendingTail(s, date);
      var rest := InsertByDateDesc(x, s[1..], date);
      assert s == [s[0]] + s[1..];
      assert NotBefore(s[0], rest[0], date) by {
        if rest[0] != x { assert rest[0] == s[1]; }
      }
      NeighboursDescendingCons(s[0], rest, date);
      [s[0]] + rest
  }

  /** Inserting a date that is not there yet keeps the dates strictly descending. */
  lemma {:induction false} InsertByDateDescStrict<T>(x: T, s: seq<T>, date: T -> int)
    requires NeighboursDescendingBy(s, date) && NeighboursStrictlyDescendingBy(s, date)
    requires forall y :: y in s ==> date(y) != date(x)
    ensures NeighboursStrictlyDescendingBy(InsertByDateDesc(x, s, date), date)
    decreases |s|
  {
    if s != [] {
      assert s[0] in s;
      if date(x) >= date(s[0]) {
        NeighboursDescendingCons(x, s, date);
      } else {
        NeighboursDescendingTail(s, date);
        assert forall y :: y in s[1..] ==> y in s;
        InsertByDateDescStrict(x, s[1..], date);
        var rest := InsertByDateDesc(x, s[1..], date);
        assert After(s[0], rest[0], date) by {
          if rest[0] != x { assert rest[0] == s[1]; }
        }
        NeighboursDescendingCons(s[0], rest, date);
      }
    }
  }

  /** Descending stable sort by `date`. */
  function SortByDateDesc<T(!new)>(s: seq<T>, date: T -> int): (r: seq<T>)
    ensures NeighboursDescendingBy(r, date)
    ensures multiset(r) == multiset(s)
    ensures DistinctBy(s, date) ==> NeighboursStrictlyDescendingBy(r, date)
  {
    if s == [] then []
    else
      var rest := SortByDateDesc(s[1..], date);
      assert s == [s[0]] + s[1..];
      assert DistinctBy(s, date) ==> NeighboursStrictlyDescendingBy(InsertByDateDesc(s[0], rest, date), date) by {
        if DistinctBy(s, date) {
          DistinctByTail(s, date);
          HeadKeyFresh(s, rest, date);
          InsertByDateDescStrict(s[0], rest, date);
        }
      }
      InsertByDateDesc(s[0], rest, date)
  }

  /** The sorted sequence is ordered pairwise, not only between neighbours. */
  lemma SortByDateDescSorted<T(!new)>(s: seq<T>, date: T -> int)
    ensures DescendingBy(SortByDateDesc(s, date), date)
    ensures DistinctBy(s, date) ==> StrictlyDescendingBy(SortByDateDesc(s, date), date)
  {
    NeighboursDescendingIsDescending(SortByDateDesc(s, date), date);
  }
}
