/** `Array.prototype.filter`, `findIndex` and the stable
    `Array.prototype.sort`, as functions on sequences, with what the pages
    rely on about them. */
module Seqs {

  /** `s.filter(keep)`: the elements that pass, in their original order. */
  function Filter<T>(s: seq<T>, keep: T -> bool): (r: seq<T>)
    ensures |r| <= |s|
    ensures forall i :: 0 <= i < |r| ==> r[i] in s && keep(r[i])
    ensures forall i :: 0 <= i < |s| && keep(s[i]) ==> s[i] in r
  {
    if s == [] then []
    else (if keep(s[0]) then [s[0]] else []) + Filter(s[1..], keep)
  }

  /** `r` is obtained from `s` by deleting elements, keeping the order. */
  ghost predicate SubseqOf<T>(r: seq<T>, s: seq<T>)
    decreases |s|
  {
    if r == [] then true
    else if s == [] then false
    else (r[0] == s[0] && SubseqOf(r[1..], s[1..])) || SubseqOf(r, s[1..])
  }

  /** Deleting nothing is a way of deleting elements. */
  lemma {:induction false} SubseqOfSelf<T>(s: seq<T>)
    ensures SubseqOf(s, s)
  {
    if s != [] {
      SubseqOfSelf(s[1..]);
    }
  }

  /** Filtering only removes elements and never reorders them. */
  lemma {:induction false} FilterIsSubseq<T>(s: seq<T>, keep: T -> bool)
    ensures SubseqOf(Filter(s, keep), s)
  {
    if s != [] {
      FilterIsSubseq(s[1..], keep);
      var r := Filter(s, keep);
      if keep(s[0]) {
        assert r[0] == s[0] && r[1..] == Filter(s[1..], keep);
      } else {
        assert r == Filter(s[1..], keep);
      }
    }
  }

  /** Filtering keeps every copy of an element that passes and no copy of
      one that fails. */
  lemma {:induction false} FilterCounts<T>(s: seq<T>, keep: T -> bool)
    ensures forall x :: multiset(Filter(s, keep))[x] == if keep(x) then multiset(s)[x] else 0
  {
    if s != [] {
      FilterCounts(s[1..], keep);
      assert s == [s[0]] + s[1..];
      assert multiset(s) == multiset{s[0]} + multiset(s[1..]);
      var head := if keep(s[0]) then [s[0]] else [];
      assert Filter(s, keep) == head + Filter(s[1..], keep);
      assert multiset(Filter(s, keep)) == multiset(head) + multiset(Filter(s[1..], keep));
    }
  }

  /** Filtering keeps everything exactly when every element passes. */
  lemma {:induction false} FilterKeepsAll<T>(s: seq<T>, keep: T -> bool)
    ensures Filter(s, keep) == s <==> forall i :: 0 <= i < |s| ==> keep(s[i])
  {
    if s != [] {
      FilterKeepsAll(s[1..], keep);
      if !keep(s[0]) {
        assert |Filter(s, keep)| <= |s[1..]|;
      } else {
        assert forall i :: 1 <= i < |s| ==> s[i] == s[1..][i - 1];
      }
    }
  }

  /** Filtering keeps nothing when no element passes. */
  lemma {:induction false} FilterKeepsNone<T>(s: seq<T>, keep: T -> bool)
    requires forall i :: 0 <= i < |s| ==> !keep(s[i])
    ensures Filter(s, keep) == []
  {
    if s != [] {
      assert forall i :: 0 <= i < |s[1..]| ==> s[1..][i] == s[i + 1];
      FilterKeepsNone(s[1..], keep);
    }
  }

  /** `s.findIndex(p)`: the position of the first element that passes,
      -1 when none does. */
  function FindIndex<T>(s: seq<T>, p: T -> bool): (i: int)
    ensures -1 <= i < |s|
    ensures 0 <= i ==> p(s[i]) && forall j :: 0 <= j < i ==> !p(s[j])
    ensures i == -1 <==> forall j :: 0 <= j < |s| ==> !p(s[j])
  {
    if s == [] then -1
    else if p(s[0]) then 0
    else
      var k := FindIndex(s[1..], p);
      assert forall j :: 0 <= j < |s[1..]| ==> s[1..][j] == s[j + 1];
      if k < 0 then -1 else k + 1
  }

  /** The elements of `s` whose key is `k`, in order. */
  function WithKey<T>(s: seq<T>, key: T -> int, k: int): seq<T> {
    if s == [] then []
    else (if key(s[0]) == k then [s[0]] else []) + WithKey(s[1..], key, k)
  }

  /** Inserts `x` before the first element whose key is not smaller. */
  function Insert<T>(x: T, s: seq<T>, key: T -> int): (r: seq<T>)
    ensures |r| == |s| + 1
  {
    if s == [] || key(x) <= key(s[0]) then [x] + s
    else [s[0]] + Insert(x, s[1..], key)
  }

  /** Inserting adds exactly one copy of the element. */
  lemma {:induction false} InsertPerm<T>(x: T, s: seq<T>, key: T -> int)
    ensures multiset(Insert(x, s, key)) == multiset(s) + multiset{x}
  {
    if s != [] && key(x) > key(s[0]) {
      InsertPerm(x, s[1..], key);
      assert s == [s[0]] + s[1..];
    }
  }

  /** `s.sort((a, b) => key(a) - key(b))`, which is stable. */
  function SortBy<T>(s: seq<T>, key: T -> int): (r: seq<T>)
  {
    if s == [] then [] else Insert(s[0], SortBy(s[1..], key), key)
  }

  predicate SortedBy<T>(s: seq<T>, key: T -> int) {
    forall i, j :: 0 <= i < j < |s| ==> key(s[i]) <= key(s[j])
  }

  lemma {:induction false} InsertSorted<T>(x: T, s: seq<T>, key: T -> int)
    requires SortedBy(s, key)
    ensures SortedBy(Insert(x, s, key), key)
    ensures Insert(x, s, key)[0] == x || Insert(x, s, key)[0] == s[0]
  {
    var r := Insert(x, s, key);
    if s == [] || key(x) <= key(s[0]) {
      assert r == [x] + s;
    } else {
      InsertSorted(x, s[1..], key);
      var t := Insert(x, s[1..], key);
      assert r == [s[0]] + t;
      assert key(s[0]) <= key(t[0]);
      forall i, j | 0 <= i < j < |r| ensures key(r[i]) <= key(r[j]) {
        if i > 0 {
          assert r[i] == t[i - 1] && r[j] == t[j - 1];
        } else {
          assert r[j] == t[j - 1];
          assert key(t[0]) <= key(t[j - 1]);
        }
      }
    }
  }

  lemma {:induction false} InsertWithKey<T>(x: T, s: seq<T>, key: T -> int, k: int)
    ensures WithKey(Insert(x, s, key), key, k)
         == (if key(x) == k then [x] else []) + WithKey(s, key, k)
  {
    var r := Insert(x, s, key);
    if s == [] || key(x) <= key(s[0]) {
      assert r == [x] + s;
      assert r[0] == x && r[1..] == s;
    } else {
      var t := Insert(x, s[1..], key);
      assert r == [s[0]] + t;
      assert r[0] == s[0] && r[1..] == t;
      InsertWithKey(x, s[1..], key, k);
      assert WithKey(r, key, k) == (if key(s[0]) == k then [s[0]] else []) + WithKey(t, key, k);
      assert WithKey(s, key, k) == (if key(s[0]) == k then [s[0]] else []) + WithKey(s[1..], key, k);
    }
  }

  /** The sort orders by key. */
  lemma {:induction false} SortBySorted<T>(s: seq<T>, key: T -> int)
    ensures SortedBy(SortBy(s, key), key)
  {
    if s != [] {
      SortBySorted(s[1..], key);
      InsertSorted(s[0], SortBy(s[1..], key), key);
    }
  }

  /** The sort is a permutation of its input. */
  lemma {:induction false} SortByPerm<T>(s: seq<T>, key: T -> int)
    ensures multiset(SortBy(s, key)) == multiset(s)
  {
    if s != [] {
      SortByPerm(s[1..], key);
      InsertPerm(s[0], SortBy(s[1..], key), key);
      assert s == [s[0]] + s[1..];
    }
  }

  /** The sort is stable: the elements that share a key keep their
      relative order. */
  lemma {:induction false} SortByStable<T>(s: seq<T>, key: T -> int, k: int)
    ensures WithKey(SortBy(s, key), key, k) == WithKey(s, key, k)
  {
    if s != [] {
      SortByStable(s[1..], key, k);
      InsertWithKey(s[0], SortBy(s[1..], key), key, k);
      assert s == [s[0]] + s[1..];
    }
  }

  /** The sort orders by key, is a permutation of its input, and is stable. */
  lemma SortByCorrect<T>(s: seq<T>, key: T -> int)
    ensures SortedBy(SortBy(s, key), key)
    ensures multiset(SortBy(s, key)) == multiset(s)
    ensures forall k :: WithKey(SortBy(s, key), key, k) == WithKey(s, key, k)
  {
    SortBySorted(s, key);
    SortByPerm(s, key);
    forall k ensures WithKey(SortBy(s, key), key, k) == WithKey(s, key, k) {
      SortByStable(s, key, k);
    }
  }
}
