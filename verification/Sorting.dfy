/** Stable sorting by a real key, as the host language's `sorted` and `list.sort` do it. */
module Sorting {

  function Insert<T>(x: T, s: seq<T>, key: T -> real): (r: seq<T>)
    ensures |r| == |s| + 1
  {
    if s == [] || key(x) <= key(s[0]) then [x] + s else [s[0]] + Insert(x, s[1..], key)
  }

  function SortBy<T>(s: seq<T>, key: T -> real): (r: seq<T>)
    ensures |r| == |s|
  {
    if s == [] then [] else Insert(s[0], SortBy(s[1..], key), key)
  }

  ghost predicate Sorted<T>(s: seq<T>, key: T -> real) {
    forall i, j :: 0 <= i < j < |s| ==> key(s[i]) <= key(s[j])
  }

  /** The elements with key `k`, in order. */
  function Group<T>(s: seq<T>, key: T -> real, k: real): seq<T> {
    if s == [] then [] else (if key(s[0]) == k then [s[0]] else []) + Group(s[1..], key, k)
  }

  /** The elements as a bag of tags, so that nothing is lost, doubled or invented. */
  function Bag<T, L>(s: seq<T>, tag: T -> L): multiset<L> {
    if s == [] then multiset{} else multiset{tag(s[0])} + Bag(s[1..], tag)
  }

  lemma {:induction false} BagSnoc<T, L>(s: seq<T>, x: T, tag: T -> L)
    ensures Bag(s + [x], tag) == Bag(s, tag) + multiset{tag(x)}
  {
    if s == [] {
      assert s + [x] == [x];
    } else {
      assert (s + [x])[1..] == s[1..] + [x];
      BagSnoc(s[1..], x, tag);
    }
  }

  lemma {:induction false} InsertSorted<T>(x: T, s: seq<T>, key: T -> real)
    requires Sorted(s, key)
    ensures Sorted(Insert(x, s, key), key)
  {
    if s != [] && key(x) > key(s[0]) {
      InsertSorted(x, s[1..], key);
      InsertMembers(x, s[1..], key);
      var rest := Insert(x, s[1..], key);
      forall i | 0 <= i < |rest| ensures key(s[0]) <= key(rest[i]) {
        assert rest[i] == x || rest[i] in s[1..];
      }
    }
  }

  lemma GroupCons<T>(x: T, s: seq<T>, key: T -> real, k: real)
    ensures Group([x] + s, key, k) == (if key(x) == k then [x] else []) + Group(s, key, k)
  {
    assert ([x] + s)[1..] == s;
  }

  lemma {:induction false} InsertGroup<T>(x: T, s: seq<T>, key: T -> real, k: real)
    ensures Group(Insert(x, s, key), key, k) == (if key(x) == k then [x] else []) + Group(s, key, k)
  {
    if s == [] || key(x) <= key(s[0]) {
      GroupCons(x, s, key, k);
    } else {
      InsertGroup(x, s[1..], key, k);
      GroupCons(s[0], Insert(x, s[1..], key), key, k);
      assert key(x) != key(s[0]);
    }
  }

  lemma {:induction false} InsertBag<T, L>(x: T, s: seq<T>, key: T -> real, tag: T -> L)
    ensures Bag(Insert(x, s, key), tag) == multiset{tag(x)} + Bag(s, tag)
  {
    if s == [] || key(x) <= key(s[0]) {
      assert ([x] + s)[1..] == s;
    } else {
      InsertBag(x, s[1..], key, tag);
      assert ([s[0]] + Insert(x, s[1..], key))[1..] == Insert(x, s[1..], key);
    }
  }

  lemma {:induction false} SortBySorted<T>(s: seq<T>, key: T -> real)
    ensures Sorted(SortBy(s, key), key)
  {
    if s != [] {
      SortBySorted(s[1..], key);
      InsertSorted(s[0], SortBy(s[1..], key), key);
    }
  }

  /** Elements with equal keys keep their original order. */
  lemma {:induction false} SortByStable<T>(s: seq<T>, key: T -> real, k: real)
    ensures Group(SortBy(s, key), key, k) == Group(s, key, k)
  {
    if s != [] {
      SortByStable(s[1..], key, k);
      InsertGroup(s[0], SortBy(s[1..], key), key, k);
    }
  }

  lemma {:induction false} SortByBag<T, L>(s: seq<T>, key: T -> real, tag: T -> L)
    ensures Bag(SortBy(s, key), tag) == Bag(s, tag)
  {
    if s != [] {
      SortByBag(s[1..], key, tag);
      InsertBag(s[0], SortBy(s[1..], key), key, tag);
    }
  }

  lemma {:induction false} SortByMembers<T>(s: seq<T>, key: T -> real)
    ensures forall y :: y in SortBy(s, key) ==> y in s
    ensures forall y :: y in s ==> y in SortBy(s, key)
  {
    if s != [] {
      SortByMembers(s[1..], key);
      InsertMembers(s[0], SortBy(s[1..], key), key);
    }
  }

  lemma {:induction false} InsertMembers<T>(x: T, s: seq<T>, key: T -> real)
    ensures forall y :: y in Insert(x, s, key) ==> y == x || y in s
    ensures x in Insert(x, s, key) && forall y :: y in s ==> y in Insert(x, s, key)
  {
    if s != [] && key(x) > key(s[0]) {
      InsertMembers(x, s[1..], key);
    } else {
      assert Insert(x, s, key) == [x] + s;
    }
  }

  /** Keys that agree on the elements sort them alike. */
  lemma {:induction false} SortByAgrees<T>(s: seq<T>, key: T -> real, other: T -> real)
    requires forall x :: x in s ==> key(x) == other(x)
    ensures SortBy(s, key) == SortBy(s, other)
  {
    if s != [] {
      SortByAgrees(s[1..], key, other);
      SortByMembers(s[1..], key);
      InsertAgrees(s[0], SortBy(s[1..], key), key, other);
    }
  }

  lemma {:induction false} InsertAgrees<T>(x: T, s: seq<T>, key: T -> real, other: T -> real)
    requires key(x) == other(x) && forall y :: y in s ==> key(y) == other(y)
    ensures Insert(x, s, key) == Insert(x, s, other)
  {
    if s != [] && key(x) > key(s[0]) {
      InsertAgrees(x, s[1..], key, other);
    }
  }
}
