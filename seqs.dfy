/** Sequence operations behind the database queries: filtering, sorting by a
    key in descending order (`sort({ key: -1 })`), and summing. */
module Seqs {
  import opened Models

  /** Index of the first element satisfying `p` (the `findOne` of a query). */
  function FindFirst<T>(s: seq<T>, p: T -> bool): (r: Option<nat>)
    ensures r.Some? ==> r.value < |s| && p(s[r.value])
    ensures r.Some? ==> forall j :: 0 <= j < r.value ==> !p(s[j])
    ensures r.None? ==> forall j :: 0 <= j < |s| ==> !p(s[j])
  {
    if s == [] then None
    else if p(s[0]) then Some(0)
    else match FindFirst(s[1..], p)
      case None => None
      case Some(k) => Some(k + 1)
  }

  /** Searching two sequences whose elements agree under the two predicates
      gives the same index. */
  lemma {:induction false} FindFirstAgree<T, U>(a: seq<T>, p: T -> bool, b: seq<U>, q: U -> bool)
    requires |a| == |b|
    requires forall i :: 0 <= i < |a| ==> p(a[i]) == q(b[i])
    ensures FindFirst(a, p) == FindFirst(b, q)
  {
    if a != [] {
      FindFirstAgree(a[1..], p, b[1..], q);
    }
  }

  /** A search that succeeds on a prefix gives the same index on any extension. */
  lemma {:induction false} FindFirstAppend<T>(a: seq<T>, b: seq<T>, p: T -> bool)
    ensures FindFirst(a + b, p) == match FindFirst(a, p)
      case Some(k) => Some(k)
      case None => match FindFirst(b, p)
        case Some(k) => Some(|a| + k)
        case None => None
  {
    if a == [] {
      assert a + b == b;
    } else {
      assert (a + b)[1..] == a[1..] + b;
      FindFirstAppend(a[1..], b, p);
    }
  }

  /** Elements of `s` satisfying `p`, in their original order. */
  function Filter<T(!new)>(s: seq<T>, p: T -> bool): (r: seq<T>)
    ensures |r| <= |s|
    ensures forall x :: x in r <==> x in s && p(x)
    ensures multiset(r) <= multiset(s)
  {
    if s == [] then []
    else
      var rest := Filter(s[1..], p);
      assert s == [s[0]] + s[1..];
      if p(s[0]) then [s[0]] + rest else rest
  }

  /** A filter keeps every occurrence of an element that passes and none of
      one that fails. */
  lemma {:induction false} FilterCount<T(!new)>(s: seq<T>, p: T -> bool, x: T)
    ensures multiset(Filter(s, p))[x] == if p(x) then multiset(s)[x] else 0
  {
    if s != [] {
      assert s == [s[0]] + s[1..];
      FilterCount(s[1..], p, x);
    }
  }

  lemma {:induction false} FilterAppend<T(!new)>(a: seq<T>, b: seq<T>, p: T -> bool)
    ensures Filter(a + b, p) == Filter(a, p) + Filter(b, p)
  {
    if a == [] {
      assert a + b == b;
    } else {
      assert (a + b)[1..] == a[1..] + b;
      FilterAppend(a[1..], b, p);
    }
  }

  /** Appending one element adds one to the filtered length exactly when it passes. */
  lemma FilterSnocLength<T(!new)>(a: seq<T>, x: T, p: T -> bool)
    ensures |Filter(a + [x], p)| == |Filter(a, p)| + (if p(x) then 1 else 0)
  {
    FilterAppend(a, [x], p);
    assert [x][1..] == [];
  }

  /** `s` is ordered by `key`, largest first. */
  predicate SortedDesc<T>(s: seq<T>, key: T -> int) {
    forall i, j :: 0 <= i < j < |s| ==> key(s[i]) >= key(s[j])
  }

  /** Inserts `x` before the first element whose key is not larger. */
  function Insert<T(!new)>(x: T, s: seq<T>, key: T -> int): (r: seq<T>)
    ensures |r| == |s| + 1
    ensures multiset(r) == multiset(s) + multiset{x}
  {
    if s == [] then [x]
    else if key(s[0]) <= key(x) then [x] + s
    else
      assert s == [s[0]] + s[1..];
      [s[0]] + Insert(x, s[1..], key)
  }

  /** A sorted sequence stays sorted under a head no smaller than any of its elements. */
  lemma SortedDescCons<T>(h: T, s: seq<T>, key: T -> int)
    requires SortedDesc(s, key)
    requires forall j :: 0 <= j < |s| ==> key(h) >= key(s[j])
    ensures SortedDesc([h] + s, key)
  {
    var r := [h] + s;
    assert forall i :: 0 < i < |r| ==> r[i] == s[i - 1];
  }

  lemma {:induction false} InsertSorted<T(!new)>(x: T, s: seq<T>, key: T -> int)
    requires SortedDesc(s, key)
    ensures SortedDesc(Insert(x, s, key), key)
  {
    if s != [] && key(s[0]) > key(x) {
      var tail := s[1..];
      var rest := Insert(x, tail, key);
      assert SortedDesc(tail, key) by {
        assert forall i :: 0 <= i < |tail| ==> tail[i] == s[i + 1];
      }
      InsertSorted(x, tail, key);
      forall j | 0 <= j < |rest| ensures key(s[0]) >= key(rest[j]) {
        var y := rest[j];
        assert y in multiset(rest);
        if y != x {
          assert y in multiset(tail);
          var m :| 0 <= m < |tail| && tail[m] == y;
          assert s[m + 1] == y;
        }
      }
      SortedDescCons(s[0], rest, key);
    }
  }

  /** Insertion sort by `key`, largest first. */
  function SortDesc<T(!new)>(s: seq<T>, key: T -> int): (r: seq<T>)
    ensures |r| == |s|
    ensures multiset(r) == multiset(s)
    ensures SortedDesc(r, key)
  {
    if s == [] then []
    else
      assert s == [s[0]] + s[1..];
      var rest := SortDesc(s[1..], key);
      InsertSorted(s[0], rest, key);
      Insert(s[0], rest, key)
  }

  /** A prefix holds no element more often than the whole sequence. */
  lemma TakeSubMultiset<T>(s: seq<T>, n: nat)
    ensures multiset(Take(s, n)) <= multiset(s)
  {
    if n < |s| {
      assert s == s[..n] + s[n..];
    }
  }

  /** The first `n` elements (all of them when there are fewer). */
  function Take<T>(s: seq<T>, n: nat): (r: seq<T>)
    ensures |r| == if n < |s| then n else |s|
    ensures r <= s
  {
    if n < |s| then s[..n] else s
  }

  /** Everything after the first `n` elements. */
  function Drop<T>(s: seq<T>, n: nat): (r: seq<T>)
    ensures |r| == if n < |s| then |s| - n else 0
    ensures forall i :: 0 <= i < |r| ==> r[i] == s[n + i]
  {
    if n < |s| then s[n..] else []
  }

  /** Sum of `f` over `s`. */
  function SumOf<T>(s: seq<T>, f: T -> int): int {
    if s == [] then 0 else f(s[0]) + SumOf(s[1..], f)
  }

  lemma {:induction false} SumOfAppend<T>(a: seq<T>, b: seq<T>, f: T -> int)
    ensures SumOf(a + b, f) == SumOf(a, f) + SumOf(b, f)
  {
    if a == [] {
      assert a + b == b;
    } else {
      assert (a + b)[1..] == a[1..] + b;
      SumOfAppend(a[1..], b, f);
    }
  }

  /** Elements of a sorted sequence that survive a filter stay sorted. */
  lemma {:induction false} SortedDescFilter<T(!new)>(s: seq<T>, key: T -> int, p: T -> bool)
    requires SortedDesc(s, key)
    ensures SortedDesc(Filter(s, p), key)
  {
    if s != [] {
      SortedDescFilter(s[1..], key, p);
      var rest := Filter(s[1..], p);
      if p(s[0]) {
        forall j | 0 <= j < |rest| ensures key(s[0]) >= key(rest[j]) {
          assert rest[j] in s[1..];
        }
      }
    }
  }

  /** A slice of a sorted sequence is sorted. */
  lemma SortedDescSlice<T>(s: seq<T>, key: T -> int, lo: nat, hi: nat)
    requires SortedDesc(s, key) && lo <= hi <= |s|
    ensures SortedDesc(s[lo..hi], key)
  {
  }

  /** An element left out of the first `k` of a descending sort is no larger
      than the last one kept, and there were more than `k` elements. */
  lemma {:induction false} TopK<T(!new)>(s: seq<T>, key: T -> int, k: nat, x: T)
    requires x in s && x !in Take(SortDesc(s, key), k)
    ensures k < |s|
    ensures k > 0 ==> key(x) <= key(SortDesc(s, key)[k - 1])
  {
    var sorted := SortDesc(s, key);
    assert x in multiset(s);
    assert x in multiset(sorted);
    var j :| 0 <= j < |sorted| && sorted[j] == x;
    assert forall m :: 0 <= m < k && m < |sorted| ==> sorted[m] in Take(sorted, k);
    assert j >= k && k < |sorted|;
  }

  /** The head of a filter is the element a search with the same predicate finds. */
  lemma {:induction false} FilterHeadIsFindFirst<T(!new)>(s: seq<T>, p: T -> bool)
    ensures Filter(s, p) != [] <==> FindFirst(s, p).Some?
    ensures Filter(s, p) != [] ==> Filter(s, p)[0] == s[FindFirst(s, p).value]
  {
    if s != [] && !p(s[0]) {
      FilterHeadIsFindFirst(s[1..], p);
    }
  }

  /** `skip(n).limit(m)` of a cursor: at most `take` elements from position `skip` on. */
  function Window<T>(s: seq<T>, skip: nat, take: nat): (r: seq<T>)
    ensures |r| == if skip >= |s| then 0 else if take < |s| - skip then take else |s| - skip
    ensures forall i :: 0 <= i < |r| ==> r[i] == s[skip + i]
  {
    Take(Drop(s, skip), take)
  }

  /** A window of a sorted sequence is sorted and holds only its elements. */
  lemma WindowOfSorted<T>(s: seq<T>, key: T -> int, skip: nat, take: nat)
    requires SortedDesc(s, key)
    ensures SortedDesc(Window(s, skip, take), key)
    ensures forall x :: x in Window(s, skip, take) ==> x in s
  {
    var r := Window(s, skip, take);
    forall x | x in r ensures x in s {
      var i :| 0 <= i < |r| && r[i] == x;
      assert s[skip + i] == x;
    }
  }

  /** `TopK` for every element at once. */
  lemma TopKAll<T(!new)>(s: seq<T>, key: T -> int, k: nat)
    ensures forall x :: x in s && x !in Take(SortDesc(s, key), k) ==>
              k < |s| && (k > 0 ==> key(x) <= key(SortDesc(s, key)[k - 1]))
  {
    forall x | x in s && x !in Take(SortDesc(s, key), k)
      ensures k < |s| && (k > 0 ==> key(x) <= key(SortDesc(s, key)[k - 1]))
    {
      TopK(s, key, k, x);
    }
  }

  /** Sorting neither adds nor loses an element. */
  lemma SortDescSameElements<T(!new)>(s: seq<T>, key: T -> int)
    ensures forall x :: x in SortDesc(s, key) <==> x in s
  {
    var r := SortDesc(s, key);
    forall x ensures x in r <==> x in s {
      assert x in r <==> x in multiset(r);
      assert x in s <==> x in multiset(s);
    }
  }

  /** Overwriting one element changes a filter by at most that element. */
  lemma {:induction false} FilterUpdate<T(!new)>(s: seq<T>, i: nat, y: T, p: T -> bool)
    requires i < |s|
    ensures multiset(Filter(s[i := y], p)) + (if p(s[i]) then multiset{s[i]} else multiset{})
            == multiset(Filter(s, p)) + (if p(y) then multiset{y} else multiset{})
  {
    var a, b := s[..i], s[i + 1..];
    assert s == (a + [s[i]]) + b;
    assert s[i := y] == (a + [y]) + b;
    FilterAppend(a + [s[i]], b, p);
    FilterAppend(a, [s[i]], p);
    FilterAppend(a + [y], b, p);
    FilterAppend(a, [y], p);
  }

  /** The first `k` of a sequence once sorted by `key`, largest first: at
      most `k` of its elements, in order, and any element left out is no
      larger than every one kept. */
  lemma TopOfSorted<T(!new)>(s: seq<T>, key: T -> int, k: nat)
    ensures var r := Take(SortDesc(s, key), k);
      && |r| <= k
      && (forall x :: x in r ==> x in s)
      && SortedDesc(r, key)
      && forall x :: x in s && x !in r ==> |r| == k && forall j :: 0 <= j < k ==> key(r[j]) >= key(x)
  {
    var sorted := SortDesc(s, key);
    var r := Take(sorted, k);
    WindowOfSorted(sorted, key, 0, k);
    assert Window(sorted, 0, k) == r;
    SortDescSameElements(s, key);
    TopKAll(s, key, k);
    forall x | x in s && x !in r ensures |r| == k && forall j :: 0 <= j < k ==> key(r[j]) >= key(x) {
      forall j | 0 <= j < k ensures key(r[j]) >= key(x) {
        assert r[j] == sorted[j] && r[k - 1] == sorted[k - 1];
      }
    }
  }

  /** The `k` elements satisfying `p` with the largest keys, largest first
      (a query with a filter, a descending sort and a limit). */
  function Top<T(!new)>(s: seq<T>, p: T -> bool, key: T -> int, k: nat): (r: seq<T>)
    ensures |r| <= k
    ensures forall x :: x in r ==> x in s && p(x)
    ensures SortedDesc(r, key)
    ensures forall x :: x in s && p(x) && x !in r ==> |r| == k && forall j :: 0 <= j < k ==> key(r[j]) >= key(x)
    ensures multiset(r) <= multiset(Filter(s, p))
    ensures |r| == if |Filter(s, p)| < k then |Filter(s, p)| else k
  {
    TopOfSorted(Filter(s, p), key, k);
    TakeSubMultiset(SortDesc(Filter(s, p), key), k);
    Take(SortDesc(Filter(s, p), key), k)
  }
}
