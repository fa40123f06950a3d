/** The pure side of the list sort: merging sorted runs, a bottom-up pass over
    a sequence, and what it means to be a stable sort. */
module StableMerge {
  import opened Basics

  ghost predicate Sorted<T>(s: seq<T>, key: T -> int) {
    forall i, j :: 0 <= i < j < |s| ==> key(s[i]) <= key(s[j])
  }

  /** The elements of s whose key is v, in their order in s. */
  ghost function WithKey<T>(s: seq<T>, key: T -> int, v: int): seq<T> {
    if s == [] then []
    else (if key(s[0]) == v then [s[0]] else []) + WithKey(s[1..], key, v)
  }

  /** r is s sorted by key, elements of equal key keeping their order. */
  ghost predicate StablySorted<T>(s: seq<T>, r: seq<T>, key: T -> int) {
    && Sorted(r, key)
    && multiset(r) == multiset(s)
    && forall v :: WithKey(r, key, v) == WithKey(s, key, v)
  }

  ghost function Merge<T>(a: seq<T>, b: seq<T>, key: T -> int): (r: seq<T>)
    ensures |r| == |a| + |b|
  {
    if a == [] then b
    else if b == [] then a
    else if key(a[0]) <= key(b[0]) then [a[0]] + Merge(a[1..], b, key)
    else [b[0]] + Merge(a, b[1..], key)
  }

  function Take<T>(s: seq<T>, n: nat): seq<T> { s[..Min(n, |s|)] }

  function Drop<T>(s: seq<T>, n: nat): seq<T> { s[Min(n, |s|)..] }

  /** One pass of the sort: neighbouring runs of n elements are merged pairwise. */
  ghost function Pass<T>(s: seq<T>, n: nat, key: T -> int): seq<T>
    requires 0 < n
    decreases |s|
  {
    if s == [] then []
    else Merge(Take(s, n), Take(Drop(s, n), n), key) + Pass(Drop(s, 2 * n), n, key)
  }

  /** s is a row of sorted runs of n elements, the last one possibly shorter. */
  ghost predicate Runs<T>(s: seq<T>, n: nat, key: T -> int)
    requires 0 < n
    decreases |s|
  {
    s == [] || (Sorted(Take(s, n), key) && Runs(Drop(s, n), n, key))
  }

  lemma {:induction false} SortedTail<T>(s: seq<T>, key: T -> int)
    requires s != [] && Sorted(s, key)
    ensures Sorted(s[1..], key)
    ensures forall x :: x in s ==> key(s[0]) <= key(x)
  {
  }

  lemma {:induction false} SortedCons<T>(x: T, s: seq<T>, key: T -> int)
    requires Sorted(s, key)
    requires forall y :: y in s ==> key(x) <= key(y)
    ensures Sorted([x] + s, key)
  {
  }

  lemma Head<T>(s: seq<T>)
    requires s != []
    ensures multiset(s) == multiset{s[0]} + multiset(s[1..])
  {
    assert s == [s[0]] + s[1..];
  }

  lemma {:induction false} MergeElements<T>(a: seq<T>, b: seq<T>, key: T -> int)
    ensures multiset(Merge(a, b, key)) == multiset(a) + multiset(b)
  {
    if a != [] && b != [] {
      if key(a[0]) <= key(b[0]) {
        var m := Merge(a[1..], b, key);
        MergeElements(a[1..], b, key);
        Head(a);
        assert multiset([a[0]] + m) == multiset{a[0]} + multiset(m);
      } else {
        var m := Merge(a, b[1..], key);
        MergeElements(a, b[1..], key);
        Head(b);
        assert multiset([b[0]] + m) == multiset{b[0]} + multiset(m);
      }
    }
  }

  lemma {:induction false} MergeSorted<T>(a: seq<T>, b: seq<T>, key: T -> int)
    requires Sorted(a, key) && Sorted(b, key)
    ensures Sorted(Merge(a, b, key), key)
  {
    if a != [] && b != [] {
      SortedTail(a, key);
      SortedTail(b, key);
      if key(a[0]) <= key(b[0]) {
        MergeSorted(a[1..], b, key);
        var m := Merge(a[1..], b, key);
        MergeElements(a[1..], b, key);
        forall y | y in m ensures key(a[0]) <= key(y) {
          assert y in multiset(m);
          assert y in a[1..] || y in b;
        }
        SortedCons(a[0], m, key);
      } else {
        MergeSorted(a, b[1..], key);
        var m := Merge(a, b[1..], key);
        MergeElements(a, b[1..], key);
        forall y | y in m ensures key(b[0]) <= key(y) {
          assert y in multiset(m);
          assert y in a || y in b[1..];
        }
        SortedCons(b[0], m, key);
      }
    }
  }

  lemma {:induction false} WithKeyConcat<T>(a: seq<T>, b: seq<T>, key: T -> int, v: int)
    ensures WithKey(a + b, key, v) == WithKey(a, key, v) + WithKey(b, key, v)
  {
    if a == [] {
      assert a + b == b;
    } else {
      hide WithKey;
      WithKeyConcat(a[1..], b, key, v);
      assert (a + b)[1..] == a[1..] + b && (a + b)[0] == a[0];
      WithKeyUncons(a, key, v);
      WithKeyUncons(a + b, key, v);
      Reassociate(OnlyIf(a[0], key, v), WithKey(a[1..], key, v), WithKey(b, key, v));
    }
  }

  lemma {:induction false} WithKeyNone<T>(s: seq<T>, key: T -> int, v: int)
    requires forall x :: x in s ==> key(x) != v
    ensures WithKey(s, key, v) == []
  {
    if s != [] { WithKeyNone(s[1..], key, v); }
  }

  /** Merging keeps the order among elements of equal key, the first run first. */
  lemma {:induction false} MergeStable<T>(a: seq<T>, b: seq<T>, key: T -> int, v: int)
    requires Sorted(a, key)
    ensures WithKey(Merge(a, b, key), key, v) == WithKey(a, key, v) + WithKey(b, key, v)
  {
    if a != [] && b != [] {
      SortedTail(a, key);
      if key(a[0]) <= key(b[0]) {
        MergeStable(a[1..], b, key, v);
        WithKeyUncons(Merge(a, b, key), key, v);
        WithKeyUncons(a, key, v);
        Reassociate(OnlyIf(a[0], key, v), WithKey(a[1..], key, v), WithKey(b, key, v));
      } else {
        MergeStable(a, b[1..], key, v);
        WithKeyUncons(Merge(a, b, key), key, v);
        WithKeyUncons(b, key, v);
        if key(b[0]) == v { WithKeyNone(a, key, v); }
        Exchange(OnlyIf(b[0], key, v), WithKey(a, key, v), WithKey(b[1..], key, v));
      }
    }
  }

  ghost function OnlyIf<T>(x: T, key: T -> int, v: int): seq<T> { if key(x) == v then [x] else [] }

  lemma WithKeyUncons<T>(s: seq<T>, key: T -> int, v: int)
    requires s != []
    ensures WithKey(s, key, v) == OnlyIf(s[0], key, v) + WithKey(s[1..], key, v)
  {
  }

  lemma Reassociate<T>(x: seq<T>, a: seq<T>, b: seq<T>)
    ensures x + (a + b) == x + a + b
  {
  }

  lemma Exchange<T>(x: seq<T>, a: seq<T>, b: seq<T>)
    requires x == [] || a == []
    ensures x + (a + b) == a + (x + b)
  {
    if x == [] {
      assert x + b == b;
    } else {
      assert a + b == b;
      assert a + (x + b) == x + b;
    }
  }

  lemma {:induction false} DropDrop<T>(s: seq<T>, n: nat)
    ensures Drop(Drop(s, n), n) == Drop(s, 2 * n)
    ensures s == Take(s, n) + Take(Drop(s, n), n) + Drop(s, 2 * n)
  {
  }

  /** A pass keeps the elements, stays stable and doubles the run length. */
  lemma {:induction false} PassKeeps<T>(s: seq<T>, n: nat, key: T -> int)
    requires 0 < n && Runs(s, n, key)
    ensures multiset(Pass(s, n, key)) == multiset(s)
    ensures forall v :: WithKey(Pass(s, n, key), key, v) == WithKey(s, key, v)
    ensures |Pass(s, n, key)| == |s|
    ensures Runs(Pass(s, n, key), 2 * n, key)
    decreases |s|
  {
    if s != [] {
      var a, b, rest := Take(s, n), Take(Drop(s, n), n), Drop(s, 2 * n);
      DropDrop(s, n);
      if Drop(s, n) == [] { assert rest == []; }
      PassKeeps(rest, n, key);
      var m, tail := Merge(a, b, key), Pass(rest, n, key);
      MergeElements(a, b, key);
      MergeSorted(a, b, key);
      assert multiset(s) == multiset(a) + multiset(b) + multiset(rest);
      forall v ensures WithKey(m + tail, key, v) == WithKey(s, key, v) {
        MergeStable(a, b, key, v);
        WithKeyConcat(m, tail, key, v);
        WithKeyConcat(a + b, rest, key, v);
        WithKeyConcat(a, b, key, v);
      }
      RunsCons(m, tail, n, rest, key);
    }
  }

  lemma {:induction false} RunsCons<T>(m: seq<T>, tail: seq<T>, n: nat, rest: seq<T>, key: T -> int)
    requires 0 < n && 0 < |m| <= 2 * n && Sorted(m, key)
    requires |tail| == |rest| && (|rest| > 0 ==> |m| == 2 * n)
    requires Runs(tail, 2 * n, key)
    ensures Runs(m + tail, 2 * n, key)
  {
    if rest == [] {
      assert m + tail == m;
      assert Take(m, 2 * n) == m && Drop(m, 2 * n) == [];
    } else {
      assert Take(m + tail, 2 * n) == m && Drop(m + tail, 2 * n) == tail;
    }
  }

  lemma {:induction false} SingletonRuns<T>(s: seq<T>, key: T -> int)
    ensures Runs(s, 1, key)
  {
    if s != [] { SingletonRuns(Drop(s, 1), key); }
  }

  lemma {:induction false} OneRun<T>(s: seq<T>, n: nat, key: T -> int)
    requires 0 < n && |s| <= n && Runs(s, n, key)
    ensures Sorted(s, key)
  {
    assert Take(s, n) == s;
  }

  /** A stable sort has only one possible outcome. */
  lemma {:induction false} StableSortUnique<T>(s: seq<T>, r: seq<T>, r': seq<T>, key: T -> int)
    requires StablySorted(s, r, key) && StablySorted(s, r', key)
    ensures r == r'
  {
    SameKeysSame(r, r', key);
  }

  lemma {:induction false} SameKeysSame<T>(r: seq<T>, r': seq<T>, key: T -> int)
    requires Sorted(r, key) && Sorted(r', key) && multiset(r) == multiset(r')
    requires forall v :: WithKey(r, key, v) == WithKey(r', key, v)
    ensures r == r'
  {
    assert |r| == |multiset(r)| == |multiset(r')| == |r'|;
    if r != [] {
      SameHead(r, r', key);
      SameRest(r, r');
      forall v ensures WithKey(r[1..], key, v) == WithKey(r'[1..], key, v) {
        SameTail(r, r', key, v);
      }
      SameKeysSame(r[1..], r'[1..], key);
      assert r == [r[0]] + r[1..] && r' == [r'[0]] + r'[1..];
    }
  }

  lemma SameRest<T>(r: seq<T>, r': seq<T>)
    requires r != [] && r' != [] && r[0] == r'[0] && multiset(r) == multiset(r')
    ensures multiset(r[1..]) == multiset(r'[1..])
  {
    Head(r);
    Head(r');
    assert multiset(r[1..]) == multiset(r) - multiset{r[0]};
    assert multiset(r'[1..]) == multiset(r') - multiset{r'[0]};
  }

  lemma SameTail<T>(r: seq<T>, r': seq<T>, key: T -> int, v: int)
    requires r != [] && r' != [] && r[0] == r'[0]
    requires WithKey(r, key, v) == WithKey(r', key, v)
    ensures WithKey(r[1..], key, v) == WithKey(r'[1..], key, v)
  {
    var h := if key(r[0]) == v then [r[0]] else [];
    assert WithKey(r[1..], key, v) == WithKey(r, key, v)[|h|..];
    assert WithKey(r'[1..], key, v) == WithKey(r', key, v)[|h|..];
  }

  lemma SameHead<T>(r: seq<T>, r': seq<T>, key: T -> int)
    requires r != [] && r' != []
    requires Sorted(r, key) && Sorted(r', key) && multiset(r) == multiset(r')
    requires forall v :: WithKey(r, key, v) == WithKey(r', key, v)
    ensures r[0] == r'[0]
  {
    SortedTail(r, key);
    SortedTail(r', key);
    assert r[0] in multiset(r') && r'[0] in multiset(r);
    var k := key(r[0]);
    assert WithKey(r, key, k)[0] == r[0] && WithKey(r', key, k)[0] == r'[0];
  }
}
