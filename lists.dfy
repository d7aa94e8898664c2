/** The list operations the back end relies on: a comprehension with a
    condition, and Python's `list.sort(key=..., reverse=True)`, a stable
    sort into descending key order. Keys are numbers or `None`; comparing
    `None` with anything raises TypeError, which happens as soon as a list of
    two or more elements holds a `None` key. */
module Lists {
  import opened Wrappers

  /** `[x for x in s if p(x)]`, or an `append` loop guarded by `p`. */
  function Keep<T>(s: seq<T>, p: T -> bool): (r: seq<T>)
    ensures |r| <= |s|
    ensures forall i | 0 <= i < |r| :: p(r[i]) && r[i] in s
    decreases |s|
  {
    if s == [] then []
    else Keep(s[..|s| - 1], p) + (if p(s[|s| - 1]) then [s[|s| - 1]] else [])
  }

  /** The comprehension keeps exactly the elements satisfying `p`, each as
      often as it occurs. */
  lemma {:induction false} KeepCounts<T>(s: seq<T>, p: T -> bool, x: T)
    ensures multiset(Keep(s, p))[x] == if p(x) then multiset(s)[x] else 0
    decreases |s|
  {
    if s != [] {
      KeepCounts(s[..|s| - 1], p, x);
      assert s == s[..|s| - 1] + [s[|s| - 1]];
    }
  }

  /** Filtering a concatenation filters each part. */
  lemma {:induction false} KeepAppend<T>(a: seq<T>, b: seq<T>, p: T -> bool)
    ensures Keep(a + b, p) == Keep(a, p) + Keep(b, p)
    decreases |b|
  {
    if b != [] {
      var init, last := b[..|b| - 1], b[|b| - 1];
      KeepAppend(a, init, p);
      assert (a + b)[..|a + b| - 1] == a + init && (a + b)[|a + b| - 1] == last;
      assert Keep(b, p) == Keep(init, p) + (if p(last) then [last] else []);
    } else {
      assert a + b == a;
    }
  }

  /** `[f(x) for x in s]`, or an `append` loop over `s`. */
  function Map<A, B>(s: seq<A>, f: A -> B): (r: seq<B>)
    ensures |r| == |s|
    decreases |s|
  {
    if s == [] then [] else Map(s[..|s| - 1], f) + [f(s[|s| - 1])]
  }

  /** The `append` loop that builds `[f(x) for x in s]`. */
  method MapLoop<A, B>(s: seq<A>, f: A -> B) returns (r: seq<B>)
    ensures r == Map(s, f)
  {
    r := [];
    var j := 0;
    while j < |s|
      invariant 0 <= j <= |s|
      invariant r == Map(s[..j], f)
    {
      assert s[..j + 1][..j] == s[..j];
      r := r + [f(s[j])];
      j := j + 1;
    }
    assert s[..j] == s;
  }

  /** Element `i` of the mapped list is `f` of element `i`. */
  lemma {:induction false} MapAt<A, B>(s: seq<A>, f: A -> B, i: nat)
    requires i < |s|
    ensures Map(s, f)[i] == f(s[i])
    decreases |s|
  {
    var init := s[..|s| - 1];
    if i < |init| {
      MapAt(init, f, i);
    }
  }

  /** Sorting `xs` by `key` raises TypeError. */
  predicate SortRaises<T>(xs: seq<T>, key: T -> Option<real>) {
    |xs| >= 2 && exists i | 0 <= i < |xs| :: key(xs[i]).None?
  }

  /** `s` is in descending key order. */
  predicate SortedDesc<T>(s: seq<T>, key: T -> real) {
    forall i, j | 0 <= i < j < |s| :: key(s[i]) >= key(s[j])
  }

  /** The elements of `s` whose key is `k`, in their order in `s`. */
  function WithKey<T>(s: seq<T>, key: T -> real, k: real): (r: seq<T>)
    ensures |r| <= |s|
    ensures forall i | 0 <= i < |r| :: key(r[i]) == k
    decreases |s|
  {
    if s == [] then []
    else WithKey(s[..|s| - 1], key, k) + (if key(s[|s| - 1]) == k then [s[|s| - 1]] else [])
  }

  /** `x` placed into the descending sequence `s` after every element whose
      key is at least its own. */
  function InsertDesc<T>(s: seq<T>, x: T, key: T -> real): (r: seq<T>)
    ensures |r| == |s| + 1
    decreases |s|
  {
    if s == [] then [x]
    else if key(s[0]) >= key(x) then [s[0]] + InsertDesc(s[1..], x, key)
    else [x] + s
  }

  /** The stable descending sort, one element at a time from the left. */
  function SortDesc<T>(s: seq<T>, key: T -> real): (r: seq<T>)
    ensures |r| == |s|
    decreases |s|
  {
    if s == [] then []
    else InsertDesc(SortDesc(s[..|s| - 1], key), s[|s| - 1], key)
  }

  lemma {:induction false} InsertDescSorted<T>(s: seq<T>, x: T, key: T -> real)
    requires SortedDesc(s, key)
    ensures SortedDesc(InsertDesc(s, x, key), key)
    ensures key(InsertDesc(s, x, key)[0]) == key(x) || (s != [] && key(InsertDesc(s, x, key)[0]) == key(s[0]))
    decreases |s|
  {
    if s != [] && key(s[0]) >= key(x) {
      var t := InsertDesc(s[1..], x, key);
      InsertDescSorted(s[1..], x, key);
      var r := [s[0]] + t;
      assert key(t[0]) <= key(s[0]) by {
        if |s| > 1 { assert key(s[1]) <= key(s[0]); }
      }
      forall i, j | 0 <= i < j < |r| ensures key(r[i]) >= key(r[j]) {
        if i == 0 {
          assert r[j] == t[j - 1];
          if j > 1 { assert key(t[0]) >= key(t[j - 1]); }
        } else {
          assert r[i] == t[i - 1] && r[j] == t[j - 1];
        }
      }
    } else if s != [] {
      var r := [x] + s;
      forall i, j | 0 <= i < j < |r| ensures key(r[i]) >= key(r[j]) {
        if i == 0 {
          assert r[j] == s[j - 1];
          if j > 1 { assert key(s[0]) >= key(s[j - 1]); }
        } else {
          assert r[i] == s[i - 1] && r[j] == s[j - 1];
        }
      }
    }
  }

  /** The sort puts the elements in descending key order. */
  lemma {:induction false} SortDescSorted<T>(s: seq<T>, key: T -> real)
    ensures SortedDesc(SortDesc(s, key), key)
    decreases |s|
  {
    if s != [] {
      SortDescSorted(s[..|s| - 1], key);
      InsertDescSorted(SortDesc(s[..|s| - 1], key), s[|s| - 1], key);
    }
  }

  lemma {:induction false} InsertDescPermutes<T>(s: seq<T>, x: T, key: T -> real)
    ensures multiset(InsertDesc(s, x, key)) == multiset(s) + multiset{x}
    decreases |s|
  {
    if s != [] && key(s[0]) >= key(x) {
      InsertDescPermutes(s[1..], x, key);
      assert s == [s[0]] + s[1..];
    }
  }

  /** The sort only reorders its input. */
  lemma {:induction false} SortDescPermutes<T>(s: seq<T>, key: T -> real)
    ensures multiset(SortDesc(s, key)) == multiset(s)
    decreases |s|
  {
    if s != [] {
      var init, last := s[..|s| - 1], s[|s| - 1];
      SortDescPermutes(init, key);
      InsertDescPermutes(SortDesc(init, key), last, key);
      assert SortDesc(s, key) == InsertDesc(SortDesc(init, key), last, key);
      assert s == init + [last];
      assert multiset(s) == multiset(init) + multiset{last};
    }
  }

  lemma WithKeyAppend<T>(a: seq<T>, b: seq<T>, key: T -> real, k: real)
    ensures WithKey(a + b, key, k) == WithKey(a, key, k) + WithKey(b, key, k)
    decreases |b|
  {
    if b == [] {
      assert a + b == a;
    } else {
      assert (a + b)[..|a + b| - 1] == a + b[..|b| - 1];
      WithKeyAppend(a, b[..|b| - 1], key, k);
    }
  }

  /** Every key of the descending sequence `s` that equals `key(x)` comes
      before the place InsertDesc puts `x`, so among equal keys `x` comes
      last. */
  lemma {:induction false} InsertDescWithKey<T>(s: seq<T>, x: T, key: T -> real, k: real)
    requires SortedDesc(s, key)
    ensures WithKey(InsertDesc(s, x, key), key, k) == WithKey(s, key, k) + WithKey([x], key, k)
    decreases |s|
  {
    if s == [] {
    } else if key(s[0]) >= key(x) {
      var t := s[1..];
      assert SortedDesc(t, key) by {
        forall i, j | 0 <= i < j < |t| ensures key(t[i]) >= key(t[j]) {
          assert t[i] == s[i + 1] && t[j] == s[j + 1];
        }
      }
      InsertDescWithKey(t, x, key, k);
      PassOverHead(s, x, key, k);
    } else {
      InsertInFront(s, x, key, k);
    }
  }

  /** InsertDesc passes over a head whose key is at least `key(x)`. */
  lemma PassOverHead<T>(s: seq<T>, x: T, key: T -> real, k: real)
    requires s != [] && key(s[0]) >= key(x)
    requires WithKey(InsertDesc(s[1..], x, key), key, k) == WithKey(s[1..], key, k) + WithKey([x], key, k)
    ensures WithKey(InsertDesc(s, x, key), key, k) == WithKey(s, key, k) + WithKey([x], key, k)
  {
    var t := s[1..];
    assert InsertDesc(s, x, key) == [s[0]] + InsertDesc(t, x, key);
    WithKeyAppend([s[0]], InsertDesc(t, x, key), key, k);
    WithKeyAppend([s[0]], t, key, k);
    assert [s[0]] + t == s;
  }

  /** InsertDesc puts `x` in front of a descending sequence whose head has a
      smaller key. */
  lemma InsertInFront<T>(s: seq<T>, x: T, key: T -> real, k: real)
    requires SortedDesc(s, key) && s != [] && key(s[0]) < key(x)
    ensures WithKey(InsertDesc(s, x, key), key, k) == WithKey(s, key, k) + WithKey([x], key, k)
  {
    assert InsertDesc(s, x, key) == [x] + s;
    WithKeyAppend([x], s, key, k);
    if key(x) == k {
      forall i | 0 <= i < |s| ensures key(s[i]) != k {
        if i > 0 { assert key(s[0]) >= key(s[i]); }
      }
      WithKeyNone(s, key, k);
    } else {
      assert WithKey([x], key, k) == WithKey([x][..0], key, k);
      assert [x][..0] == [];
    }
  }

  lemma {:induction false} WithKeyNone<T>(s: seq<T>, key: T -> real, k: real)
    requires forall i | 0 <= i < |s| :: key(s[i]) != k
    ensures WithKey(s, key, k) == []
    decreases |s|
  {
    if s != [] {
      WithKeyNone(s[..|s| - 1], key, k);
    }
  }

  /** The sort is stable: for every key, the elements with that key keep
      their relative order. */
  lemma {:induction false} SortDescStable<T>(s: seq<T>, key: T -> real, k: real)
    ensures WithKey(SortDesc(s, key), key, k) == WithKey(s, key, k)
    decreases |s|
  {
    if s != [] {
      var init := s[..|s| - 1];
      SortDescStable(init, key, k);
      SortDescSorted(init, key);
      InsertDescWithKey(SortDesc(init, key), s[|s| - 1], key, k);
      WithKeyAppend(init, [s[|s| - 1]], key, k);
      assert init + [s[|s| - 1]] == s;
    }
  }

  /** The first element of the sorted sequence has the greatest key, and no
      element before it in `s` has a key as great. */
  lemma {:induction false} SortDescHead<T>(s: seq<T>, key: T -> real)
    requires s != []
    ensures var h := SortDesc(s, key)[0];
            && h in s
            && (forall i | 0 <= i < |s| :: key(s[i]) <= key(h))
            && WithKey(s, key, key(h)) != [] && WithKey(s, key, key(h))[0] == h
  {
    var r := SortDesc(s, key);
    SortDescPermutes(s, key);
    assert r[0] in multiset(s);
    SortDescSorted(s, key);
    forall i | 0 <= i < |s| ensures key(s[i]) <= key(r[0]) {
      assert s[i] in multiset(r);
      var j :| 0 <= j < |r| && r[j] == s[i];
    }
    SortDescStable(s, key, key(r[0]));
    WithKeyFirst(r, key);
  }

  lemma WithKeyFirst<T>(r: seq<T>, key: T -> real)
    requires r != []
    ensures WithKey(r, key, key(r[0])) != [] && WithKey(r, key, key(r[0]))[0] == r[0]
  {
    WithKeyAppend([r[0]], r[1..], key, key(r[0]));
    assert [r[0]] + r[1..] == r;
  }

  /** The position where InsertDesc puts `x`: just after the elements of
      `s` whose key is at least `key(x)`. */
  lemma {:induction false} InsertDescAt<T>(s: seq<T>, x: T, key: T -> real, j: nat)
    requires j <= |s|
    requires forall i | 0 <= i < j :: key(s[i]) >= key(x)
    requires j == |s| || key(s[j]) < key(x)
    ensures InsertDesc(s, x, key) == s[..j] + [x] + s[j..]
    decreases j
  {
    if j > 0 {
      var t := s[1..];
      InsertDescAt(t, x, key, j - 1);
      assert InsertDesc(s, x, key) == [s[0]] + InsertDesc(t, x, key);
      assert t[..j - 1] == s[1..j] && t[j - 1..] == s[j..];
      assert [s[0]] + s[1..j] == s[..j];
    }
  }

  /** `list.sort(key=key, reverse=True)` on a list: None when Python would
      raise TypeError comparing a `None` key, otherwise the sorted list. */
  method SortByKeyDesc<T>(xs: seq<T>, key: T -> Option<real>) returns (r: Option<seq<T>>)
    ensures r.None? <==> SortRaises(xs, key)
    ensures r.Some? ==> r.value == SortDesc(xs, KeyOr(key))
  {
    if |xs| >= 2 {
      var i := 0;
      while i < |xs|
        invariant 0 <= i <= |xs|
        invariant forall j | 0 <= j < i :: key(xs[j]).Some?
      {
        if key(xs[i]).None? {
          return None;
        }
        i := i + 1;
      }
    }
    var k := KeyOr(key);
    var ys: seq<T> := [];
    var n := 0;
    while n < |xs|
      invariant 0 <= n <= |xs|
      invariant ys == SortDesc(xs[..n], k)
    {
      SortDescSorted(xs[..n], k);
      assert xs[..n + 1][..n] == xs[..n];
      ys := Insert(ys, xs[n], k);
      n := n + 1;
    }
    assert xs[..n] == xs;
    return Some(ys);
  }

  /** One step of the sort: find where `x` goes and put it there. */
  method Insert<T>(ys: seq<T>, x: T, k: T -> real) returns (zs: seq<T>)
    requires SortedDesc(ys, k)
    ensures zs == InsertDesc(ys, x, k)
  {
    var j := 0;
    while j < |ys| && k(ys[j]) >= k(x)
      invariant 0 <= j <= |ys|
      invariant forall i | 0 <= i < j :: k(ys[i]) >= k(x)
    {
      j := j + 1;
    }
    InsertDescAt(ys, x, k, j);
    zs := ys[..j] + [x] + ys[j..];
  }

  /** The sort key with `None` read as 0 (only used where no key is
      `None`, or for a single element, which is never compared). */
  function KeyOr<T>(key: T -> Option<real>): (f: T -> real)
  {
    x => key(x).GetOr(0.0)
  }
}
