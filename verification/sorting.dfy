/** Python's `sorted(xs, key=k)` and `xs.sort(key=k)` for string keys: a
    stable sort, defined here by insertion and proved sorted, a permutation
    of its input, and order-preserving among elements with equal keys. */
module Sorting {

  /** Python's `a <= b` on `str`: lexicographic on code points. */
  predicate StrLessEq(a: string, b: string)
    decreases |a|
  {
    a == [] || (b != [] && (a[0] < b[0] || (a[0] == b[0] && StrLessEq(a[1..], b[1..]))))
  }

  lemma {:induction false} StrLessEqRefl(a: string)
    ensures StrLessEq(a, a)
    decreases |a|
  {
    if a != [] { StrLessEqRefl(a[1..]); }
  }

  lemma {:induction false} StrLessEqTotal(a: string, b: string)
    ensures StrLessEq(a, b) || StrLessEq(b, a)
    decreases |a|
  {
    if a != [] && b != [] && a[0] == b[0] { StrLessEqTotal(a[1..], b[1..]); }
  }

  lemma {:induction false} StrLessEqTrans(a: string, b: string, c: string)
    requires StrLessEq(a, b) && StrLessEq(b, c)
    ensures StrLessEq(a, c)
    decreases |a|
  {
    if a != [] && a[0] == b[0] && b[0] == c[0] { StrLessEqTrans(a[1..], b[1..], c[1..]); }
  }

  predicate SortedBy<T>(s: seq<T>, key: T -> string) {
    forall i, j :: 0 <= i < j < |s| ==> StrLessEq(key(s[i]), key(s[j]))
  }

  /** An element whose key is at most the first key can go in front. */
  lemma PrependSorted<T>(x: T, s: seq<T>, key: T -> string)
    requires SortedBy(s, key)
    requires s != [] ==> StrLessEq(key(x), key(s[0]))
    ensures SortedBy([x] + s, key)
  {
    forall j | 0 <= j < |s| ensures StrLessEq(key(x), key(s[j])) {
      if j > 0 { StrLessEqTrans(key(x), key(s[0]), key(s[j])); }
    }
    assert forall j :: 0 < j < |[x] + s| ==> ([x] + s)[j] == s[j - 1];
  }

  /** The head of a sorted list stays in front of the tail with `x` inserted
      when `x`'s key is above the head's. */
  lemma KeepHeadSorted<T>(x: T, s: seq<T>, rest: seq<T>, key: T -> string)
    requires s != [] && SortedBy(s, key) && !StrLessEq(key(x), key(s[0]))
    requires SortedBy(rest, key) && multiset(rest) == multiset(s[1..]) + multiset{x}
    ensures SortedBy([s[0]] + rest, key)
  {
    StrLessEqTotal(key(x), key(s[0]));
    forall j | 0 <= j < |rest| ensures StrLessEq(key(s[0]), key(rest[j])) {
      assert rest[j] in multiset(rest);
      if rest[j] != x {
        assert rest[j] in multiset(s[1..]);
        var m :| 0 <= m < |s[1..]| && s[1..][m] == rest[j];
        assert s[m + 1] == rest[j];
      }
    }
    PrependSorted(s[0], rest, key);
  }

  /** Puts `x` in front of the first element whose key is not below its own. */
  function Insert<T>(x: T, s: seq<T>, key: T -> string): (r: seq<T>)
    ensures multiset(r) == multiset(s) + multiset{x}
    ensures |r| == |s| + 1
    ensures SortedBy(s, key) ==> SortedBy(r, key)
    decreases |s|
  {
    if s == [] || StrLessEq(key(x), key(s[0])) then
      assert SortedBy(s, key) ==> SortedBy([x] + s, key) by {
        if SortedBy(s, key) { PrependSorted(x, s, key); }
      }
      assert multiset([x] + s) == multiset(s) + multiset{x};
      [x] + s
    else
      var rest := Insert(x, s[1..], key);
      assert s == [s[0]] + s[1..];
      assert multiset(s) == multiset{s[0]} + multiset(s[1..]);
      assert SortedBy(s, key) ==> SortedBy([s[0]] + rest, key) by {
        if SortedBy(s, key) {
          assert SortedBy(s[1..], key);
          KeepHeadSorted(x, s, rest, key);
        }
      }
      assert multiset([s[0]] + rest) == multiset{s[0]} + multiset(rest);
      [s[0]] + rest
  }

  /** Stable sort of `s` by `key`. */
  function SortBy<T>(s: seq<T>, key: T -> string): (r: seq<T>)
    ensures |r| == |s|
    ensures multiset(r) == multiset(s)
    ensures SortedBy(r, key)
    decreases |s|
  {
    if s == [] then []
    else
      assert s == [s[0]] + s[1..];
      assert multiset(s) == multiset(s[1..]) + multiset{s[0]};
      Insert(s[0], SortBy(s[1..], key), key)
  }

  /** The elements of `s` whose key is `k`, in their order in `s`. */
  function WithKey<T>(s: seq<T>, key: T -> string, k: string): seq<T>
    decreases |s|
  {
    if s == [] then []
    else (if key(s[0]) == k then [s[0]] else []) + WithKey(s[1..], key, k)
  }

  lemma SortedTail<T>(t: seq<T>, key: T -> string)
    requires t != [] && SortedBy(t, key)
    ensures SortedBy(t[1..], key)
  {
    forall i, j | 0 <= i < j < |t| - 1 ensures StrLessEq(key(t[1..][i]), key(t[1..][j])) {
      assert t[1..][i] == t[i + 1] && t[1..][j] == t[j + 1];
    }
  }

  lemma WithKeyCons<T>(y: T, s: seq<T>, key: T -> string, k: string)
    ensures WithKey([y] + s, key, k) == (if key(y) == k then [y] else []) + WithKey(s, key, k)
  {
    assert ([y] + s)[1..] == s;
  }

  /** Inserting `x` puts it among the elements with its key right where
      the filter by key expects it: in front of them. */
  lemma {:induction false} InsertWithKey<T>(x: T, t: seq<T>, key: T -> string, k: string)
    requires SortedBy(t, key)
    ensures WithKey(Insert(x, t, key), key, k)
            == (if key(x) == k then [x] else []) + WithKey(t, key, k)
    decreases |t|
  {
    if t == [] || StrLessEq(key(x), key(t[0])) {
      assert Insert(x, t, key) == [x] + t;
      WithKeyCons(x, t, key, k);
    } else {
      var rest := Insert(x, t[1..], key);
      assert Insert(x, t, key) == [t[0]] + rest;
      assert t == [t[0]] + t[1..];
      SortedTail(t, key);
      InsertWithKey(x, t[1..], key, k);
      WithKeyCons(t[0], rest, key, k);
      WithKeyCons(t[0], t[1..], key, k);
      var xs: seq<T> := if key(x) == k then [x] else [];
      var ts: seq<T> := if key(t[0]) == k then [t[0]] else [];
      assert xs == [] || ts == [] by {
        if key(x) == k && key(t[0]) == k {
          StrLessEqRefl(k);
        }
      }
      var w := WithKey(t[1..], key, k);
      if xs == [] {
        assert xs + w == w;
        assert xs + (ts + w) == ts + w;
      } else {
        assert ts + (xs + w) == xs + w;
        assert ts + w == w;
      }
    }
  }

  /** Sorting keeps the relative order of elements whose keys are equal. */
  lemma {:induction false} SortByStable<T>(s: seq<T>, key: T -> string, k: string)
    ensures WithKey(SortBy(s, key), key, k) == WithKey(s, key, k)
    decreases |s|
  {
    if s != [] {
      SortByStable(s[1..], key, k);
      InsertWithKey(s[0], SortBy(s[1..], key), key, k);
    }
  }
}
