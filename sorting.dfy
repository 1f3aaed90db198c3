/** The stable comparison sort the routes get from `Array.prototype.sort`,
    specialised to comparators that compare a key lexicographically. A key is a
    sequence of integers: a numeric field, a rank, or the code units of a name
    (code-unit order stands in for `localeCompare`). */
module Sorting {

  /** `a` comes no later than `b`: lexicographic order, a proper prefix first. */
  predicate LexLe(a: seq<int>, b: seq<int>)
    decreases |a|
  {
    a == [] || (b != [] && (a[0] < b[0] || (a[0] == b[0] && LexLe(a[1..], b[1..]))))
  }

  lemma {:induction false} LexTotal(a: seq<int>, b: seq<int>)
    ensures LexLe(a, b) || LexLe(b, a)
    decreases |a|
  {
    if a != [] && b != [] && a[0] == b[0] {
      LexTotal(a[1..], b[1..]);
    }
  }

  lemma {:induction false} LexTrans(a: seq<int>, b: seq<int>, c: seq<int>)
    requires LexLe(a, b) && LexLe(b, c)
    ensures LexLe(a, c)
    decreases |a|
  {
    if a != [] && b != [] && c != [] && a[0] == b[0] && b[0] == c[0] {
      LexTrans(a[1..], b[1..], c[1..]);
    }
  }

  lemma {:induction false} LexAntisym(a: seq<int>, b: seq<int>)
    requires LexLe(a, b) && LexLe(b, a)
    ensures a == b
    decreases |a|
  {
    if a != [] {
      LexAntisym(a[1..], b[1..]);
    }
  }

  lemma {:induction false} LexRefl(a: seq<int>)
    ensures LexLe(a, a)
    decreases |a|
  {
    if a != [] {
      LexRefl(a[1..]);
    }
  }

  /** If `a` comes no later than `b` but after `c`, then `b` comes after `c`. */
  lemma LexTransNot(a: seq<int>, b: seq<int>, c: seq<int>)
    requires LexLe(a, b) && !LexLe(a, c)
    ensures !LexLe(b, c)
  {
    if LexLe(b, c) {
      LexTrans(a, b, c);
    }
  }

  /** Keys that agree on their first element compare by the rest. */
  lemma LexCons(x: int, a: seq<int>, y: int, b: seq<int>)
    ensures LexLe([x] + a, [y] + b) <==> x < y || (x == y && LexLe(a, b))
  {
    assert ([x] + a)[1..] == a && ([y] + b)[1..] == b;
  }

  predicate SortedBy<T>(s: seq<T>, key: T -> seq<int>) {
    forall i, j :: 0 <= i < j < |s| ==> LexLe(key(s[i]), key(s[j]))
  }

  /** Places `x` after every element whose key is not greater than its own. */
  function Insert<T>(x: T, s: seq<T>, key: T -> seq<int>): (r: seq<T>)
    ensures |r| == |s| + 1
  {
    if s == [] then [x]
    else if !LexLe(key(s[0]), key(x)) then [x] + s
    else [s[0]] + Insert(x, s[1..], key)
  }

  /** Inserting keeps the elements: `x` is added and nothing else changes. */
  lemma {:induction false} InsertPermutes<T>(x: T, s: seq<T>, key: T -> seq<int>)
    ensures multiset(Insert(x, s, key)) == multiset(s) + multiset{x}
  {
    if s != [] && LexLe(key(s[0]), key(x)) {
      InsertPermutes(x, s[1..], key);
      assert s == [s[0]] + s[1..];
    }
  }

  /** A key below `x`'s and below every key of `s` is below every key after
      the insertion. */
  lemma {:induction false} InsertAbove<T>(x: T, s: seq<T>, key: T -> seq<int>, lo: seq<int>)
    requires LexLe(lo, key(x))
    requires forall i :: 0 <= i < |s| ==> LexLe(lo, key(s[i]))
    ensures forall i :: 0 <= i < |s| + 1 ==> LexLe(lo, key(Insert(x, s, key)[i]))
  {
    if s != [] && LexLe(key(s[0]), key(x)) {
      var t := s[1..];
      assert forall i :: 0 <= i < |t| ==> t[i] == s[i + 1];
      InsertAbove(x, t, key, lo);
    }
  }

  lemma SortedTail<T>(s: seq<T>, key: T -> seq<int>)
    requires SortedBy(s, key) && s != []
    ensures SortedBy(s[1..], key)
    ensures forall i :: 0 <= i < |s| - 1 ==> LexLe(key(s[0]), key(s[1..][i]))
  {
    var t := s[1..];
    forall i, j | 0 <= i < j < |t| ensures LexLe(key(t[i]), key(t[j])) {
      assert t[i] == s[i + 1] && t[j] == s[j + 1];
    }
    forall i | 0 <= i < |t| ensures LexLe(key(s[0]), key(t[i])) {
      assert t[i] == s[i + 1];
    }
  }

  lemma {:induction false} InsertSorted<T>(x: T, s: seq<T>, key: T -> seq<int>)
    requires SortedBy(s, key)
    ensures SortedBy(Insert(x, s, key), key)
    ensures multiset(Insert(x, s, key)) == multiset(s) + multiset{x}
  {
    InsertPermutes(x, s, key);
    if s == [] {
    } else if !LexLe(key(s[0]), key(x)) {
      LexTotal(key(s[0]), key(x));
      var r := [x] + s;
      assert Insert(x, s, key) == r;
      forall i, j | 0 <= i < j < |r| ensures LexLe(key(r[i]), key(r[j])) {
        if i == 0 {
          assert r[j] == s[j - 1];
          if j > 1 {
            LexTrans(key(x), key(s[0]), key(s[j - 1]));
          }
        } else {
          assert r[i] == s[i - 1] && r[j] == s[j - 1];
        }
      }
    } else {
      var t := s[1..];
      SortedTail(s, key);
      InsertSorted(x, t, key);
      InsertAbove(x, t, key, key(s[0]));
      var rest := Insert(x, t, key);
      var r := [s[0]] + rest;
      assert Insert(x, s, key) == r;
      forall i, j | 0 <= i < j < |r| ensures LexLe(key(r[i]), key(r[j])) {
        assert r[j] == rest[j - 1];
        if i > 0 {
          assert r[i] == rest[i - 1];
        }
      }
    }
  }

  /** The sorted permutation: every element inserted in input order, so that
      elements with equal keys keep their input order. */
  function SortBy<T>(s: seq<T>, key: T -> seq<int>): (r: seq<T>)
    ensures |r| == |s|
  {
    if s == [] then [] else Insert(s[|s| - 1], SortBy(s[..|s| - 1], key), key)
  }

  /** The sort's result is in key order and holds exactly the input's elements. */
  lemma {:induction false} SortedPermutation<T>(s: seq<T>, key: T -> seq<int>)
    ensures SortedBy(SortBy(s, key), key) && multiset(SortBy(s, key)) == multiset(s)
  {
    if s != [] {
      var init := s[..|s| - 1];
      SortedPermutation(init, key);
      InsertSorted(s[|s| - 1], SortBy(init, key), key);
      assert s == init + [s[|s| - 1]];
    }
  }

  /** The elements whose key is `k`, in their order in `s`. */
  function WithKey<T>(s: seq<T>, key: T -> seq<int>, k: seq<int>): seq<T> {
    if s == [] then [] else (if key(s[0]) == k then [s[0]] else []) + WithKey(s[1..], key, k)
  }

  lemma {:induction false} WithKeyAppend<T>(a: seq<T>, b: seq<T>, key: T -> seq<int>, k: seq<int>)
    ensures WithKey(a + b, key, k) == WithKey(a, key, k) + WithKey(b, key, k)
  {
    if a == [] {
      assert a + b == b;
    } else {
      assert (a + b)[1..] == a[1..] + b;
      WithKeyAppend(a[1..], b, key, k);
    }
  }

  lemma {:induction false} WithKeyNone<T>(s: seq<T>, key: T -> seq<int>, k: seq<int>)
    requires forall i :: 0 <= i < |s| ==> key(s[i]) != k
    ensures WithKey(s, key, k) == []
  {
    if s != [] {
      WithKeyNone(s[1..], key, k);
    }
  }

  /** When `x` goes before the head of a sorted sequence, no element shares its key. */
  lemma AfterAll<T>(x: T, s: seq<T>, key: T -> seq<int>)
    requires SortedBy(s, key) && s != [] && !LexLe(key(s[0]), key(x))
    ensures forall i :: 0 <= i < |s| ==> key(s[i]) != key(x)
  {
    LexRefl(key(x));
    forall i | 0 < i < |s| ensures key(s[i]) != key(x) {
      LexTransNot(key(s[0]), key(s[i]), key(x));
    }
  }

  /** Inserting `x` into a sorted sequence puts it after every element with its key. */
  lemma {:induction false} InsertStable<T>(x: T, s: seq<T>, key: T -> seq<int>, k: seq<int>)
    requires SortedBy(s, key)
    ensures WithKey(Insert(x, s, key), key, k) == WithKey(s, key, k) + WithKey([x], key, k)
  {
    assert [x][1..] == [];
    if s == [] {
    } else if !LexLe(key(s[0]), key(x)) {
      assert Insert(x, s, key) == [x] + s;
      assert ([x] + s)[1..] == s;
      if key(x) == k {
        AfterAll(x, s, key);
        WithKeyNone(s, key, k);
      }
    } else {
      var t := s[1..];
      SortedTail(s, key);
      InsertStable(x, t, key, k);
      assert Insert(x, s, key) == [s[0]] + Insert(x, t, key);
      assert ([s[0]] + Insert(x, t, key))[1..] == Insert(x, t, key);
    }
  }

  /** The sort is stable: the elements sharing any one key come out in the order
      they went in. */
  lemma {:induction false} SortStable<T>(s: seq<T>, key: T -> seq<int>, k: seq<int>)
    ensures WithKey(SortBy(s, key), key, k) == WithKey(s, key, k)
  {
    if s != [] {
      var init := s[..|s| - 1];
      var x := s[|s| - 1];
      SortStable(init, key, k);
      SortedPermutation(init, key);
      InsertStable(x, SortBy(init, key), key, k);
      assert s == init + [x];
      WithKeyAppend(init, [x], key, k);
    }
  }
}
