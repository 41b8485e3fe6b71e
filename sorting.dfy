/**
 * Python's `list.sort(key=...)` for string keys, as the export uses it: a
 * stable sort in the order `<` of the keys. It is defined here as insertion
 * sort; the lemmas show the result is sorted, a permutation of the input,
 * keeps equal-key elements in their original order, and that these three
 * facts leave no other possible result.
 */
module Sorting {
  import opened PyStr

  /** No element has a smaller key than one before it. */
  ghost predicate SortedBy<T>(s: seq<T>, key: T -> string) {
    forall i, j | 0 <= i < j < |s| :: LessEq(key(s[i]), key(s[j]))
  }

  /** The elements of `s` whose key is `k`, in their order in `s`. */
  function WithKey<T>(s: seq<T>, key: T -> string, k: string): seq<T> {
    if s == [] then [] else (if key(s[0]) == k then [s[0]] else []) + WithKey(s[1..], key, k)
  }

  /** Places `x` in front of the first element whose key is not smaller than its own. */
  function Insert<T>(x: T, t: seq<T>, key: T -> string): seq<T> {
    if t == [] then [x]
    else if Less(key(t[0]), key(x)) then [t[0]] + Insert(x, t[1..], key)
    else [x] + t
  }

  /** `s` sorted stably by `key`. */
  function SortBy<T>(s: seq<T>, key: T -> string): (r: seq<T>)
    ensures SortedBy(r, key)
    ensures multiset(r) == multiset(s)
    ensures forall k :: WithKey(r, key, k) == WithKey(s, key, k)
  {
    if s == [] then []
    else
      var t := SortBy(s[1..], key);
      InsertSorted(s[0], t, key);
      InsertMultiset(s[0], t, key);
      assert s == [s[0]] + s[1..];
      assert forall k :: WithKey(Insert(s[0], t, key), key, k) == WithKey(s, key, k) by {
        forall k ensures WithKey(Insert(s[0], t, key), key, k) == WithKey(s, key, k) {
          InsertWithKey(s[0], t, key, k);
          WithKeyConcat([s[0]], s[1..], key, k);
        }
      }
      Insert(s[0], t, key)
  }

  lemma {:induction false} InsertMultiset<T>(x: T, t: seq<T>, key: T -> string)
    ensures multiset(Insert(x, t, key)) == multiset(t) + multiset{x}
  {
    if t != [] && Less(key(t[0]), key(x)) {
      InsertMultiset(x, t[1..], key);
      assert t == [t[0]] + t[1..];
    }
  }

  lemma {:induction false} InsertSorted<T>(x: T, t: seq<T>, key: T -> string)
    requires SortedBy(t, key)
    ensures SortedBy(Insert(x, t, key), key)
  {
    if t == [] {
    } else if Less(key(t[0]), key(x)) {
      var u := Insert(x, t[1..], key);
      assert SortedBy(t[1..], key) by {
        forall i, j | 0 <= i < j < |t[1..]| ensures LessEq(key(t[1..][i]), key(t[1..][j])) {
          assert t[1..][i] == t[i + 1] && t[1..][j] == t[j + 1];
        }
      }
      InsertSorted(x, t[1..], key);
      InsertMultiset(x, t[1..], key);
      forall j | 0 <= j < |u| ensures LessEq(key(t[0]), key(u[j])) {
        assert u[j] in multiset(u);
        if u[j] == x {
          LessAsymmetric(key(t[0]), key(x));
        } else {
          assert u[j] in multiset(t[1..]);
          var m :| 0 <= m < |t[1..]| && t[1..][m] == u[j];
          assert t[m + 1] == u[j];
        }
      }
      var r := [t[0]] + u;
      forall i, j | 0 <= i < j < |r| ensures LessEq(key(r[i]), key(r[j])) {
        if i == 0 { assert r[j] == u[j - 1]; } else { assert r[i] == u[i - 1] && r[j] == u[j - 1]; }
      }
    } else {
      var r := [x] + t;
      forall i, j | 0 <= i < j < |r| ensures LessEq(key(r[i]), key(r[j])) {
        if i == 0 {
          assert r[j] == t[j - 1];
          if j > 1 { LessEqTransitive(key(x), key(t[0]), key(t[j - 1])); }
        } else {
          assert r[i] == t[i - 1] && r[j] == t[j - 1];
        }
      }
    }
  }

  lemma {:induction false} WithKeyConcat<T>(a: seq<T>, b: seq<T>, key: T -> string, k: string)
    ensures WithKey(a + b, key, k) == WithKey(a, key, k) + WithKey(b, key, k)
  {
    if a != [] {
      WithKeyConcat(a[1..], b, key, k);
      assert (a + b)[1..] == a[1..] + b;
    } else {
      assert a + b == b;
    }
  }

  /** Inserting `x` adds it in front of every element that shares its key. */
  lemma {:induction false} InsertWithKey<T>(x: T, t: seq<T>, key: T -> string, k: string)
    ensures WithKey(Insert(x, t, key), key, k) == WithKey([x], key, k) + WithKey(t, key, k)
  {
    if t == [] {
      assert Insert(x, t, key) == [x];
      assert WithKey(t, key, k) == [];
    } else if Less(key(t[0]), key(x)) {
      var u := Insert(x, t[1..], key);
      assert Insert(x, t, key) == [t[0]] + u;
      InsertWithKey(x, t[1..], key, k);
      WithKeyConcat([t[0]], u, key, k);
      assert t == [t[0]] + t[1..];
      WithKeyConcat([t[0]], t[1..], key, k);
      LessIrreflexive(key(x));
      assert key(t[0]) != key(x);
      assert WithKey([t[0]], key, k) == [] || WithKey([x], key, k) == [];
    } else {
      assert Insert(x, t, key) == [x] + t;
      WithKeyConcat([x], t, key, k);
    }
  }

  lemma {:induction false} WithKeyHead<T>(s: seq<T>, key: T -> string)
    requires s != []
    ensures WithKey(s, key, key(s[0])) != [] && WithKey(s, key, key(s[0]))[0] == s[0]
  {
  }

  /** Every element `WithKey` keeps has the key asked for and comes from `s`. */
  lemma {:induction false} WithKeyMember<T>(s: seq<T>, key: T -> string, k: string)
    requires WithKey(s, key, k) != []
    ensures exists i | 0 <= i < |s| :: key(s[i]) == k
  {
    if key(s[0]) != k {
      WithKeyMember(s[1..], key, k);
      var i :| 0 <= i < |s[1..]| && key(s[1..][i]) == k;
      assert s[i + 1] == s[1..][i];
    }
  }

  /**
   * A sorted sequence is fixed by which elements carry each key, in which
   * order: two sorted sequences that agree on that are equal. So `SortBy`
   * gives the one result any stable sort by `key` gives.
   */
  lemma {:induction false} StableSortUnique<T>(r1: seq<T>, r2: seq<T>, key: T -> string)
    requires SortedBy(r1, key) && SortedBy(r2, key)
    requires forall k :: WithKey(r1, key, k) == WithKey(r2, key, k)
    ensures r1 == r2
  {
    if r1 == [] && r2 == [] {
    } else if r1 == [] {
      WithKeyHead(r2, key);
    } else if r2 == [] {
      WithKeyHead(r1, key);
    } else {
      var k1, k2 := key(r1[0]), key(r2[0]);
      WithKeyHead(r1, key);
      WithKeyHead(r2, key);
      assert WithKey(r1, key, k2) == WithKey(r2, key, k2);
      assert WithKey(r1, key, k1) == WithKey(r2, key, k1);
      WithKeyMember(r1, key, k2);
      WithKeyMember(r2, key, k1);
      var i :| 0 <= i < |r1| && key(r1[i]) == k2;
      var j :| 0 <= j < |r2| && key(r2[j]) == k1;
      LessIrreflexive(k1);
      assert LessEq(k1, k2) by { if i > 0 { assert LessEq(key(r1[0]), key(r1[i])); } }
      assert LessEq(k2, k1) by { if j > 0 { assert LessEq(key(r2[0]), key(r2[j])); } }
      LessEqAntisymmetric(k1, k2);
      assert r1[0] == r2[0];
      var t1, t2 := r1[1..], r2[1..];
      assert SortedBy(t1, key) by {
        forall a, b | 0 <= a < b < |t1| ensures LessEq(key(t1[a]), key(t1[b])) {
          assert t1[a] == r1[a + 1] && t1[b] == r1[b + 1];
        }
      }
      assert SortedBy(t2, key) by {
        forall a, b | 0 <= a < b < |t2| ensures LessEq(key(t2[a]), key(t2[b])) {
          assert t2[a] == r2[a + 1] && t2[b] == r2[b + 1];
        }
      }
      assert r1 == [r1[0]] + t1 && r2 == [r2[0]] + t2;
      forall k ensures WithKey(t1, key, k) == WithKey(t2, key, k) {
        assert WithKey(r1, key, k) == WithKey(r2, key, k);
        WithKeyConcat([r1[0]], t1, key, k);
        WithKeyConcat([r2[0]], t2, key, k);
        var h := WithKey([r1[0]], key, k);
        assert WithKey(t1, key, k) == (h + WithKey(t1, key, k))[|h|..];
        assert WithKey(t2, key, k) == (h + WithKey(t2, key, k))[|h|..];
      }
      StableSortUnique(t1, t2, key);
    }
  }
}
