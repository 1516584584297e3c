/**
 * Ranking by a real-valued key, descending, as Python's stable
 * `sorted(..., reverse=True)` does it, and truncation to the first k.
 */
module Ranking {

  /** Keys never increase from left to right. */
  predicate NonIncreasing<T>(s: seq<T>, key: T -> real) {
    forall i, j :: 0 <= i < j < |s| ==> key(s[i]) >= key(s[j])
  }

  /** The elements of `s` whose key is `v`, in their order in `s`. */
  function Ties<T>(s: seq<T>, key: T -> real, v: real): seq<T> {
    if s == [] then []
    else (if key(s[0]) == v then [s[0]] else []) + Ties(s[1..], key, v)
  }

  /** `a` is an initial segment of `b`. */
  predicate IsPrefix<T(==)>(a: seq<T>, b: seq<T>) {
    |a| <= |b| && a == b[..|a|]
  }

  /** Places `x` in front of the first element of `s` whose key is not larger than its own. */
  function Insert<T>(x: T, s: seq<T>, key: T -> real): seq<T> {
    if s == [] || key(s[0]) <= key(x) then [x] + s
    else [s[0]] + Insert(x, s[1..], key)
  }

  /** Inserting adds exactly one occurrence of `x`, and the new head is `x` or the old head. */
  lemma {:induction false} InsertCounts<T>(x: T, s: seq<T>, key: T -> real)
    ensures |Insert(x, s, key)| == |s| + 1
    ensures multiset(Insert(x, s, key)) == multiset(s) + multiset{x}
    ensures Insert(x, s, key)[0] == x || (s != [] && Insert(x, s, key)[0] == s[0])
  {
    if s != [] && key(s[0]) > key(x) {
      InsertCounts(x, s[1..], key);
      assert s == [s[0]] + s[1..];
    }
  }

  /** Inserting into a non-increasing sequence keeps it non-increasing. */
  lemma {:induction false} InsertSorted<T>(x: T, s: seq<T>, key: T -> real)
    requires NonIncreasing(s, key)
    ensures NonIncreasing(Insert(x, s, key), key)
  {
    var r := Insert(x, s, key);
    if s == [] || key(s[0]) <= key(x) {
      assert r == [x] + s;
      forall i, j | 0 <= i < j < |r| ensures key(r[i]) >= key(r[j]) {
        if i == 0 {
          assert key(s[0]) >= key(s[j - 1]);
        } else {
          assert r[i] == s[i - 1] && r[j] == s[j - 1];
        }
      }
    } else {
      var t := Insert(x, s[1..], key);
      assert r == [s[0]] + t;
      assert NonIncreasing(s[1..], key) by {
        forall i, j | 0 <= i < j < |s[1..]| ensures key(s[1..][i]) >= key(s[1..][j]) {
          assert s[1..][i] == s[i + 1] && s[1..][j] == s[j + 1];
        }
      }
      InsertSorted(x, s[1..], key);
      InsertCounts(x, s[1..], key);
      assert key(s[0]) >= key(t[0]);
      forall i, j | 0 <= i < j < |r| ensures key(r[i]) >= key(r[j]) {
        if i == 0 {
          assert key(t[0]) >= key(t[j - 1]);
        } else {
          assert r[i] == t[i - 1] && r[j] == t[j - 1];
        }
      }
    }
  }

  /** The stable descending sort of `s` by `key`. */
  function SortDesc<T>(s: seq<T>, key: T -> real): seq<T> {
    if s == [] then [] else Insert(s[0], SortDesc(s[1..], key), key)
  }

  /** The sort is a permutation of its input, in non-increasing order of the key. */
  lemma {:induction false} SortDescContract<T>(s: seq<T>, key: T -> real)
    ensures multiset(SortDesc(s, key)) == multiset(s) && |SortDesc(s, key)| == |s|
    ensures NonIncreasing(SortDesc(s, key), key)
  {
    if s != [] {
      var t := SortDesc(s[1..], key);
      SortDescContract(s[1..], key);
      assert s == [s[0]] + s[1..];
      InsertCounts(s[0], t, key);
      InsertSorted(s[0], t, key);
    }
  }

  /** The first `k` elements of `s`, or all of them when there are fewer (`s[:k]`). */
  function Take<T>(s: seq<T>, k: nat): (r: seq<T>)
    ensures |r| == if k < |s| then k else |s|
    ensures IsPrefix(r, s)
  {
    if k < |s| then s[..k] else s
  }

  /** The first `k` of the descending sort of `s` by `key`. */
  function Top<T>(s: seq<T>, key: T -> real, k: nat): seq<T> {
    Take(SortDesc(s, key), k)
  }

  /**
   * The top k: min(k, |s|) elements, in non-increasing order of the key, each drawn from
   * the input at most as often as it occurs there.
   */
  lemma TopContract<T>(s: seq<T>, key: T -> real, k: nat)
    ensures |Top(s, key, k)| == if k < |s| then k else |s|
    ensures NonIncreasing(Top(s, key, k), key)
    ensures multiset(Top(s, key, k)) <= multiset(s)
  {
    var r := SortDesc(s, key);
    var t := Top(s, key, k);
    SortDescContract(s, key);
    assert r == t + r[|t|..];
    assert multiset(r) == multiset(t) + multiset(r[|t|..]);
    assert forall i, j :: 0 <= i < j < |t| ==> t[i] == r[i] && t[j] == r[j];
  }

  lemma {:induction false} TiesAppend<T>(a: seq<T>, b: seq<T>, key: T -> real, v: real)
    ensures Ties(a + b, key, v) == Ties(a, key, v) + Ties(b, key, v)
  {
    if a != [] {
      assert (a + b)[1..] == a[1..] + b;
      TiesAppend(a[1..], b, key, v);
    } else {
      assert a + b == b;
    }
  }

  /** Inserting `x` adds it to its own tie group, in front, and changes no other group. */
  lemma {:induction false} InsertTies<T>(x: T, s: seq<T>, key: T -> real, v: real)
    ensures Ties(Insert(x, s, key), key, v) == (if key(x) == v then [x] else []) + Ties(s, key, v)
  {
    var own := if key(x) == v then [x] else [];
    if s == [] || key(s[0]) <= key(x) {
      assert Insert(x, s, key) == [x] + s;
      assert ([x] + s)[1..] == s;
    } else {
      var t := Insert(x, s[1..], key);
      var head := if key(s[0]) == v then [s[0]] else [];
      assert Insert(x, s, key) == [s[0]] + t;
      assert ([s[0]] + t)[1..] == t;
      assert Ties([s[0]] + t, key, v) == head + Ties(t, key, v);
      InsertTies(x, s[1..], key, v);
      assert key(x) == v ==> head == [];
      assert head + (own + Ties(s[1..], key, v)) == own + (head + Ties(s[1..], key, v));
    }
  }

  /** Stability: within each group of equal keys the sort keeps the input order. */
  lemma {:induction false} SortStable<T>(s: seq<T>, key: T -> real, v: real)
    ensures Ties(SortDesc(s, key), key, v) == Ties(s, key, v)
  {
    if s != [] {
      SortStable(s[1..], key, v);
      InsertTies(s[0], SortDesc(s[1..], key), key, v);
    }
  }

  /** Within each group of equal keys, the top k are the group's first members in the input. */
  lemma TopStable<T>(s: seq<T>, key: T -> real, k: nat, v: real)
    ensures IsPrefix(Ties(Top(s, key, k), key, v), Ties(s, key, v))
  {
    var r := SortDesc(s, key);
    var t := Top(s, key, k);
    assert r == t + r[|t|..];
    TiesAppend(t, r[|t|..], key, v);
    SortStable(s, key, v);
  }

  /** Every element of `s` left out of the top k has a key no larger than any kept one. */
  lemma TopDominates<T>(s: seq<T>, key: T -> real, k: nat)
    ensures forall i, j :: 0 <= i < |Top(s, key, k)| && 0 <= j < |s| && s[j] !in Top(s, key, k)
              ==> key(Top(s, key, k)[i]) >= key(s[j])
  {
    var r := SortDesc(s, key);
    var t := Top(s, key, k);
    SortDescContract(s, key);
    forall i, j | 0 <= i < |t| && 0 <= j < |s| && s[j] !in t
      ensures key(t[i]) >= key(s[j])
    {
      assert s[j] in multiset(r);
      var m :| 0 <= m < |r| && r[m] == s[j];
      assert m >= |t| by {
        assert forall q :: 0 <= q < |t| ==> t[q] == r[q];
      }
      assert t[i] == r[i];
    }
  }
}
