/** Sequence operations behind the SQL clauses and array methods the backend uses:
    `LIMIT n`, `Array.prototype.reverse`, `Array.prototype.slice(-n)` and `ORDER BY`. */
module Seqs {

  function Min(a: nat, b: nat): nat {
    if a <= b then a else b
  }

  /** `LIMIT n`: the first `min(|s|, n)` elements. */
  function Limit<T>(s: seq<T>, n: nat): (r: seq<T>)
    ensures |r| == Min(|s|, n)
    ensures r == s[..|r|]
  {
    if |s| <= n then s else s[..n]
  }

  /** `s.slice(-n)` for `n > 0`: the last `min(|s|, n)` elements, in their original order. */
  function TakeLast<T>(s: seq<T>, n: nat): (r: seq<T>)
    ensures |r| == Min(|s|, n)
    ensures r == s[|s| - |r|..]
  {
    if |s| <= n then s else s[|s| - n..]
  }

  /** `s.reverse()`: element `k` of the result is element `|s| - 1 - k` of `s`. */
  function Reverse<T>(s: seq<T>): (r: seq<T>)
    ensures |r| == |s|
    ensures forall k :: 0 <= k < |s| ==> r[k] == s[|s| - 1 - k]
  {
    if s == [] then [] else Reverse(s[1..]) + [s[0]]
  }

  /** Taking the first `n` of the reversed sequence and reversing them back gives the last
      `n` in their original order (`ORDER BY id DESC LIMIT n` followed by `.reverse()`). */
  lemma ReverseLimitReverse<T>(s: seq<T>, n: nat)
    ensures Reverse(Limit(Reverse(s), n)) == TakeLast(s, n)
  {
    var r := Reverse(Limit(Reverse(s), n));
    var t := TakeLast(s, n);
    assert |r| == |t|;
    forall k | 0 <= k < |r| ensures r[k] == t[k] {
      var m := |r|;
      assert r[k] == Limit(Reverse(s), n)[m - 1 - k] == Reverse(s)[m - 1 - k];
    }
  }

  predicate SortedBy<T>(s: seq<T>, key: T -> int) {
    forall i, j :: 0 <= i < j < |s| ==> key(s[i]) <= key(s[j])
  }

  /** Inserts `x` in front of the first element whose key is not smaller; equal keys keep
      `x` first, so a sort built from it is stable. */
  function InsertBy<T>(x: T, s: seq<T>, key: T -> int): (r: seq<T>)
    ensures |r| == |s| + 1
    ensures multiset(r) == multiset(s) + multiset{x}
    ensures r[0] == x || (s != [] && r[0] == s[0])
  {
    if s == [] || key(x) <= key(s[0]) then [x] + s
    else
      var rest := InsertBy(x, s[1..], key);
      assert s == [s[0]] + s[1..];
      [s[0]] + rest
  }

  /** Inserting into an ordered sequence keeps it ordered. */
  lemma {:induction false} InsertBySorted<T>(x: T, s: seq<T>, key: T -> int)
    requires SortedBy(s, key)
    ensures SortedBy(InsertBy(x, s, key), key)
  {
    if s != [] && key(s[0]) < key(x) {
      InsertBySorted(x, s[1..], key);
      var rest := InsertBy(x, s[1..], key);
      assert key(s[0]) <= key(rest[0]);
      forall j | 0 <= j < |rest| ensures key(s[0]) <= key(rest[j]) {
        if j > 0 { assert key(rest[0]) <= key(rest[j]); }
      }
    }
  }

  /** `ORDER BY key` as a stable insertion sort: the result is a permutation of `s`
      ordered by non-decreasing key. */
  function SortBy<T>(s: seq<T>, key: T -> int): (r: seq<T>)
    ensures |r| == |s|
    ensures multiset(r) == multiset(s)
    ensures SortedBy(r, key)
  {
    if s == [] then []
    else
      assert s == [s[0]] + s[1..];
      InsertBySorted(s[0], SortBy(s[1..], key), key);
      InsertBy(s[0], SortBy(s[1..], key), key)
  }

  /** A sequence already ordered by the key is left exactly as it is: ties keep their
      original order. */
  lemma {:induction false} SortBySortedFixpoint<T>(s: seq<T>, key: T -> int)
    requires SortedBy(s, key)
    ensures SortBy(s, key) == s
  {
    if s != [] {
      SortBySortedFixpoint(s[1..], key);
      assert s == [s[0]] + s[1..];
    }
  }

  ghost predicate Distinct<T>(s: seq<T>) {
    forall i, j :: 0 <= i < j < |s| ==> s[i] != s[j]
  }

  lemma {:induction false} InsertByDistinct<T>(x: T, s: seq<T>, key: T -> int)
    requires Distinct(s) && x !in s
    ensures Distinct(InsertBy(x, s, key))
  {
    var r := InsertBy(x, s, key);
    if s == [] || key(x) <= key(s[0]) {
    } else {
      InsertByDistinct(x, s[1..], key);
      var rest := InsertBy(x, s[1..], key);
      assert r == [s[0]] + rest;
      assert s[0] !in rest by {
        assert s[0] !in s[1..] && x != s[0];
        assert multiset(s[1..])[s[0]] == 0;
        assert multiset(rest)[s[0]] == multiset(s[1..])[s[0]] + multiset{x}[s[0]];
      }
    }
  }

  /** Sorting never duplicates an element. */
  lemma {:induction false} SortByDistinct<T>(s: seq<T>, key: T -> int)
    requires Distinct(s)
    ensures Distinct(SortBy(s, key))
  {
    if s != [] {
      SortByDistinct(s[1..], key);
      assert s[0] !in s[1..];
      assert s[0] !in SortBy(s[1..], key) by {
        assert multiset(s[1..])[s[0]] == 0;
        assert multiset(SortBy(s[1..], key))[s[0]] == 0;
      }
      InsertByDistinct(s[0], SortBy(s[1..], key), key);
    }
  }
}
