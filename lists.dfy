/**
 * The array operations the data layer and the editors are built from:
 * `findIndex`, `find`, `filter`, `splice(i, 1)` and the "replace the element
 * with the same key or push" upsert of storage.ts. Lookups are keyed by a
 * named key function (an id or a date field), so that callers can state their
 * contracts in terms of these functions.
 */
module Lists {
  import opened Wrappers

  /** `findIndex(x => key(x) === k)`: the first index whose key is k, or -1. */
  function FindIndex<T, K(==)>(s: seq<T>, key: T -> K, k: K): (r: int)
    ensures -1 <= r < |s|
    ensures r >= 0 ==> key(s[r]) == k && forall j :: 0 <= j < r ==> key(s[j]) != k
    ensures r == -1 <==> forall j :: 0 <= j < |s| ==> key(s[j]) != k
  {
    if |s| == 0 then -1
    else if key(s[0]) == k then 0
    else
      var r := FindIndex(s[1..], key, k);
      if r == -1 then -1 else r + 1
  }

  /** `find(x => key(x) === k)`: the first element whose key is k. */
  function FindFirst<T, K(==)>(s: seq<T>, key: T -> K, k: K): (r: Option<T>)
    ensures r == None <==> forall j :: 0 <= j < |s| ==> key(s[j]) != k
    ensures r.Some? ==> exists i :: 0 <= i < |s| && s[i] == r.value && key(s[i]) == k &&
                                    forall j :: 0 <= j < i ==> key(s[j]) != k
  {
    var i := FindIndex(s, key, k);
    if i < 0 then None else Some(s[i])
  }

  /** The element at the first position whose key is k (any earlier element has another key). */
  lemma FindFirstIsAt<T, K>(s: seq<T>, key: T -> K, k: K, i: nat)
    requires i < |s| && key(s[i]) == k
    requires forall j :: 0 <= j < i ==> key(s[j]) != k
    ensures FindFirst(s, key, k) == Some(s[i])
    ensures FindIndex(s, key, k) == i
  {
  }

  /** `filter(p)`: the elements satisfying p, in their original order. */
  function Filter<T>(s: seq<T>, p: T -> bool): (r: seq<T>)
    ensures |r| <= |s|
    ensures forall j :: 0 <= j < |r| ==> r[j] in s && p(r[j])
    ensures forall j :: 0 <= j < |s| && p(s[j]) ==> s[j] in r
  {
    if |s| == 0 then []
    else (if p(s[0]) then [s[0]] else []) + Filter(s[1..], p)
  }

  /** Filtering distributes over concatenation, so the kept elements stay in their original order. */
  lemma {:induction false} FilterAppend<T>(s: seq<T>, t: seq<T>, p: T -> bool)
    ensures Filter(s + t, p) == Filter(s, p) + Filter(t, p)
  {
    if |s| == 0 {
      assert s + t == t;
    } else {
      assert (s + t)[1..] == s[1..] + t;
      FilterAppend(s[1..], t, p);
    }
  }

  /** Filtering keeps every occurrence of a kept element and none of a dropped one. */
  lemma {:induction false} FilterCounts<T>(s: seq<T>, p: T -> bool, x: T)
    ensures multiset(Filter(s, p))[x] == if p(x) then multiset(s)[x] else 0
  {
    if |s| > 0 {
      FilterCounts(s[1..], p, x);
      assert s == [s[0]] + s[1..];
    }
  }

  /** Filtering a sequence whose every element is kept changes nothing. */
  lemma {:induction false} FilterKeepsAll<T>(s: seq<T>, p: T -> bool)
    requires forall j :: 0 <= j < |s| ==> p(s[j])
    ensures Filter(s, p) == s
  {
    if |s| > 0 {
      FilterKeepsAll(s[1..], p);
      assert s == [s[0]] + s[1..];
    }
  }

  /** Two predicates that agree on every element filter the same elements. */
  lemma {:induction false} FilterCongruent<T>(s: seq<T>, p: T -> bool, q: T -> bool)
    requires forall j :: 0 <= j < |s| ==> p(s[j]) == q(s[j])
    ensures Filter(s, p) == Filter(s, q)
  {
    if |s| > 0 {
      assert forall j :: 0 <= j < |s[1..]| ==> s[1..][j] == s[j + 1];
      FilterCongruent(s[1..], p, q);
    }
  }

  /** `filter(x => key(x) !== k)`: the elements whose key is not k, in order. */
  function RemoveKey<T, K(==)>(s: seq<T>, key: T -> K, k: K): (r: seq<T>)
    ensures |r| <= |s|
    ensures forall j :: 0 <= j < |r| ==> r[j] in s && key(r[j]) != k
    ensures forall j :: 0 <= j < |s| && key(s[j]) != k ==> s[j] in r
  {
    if |s| == 0 then []
    else (if key(s[0]) != k then [s[0]] else []) + RemoveKey(s[1..], key, k)
  }

  lemma {:induction false} RemoveKeyAppend<T, K>(s: seq<T>, t: seq<T>, key: T -> K, k: K)
    ensures RemoveKey(s + t, key, k) == RemoveKey(s, key, k) + RemoveKey(t, key, k)
  {
    if |s| == 0 {
      assert s + t == t;
    } else {
      assert (s + t)[1..] == s[1..] + t;
      RemoveKeyAppend(s[1..], t, key, k);
    }
  }

  /** Removing a key that no element has leaves the sequence as it is. */
  lemma {:induction false} RemoveAbsentKey<T, K>(s: seq<T>, key: T -> K, k: K)
    requires forall j :: 0 <= j < |s| ==> key(s[j]) != k
    ensures RemoveKey(s, key, k) == s
  {
    if |s| > 0 {
      RemoveAbsentKey(s[1..], key, k);
      assert s == [s[0]] + s[1..];
    }
  }

  /** Every element with another key survives removal as many times as it occurred. */
  lemma {:induction false} RemoveKeyCounts<T, K>(s: seq<T>, key: T -> K, k: K, x: T)
    ensures multiset(RemoveKey(s, key, k))[x] == if key(x) != k then multiset(s)[x] else 0
  {
    if |s| > 0 {
      RemoveKeyCounts(s[1..], key, k, x);
      assert s == [s[0]] + s[1..];
    }
  }

  /** `splice(i, 1)` on a copy: drops element i; an index past the end removes nothing. */
  function RemoveAt<T>(s: seq<T>, i: nat): (r: seq<T>)
    ensures i < |s| ==> |r| == |s| - 1
    ensures i < |s| ==> forall j :: 0 <= j < i ==> r[j] == s[j]
    ensures i < |s| ==> forall j :: i <= j < |r| ==> r[j] == s[j + 1]
    ensures i >= |s| ==> r == s
  {
    if i < |s| then s[..i] + s[i + 1..] else s
  }

  /**
   * The upsert of saveWorkout and saveProgram: the first element with the same
   * key as x is overwritten in place; when there is none, x is pushed.
   */
  function Upsert<T, K(==)>(s: seq<T>, x: T, key: T -> K): seq<T>
  {
    var i := FindIndex(s, key, key(x));
    if i >= 0 then s[i := x] else s + [x]
  }

  /** With the key already present, the upsert overwrites that one element and keeps the length. */
  lemma UpsertReplacesInPlace<T, K>(s: seq<T>, x: T, key: T -> K, i: nat)
    requires i < |s| && key(s[i]) == key(x)
    requires forall j :: 0 <= j < i ==> key(s[j]) != key(x)
    ensures |Upsert(s, x, key)| == |s|
    ensures Upsert(s, x, key)[i] == x
    ensures forall j :: 0 <= j < |s| && j != i ==> Upsert(s, x, key)[j] == s[j]
  {
    FindFirstIsAt(s, key, key(x), i);
  }

  /** With a key not yet present, the upsert appends x and keeps the prefix. */
  lemma UpsertAppends<T, K>(s: seq<T>, x: T, key: T -> K)
    requires forall j :: 0 <= j < |s| ==> key(s[j]) != key(x)
    ensures Upsert(s, x, key) == s + [x]
  {
  }

  /** After an upsert x is stored: it is an element of the result. */
  lemma UpsertContains<T, K>(s: seq<T>, x: T, key: T -> K)
    ensures x in Upsert(s, x, key)
    ensures |s| <= |Upsert(s, x, key)| <= |s| + 1
  {
    var i := FindIndex(s, key, key(x));
    if i >= 0 {
      assert Upsert(s, x, key)[i] == x;
    } else {
      assert Upsert(s, x, key)[|s|] == x;
    }
  }

  /** The position at which an upsert stores x: the old element's index, or the end. */
  function UpsertPosition<T, K(==)>(s: seq<T>, x: T, key: T -> K): (r: nat)
    ensures r <= |s|
    ensures r < |Upsert(s, x, key)| && Upsert(s, x, key)[r] == x
  {
    var i := FindIndex(s, key, key(x));
    if i >= 0 then i else |s|
  }

  /**
   * A lookup by a second key right after an upsert returns x exactly when no
   * element stored before x's position has x's second key ("first match wins").
   */
  lemma {:induction false} FindAfterUpsert<T, K1, K2>(s: seq<T>, x: T, key: T -> K1, key2: T -> K2)
    ensures FindFirst(Upsert(s, x, key), key2, key2(x)) == Some(x) <==>
            forall j :: 0 <= j < UpsertPosition(s, x, key) ==> key2(s[j]) != key2(x)
  {
    var u := Upsert(s, x, key);
    var pos := UpsertPosition(s, x, key);
    assert forall j :: 0 <= j < pos ==> u[j] == s[j] && key(s[j]) != key(x);
    if forall j :: 0 <= j < pos ==> key2(s[j]) != key2(x) {
      FindFirstIsAt(u, key2, key2(x), pos);
    } else {
      var j :| 0 <= j < pos && key2(s[j]) == key2(x);
      var i := FindIndex(u, key2, key2(x));
      assert 0 <= i <= j;
      assert u[i] != x by {
        assert key(u[i]) != key(x);
      }
    }
  }

  /** A lookup by the upsert's own key right after the upsert returns the upserted element. */
  lemma FindByKeyAfterUpsert<T, K>(s: seq<T>, x: T, key: T -> K)
    ensures FindFirst(Upsert(s, x, key), key, key(x)) == Some(x)
  {
    FindAfterUpsert(s, x, key, key);
  }
}
