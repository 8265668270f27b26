/**
 * List operations over keyed records: find the first record with a key,
 * update-or-append by key, and keep the records that pass a test, in order.
 */
module Records {
  import opened Wrappers

  /** The position of the first record whose key is k, or None when there is none. */
  function FirstIndex<R, K(==)>(xs: seq<R>, k: K, key: R -> K): (r: Option<nat>)
    ensures r.None? <==> forall i :: 0 <= i < |xs| ==> key(xs[i]) != k
    ensures r.Some? ==> r.value < |xs| && key(xs[r.value]) == k
    ensures r.Some? ==> forall i :: 0 <= i < r.value ==> key(xs[i]) != k
  {
    if xs == [] then None
    else if key(xs[0]) == k then Some(0)
    else match FirstIndex(xs[1..], k, key)
      case None => None
      case Some(j) => Some(j + 1)
  }

  /** A position whose key is k, with no earlier one, is the first index of k. */
  lemma FirstIndexAt<R, K>(xs: seq<R>, k: K, key: R -> K, i: nat)
    requires i < |xs| && key(xs[i]) == k
    requires forall j :: 0 <= j < i ==> key(xs[j]) != k
    ensures FirstIndex(xs, k, key) == Some(i)
  {
  }

  /** The set of keys occurring in a list. */
  ghost function Keys<R, K>(xs: seq<R>, key: R -> K): set<K> {
    set i | 0 <= i < |xs| :: key(xs[i])
  }

  /** No two records share a key. */
  ghost predicate UniqueKeys<R, K>(xs: seq<R>, key: R -> K) {
    forall i, j :: 0 <= i < j < |xs| ==> key(xs[i]) != key(xs[j])
  }

  /**
   * The record x replaces the first record with its key, in place, or is
   * appended at the end when no record has that key.
   */
  function Upsert<R, K(==)>(xs: seq<R>, x: R, key: R -> K): (r: seq<R>)
    ensures FirstIndex(xs, key(x), key).Some? ==> |r| == |xs| && r[FirstIndex(xs, key(x), key).value] == x
    ensures FirstIndex(xs, key(x), key).None? ==> |r| == |xs| + 1 && r[|xs|] == x
    ensures forall i :: 0 <= i < |xs| && FirstIndex(xs, key(x), key) != Some(i) ==> r[i] == xs[i]
    ensures x in r
    ensures Keys(r, key) == Keys(xs, key) + {key(x)}
  {
    match FirstIndex(xs, key(x), key)
    case None =>
      var r := xs + [x];
      assert Keys(r, key) == Keys(xs, key) + {key(x)} by {
        forall y | y in Keys(xs, key) ensures y in Keys(r, key) {
          var i :| 0 <= i < |xs| && key(xs[i]) == y;
          assert key(r[i]) == y;
        }
        assert key(r[|xs|]) == key(x);
      }
      r
    case Some(k) =>
      var r := xs[k := x];
      assert r[k] == x;
      assert Keys(r, key) == Keys(xs, key) + {key(x)} by {
        forall y | y in Keys(xs, key) ensures y in Keys(r, key) {
          var i :| 0 <= i < |xs| && key(xs[i]) == y;
          if i == k { assert key(r[k]) == y; } else { assert key(r[i]) == y; }
        }
        assert key(r[k]) == key(x);
      }
      r
  }

  /** Upserting into a list with unique keys keeps the keys unique. */
  lemma UpsertKeepsUnique<R, K>(xs: seq<R>, x: R, key: R -> K)
    requires UniqueKeys(xs, key)
    ensures UniqueKeys(Upsert(xs, x, key), key)
  {
    var r := Upsert(xs, x, key);
    match FirstIndex(xs, key(x), key)
    case None =>
      forall i, j | 0 <= i < j < |r| ensures key(r[i]) != key(r[j]) {
        if j == |xs| {
          assert r[i] == xs[i];
        } else {
          assert r[i] == xs[i] && r[j] == xs[j];
        }
      }
    case Some(k) =>
      forall i, j | 0 <= i < j < |r| ensures key(r[i]) != key(r[j]) {
        if i == k {
          assert key(r[i]) == key(xs[k]);
        } else if j == k {
          assert key(r[j]) == key(xs[k]);
        }
      }
  }

  /** With unique keys, the one record sharing x's key is the one replaced; nothing else changes. */
  lemma UpsertReplacesMatch<R, K>(xs: seq<R>, x: R, key: R -> K, i: nat)
    requires UniqueKeys(xs, key) && i < |xs| && key(xs[i]) == key(x)
    ensures Upsert(xs, x, key) == xs[i := x]
  {
    forall j | 0 <= j < i ensures key(xs[j]) != key(x) {
    }
    FirstIndexAt(xs, key(x), key, i);
  }

  /** A second upsert with the same key overrides the first: only the later record remains. */
  lemma UpsertOverrides<R, K>(xs: seq<R>, x: R, y: R, key: R -> K)
    requires key(x) == key(y)
    ensures Upsert(Upsert(xs, x, key), y, key) == Upsert(xs, y, key)
  {
    var r := Upsert(xs, x, key);
    match FirstIndex(xs, key(x), key)
    case None =>
      assert r == xs + [x];
      forall j | 0 <= j < |xs| ensures key(r[j]) != key(y) {
        assert r[j] == xs[j];
      }
      FirstIndexAt(r, key(y), key, |xs|);
    case Some(k) =>
      assert r == xs[k := x];
      forall j | 0 <= j < k ensures key(r[j]) != key(y) {
        assert r[j] == xs[j];
      }
      FirstIndexAt(r, key(y), key, k);
  }

  /** a occurs in b in the same order, possibly with other elements in between. */
  predicate Subseq<T(==)>(a: seq<T>, b: seq<T>)
    decreases |b|
  {
    if a == [] then true
    else if b == [] then false
    else if a[0] == b[0] then Subseq(a[1..], b[1..])
    else Subseq(a, b[1..])
  }

  /**
   * The elements that pass p, in their original order: exactly those, each
   * as often as before, and nothing else.
   */
  function Keep<T(==,!new)>(xs: seq<T>, p: T -> bool): (r: seq<T>)
    ensures |r| <= |xs|
    ensures forall x :: x in r <==> x in xs && p(x)
    ensures forall x :: multiset(r)[x] == if p(x) then multiset(xs)[x] else 0
    ensures Subseq(r, xs)
  {
    if xs == [] then []
    else
      var rest := Keep(xs[1..], p);
      assert xs == [xs[0]] + xs[1..];
      if p(xs[0]) then
        assert ([xs[0]] + rest)[1..] == rest;
        [xs[0]] + rest
      else
        assert rest != [] ==> rest[0] in rest && rest[0] != xs[0];
        rest
  }

  /** In a list with unique keys, the tail is unique-keyed and holds no record with the head's key. */
  lemma UniqueTail<R, K>(xs: seq<R>, key: R -> K)
    requires xs != [] && UniqueKeys(xs, key)
    ensures UniqueKeys(xs[1..], key)
    ensures forall y :: y in xs[1..] ==> key(y) != key(xs[0])
  {
    var tail := xs[1..];
    forall i, j | 0 <= i < j < |tail| ensures key(tail[i]) != key(tail[j]) {
      assert tail[i] == xs[i + 1] && tail[j] == xs[j + 1];
    }
    forall y | y in tail ensures key(y) != key(xs[0]) {
      var m :| 0 <= m < |tail| && tail[m] == y;
      assert xs[m + 1] == y;
    }
  }

  /** Filtering a list whose keys are unique leaves them unique. */
  lemma {:induction false} KeepKeepsUnique<R(!new), K>(xs: seq<R>, p: R -> bool, key: R -> K)
    requires UniqueKeys(xs, key)
    ensures UniqueKeys(Keep(xs, p), key)
  {
    if xs != [] {
      UniqueTail(xs, key);
      KeepKeepsUnique(xs[1..], p, key);
      var rest := Keep(xs[1..], p);
      if p(xs[0]) {
        var r := [xs[0]] + rest;
        assert Keep(xs, p) == r;
        forall i, j | 0 <= i < j < |r| ensures key(r[i]) != key(r[j]) {
          assert r[j] == rest[j - 1] && rest[j - 1] in rest;
          if i > 0 {
            assert r[i] == rest[i - 1];
          }
        }
      }
    }
  }

  /** Keeping what passes a test all elements pass changes nothing. */
  lemma {:induction false} KeepAll<T(!new)>(xs: seq<T>, p: T -> bool)
    requires forall i :: 0 <= i < |xs| ==> p(xs[i])
    ensures Keep(xs, p) == xs
  {
    if xs != [] {
      KeepAll(xs[1..], p);
      assert xs == [xs[0]] + xs[1..];
    }
  }

  /** Filtering twice by the same test is filtering once. */
  lemma KeepIdempotent<T(!new)>(xs: seq<T>, p: T -> bool)
    ensures Keep(Keep(xs, p), p) == Keep(xs, p)
  {
    var r := Keep(xs, p);
    forall i | 0 <= i < |r| ensures p(r[i]) {
      assert r[i] in r;
    }
    KeepAll(r, p);
  }
}
