/**
 * PHP's ordered arrays as sequences of (key, value) entries in iteration
 * order.  `unset` removes an entry without renumbering the others, and
 * assigning to an existing key keeps that entry's place.
 */
module PhpArray {

  /** `isset($a[$k])`, for arrays whose values are never null. */
  predicate HasKey<K(==), V>(a: seq<(K, V)>, k: K)
  {
    exists i :: 0 <= i < |a| && a[i].0 == k
  }

  /** Every PHP array has distinct keys. */
  predicate DistinctKeys<K(==), V>(a: seq<(K, V)>)
  {
    forall i, j :: 0 <= i < j < |a| ==> a[i].0 != a[j].0
  }

  predicate KeysIncreasing<V>(a: seq<(int, V)>)
  {
    forall i, j :: 0 <= i < j < |a| ==> a[i].0 < a[j].0
  }

  /** The list PHP builds from `vs` (a variadic parameter, an `array(...)` literal): keys 0, 1, ... */
  function Indexed<V>(vs: seq<V>): seq<(int, V)>
  {
    seq(|vs|, i requires 0 <= i < |vs| => (i, vs[i]))
  }

  /** The entries whose value satisfies `p`, in their original order, with their original keys. */
  function Keep<K(!new), V(!new)>(a: seq<(K, V)>, p: V -> bool): (r: seq<(K, V)>)
    ensures |r| <= |a|
    ensures forall e :: e in r <==> e in a && p(e.1)
    decreases |a|
  {
    if a == [] then []
    else
      var last := a[|a| - 1];
      assert a == a[..|a| - 1] + [last];
      Keep(a[..|a| - 1], p) + (if p(last.1) then [last] else [])
  }

  /** The entries whose value does not satisfy `p`, in their original order. */
  function Reject<K(!new), V(!new)>(a: seq<(K, V)>, p: V -> bool): (r: seq<(K, V)>)
    ensures forall e :: e in r <==> e in a && !p(e.1)
    decreases |a|
  {
    if a == [] then []
    else
      var last := a[|a| - 1];
      assert a == a[..|a| - 1] + [last];
      Reject(a[..|a| - 1], p) + (if p(last.1) then [] else [last])
  }

  /** Every entry is either kept or rejected. */
  lemma {:induction false} KeepRejectLength<K(!new), V(!new)>(a: seq<(K, V)>, p: V -> bool)
    ensures |Keep(a, p)| + |Reject(a, p)| == |a|
    decreases |a|
  {
    if a != [] {
      KeepRejectLength(a[..|a| - 1], p);
    }
  }

  /** Keeping entries preserves increasing keys: the result is a subsequence. */
  lemma {:induction false} KeepKeysIncreasing<V(!new)>(a: seq<(int, V)>, p: V -> bool)
    requires KeysIncreasing(a)
    ensures KeysIncreasing(Keep(a, p))
    decreases |a|
  {
    if a != [] {
      var init, last := a[..|a| - 1], a[|a| - 1];
      KeepKeysIncreasing(init, p);
      forall e | e in Keep(init, p) ensures e.0 < last.0 {
        var i :| 0 <= i < |init| && init[i] == e;
        assert a[i] == e;
      }
    }
  }

  /** The entries of a list keep the index they had in the list. */
  lemma KeepIndexed<V(!new)>(vs: seq<V>, p: V -> bool)
    ensures KeysIncreasing(Keep(Indexed(vs), p))
    ensures forall e :: e in Keep(Indexed(vs), p) ==> 0 <= e.0 < |vs| && vs[e.0] == e.1
  {
    KeepKeysIncreasing(Indexed(vs), p);
  }

  /** `unset($a[$k])`: the entries under other keys stay and no entry under `k` is left. */
  function Unset<K(==,!new), V(!new)>(a: seq<(K, V)>, k: K): (r: seq<(K, V)>)
    ensures |r| <= |a|
    ensures !HasKey(r, k)
    ensures forall e :: e in r <==> e in a && e.0 != k
  {
    if a == [] then [] else (if a[0].0 == k then [] else [a[0]]) + Unset(a[1..], k)
  }

  lemma {:induction false} UnsetConcat<K(!new), V(!new)>(x: seq<(K, V)>, y: seq<(K, V)>, k: K)
    ensures Unset(x + y, k) == Unset(x, k) + Unset(y, k)
    decreases |x|
  {
    if x != [] {
      var head := if x[0].0 == k then [] else [x[0]];
      assert (x + y)[0] == x[0];
      assert (x + y)[1..] == x[1..] + y;
      assert Unset(x + y, k) == head + Unset(x[1..] + y, k);
      UnsetConcat(x[1..], y, k);
      assert Unset(x, k) == head + Unset(x[1..], k);
      assert head + (Unset(x[1..], k) + Unset(y, k)) == (head + Unset(x[1..], k)) + Unset(y, k);
    } else {
      assert x + y == y;
    }
  }

  lemma {:induction false} UnsetAbsent<K(!new), V(!new)>(a: seq<(K, V)>, k: K)
    requires !HasKey(a, k)
    ensures Unset(a, k) == a
    decreases |a|
  {
    if a != [] {
      forall j | 0 <= j < |a[1..]| ensures a[1..][j].0 != k {
        assert a[1..][j] == a[j + 1];
      }
      UnsetAbsent(a[1..], k);
    }
  }

  /** In an array with distinct keys, the key of entry `i` occurs nowhere else. */
  lemma KeyOnlyAt<K(!new), V(!new)>(a: seq<(K, V)>, p: V -> bool, i: nat)
    requires DistinctKeys(a) && i < |a|
    ensures !HasKey(Keep(a[..i], p), a[i].0)
    ensures !HasKey(a[i + 1..], a[i].0)
  {
    var done := Keep(a[..i], p);
    forall j | 0 <= j < |done| ensures done[j].0 != a[i].0 {
      var e := done[j];
      assert e in a[..i];
    }
    var rest := a[i + 1..];
    forall j | 0 <= j < |rest| ensures rest[j].0 != a[i].0 {
      assert rest[j] == a[i + 1 + j];
    }
  }

  /**
   * One turn of `foreach ($a as $k => $v) { if (!p($v)) { unset($a[$k]); } }`:
   * after `i` turns the array is the kept part of the first `i` entries
   * followed by the untouched rest.
   */
  lemma UnsetStep<K(!new), V(!new)>(a: seq<(K, V)>, p: V -> bool, i: nat)
    requires DistinctKeys(a) && i < |a|
    ensures var kept := Keep(a[..i], p) + a[i..];
            Keep(a[..i + 1], p) + a[i + 1..] == if p(a[i].1) then kept else Unset(kept, a[i].0)
  {
    var k := a[i].0;
    var done, rest := Keep(a[..i], p), a[i + 1..];
    assert a[..i + 1][..i] == a[..i] && a[..i + 1][i] == a[i];
    assert Keep(a[..i + 1], p) == done + (if p(a[i].1) then [a[i]] else []);
    assert a[i..] == [a[i]] + rest;
    if !p(a[i].1) {
      KeyOnlyAt(a, p, i);
      UnsetConcat(done, a[i..], k);
      UnsetConcat([a[i]], rest, k);
      UnsetAbsent(done, k);
      UnsetAbsent(rest, k);
      assert Unset([a[i]], k) == [];
      assert Unset(a[i..], k) == rest;
      assert Unset(done + a[i..], k) == done + rest;
      assert Keep(a[..i + 1], p) == done;
      assert Keep(a[..i + 1], p) + a[i + 1..] == Unset(Keep(a[..i], p) + a[i..], a[i].0);
    } else {
      assert done + [a[i]] + rest == done + a[i..];
      assert Keep(a[..i + 1], p) + a[i + 1..] == Keep(a[..i], p) + a[i..];
    }
  }

  /** `$a[$k] = $v`: an existing key keeps its place, a new key is appended. */
  function Assign<K(==), V>(a: seq<(K, V)>, k: K, v: V): (r: seq<(K, V)>)
    ensures HasKey(a, k) ==> |r| == |a|
    ensures HasKey(a, k) ==> forall i :: 0 <= i < |a| ==> r[i].0 == a[i].0
    ensures HasKey(a, k) ==> forall i :: 0 <= i < |a| ==> r[i].1 == if a[i].0 == k then v else a[i].1
    ensures !HasKey(a, k) ==> r == a + [(k, v)]
  {
    if HasKey(a, k) then seq(|a|, i requires 0 <= i < |a| => if a[i].0 == k then (k, v) else a[i])
    else a + [(k, v)]
  }
}
