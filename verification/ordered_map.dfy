/** An insertion-ordered map with the semantics of a JavaScript `Map`: a sequence of
    (key, value) entries with pairwise distinct keys, iterated in insertion order. */
module OrderedMaps {
  import opened Wrappers

  /** The keys of `m`, in order. */
  function Keys<K, V>(m: seq<(K, V)>): (ks: seq<K>)
    ensures |ks| == |m|
  {
    if |m| == 0 then [] else [m[0].0] + Keys(m[1..])
  }

  /** The `i`-th key is the key of the `i`-th entry. */
  lemma {:induction false} KeysAt<K, V>(m: seq<(K, V)>, i: nat)
    requires i < |m|
    ensures Keys(m)[i] == m[i].0
    decreases i
  {
    if i > 0 {
      KeysAt(m[1..], i - 1);
    }
  }

  /** No key appears twice. */
  predicate UniqueKeys<K(==), V>(m: seq<(K, V)>) {
    |m| == 0 || (m[0].0 !in Keys(m[1..]) && UniqueKeys(m[1..]))
  }

  /** The value of a JavaScript `Map`. */
  type PairMap<K(==), V> = m: seq<(K, V)> | UniqueKeys(m) witness []

  /** `m.get(k)`, with `None` for a missing key. */
  function Lookup<K(==), V>(m: seq<(K, V)>, k: K): (r: Option<V>)
    ensures r.None? <==> k !in Keys(m)
  {
    if |m| == 0 then None
    else if m[0].0 == k then Some(m[0].1)
    else Lookup(m[1..], k)
  }

  /** In a map with unique keys, `get` finds `v` for `k` exactly when the entry `(k, v)` is
      stored. */
  lemma {:induction false} LookupIsEntry<K, V>(m: PairMap<K, V>, k: K, v: V)
    ensures Lookup(m, k) == Some(v) <==> (k, v) in m
  {
    if |m| > 0 {
      assert m == [m[0]] + m[1..];
      LookupIsEntry(m[1..], k, v);
      if (k, v) in m[1..] {
        EntryKeyListed(m[1..], k, v);
      }
    }
  }

  /** The key of a stored entry is listed among the keys. */
  lemma {:induction false} EntryKeyListed<K, V>(m: seq<(K, V)>, k: K, v: V)
    requires (k, v) in m
    ensures k in Keys(m)
  {
    if m[0] != (k, v) {
      assert (k, v) in m[1..];
      EntryKeyListed(m[1..], k, v);
    }
  }

  /** How `Keys`, `Lookup` and `UniqueKeys` see an entry put in front of a sequence of entries. */
  lemma {:induction false} ConsParts<K(!new), V>(p: (K, V), m: seq<(K, V)>)
    ensures ([p] + m)[0] == p && ([p] + m)[1..] == m
    ensures Keys([p] + m) == [p.0] + Keys(m)
    ensures UniqueKeys([p] + m) <==> p.0 !in Keys(m) && UniqueKeys(m)
    ensures forall k :: Lookup([p] + m, k) == if p.0 == k then Some(p.1) else Lookup(m, k)
  {
    assert ([p] + m)[1..] == m;
  }

  /** Keys of a concatenation. */
  lemma {:induction false} KeysAppend<K(!new), V>(a: seq<(K, V)>, b: seq<(K, V)>)
    ensures Keys(a + b) == Keys(a) + Keys(b)
  {
    if |a| > 0 {
      ConsParts(a[0], a[1..] + b);
      assert a + b == [a[0]] + (a[1..] + b);
      KeysAppend(a[1..], b);
    } else {
      assert a + b == b;
    }
  }

  /** `m.set(k, v)`: an existing key keeps its position and takes the new value; a new key
      is appended at the end. */
  function Set<K(==, !new), V>(m: PairMap<K, V>, k: K, v: V): (r: PairMap<K, V>)
    ensures Lookup(r, k) == Some(v)
    ensures forall k' :: k' != k ==> Lookup(r, k') == Lookup(m, k')
    ensures k in Keys(m) ==> Keys(r) == Keys(m)
    ensures k !in Keys(m) ==> r == m + [(k, v)] && Keys(r) == Keys(m) + [k]
  {
    if |m| == 0 then
      ConsParts((k, v), []);
      assert [(k, v)] == [(k, v)] + [];
      [(k, v)]
    else
      ConsParts(m[0], m[1..]);
      assert m == [m[0]] + m[1..];
      if m[0].0 == k then
        ConsParts((k, v), m[1..]);
        [(k, v)] + m[1..]
      else
        var rest := Set(m[1..], k, v);
        ConsParts(m[0], rest);
        assert k !in Keys(m) ==> [m[0]] + rest == m + [(k, v)] by {
          if k !in Keys(m) {
            assert [m[0]] + (m[1..] + [(k, v)]) == ([m[0]] + m[1..]) + [(k, v)];
          }
        }
        [m[0]] + rest
  }

  /** The elements of `ks` that are not in `seen`, in their order in `ks`. */
  function Fresh<K(==, !new)>(ks: seq<K>, seen: seq<K>): (r: seq<K>)
    ensures forall k :: k in r <==> k in ks && k !in seen
  {
    if |ks| == 0 then []
    else if ks[0] in seen then Fresh(ks[1..], seen)
    else [ks[0]] + Fresh(ks[1..], seen)
  }

  /** Growing `seen` by a key that does not occur in `ks` does not change `Fresh`. */
  lemma {:induction false} FreshIgnoresAbsent<K(!new)>(ks: seq<K>, seen: seq<K>, x: K)
    requires x !in ks
    ensures Fresh(ks, seen + [x]) == Fresh(ks, seen)
  {
    if |ks| > 0 {
      FreshIgnoresAbsent(ks[1..], seen, x);
      assert ks[0] in seen + [x] <==> ks[0] in seen;
    }
  }

  /** `new Map([...m, ...n])`: the entries of `n` are set one by one, in order, into `m`.
      Keys of `m` come first in their old order, followed by the keys only `n` has, in
      `n`'s order; on a key both have, `n`'s value wins. */
  function Merge<K(==, !new), V>(m: PairMap<K, V>, n: PairMap<K, V>): (r: PairMap<K, V>)
    decreases |n|
    ensures forall k :: Lookup(r, k) == (if k in Keys(n) then Lookup(n, k) else Lookup(m, k))
    ensures Keys(r) == Keys(m) + Fresh(Keys(n), Keys(m))
  {
    if |n| == 0 then m
    else
      ConsParts(n[0], n[1..]);
      assert n == [n[0]] + n[1..];
      var m' := Set(m, n[0].0, n[0].1);
      var r := Merge(m', n[1..]);
      MergeStep(m, n, m', r);
      r
  }

  /** One step of `Merge`: what setting the first entry of `n` and merging the rest gives. */
  lemma {:induction false} MergeStep<K(!new), V>(m: PairMap<K, V>, n: PairMap<K, V>, m': PairMap<K, V>, r: PairMap<K, V>)
    requires |n| > 0 && m' == Set(m, n[0].0, n[0].1)
    requires forall k :: Lookup(r, k) == (if k in Keys(n[1..]) then Lookup(n[1..], k) else Lookup(m', k))
    requires Keys(r) == Keys(m') + Fresh(Keys(n[1..]), Keys(m'))
    ensures forall k :: Lookup(r, k) == (if k in Keys(n) then Lookup(n, k) else Lookup(m, k))
    ensures Keys(r) == Keys(m) + Fresh(Keys(n), Keys(m))
  {
    MergeStepLookup(m, n, m', r);
    MergeStepKeys(m, n, m', r);
  }

  /** The lookup half of `MergeStep`. */
  lemma {:induction false} MergeStepLookup<K(!new), V>(m: PairMap<K, V>, n: PairMap<K, V>, m': PairMap<K, V>, r: PairMap<K, V>)
    requires |n| > 0 && m' == Set(m, n[0].0, n[0].1)
    requires forall k :: Lookup(r, k) == (if k in Keys(n[1..]) then Lookup(n[1..], k) else Lookup(m', k))
    ensures forall k :: Lookup(r, k) == (if k in Keys(n) then Lookup(n, k) else Lookup(m, k))
  {
    var p := n[0];
    ConsParts(p, n[1..]);
    assert n == [p] + n[1..];
    hide Set, Lookup, Keys, UniqueKeys;
    forall k
      ensures Lookup(r, k) == (if k in Keys(n) then Lookup(n, k) else Lookup(m, k))
    {
      if k == p.0 {
        assert k !in Keys(n[1..]);
        assert Lookup(r, k) == Lookup(m', k);
      } else {
        assert k in Keys(n) <==> k in Keys(n[1..]);
      }
    }
  }

  /** The key-order half of `MergeStep`. */
  lemma {:induction false} MergeStepKeys<K(!new), V>(m: PairMap<K, V>, n: PairMap<K, V>, m': PairMap<K, V>, r: PairMap<K, V>)
    requires |n| > 0 && m' == Set(m, n[0].0, n[0].1)
    requires Keys(r) == Keys(m') + Fresh(Keys(n[1..]), Keys(m'))
    ensures Keys(r) == Keys(m) + Fresh(Keys(n), Keys(m))
  {
    var p := n[0];
    ConsParts(p, n[1..]);
    assert n == [p] + n[1..];
    hide Set, Lookup, Keys, UniqueKeys;
    if p.0 !in Keys(m) {
      FreshIgnoresAbsent(Keys(n[1..]), Keys(m), p.0);
      assert Keys(r) == Keys(m) + ([p.0] + Fresh(Keys(n[1..]), Keys(m)));
    }
  }

  /** Merging a map whose keys are all new appends its entries unchanged. */
  lemma {:induction false} MergeDisjoint<K(!new), V>(m: PairMap<K, V>, n: PairMap<K, V>)
    requires forall k :: k in Keys(n) ==> k !in Keys(m)
    ensures UniqueKeys(m + n)
    ensures Merge(m, n) == m + n
    decreases |n|
  {
    if |n| == 0 {
      assert m + n == m;
    } else {
      var p := n[0];
      ConsParts(p, n[1..]);
      assert n == [p] + n[1..];
      var m' := m + [p];
      assert Set(m, p.0, p.1) == m';
      assert Merge(m, n) == Merge(m', n[1..]);
      KeysAppend(m, [p]);
      ConsParts(p, []);
      assert Keys(m') == Keys(m) + [p.0];
      forall k | k in Keys(n[1..])
        ensures k !in Keys(m')
      {
        assert k in Keys(n) && k != p.0;
      }
      MergeDisjoint(m', n[1..]);
      AppendShift(m, p, n[1..]);
    }
  }

  /** Moving one entry across a concatenation. */
  lemma {:induction false} AppendShift<K(!new), V>(m: seq<(K, V)>, p: (K, V), n: seq<(K, V)>)
    ensures (m + [p]) + n == m + ([p] + n)
  {
  }

  /** Merging into an empty map gives the merged map itself. */
  lemma {:induction false} MergeIntoEmpty<K(!new), V>(n: PairMap<K, V>)
    ensures Merge([], n) == n
  {
    MergeDisjoint([], n);
    assert [] + n == n;
  }
}
