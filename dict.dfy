/** Python `dict` semantics over an insertion-ordered sequence of entries:
    lookup, assignment (an existing key keeps its place, a new key goes
    last) and deletion (the other entries keep their order). */
module OrderedDict {
  import opened Model

  type Dict<K, V> = seq<(K, V)>

  function Keys<K, V>(d: Dict<K, V>): (ks: seq<K>)
    ensures |ks| == |d|
    ensures forall i :: 0 <= i < |d| ==> ks[i] == d[i].0
  {
    seq(|d|, i requires 0 <= i < |d| => d[i].0)
  }

  /** Keys are unique, as in any dict. */
  ghost predicate DistinctKeys<K, V>(d: Dict<K, V>) {
    forall i, j :: 0 <= i < j < |d| ==> d[i].0 != d[j].0
  }

  /** `d.get(k)`. */
  function Get<K(==), V>(d: Dict<K, V>, k: K): (r: Option<V>)
    ensures r.Some? <==> k in Keys(d)
    ensures r.Some? ==> exists i :: 0 <= i < |d| && d[i] == (k, r.value)
  {
    if d == [] then None
    else if d[0].0 == k then Some(d[0].1)
    else
      var r := Get(d[1..], k);
      assert Keys(d) == [d[0].0] + Keys(d[1..]);
      assert r.Some? ==> exists i :: 0 <= i < |d| - 1 && d[1..][i] == (k, r.value);
      r
  }

  /** `d[k] = v`. */
  function Put<K(==), V>(d: Dict<K, V>, k: K, v: V): (r: Dict<K, V>)
    ensures |r| == if k in Keys(d) then |d| else |d| + 1
  {
    if d == [] then [(k, v)]
    else if d[0].0 == k then [(k, v)] + d[1..]
    else [d[0]] + Put(d[1..], k, v)
  }

  /** `del d[k]` when `k` is present; `d` unchanged otherwise. */
  function Remove<K(==), V>(d: Dict<K, V>, k: K): (r: Dict<K, V>)
    ensures |d| - 1 <= |r| <= |d|
  {
    if d == [] then d
    else if d[0].0 == k then d[1..]
    else [d[0]] + Remove(d[1..], k)
  }

  lemma KeysCons<K, V>(d: Dict<K, V>)
    requires d != []
    ensures Keys(d) == [d[0].0] + Keys(d[1..])
  {
  }

  /** Assignment overwrites an existing key in place and appends a new one. */
  lemma {:induction false} PutKeys<K, V>(d: Dict<K, V>, k: K, v: V)
    ensures Keys(Put(d, k, v)) == if k in Keys(d) then Keys(d) else Keys(d) + [k]
  {
    if d != [] {
      KeysCons(d);
      KeysCons(Put(d, k, v));
      if d[0].0 != k {
        PutKeys(d[1..], k, v);
        assert Put(d, k, v)[1..] == Put(d[1..], k, v);
      } else {
        assert Put(d, k, v)[1..] == d[1..];
      }
    }
  }

  /** After assignment, `k` is bound to `v` and every other key keeps its value. */
  lemma {:induction false} PutGet<K, V>(d: Dict<K, V>, k: K, v: V, k': K)
    ensures Get(Put(d, k, v), k') == if k' == k then Some(v) else Get(d, k')
  {
    if d != [] && d[0].0 != k {
      PutGet(d[1..], k, v, k');
      assert Put(d, k, v)[1..] == Put(d[1..], k, v);
    } else if d != [] {
      assert Put(d, k, v)[1..] == d[1..];
    }
  }

  /** Assignment keeps keys unique. */
  lemma {:induction false} PutDistinct<K, V>(d: Dict<K, V>, k: K, v: V)
    requires DistinctKeys(d)
    ensures DistinctKeys(Put(d, k, v))
  {
    var r := Put(d, k, v);
    PutKeys(d, k, v);
    if k in Keys(d) {
      assert forall i :: 0 <= i < |r| ==> r[i].0 == Keys(r)[i];
    } else {
      assert forall i :: 0 <= i < |r| ==> r[i].0 == Keys(r)[i];
      forall i, j | 0 <= i < j < |r| ensures r[i].0 != r[j].0 {
        if j == |d| {
          assert Keys(d)[i] == r[i].0;
        } else {
          assert Keys(d)[i] == r[i].0 && Keys(d)[j] == r[j].0;
        }
      }
    }
  }

  /** The position of `k` among the keys, or `|d|` when it is absent. */
  function KeyIndex<K(==), V>(d: Dict<K, V>, k: K): (i: nat)
    ensures i <= |d|
    ensures i < |d| <==> k in Keys(d)
    ensures i < |d| ==> d[i].0 == k
  {
    if d == [] then 0
    else if d[0].0 == k then 0
    else
      KeysCons(d);
      1 + KeyIndex(d[1..], k)
  }

  /** Deletion of a present key removes the first (with unique keys: the
      only) entry for it and keeps the others in order; deleting an absent
      key changes nothing. */
  lemma {:induction false} RemoveEntry<K, V>(d: Dict<K, V>, k: K)
    ensures var i := KeyIndex(d, k);
      Remove(d, k) == if i < |d| then d[..i] + d[i + 1..] else d
  {
    if d != [] && d[0].0 != k {
      var tail := d[1..];
      RemoveEntry(tail, k);
      var j := KeyIndex(tail, k);
      assert KeyIndex(d, k) == j + 1;
      if j < |tail| {
        SpliceCons(d, j);
      } else {
        assert [d[0]] + tail == d;
      }
    }
  }

  /** Removing position `j + 1` of `d` is removing position `j` of its tail. */
  lemma SpliceCons<T>(d: seq<T>, j: nat)
    requires j + 1 < |d|
    ensures [d[0]] + (d[1..][..j] + d[1..][j + 1..]) == d[..j + 1] + d[j + 2..]
  {
    assert d[1..][..j] == d[1..j + 1];
    assert d[1..][j + 1..] == d[j + 2..];
    assert [d[0]] + d[1..j + 1] == d[..j + 1];
  }

  /** Deletion leaves every other key's value alone. */
  lemma {:induction false} RemoveGet<K, V>(d: Dict<K, V>, k: K, k': K)
    requires k' != k
    ensures Get(Remove(d, k), k') == Get(d, k')
  {
    if d != [] && d[0].0 != k {
      RemoveGet(d[1..], k, k');
      assert Remove(d, k)[1..] == Remove(d[1..], k);
    }
  }

  /** In a dict with unique keys, deletion keeps keys unique and the deleted key is gone. */
  lemma {:induction false} RemoveDistinct<K, V>(d: Dict<K, V>, k: K)
    requires DistinctKeys(d)
    ensures DistinctKeys(Remove(d, k)) && k !in Keys(Remove(d, k))
  {
    if d != [] {
      KeysCons(d);
      assert DistinctKeys(d[1..]);
      if d[0].0 == k {
        assert k !in Keys(d[1..]);
      } else {
        RemoveDistinct(d[1..], k);
        var rest := Remove(d[1..], k);
        KeysCons(Remove(d, k));
        assert Remove(d, k)[1..] == rest;
        RemoveKeysShrink(d[1..], k);
        assert d[0].0 !in Keys(rest);
      }
    }
  }

  /** Deletion adds no key. */
  lemma {:induction false} RemoveKeysShrink<K, V>(d: Dict<K, V>, k: K)
    ensures forall k' :: k' in Keys(Remove(d, k)) ==> k' in Keys(d)
  {
    if d != [] {
      KeysCons(d);
      if d[0].0 != k {
        RemoveKeysShrink(d[1..], k);
        KeysCons(Remove(d, k));
        assert Remove(d, k)[1..] == Remove(d[1..], k);
      }
    }
  }

  /** In a dict with unique keys, looking up the key of an entry finds that entry's value. */
  lemma {:induction false} GetEntry<K, V>(d: Dict<K, V>, i: nat)
    requires DistinctKeys(d) && i < |d|
    ensures Get(d, d[i].0) == Some(d[i].1)
  {
    if i > 0 {
      assert d[1..][i - 1] == d[i];
      assert DistinctKeys(d[1..]);
      GetEntry(d[1..], i - 1);
    }
  }

  /** Assigning a key that is absent appends its entry. */
  lemma {:induction false} PutAppends<K, V>(d: Dict<K, V>, k: K, v: V)
    requires k !in Keys(d)
    ensures Put(d, k, v) == d + [(k, v)]
  {
    if d != [] {
      KeysCons(d);
      PutAppends(d[1..], k, v);
      assert d == [d[0]] + d[1..];
    }
  }

  /** Assigning an absent key and deleting it again restores the dict. */
  lemma {:induction false} RemovePut<K, V>(d: Dict<K, V>, k: K, v: V)
    requires k !in Keys(d)
    ensures Remove(Put(d, k, v), k) == d
  {
    if d != [] {
      KeysCons(d);
      RemovePut(d[1..], k, v);
      assert d == [d[0]] + d[1..];
    }
  }
}
