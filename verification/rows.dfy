/**
 * A Python dict with string keys, kept in insertion order: a sequence of
 * (key, value) entries.  Reading a key takes its first entry; writing a key
 * that is present replaces that entry where it stands, otherwise the entry is
 * appended (the dict's insertion order).
 */
module Rows {
  import opened Wrappers

  type Row<V> = seq<(string, V)>

  /** The keys in iteration order. */
  function Keys<V>(r: Row<V>): (ks: seq<string>)
    ensures |ks| == |r|
    ensures forall i :: 0 <= i < |r| ==> ks[i] == r[i].0
  {
    if r == [] then [] else [r[0].0] + Keys(r[1..])
  }

  /** A dict never holds a key twice. */
  predicate UniqueKeys<V>(r: Row<V>) {
    forall i, j :: 0 <= i < j < |r| ==> r[i].0 != r[j].0
  }

  /** `d.get(k)`: the value of the first entry for `k`, or None. */
  function Lookup<V>(r: Row<V>, k: string): Option<V> {
    if r == [] then None
    else if r[0].0 == k then Some(r[0].1)
    else Lookup(r[1..], k)
  }

  /** Lookup finds nothing exactly when no entry has the key, and what it finds
      is an entry of the row. */
  lemma {:induction false} LookupFound<V>(r: Row<V>, k: string)
    ensures Lookup(r, k).None? <==> forall i :: 0 <= i < |r| ==> r[i].0 != k
    ensures Lookup(r, k).Some? ==> (k, Lookup(r, k).value) in r
  {
    if r != [] && r[0].0 != k {
      LookupFound(r[1..], k);
      assert forall i :: 1 <= i < |r| ==> r[i] == r[1..][i - 1];
    }
  }

  /** In a dict (unique keys) the entry for `k` is the one Lookup finds. */
  lemma {:induction false} LookupUnique<V>(r: Row<V>, k: string, i: int)
    requires UniqueKeys(r) && 0 <= i < |r| && r[i].0 == k
    ensures Lookup(r, k) == Some(r[i].1)
  {
    if i > 0 {
      assert r[0].0 != k;
      LookupUnique(r[1..], k, i - 1);
    }
  }

  /** `d[k] = v`: replace the value of the first entry for `k`, or append a new entry. */
  function Put<V>(r: Row<V>, k: string, v: V): (r': Row<V>)
    ensures Lookup(r', k) == Some(v)
    ensures forall k' :: k' != k ==> Lookup(r', k') == Lookup(r, k')
    ensures Lookup(r, k).Some? ==> Keys(r') == Keys(r)
    ensures Lookup(r, k).None? ==> Keys(r') == Keys(r) + [k]
  {
    if r == [] then [(k, v)]
    else if r[0].0 == k then [(k, v)] + r[1..]
    else
      var t := Put(r[1..], k, v);
      assert Keys([r[0]] + t) == [r[0].0] + Keys(t);
      assert Lookup(r, k).Some? ==> Keys(r) == [r[0].0] + Keys(r[1..]);
      [r[0]] + t
  }

  lemma {:induction false} PutKeepsUniqueKeys<V>(r: Row<V>, k: string, v: V)
    requires UniqueKeys(r)
    ensures UniqueKeys(Put(r, k, v))
  {
    var r' := Put(r, k, v);
    LookupFound(r, k);
    assert |r'| == |Keys(r')|;
    forall i, j | 0 <= i < j < |r'| ensures r'[i].0 != r'[j].0 {
      if Lookup(r, k).Some? {
        assert Keys(r') == Keys(r);
        assert Keys(r')[i] == Keys(r)[i] && Keys(r')[j] == Keys(r)[j];
      } else {
        assert Keys(r') == Keys(r) + [k];
        assert Keys(r')[i] == r'[i].0 && Keys(r')[j] == r'[j].0;
        if j == |r| {
          assert Keys(r)[i] == r[i].0;
        } else {
          assert Keys(r)[i] == r[i].0 && Keys(r)[j] == r[j].0;
        }
      }
    }
  }

  /** The keys whose entry holds `v`, in iteration order (`[k for k, x in d.items() if x == v]`). */
  function KeysWith<V(==)>(r: Row<V>, v: V): (ks: seq<string>)
    ensures forall k :: k in ks <==> (k, v) in r
    ensures |ks| <= |r|
  {
    if r == [] then []
    else if r[0].1 == v then [r[0].0] + KeysWith(r[1..], v)
    else KeysWith(r[1..], v)
  }

  lemma {:induction false} KeysWithSnoc<V>(r: Row<V>, x: (string, V), v: V)
    ensures KeysWith(r + [x], v) == KeysWith(r, v) + (if x.1 == v then [x.0] else [])
  {
    if r != [] {
      assert (r + [x])[1..] == r[1..] + [x];
      KeysWithSnoc(r[1..], x, v);
    }
  }

  /** The key of the first entry holding `v`: a scan that stops at the first hit. */
  function FirstKeyWith<V(==)>(r: Row<V>, v: V): Option<string> {
    if r == [] then None
    else if r[0].1 == v then Some(r[0].0)
    else FirstKeyWith(r[1..], v)
  }

  /** FirstKeyWith finds nothing exactly when no entry holds `v`, and what it
      finds is the key of an entry holding `v` with none before it. */
  lemma {:induction false} FirstKeyWithFound<V>(r: Row<V>, v: V)
    ensures FirstKeyWith(r, v).None? <==> forall i :: 0 <= i < |r| ==> r[i].1 != v
    ensures FirstKeyWith(r, v).Some? ==>
              exists i :: 0 <= i < |r| && r[i] == (FirstKeyWith(r, v).value, v) && forall j :: 0 <= j < i ==> r[j].1 != v
  {
    if r != [] && r[0].1 != v {
      FirstKeyWithFound(r[1..], v);
      assert forall i :: 1 <= i < |r| ==> r[i] == r[1..][i - 1];
      var k := FirstKeyWith(r[1..], v);
      if k.Some? {
        var i :| 0 <= i < |r[1..]| && r[1..][i] == (k.value, v) && forall j :: 0 <= j < i ==> r[1..][j].1 != v;
        assert r[i + 1] == (k.value, v) && forall j :: 0 <= j < i + 1 ==> r[j].1 != v;
      }
    } else if r != [] {
      assert r[0] == (r[0].0, v);
    }
  }

  /** The entry at `j` holds `v` and none before it does: FirstKeyWith finds its key. */
  lemma {:induction false} FirstKeyWithAt<V>(r: Row<V>, v: V, j: int)
    requires 0 <= j < |r| && r[j].1 == v && forall k :: 0 <= k < j ==> r[k].1 != v
    ensures FirstKeyWith(r, v) == Some(r[j].0)
  {
    if j > 0 {
      assert forall k :: 0 <= k < j - 1 ==> r[1..][k] == r[k + 1];
      FirstKeyWithAt(r[1..], v, j - 1);
    }
  }

  /** In a dict (unique keys) KeysWith lists no key twice. */
  lemma {:induction false} KeysWithNoRepeats<V>(r: Row<V>, v: V)
    requires UniqueKeys(r)
    ensures forall i, j :: 0 <= i < j < |KeysWith(r, v)| ==> KeysWith(r, v)[i] != KeysWith(r, v)[j]
  {
    if r != [] {
      var t := r[1..];
      assert UniqueKeys(t);
      KeysWithNoRepeats(t, v);
      if r[0].1 == v {
        var ks := KeysWith(t, v);
        forall k | k in ks ensures k != r[0].0 {
          var m :| 0 <= m < |t| && t[m] == (k, v);
          assert r[m + 1] == t[m];
        }
        assert KeysWith(r, v) == [r[0].0] + ks;
      }
    }
  }

  /** The scan that stops at the first hit finds something exactly when KeysWith lists something. */
  lemma FirstKeyWithListed<V>(r: Row<V>, v: V)
    ensures FirstKeyWith(r, v).None? <==> KeysWith(r, v) == []
    ensures FirstKeyWith(r, v).Some? ==> FirstKeyWith(r, v).value in KeysWith(r, v)
  {
    FirstKeyWithFound(r, v);
    var ks := KeysWith(r, v);
    if ks != [] {
      assert ks[0] in ks;
      var i :| 0 <= i < |r| && r[i] == (ks[0], v);
    }
  }

  /** In a dict (unique keys) a key is listed by KeysWith exactly when its value is `v`. */
  lemma KeysWithLookup<V>(r: Row<V>, v: V, k: string)
    requires UniqueKeys(r)
    ensures k in KeysWith(r, v) <==> Lookup(r, k) == Some(v)
  {
    if k in KeysWith(r, v) {
      var i :| 0 <= i < |r| && r[i] == (k, v);
      LookupUnique(r, k, i);
    }
  }

  /** The same dict with every value passed through `f`. */
  function MapValues<V, W>(r: Row<V>, f: V -> W): (r': Row<W>)
    ensures |r'| == |r|
    ensures forall i :: 0 <= i < |r| ==> r'[i] == (r[i].0, f(r[i].1))
  {
    if r == [] then [] else [(r[0].0, f(r[0].1))] + MapValues(r[1..], f)
  }

  lemma LookupMapValues<V, W>(r: Row<V>, f: V -> W, k: string)
    ensures Lookup(MapValues(r, f), k) == if Lookup(r, k).Some? then Some(f(Lookup(r, k).value)) else None
  {
    if r != [] && r[0].0 != k {
      assert MapValues(r, f)[1..] == MapValues(r[1..], f);
      LookupMapValues(r[1..], f, k);
    }
  }
}
