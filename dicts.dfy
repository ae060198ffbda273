/**
 * Python dicts keep insertion order, and the site code's outputs depend on
 * it, so a dict (keyed by strings everywhere here) is modelled as a sequence
 * of (key, value) pairs whose keys are distinct.
 */
module Dicts {
  import opened Wrappers

  /** Every key occurs once. */
  predicate DistinctKeys<V>(d: seq<(string, V)>)
  {
    forall i, j :: 0 <= i < j < |d| ==> d[i].0 != d[j].0
  }

  function KeySet<V>(d: seq<(string, V)>): set<string>
  {
    set i | 0 <= i < |d| :: d[i].0
  }

  /** The keys in iteration order. */
  function Keys<V>(d: seq<(string, V)>): (ks: seq<string>)
    ensures |ks| == |d| && forall i :: 0 <= i < |d| ==> ks[i] == d[i].0
  {
    seq(|d|, i requires 0 <= i < |d| => d[i].0)
  }

  /** d.get(k): the value stored under k, if any. */
  function Get<V>(d: seq<(string, V)>, k: string): (r: Option<V>)
    ensures r.Some? <==> k in KeySet(d)
    ensures r.Some? ==> exists i :: 0 <= i < |d| && d[i] == (k, r.value)
    ensures DistinctKeys(d) ==> forall i :: 0 <= i < |d| && d[i].0 == k ==> r == Some(d[i].1)
  {
    if d == [] then None
    else if d[0].0 == k then Some(d[0].1)
    else
      var r := Get(d[1..], k);
      assert KeySet(d) == {d[0].0} + KeySet(d[1..]) by {
        forall x | x in KeySet(d) ensures x in {d[0].0} + KeySet(d[1..]) {
          var i :| 0 <= i < |d| && d[i].0 == x;
          if i > 0 { assert d[1..][i - 1].0 == x; }
        }
      }
      r
  }

  /** Position of a present key. */
  function KeyIndex<V>(d: seq<(string, V)>, k: string): (i: nat)
    requires k in KeySet(d)
    ensures i < |d| && d[i].0 == k
    ensures forall j :: 0 <= j < i ==> d[j].0 != k
  {
    if d[0].0 == k then 0
    else
      assert k in KeySet(d[1..]) by {
        var i :| 0 <= i < |d| && d[i].0 == k;
        assert d[1..][i - 1].0 == k;
      }
      1 + KeyIndex(d[1..], k)
  }

  /** d[k] = v: overwrites in place when k is present, appends otherwise. */
  function Put<V>(d: seq<(string, V)>, k: string, v: V): seq<(string, V)>
  {
    if k in KeySet(d) then d[KeyIndex(d, k) := (k, v)] else d + [(k, v)]
  }

  /** After d[k] = v the keys are the old ones and k. */
  lemma {:induction false} PutKeySet<V>(d: seq<(string, V)>, k: string, v: V)
    ensures KeySet(Put(d, k, v)) == KeySet(d) + {k}
  {
    var r := Put(d, k, v);
    forall x | x in KeySet(r) ensures x in KeySet(d) + {k} {
      var j :| 0 <= j < |r| && r[j].0 == x;
      if j < |d| && r[j] != (k, v) { assert d[j].0 == x; }
    }
    forall x | x in KeySet(d) ensures x in KeySet(r) {
      var j :| 0 <= j < |d| && d[j].0 == x;
      assert r[j].0 == x;
    }
    assert r[if k in KeySet(d) then KeyIndex(d, k) else |d|].0 == k;
  }

  /** d[k] = v never creates a duplicate key. */
  lemma {:induction false} PutDistinct<V>(d: seq<(string, V)>, k: string, v: V)
    requires DistinctKeys(d)
    ensures DistinctKeys(Put(d, k, v))
  {
    if k !in KeySet(d) {
      var r := Put(d, k, v);
      forall i, j | 0 <= i < j < |r| ensures r[i].0 != r[j].0 {
        if j == |d| {
          assert d[i].0 in KeySet(d);
        }
      }
    }
  }

  /** d[k] = v keeps the iteration order: an existing key stays where it is, a new one goes last. */
  lemma {:induction false} PutKeys<V>(d: seq<(string, V)>, k: string, v: V)
    ensures k in KeySet(d) ==> Keys(Put(d, k, v)) == Keys(d)
    ensures k !in KeySet(d) ==> Keys(Put(d, k, v)) == Keys(d) + [k]
  {
  }

  /** After d[k] = v, k maps to v and every other key to what it mapped to before. */
  lemma {:induction false} PutGet<V>(d: seq<(string, V)>, k: string, v: V)
    requires DistinctKeys(d)
    ensures Get(Put(d, k, v), k) == Some(v)
    ensures forall k' :: k' != k ==> Get(Put(d, k, v), k') == Get(d, k')
  {
    var r := Put(d, k, v);
    assert r[if k in KeySet(d) then KeyIndex(d, k) else |d|] == (k, v);
    forall k' | k' != k ensures Get(r, k') == Get(d, k') {
      if k' in KeySet(d) {
        var j :| 0 <= j < |d| && d[j].0 == k';
        assert r[j] == d[j];
      }
    }
  }

  /** Every entry after d[k] = v is the new one or an old one. */
  lemma {:induction false} PutEntries<V>(d: seq<(string, V)>, k: string, v: V)
    ensures forall j :: 0 <= j < |Put(d, k, v)| ==> Put(d, k, v)[j] == (k, v) || Put(d, k, v)[j] in d
  {
    var r := Put(d, k, v);
    forall j | 0 <= j < |r| ensures r[j] == (k, v) || r[j] in d {
      if j < |d| && r[j] != (k, v) {
        assert r[j] == d[j];
      }
    }
  }

  /** In a dict the number of entries is the number of keys. */
  lemma {:induction false} DistinctKeyCount<V>(d: seq<(string, V)>)
    requires DistinctKeys(d)
    ensures |KeySet(d)| == |d|
    decreases |d|
  {
    if d != [] {
      var init := d[..|d| - 1];
      assert DistinctKeys(init) by {
        assert forall i :: 0 <= i < |init| ==> init[i] == d[i];
      }
      DistinctKeyCount(init);
      assert KeySet(d) == KeySet(init) + {d[|d| - 1].0} by {
        assert forall i :: 0 <= i < |init| ==> init[i] == d[i];
        forall x | x in KeySet(d) ensures x in KeySet(init) + {d[|d| - 1].0} {
          var i :| 0 <= i < |d| && d[i].0 == x;
          if i < |init| {
            assert init[i].0 == x;
          }
        }
      }
      assert d[|d| - 1].0 !in KeySet(init);
    }
  }
}
