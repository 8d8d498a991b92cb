/**
 * A batch of key/value writes applied in order to a dictionary, as both a
 * Python `dict` filled in a loop and a Redis pipeline of `JSON.SET` commands
 * behave: every key written ends up present, and a key written several times
 * keeps the value of its last write.
 */
module Maps {

  /** Apply the writes `kvs` to `m`, first to last. */
  function PutAll<K, V>(m: map<K, V>, kvs: seq<(K, V)>): map<K, V>
  {
    if |kvs| == 0 then m
    else PutAll(m, kvs[..|kvs| - 1])[kvs[|kvs| - 1].0 := kvs[|kvs| - 1].1]
  }

  /** The keys written by `kvs`. */
  function KeysOf<K, V>(kvs: seq<(K, V)>): (ks: set<K>)
    ensures forall i :: 0 <= i < |kvs| ==> kvs[i].0 in ks
    ensures forall k :: k in ks ==> exists i :: 0 <= i < |kvs| && kvs[i].0 == k
  {
    set i | 0 <= i < |kvs| :: kvs[i].0
  }

  /** Index `i` holds the last write to its key. */
  predicate LastWriteAt<K(==), V>(kvs: seq<(K, V)>, i: int)
  {
    0 <= i < |kvs| && forall j :: i < j < |kvs| ==> kvs[j].0 != kvs[i].0
  }

  /** The keys after the batch are the old keys plus every written key. */
  lemma {:induction false} PutAllKeys<K, V>(m: map<K, V>, kvs: seq<(K, V)>)
    ensures PutAll(m, kvs).Keys == m.Keys + KeysOf(kvs)
  {
    if |kvs| > 0 {
      var init := kvs[..|kvs| - 1];
      PutAllKeys(m, init);
      assert KeysOf(kvs) == KeysOf(init) + {kvs[|kvs| - 1].0} by {
        forall k | k in KeysOf(kvs) ensures k in KeysOf(init) + {kvs[|kvs| - 1].0} {
          var i :| 0 <= i < |kvs| && kvs[i].0 == k;
          if i < |kvs| - 1 { assert init[i] == kvs[i]; }
        }
        forall k | k in KeysOf(init) ensures k in KeysOf(kvs) {
          var i :| 0 <= i < |init| && init[i].0 == k;
          assert kvs[i] == init[i];
        }
      }
    }
  }

  /** A written key holds the value of its last write. */
  lemma {:induction false} PutAllLastWriteWins<K, V>(m: map<K, V>, kvs: seq<(K, V)>, i: int)
    requires LastWriteAt(kvs, i)
    ensures kvs[i].0 in PutAll(m, kvs) && PutAll(m, kvs)[kvs[i].0] == kvs[i].1
  {
    var n := |kvs|;
    if i < n - 1 {
      var init := kvs[..n - 1];
      assert LastWriteAt(init, i) by {
        forall j | i < j < |init| ensures init[j].0 != init[i].0 {
          assert init[j] == kvs[j] && init[i] == kvs[i];
        }
      }
      PutAllLastWriteWins(m, init, i);
      assert kvs[n - 1].0 != kvs[i].0;
    }
  }

  /** A key the batch never writes keeps its old value. */
  lemma {:induction false} PutAllUntouched<K, V>(m: map<K, V>, kvs: seq<(K, V)>, k: K)
    requires k !in KeysOf(kvs)
    ensures (k in PutAll(m, kvs)) == (k in m)
    ensures k in m ==> PutAll(m, kvs)[k] == m[k]
  {
    if |kvs| > 0 {
      var init := kvs[..|kvs| - 1];
      PutAllUntouched(m, init, k);
    }
  }

  /** Without earlier keys, the batch leaves at most one entry per write. */
  lemma {:induction false} PutAllSize<K, V>(kvs: seq<(K, V)>)
    ensures |PutAll(map[], kvs)| <= |kvs|
  {
    if |kvs| > 0 {
      PutAllSize(kvs[..|kvs| - 1]);
      var before := PutAll(map[], kvs[..|kvs| - 1]);
      var k := kvs[|kvs| - 1].0;
      if k in before {
        assert before[k := kvs[|kvs| - 1].1].Keys == before.Keys;
      } else {
        assert before[k := kvs[|kvs| - 1].1].Keys == before.Keys + {k};
      }
    }
  }
}
