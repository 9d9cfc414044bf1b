/**
 * Sequential map writes. Both the alias registry and the favicon index are
 * built by writing key/value pairs one after another into a map, so that a
 * later write of a key replaces an earlier one ("last write wins").
 */
module Maps {

  /** The keys written by a sequence of key/value pairs. */
  function WrittenKeys<K, V>(kvs: seq<(K, V)>): set<K>
  {
    set i | 0 <= i < |kvs| :: kvs[i].0
  }

  /** The map obtained from `m` by writing the pairs of `kvs` in order. */
  function Assign<K, V>(m: map<K, V>, kvs: seq<(K, V)>): map<K, V>
    decreases |kvs|
  {
    if kvs == [] then m
    else Assign(m, kvs[..|kvs| - 1])[kvs[|kvs| - 1].0 := kvs[|kvs| - 1].1]
  }

  /** Writing only adds keys: the old ones and the written ones. */
  lemma {:induction false} AssignKeys<K, V>(m: map<K, V>, kvs: seq<(K, V)>)
    ensures Assign(m, kvs).Keys == m.Keys + WrittenKeys(kvs)
    decreases |kvs|
  {
    if kvs != [] {
      var p := kvs[..|kvs| - 1];
      AssignKeys(m, p);
      assert WrittenKeys(kvs) == WrittenKeys(p) + {kvs[|kvs| - 1].0} by {
        assert forall i :: 0 <= i < |p| ==> p[i] == kvs[i];
      }
    }
  }

  /** Writing the first `i + 1` pairs is writing the first `i` and then pair `i`. */
  lemma AssignSnoc<K, V>(m: map<K, V>, kvs: seq<(K, V)>, i: nat)
    requires i < |kvs|
    ensures Assign(m, kvs[..i + 1]) == Assign(m, kvs[..i])[kvs[i].0 := kvs[i].1]
  {
    assert kvs[..i + 1][..i] == kvs[..i];
  }

  /** Writing `a` and then `b` is writing `a + b`. */
  lemma {:induction false} AssignConcat<K, V>(m: map<K, V>, a: seq<(K, V)>, b: seq<(K, V)>)
    ensures Assign(m, a + b) == Assign(Assign(m, a), b)
    decreases |b|
  {
    if b == [] {
      assert a + b == a;
    } else {
      var b' := b[..|b| - 1];
      assert (a + b)[..|a + b| - 1] == a + b';
      assert (a + b)[|a + b| - 1] == b[|b| - 1];
      AssignConcat(m, a, b');
    }
  }

  /** The last write of a key decides its value. */
  lemma {:induction false} AssignLastWins<K, V>(m: map<K, V>, kvs: seq<(K, V)>, i: nat)
    requires i < |kvs|
    requires forall j :: i < j < |kvs| ==> kvs[j].0 != kvs[i].0
    ensures kvs[i].0 in Assign(m, kvs) && Assign(m, kvs)[kvs[i].0] == kvs[i].1
    decreases |kvs|
  {
    if i < |kvs| - 1 {
      var p := kvs[..|kvs| - 1];
      assert forall j :: i < j < |p| ==> p[j] == kvs[j];
      AssignLastWins(m, p, i);
    }
  }

  /** A key that is never written keeps its presence and its value. */
  lemma {:induction false} AssignUntouched<K, V>(m: map<K, V>, kvs: seq<(K, V)>, k: K)
    requires forall j :: 0 <= j < |kvs| ==> kvs[j].0 != k
    ensures k in Assign(m, kvs) <==> k in m
    ensures k in m ==> Assign(m, kvs)[k] == m[k]
    decreases |kvs|
  {
    if kvs != [] {
      var p := kvs[..|kvs| - 1];
      assert forall j :: 0 <= j < |p| ==> p[j] == kvs[j];
      AssignUntouched(m, p, k);
    }
  }

  /**
   * When a key is written by a later layer `b`, its value after writing
   * `a + b` does not depend on the starting map or on `a`.
   */
  lemma {:induction false} LaterLayerWins<K, V>(m: map<K, V>, a: seq<(K, V)>, b: seq<(K, V)>, k: K)
    requires k in WrittenKeys(b)
    ensures k in Assign(map[], b) && k in Assign(m, a + b)
    ensures Assign(m, a + b)[k] == Assign(map[], b)[k]
    decreases |b|
  {
    var b' := b[..|b| - 1];
    assert (a + b)[..|a + b| - 1] == a + b';
    assert (a + b)[|a + b| - 1] == b[|b| - 1];
    if b[|b| - 1].0 != k {
      assert k in WrittenKeys(b') by {
        var i :| 0 <= i < |b| && b[i].0 == k;
        assert b'[i] == b[i];
      }
      LaterLayerWins(m, a, b', k);
    }
  }

  /** `LaterLayerWins` for every key the later layer writes. */
  lemma LaterLayerWinsAll<K, V>(m: map<K, V>, a: seq<(K, V)>, b: seq<(K, V)>)
    ensures forall k :: k in WrittenKeys(b) ==>
      k in Assign(map[], b) && k in Assign(m, a + b) && Assign(m, a + b)[k] == Assign(map[], b)[k]
  {
    forall k | k in WrittenKeys(b)
      ensures k in Assign(map[], b) && k in Assign(m, a + b) && Assign(m, a + b)[k] == Assign(map[], b)[k]
    {
      LaterLayerWins(m, a, b, k);
    }
  }

  /** The keys written by `a + b` are those written by `a` or by `b`. */
  lemma WrittenKeysConcat<K, V>(a: seq<(K, V)>, b: seq<(K, V)>)
    ensures WrittenKeys(a + b) == WrittenKeys(a) + WrittenKeys(b)
  {
    var ab := a + b;
    assert forall i :: 0 <= i < |a| ==> ab[i] == a[i];
    assert forall i :: 0 <= i < |b| ==> ab[|a| + i] == b[i];
    forall k | k in WrittenKeys(ab) ensures k in WrittenKeys(a) + WrittenKeys(b) {
      var i :| 0 <= i < |ab| && ab[i].0 == k;
      if i >= |a| { assert b[i - |a|] == ab[i]; }
    }
  }

  /** A key whose every write carries the value `v` ends up with `v`. */
  lemma {:induction false} AssignUniform<K, V>(m: map<K, V>, kvs: seq<(K, V)>, k: K, v: V)
    requires k in WrittenKeys(kvs)
    requires forall j :: 0 <= j < |kvs| ==> kvs[j].1 == v
    ensures k in Assign(m, kvs) && Assign(m, kvs)[k] == v
    decreases |kvs|
  {
    var p := kvs[..|kvs| - 1];
    if kvs[|kvs| - 1].0 != k {
      assert k in WrittenKeys(p) by {
        var i :| 0 <= i < |kvs| && kvs[i].0 == k;
        assert p[i] == kvs[i];
      }
      assert forall j :: 0 <= j < |p| ==> p[j] == kvs[j];
      AssignUniform(m, p, k, v);
    }
  }
}
