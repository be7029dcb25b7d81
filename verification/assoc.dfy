/** Python's insertion-ordered `dict`, as a sequence of (key, value) pairs
    whose keys are unique. Assigning to an existing key keeps its position;
    assigning to a new key appends it; deleting a key closes the gap. */
module Assoc {
  import opened Wrappers

  type Assoc<K, V> = seq<(K, V)>

  function Keys<K(==), V>(m: Assoc<K, V>): (ks: seq<K>)
    ensures |ks| == |m|
    ensures forall i :: 0 <= i < |m| ==> ks[i] == m[i].0
  {
    seq(|m|, i requires 0 <= i < |m| => m[i].0)
  }

  predicate HasKey<K(==), V>(m: Assoc<K, V>, k: K) {
    exists i :: 0 <= i < |m| && m[i].0 == k
  }

  predicate UniqueKeys<K(==), V>(m: Assoc<K, V>) {
    forall i, j :: 0 <= i < j < |m| ==> m[i].0 != m[j].0
  }

  /** The position of `k`, if present: the first one. */
  function IndexOf<K(==), V>(m: Assoc<K, V>, k: K): (r: Option<nat>)
    ensures r.None? <==> !HasKey(m, k)
    ensures r.Some? ==> r.value < |m| && m[r.value].0 == k
    ensures r.Some? ==> forall i :: 0 <= i < r.value ==> m[i].0 != k
  {
    if |m| == 0 then None
    else if m[0].0 == k then Some(0)
    else
      match IndexOf(m[1..], k)
      case None => None
      case Some(i) => Some(i + 1)
  }

  /** Python's `m.get(k)`. */
  function Get<K(==), V>(m: Assoc<K, V>, k: K): (r: Option<V>)
    ensures r.None? <==> !HasKey(m, k)
    ensures r.Some? ==> exists i :: 0 <= i < |m| && m[i] == (k, r.value)
  {
    match IndexOf(m, k)
    case None => None
    case Some(i) => Some(m[i].1)
  }

  /** Python's `m[k] = v`. */
  function Put<K(==), V>(m: Assoc<K, V>, k: K, v: V): (r: Assoc<K, V>)
    ensures HasKey(m, k) ==> |r| == |m| && Keys(r) == Keys(m)
    ensures !HasKey(m, k) ==> r == m + [(k, v)]
    ensures UniqueKeys(m) ==> UniqueKeys(r)
    ensures UniqueKeys(m) ==> Get(r, k) == Some(v)
    ensures forall i :: 0 <= i < |m| && m[i].0 != k ==> r[i] == m[i]
  {
    match IndexOf(m, k)
    case None =>
      var r := m + [(k, v)];
      assert UniqueKeys(m) ==> IndexOf(r, k) == Some(|m|) by {
        if UniqueKeys(m) {
          var j := IndexOf(r, k);
          assert HasKey(r, k) by { assert r[|m|].0 == k; }
          assert j.Some?;
          assert j.value == |m|;
        }
      }
      r
    case Some(i) =>
      var r := m[i := (k, v)];
      assert UniqueKeys(m) ==> IndexOf(r, k) == Some(i) by {
        if UniqueKeys(m) {
          var j := IndexOf(r, k);
          assert HasKey(r, k) by { assert r[i].0 == k; }
          assert j.Some?;
          assert j.value == i;
        }
      }
      r
  }

  /** After `m[k] = v` the key is present, whether or not it was before. */
  lemma PutHasKey<K, V>(m: Assoc<K, V>, k: K, v: V)
    ensures HasKey(Put(m, k, v), k)
  {
    var r := Put(m, k, v);
    if HasKey(m, k) {
      var i :| 0 <= i < |m| && m[i].0 == k;
      assert Keys(r)[i] == Keys(m)[i];
    } else {
      assert r[|m|].0 == k;
    }
  }

  /** The keys after `m[k] = v`: the old ones and `k`. */
  lemma PutKeys<K, V>(m: Assoc<K, V>, k: K, v: V, k2: K)
    ensures HasKey(Put(m, k, v), k2) <==> HasKey(m, k2) || k2 == k
  {
    var r := Put(m, k, v);
    if HasKey(m, k) {
      assert Keys(r) == Keys(m);
      if HasKey(r, k2) {
        var j :| 0 <= j < |r| && r[j].0 == k2;
        assert Keys(r)[j] == k2;
      }
      if HasKey(m, k2) {
        var j :| 0 <= j < |m| && m[j].0 == k2;
        assert Keys(m)[j] == k2;
      }
      if k2 == k {
        var j :| 0 <= j < |m| && m[j].0 == k;
        assert Keys(m)[j] == k;
      }
    } else {
      if HasKey(m, k2) {
        var j :| 0 <= j < |m| && m[j].0 == k2;
        assert r[j].0 == k2;
      }
      assert r[|m|].0 == k;
    }
  }

  /** After `m[k] = v` the old keys keep their positions and any new
      position holds `k`. */
  lemma PutShape<K, V>(m: Assoc<K, V>, k: K, v: V)
    ensures var r := Put(m, k, v);
      && |m| <= |r| <= |m| + 1
      && (forall i :: 0 <= i < |m| ==> r[i].0 == m[i].0)
      && (forall i :: |m| <= i < |r| ==> r[i].0 == k)
  {
    var r := Put(m, k, v);
    if HasKey(m, k) {
      assert forall i :: 0 <= i < |m| ==> Keys(r)[i] == r[i].0 && Keys(m)[i] == m[i].0;
    }
  }

  /** Python's `del m[k]` guarded by `if k in m`: every other entry is
      kept, in order. */
  function Remove<K(==), V>(m: Assoc<K, V>, k: K): (r: Assoc<K, V>)
    ensures forall i :: 0 <= i < |r| ==> r[i].0 != k
    ensures forall i :: 0 <= i < |r| ==> r[i] in m
    ensures forall i :: 0 <= i < |m| && m[i].0 != k ==> m[i] in r
    ensures !HasKey(m, k) ==> r == m
  {
    if |m| == 0 then []
    else if m[0].0 == k then Remove(m[1..], k)
    else
      var rest := Remove(m[1..], k);
      assert !HasKey(m, k) ==> !HasKey(m[1..], k) by {
        if HasKey(m[1..], k) {
          var j :| 0 <= j < |m[1..]| && m[1..][j].0 == k;
          assert m[j + 1].0 == k;
        }
      }
      [m[0]] + rest
  }

  /** Deleting a key keeps the keys unique. */
  lemma {:induction false} RemoveUnique<K, V>(m: Assoc<K, V>, k: K)
    requires UniqueKeys(m)
    ensures UniqueKeys(Remove(m, k))
  {
    if |m| > 0 {
      var rest := Remove(m[1..], k);
      TailUnique(m);
      RemoveUnique(m[1..], k);
      if m[0].0 != k {
        forall i | 0 <= i < |rest| ensures rest[i].0 != m[0].0 {
          var j :| 0 <= j < |m[1..]| && m[1..][j] == rest[i];
          assert m[j + 1] == rest[i];
        }
        ConsUnique(m[0], rest);
      }
    }
  }

  lemma TailUnique<K, V>(m: Assoc<K, V>)
    requires UniqueKeys(m) && |m| > 0
    ensures UniqueKeys(m[1..])
  {
    forall i, j | 0 <= i < j < |m[1..]| ensures m[1..][i].0 != m[1..][j].0 {
      assert m[1..][i] == m[i + 1] && m[1..][j] == m[j + 1];
    }
  }

  /** A new key in front of unique keys keeps them unique. */
  lemma ConsUnique<K, V>(x: (K, V), rest: Assoc<K, V>)
    requires UniqueKeys(rest) && forall i :: 0 <= i < |rest| ==> rest[i].0 != x.0
    ensures UniqueKeys([x] + rest)
  {
    var r := [x] + rest;
    forall i, j | 0 <= i < j < |r| ensures r[i].0 != r[j].0 {
      assert r[j] == rest[j - 1];
      if i > 0 {
        assert r[i] == rest[i - 1];
      }
    }
  }

  /** With unique keys, the entry at position `i` is what `Get` finds. */
  lemma GetAt<K, V>(m: Assoc<K, V>, i: nat)
    requires UniqueKeys(m) && i < |m|
    ensures Get(m, m[i].0) == Some(m[i].1)
  {
    var r := Get(m, m[i].0);
    assert HasKey(m, m[i].0);
    var j :| 0 <= j < |m| && m[j] == (m[i].0, r.value);
    assert j == i;
  }

  /** Deleting a key makes it absent and leaves every other key's value. */
  lemma GetRemove<K, V>(m: Assoc<K, V>, k: K, k2: K)
    requires UniqueKeys(m)
    ensures Get(Remove(m, k), k2) == if k2 == k then None else Get(m, k2)
  {
    var r := Remove(m, k);
    RemoveUnique(m, k);
    if k2 == k {
      assert !HasKey(r, k);
    } else if HasKey(m, k2) {
      var j :| 0 <= j < |m| && m[j].0 == k2;
      GetAt(m, j);
      assert m[j] in r;
      var i :| 0 <= i < |r| && r[i] == m[j];
      GetAt(r, i);
    } else {
      assert !HasKey(r, k2);
    }
  }

  /** Assigning one key leaves what every other key maps to unchanged. */
  lemma GetPutOther<K, V>(m: Assoc<K, V>, k: K, v: V, k2: K)
    requires UniqueKeys(m) && k2 != k
    ensures Get(Put(m, k, v), k2) == Get(m, k2)
  {
    var r := Put(m, k, v);
    if HasKey(m, k2) {
      var j :| 0 <= j < |m| && m[j].0 == k2;
      assert r[j] == m[j];
      GetAt(m, j);
      GetAt(r, j);
    } else {
      assert !HasKey(r, k2) by {
        if HasKey(m, k) {
          assert Keys(r) == Keys(m);
        }
      }
    }
  }
  /** `m[k] = v` for each pair in turn. */
  function PutAll<K(==), V>(m: Assoc<K, V>, kvs: seq<(K, V)>): Assoc<K, V>
    decreases |kvs|
  {
    if |kvs| == 0 then m else PutAll(Put(m, kvs[0].0, kvs[0].1), kvs[1..])
  }

  /** Assigning keys that are all new, and distinct, appends them in order. */
  lemma {:induction false} PutAllFresh<K, V>(m: Assoc<K, V>, kvs: seq<(K, V)>)
    requires UniqueKeys(m + kvs)
    ensures PutAll(m, kvs) == m + kvs
    decreases |kvs|
  {
    if |kvs| > 0 {
      assert forall j :: 0 <= j < |m| ==> (m + kvs)[j] == m[j];
      assert (m + kvs)[|m|] == kvs[0];
      assert !HasKey(m, kvs[0].0);
      var m1 := Put(m, kvs[0].0, kvs[0].1);
      assert m1 == m + [kvs[0]];
      assert m1 + kvs[1..] == m + kvs;
      PutAllFresh(m1, kvs[1..]);
    }
  }

  /** Assigning a list of pairs: a key is then present iff it was already
      or is assigned, and every value found was there before or assigned. */
  lemma {:induction false} PutAllFrom<K, V>(m: Assoc<K, V>, kvs: seq<(K, V)>, k: K)
    requires UniqueKeys(m)
    ensures UniqueKeys(PutAll(m, kvs))
    ensures HasKey(PutAll(m, kvs), k) <==> HasKey(m, k) || exists i :: 0 <= i < |kvs| && kvs[i].0 == k
    ensures Get(PutAll(m, kvs), k).Some? ==> (k, Get(PutAll(m, kvs), k).value) in m + kvs
    decreases |kvs|
  {
    if |kvs| > 0 {
      var m1 := Put(m, kvs[0].0, kvs[0].1);
      PutAllFrom(m1, kvs[1..], k);
      var r := PutAll(m, kvs);
      assert r == PutAll(m1, kvs[1..]);
      PutKeys(m, kvs[0].0, kvs[0].1, k);
      if exists i :: 0 <= i < |kvs[1..]| && kvs[1..][i].0 == k {
        var i :| 0 <= i < |kvs[1..]| && kvs[1..][i].0 == k;
        assert kvs[i + 1].0 == k;
      }
      if exists i :: 0 <= i < |kvs| && kvs[i].0 == k {
        var i :| 0 <= i < |kvs| && kvs[i].0 == k;
        if i > 0 {
          assert kvs[1..][i - 1].0 == k;
        }
      }
      if Get(r, k).Some? {
        PutValueFrom(m, kvs, k, Get(r, k).value);
      }
    }
  }

  /** A value that comes from the map after the first assignment, or from
      the remaining pairs, comes from the map or the pairs. */
  lemma PutValueFrom<K, V>(m: Assoc<K, V>, kvs: seq<(K, V)>, k: K, v: V)
    requires UniqueKeys(m) && |kvs| > 0
    requires (k, v) in Put(m, kvs[0].0, kvs[0].1) + kvs[1..]
    ensures (k, v) in m + kvs
  {
    var m1 := Put(m, kvs[0].0, kvs[0].1);
    if (k, v) in m1 {
      var i :| 0 <= i < |m1| && m1[i] == (k, v);
      GetAt(m1, i);
      if k == kvs[0].0 {
        assert (k, v) == kvs[0];
      } else {
        GetPutOther(m, kvs[0].0, kvs[0].1, k);
        assert Get(m, k) == Some(v);
      }
    } else {
      assert (k, v) in kvs[1..];
    }
  }
}
