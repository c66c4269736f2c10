/**
 * A JavaScript `Map` (or a plain object used as a dictionary) as an association list
 * in insertion order. Writing an existing key keeps its position, writing a new key
 * appends it, and deleting removes it; iteration (`forEach`, `Object.keys`) is the
 * order of the list.
 */
module OrderedMap {
  import opened Wrappers

  type Dict<V> = seq<(string, V)>

  function Keys<V>(d: Dict<V>): (ks: seq<string>)
    ensures |ks| == |d|
    ensures forall i {:trigger ks[i]} | 0 <= i < |d| :: ks[i] == d[i].0
  {
    if d == [] then [] else [d[0].0] + Keys(d[1..])
  }

  predicate Distinct(ks: seq<string>) {
    forall i, j | 0 <= i < j < |ks| :: ks[i] != ks[j]
  }

  /** A dictionary as JavaScript builds it: no key occurs twice. */
  predicate Wf<V>(d: Dict<V>) {
    Distinct(Keys(d))
  }

  /** `map.get(k)`: the value stored under `k`, if any. */
  function Get<V>(d: Dict<V>, k: string): (r: Option<V>)
    ensures r.None? <==> k !in Keys(d)
  {
    if d == [] then None
    else if d[0].0 == k then Some(d[0].1)
    else Get(d[1..], k)
  }

  /** `map.set(k, v)` */
  function Put<V>(d: Dict<V>, k: string, v: V): (r: Dict<V>)
    ensures |r| == if k in Keys(d) then |d| else |d| + 1
  {
    if d == [] then [(k, v)]
    else if d[0].0 == k then [(k, v)] + d[1..]
    else [d[0]] + Put(d[1..], k, v)
  }

  /** `set` keeps the key order: an existing key stays in place, a new key goes last. */
  lemma {:induction false} PutKeys<V>(d: Dict<V>, k: string, v: V)
    ensures k in Keys(d) ==> Keys(Put(d, k, v)) == Keys(d)
    ensures k !in Keys(d) ==> Keys(Put(d, k, v)) == Keys(d) + [k]
  {
    if d != [] && d[0].0 != k {
      PutKeys(d[1..], k, v);
      assert Keys(d) == [d[0].0] + Keys(d[1..]);
    }
  }

  /** `map.delete(k)` */
  function Delete<V>(d: Dict<V>, k: string): (r: Dict<V>)
    ensures |r| <= |d|
  {
    if d == [] then []
    else if d[0].0 == k then Delete(d[1..], k)
    else [d[0]] + Delete(d[1..], k)
  }

  /** After `map.delete(k)` the key is gone. */
  lemma {:induction false} DeleteRemoves<V>(d: Dict<V>, k: string)
    ensures k !in Keys(Delete(d, k))
  {
    if d != [] {
      DeleteRemoves(d[1..], k);
    }
  }

  lemma KeysAppend<V>(a: Dict<V>, b: Dict<V>)
    ensures Keys(a + b) == Keys(a) + Keys(b)
  {
  }

  lemma {:induction false} GetAppendLeft<V>(a: Dict<V>, b: Dict<V>, k: string)
    requires k in Keys(a)
    ensures Get(a + b, k) == Get(a, k)
  {
    if a[0].0 != k {
      assert (a + b)[1..] == a[1..] + b;
      GetAppendLeft(a[1..], b, k);
    }
  }

  lemma {:induction false} GetAppendRight<V>(a: Dict<V>, b: Dict<V>, k: string)
    requires k !in Keys(a)
    ensures Get(a + b, k) == Get(b, k)
  {
    if a == [] {
      assert a + b == b;
    } else {
      assert Keys(a)[0] == a[0].0;
      assert (a + b)[1..] == a[1..] + b;
      GetAppendRight(a[1..], b, k);
    }
  }

  /** In a well-formed dictionary `Get` finds the value stored next to the key. */
  lemma GetMember<V>(d: Dict<V>, i: nat)
    requires Wf(d) && i < |d|
    ensures Get(d, d[i].0) == Some(d[i].1)
  {
    if i > 0 {
      assert Keys(d[1..]) == Keys(d)[1..];
      GetMember(d[1..], i - 1);
    }
  }

  /** Setting a key that none of the leading entries holds leaves those entries as they are. */
  lemma {:induction false} PutAfter<V>(a: Dict<V>, rest: Dict<V>, k: string, v: V)
    requires k !in Keys(a)
    ensures Put(a + rest, k, v) == a + Put(rest, k, v)
  {
    if a == [] {
      assert a + rest == rest;
    } else {
      assert a[0].0 != k && k !in Keys(a[1..]) by {
        assert Keys(a) == [a[0].0] + Keys(a[1..]);
      }
      PutAfter(a[1..], rest, k, v);
      calc {
        Put(a + rest, k, v);
      == { assert (a + rest)[0] == a[0] && (a + rest)[1..] == a[1..] + rest; }
        [a[0]] + Put(a[1..] + rest, k, v);
      == { assert a == [a[0]] + a[1..]; }
        a + Put(rest, k, v);
      }
    }
  }

  /** Deleting a key that occurs exactly once, at index `i`, removes that entry and keeps the order. */
  lemma {:induction false} DeleteInPlace<V>(d: Dict<V>, i: nat)
    requires i < |d|
    requires forall j | 0 <= j < |d| && j != i :: d[j].0 != d[i].0
    ensures Delete(d, d[i].0) == d[..i] + d[i + 1..]
  {
    if i == 0 {
      DeleteAbsent(d[1..], d[0].0);
    } else {
      OnceInTail(d, i);
      DeleteInPlace(d[1..], i - 1);
      DeleteBehindHead(d, i);
    }
  }

  lemma OnceInTail<V>(d: Dict<V>, i: nat)
    requires 0 < i < |d|
    requires forall j | 0 <= j < |d| && j != i :: d[j].0 != d[i].0
    ensures forall j | 0 <= j < |d| - 1 && j != i - 1 :: d[1..][j].0 != d[1..][i - 1].0
  {
    assert forall j | 0 <= j < |d| - 1 :: d[1..][j] == d[j + 1];
  }

  lemma DeleteBehindHead<V>(d: Dict<V>, i: nat)
    requires 0 < i < |d| && d[0].0 != d[i].0
    requires Delete(d[1..], d[i].0) == d[1..][..i - 1] + d[1..][i..]
    ensures Delete(d, d[i].0) == d[..i] + d[i + 1..]
  {
    var t := d[1..];
    assert d[..i] == [d[0]] + t[..i - 1];
    assert d[i + 1..] == t[i..];
    assert [d[0]] + (t[..i - 1] + t[i..]) == ([d[0]] + t[..i - 1]) + t[i..];
  }

  /** Deleting an absent key changes nothing. */
  lemma {:induction false} DeleteAbsent<V>(d: Dict<V>, k: string)
    requires k !in Keys(d)
    ensures Delete(d, k) == d
  {
    if d != [] {
      DeleteAbsent(d[1..], k);
    }
  }

  /** Deleting keeps only keys that were there, and deleting a present key shrinks the map. */
  lemma {:induction false} DeleteKeys<V>(d: Dict<V>, k: string)
    ensures forall x | x in Keys(Delete(d, k)) :: x in Keys(d)
    ensures k in Keys(d) ==> |Delete(d, k)| < |d|
  {
    if d != [] {
      DeleteKeys(d[1..], k);
    }
  }

  /** Writing back the value a key already has is a no-op. */
  lemma {:induction false} PutSame<V>(d: Dict<V>, k: string)
    requires k in Keys(d)
    ensures Put(d, k, Get(d, k).value) == d
  {
    if d[0].0 != k {
      PutSame(d[1..], k);
    }
  }

  /** `set` keeps the keys distinct. */
  lemma PutWf<V>(d: Dict<V>, k: string, v: V)
    requires Wf(d)
    ensures Wf(Put(d, k, v))
  {
    var ks := Keys(Put(d, k, v));
    PutKeys(d, k, v);
    if k !in Keys(d) {
      assert forall i | 0 <= i < |Keys(d)| :: ks[i] == Keys(d)[i];
    }
  }

  /** A sequence of writes `d[k] = v`, applied one after the other. */
  function PutAll<V>(d: Dict<V>, writes: Dict<V>): Dict<V>
    decreases |writes|
  {
    if writes == [] then d
    else
      var n := |writes| - 1;
      Put(PutAll(d, writes[..n]), writes[n].0, writes[n].1)
  }

  /** The value of the last write to `k`, if any. */
  function LastWrite<V>(writes: Dict<V>, k: string): (r: Option<V>)
    ensures r.None? <==> k !in Keys(writes)
    decreases |writes|
  {
    if writes == [] then None
    else
      var n := |writes| - 1;
      if writes[n].0 == k then assert Keys(writes)[n] == k; Some(writes[n].1)
      else KeysPrefix(writes, k); LastWrite(writes[..n], k)
  }

  /** Reading back what was just written. */
  lemma {:induction false} GetPut<V>(d: Dict<V>, k: string, v: V, x: string)
    ensures Get(Put(d, k, v), x) == if x == k then Some(v) else Get(d, x)
  {
    if d != [] && d[0].0 != k {
      GetPut(d[1..], k, v, x);
    }
  }

  /** After a run of writes a key holds its last write, or what it held before when it was not written. */
  lemma {:induction false} GetPutAll<V>(d: Dict<V>, writes: Dict<V>, k: string)
    ensures Get(PutAll(d, writes), k) == if k in Keys(writes) then LastWrite(writes, k) else Get(d, k)
    decreases |writes|
  {
    if writes != [] {
      var n := |writes| - 1;
      var before := PutAll(d, writes[..n]);
      assert PutAll(d, writes) == Put(before, writes[n].0, writes[n].1);
      GetPut(before, writes[n].0, writes[n].1, k);
      assert Keys(writes)[n] == writes[n].0;
      if writes[n].0 != k {
        GetPutAll(d, writes[..n], k);
        assert LastWrite(writes, k) == LastWrite(writes[..n], k);
        KeysPrefix(writes, k);
      }
    }
  }

  /** A key other than the last one is among the keys of the rest. */
  lemma {:induction false} KeysPrefix<V>(d: Dict<V>, k: string)
    requires d != [] && d[|d| - 1].0 != k
    ensures k in Keys(d) <==> k in Keys(d[..|d| - 1])
  {
    var n := |d| - 1;
    assert Keys(d[..n]) == Keys(d)[..n];
    assert Keys(d) == Keys(d)[..n] + [Keys(d)[n]];
  }

  /** The keys after a run of writes: the keys before, then each newly written key once. */
  lemma {:induction false} PutAllKeys<V>(d: Dict<V>, writes: Dict<V>, k: string)
    ensures k in Keys(PutAll(d, writes)) <==> k in Keys(d) || k in Keys(writes)
  {
    GetPutAll(d, writes, k);
  }

  /** Writes keep the keys distinct. */
  lemma {:induction false} PutAllWf<V>(d: Dict<V>, writes: Dict<V>)
    requires Wf(d)
    ensures Wf(PutAll(d, writes))
    decreases |writes|
  {
    if writes != [] {
      var n := |writes| - 1;
      PutAllWf(d, writes[..n]);
      PutWf(PutAll(d, writes[..n]), writes[n].0, writes[n].1);
    }
  }

  /** The keys of a sequence, as a set. */
  function KeySet(ks: seq<string>): set<string> {
    set k | k in ks
  }

  /** A sequence has as many elements as distinct values exactly when no value repeats. */
  lemma {:induction false} DistinctCount(ks: seq<string>)
    ensures |KeySet(ks)| <= |ks|
    ensures |KeySet(ks)| == |ks| <==> Distinct(ks)
    decreases |ks|
  {
    if ks != [] {
      var n := |ks| - 1;
      DistinctCount(ks[..n]);
      assert ks == ks[..n] + [ks[n]];
      assert KeySet(ks) == KeySet(ks[..n]) + {ks[n]};
      if ks[n] in ks[..n] {
        assert KeySet(ks) == KeySet(ks[..n]);
        var j :| 0 <= j < n && ks[..n][j] == ks[n];
        assert ks[j] == ks[n];
      } else {
        assert |KeySet(ks)| == |KeySet(ks[..n])| + 1;
        if Distinct(ks[..n]) {
          assert Distinct(ks);
        }
      }
    }
  }

  /** A dictionary holds as many entries as distinct keys. */
  lemma WfSize<V>(d: Dict<V>)
    requires Wf(d)
    ensures |d| == |KeySet(Keys(d))|
  {
    DistinctCount(Keys(d));
  }

  /** Writing into an empty dictionary leaves one entry per distinct written key. */
  lemma PutAllSize<V>(writes: Dict<V>)
    ensures |PutAll([], writes)| == |KeySet(Keys(writes))|
  {
    PutAllWf([], writes);
    WfSize(PutAll([], writes));
    forall k
      ensures k in KeySet(Keys(PutAll([], writes))) <==> k in KeySet(Keys(writes))
    {
      PutAllKeys([], writes, k);
    }
    assert KeySet(Keys(PutAll([], writes))) == KeySet(Keys(writes));
  }

  /** Writes to distinct new keys append, in order. */
  lemma {:induction false} PutAllFresh<V>(d: Dict<V>, writes: Dict<V>)
    requires Distinct(Keys(writes))
    requires forall k | k in Keys(writes) :: k !in Keys(d)
    ensures PutAll(d, writes) == d + writes
    decreases |writes|
  {
    if writes != [] {
      var n := |writes| - 1;
      assert Keys(writes[..n]) == Keys(writes)[..n];
      PutAllFresh(d, writes[..n]);
      KeysAppend(d, writes[..n]);
      assert writes[n].0 == Keys(writes)[n];
      assert writes[n].0 !in Keys(d + writes[..n]);
      PutAbsent(d + writes[..n], writes[n].0, writes[n].1);
      assert d + writes[..n] + [writes[n]] == d + writes;
    }
  }

  /** Writing a new key appends it. */
  lemma {:induction false} PutAbsent<V>(d: Dict<V>, k: string, v: V)
    requires k !in Keys(d)
    ensures Put(d, k, v) == d + [(k, v)]
  {
    if d != [] {
      PutAbsent(d[1..], k, v);
    }
  }

  /** A property every stored and every written value has holds of every value after the writes. */
  lemma {:induction false} PutAllValues<V>(d: Dict<V>, writes: Dict<V>, p: V -> bool)
    requires forall i | 0 <= i < |d| :: p(d[i].1)
    requires forall i | 0 <= i < |writes| :: p(writes[i].1)
    ensures forall i | 0 <= i < |PutAll(d, writes)| :: p(PutAll(d, writes)[i].1)
    decreases |writes|
  {
    if writes != [] {
      var n := |writes| - 1;
      PutAllValues(d, writes[..n], p);
      PutValues(PutAll(d, writes[..n]), writes[n].0, writes[n].1, p);
    }
  }

  lemma {:induction false} PutValues<V>(d: Dict<V>, k: string, v: V, p: V -> bool)
    requires forall i | 0 <= i < |d| :: p(d[i].1)
    requires p(v)
    ensures forall i | 0 <= i < |Put(d, k, v)| :: p(Put(d, k, v)[i].1)
  {
    if d != [] && d[0].0 != k {
      PutValues(d[1..], k, v, p);
    }
  }
}
