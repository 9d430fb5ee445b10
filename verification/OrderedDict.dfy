/** Python's `OrderedDict` with string keys, as the modelled code uses it for its LRUs:
    entries in order, oldest first. */
module OrderedDict {

  import opened Basics

  type Dict<V> = seq<(string, V)>

  ghost predicate UniqueKeys<V(!new)>(d: Dict<V>) {
    forall i, j :: 0 <= i < j < |d| ==> d[i].0 != d[j].0
  }

  function Keys<V(!new)>(d: Dict<V>): (ks: seq<string>)
    ensures |ks| == |d|
    ensures forall i :: 0 <= i < |d| ==> ks[i] == d[i].0
  {
    seq(|d|, i requires 0 <= i < |d| => d[i].0)
  }

  function Get<V(!new)>(d: Dict<V>, k: string): (r: Option<V>)
    ensures r.Some? ==> (k, r.value) in d
    ensures r.None? ==> forall e :: e in d ==> e.0 != k
  {
    if d == [] then None
    else if d[0].0 == k then Some(d[0].1)
    else
      var r := Get(d[1..], k);
      assert d == [d[0]] + d[1..];
      r
  }

  /** Drop the entry for `k`, if any. */
  function Remove<V(!new)>(d: Dict<V>, k: string): (r: Dict<V>)
    ensures forall e :: e in r <==> e in d && e.0 != k
    ensures |r| <= |d|
  {
    if d == [] then []
    else
      assert d == [d[0]] + d[1..];
      if d[0].0 == k then Remove(d[1..], k) else [d[0]] + Remove(d[1..], k)
  }

  /** `d[k] = v; d.move_to_end(k)`: the key ends up newest, whether or not it was there. */
  function PutNewest<V(!new)>(d: Dict<V>, k: string, v: V): (r: Dict<V>)
    ensures forall e :: e in r <==> e == (k, v) || (e in d && e.0 != k)
  {
    Remove(d, k) + [(k, v)]
  }

  /** `d[k] = v` on a key already present: the position is kept. */
  function Assign<V(!new)>(d: Dict<V>, k: string, v: V): (r: Dict<V>)
    ensures |r| == |d| && forall i :: 0 <= i < |d| ==> r[i] == if d[i].0 == k then (k, v) else d[i]
  {
    seq(|d|, i requires 0 <= i < |d| => if d[i].0 == k then (k, v) else d[i])
  }

  lemma {:induction false} RemoveUnique<V(!new)>(d: Dict<V>, k: string)
    requires UniqueKeys(d)
    ensures UniqueKeys(Remove(d, k))
    ensures (exists v :: (k, v) in d) ==> |Remove(d, k)| == |d| - 1
    ensures (forall e :: e in d ==> e.0 != k) ==> Remove(d, k) == d
  {
    if d != [] {
      RemoveUnique(d[1..], k);
      assert d == [d[0]] + d[1..];
      var t := Remove(d[1..], k);
      if d[0].0 == k {
        assert forall e :: e in d[1..] ==> e.0 != k;
      } else {
        forall i, j | 0 <= i < j < |[d[0]] + t|
          ensures ([d[0]] + t)[i].0 != ([d[0]] + t)[j].0
        {
          if i == 0 {
            assert t[j - 1] in t;
            assert t[j - 1] in d[1..];
          }
        }
      }
    }
  }

  lemma PutNewestUnique<V(!new)>(d: Dict<V>, k: string, v: V)
    requires UniqueKeys(d)
    ensures UniqueKeys(PutNewest(d, k, v))
    ensures Get(PutNewest(d, k, v), k) == Some(v)
  {
    RemoveUnique(d, k);
    var r := Remove(d, k);
    forall i | 0 <= i < |r| ensures r[i].0 != k {
      assert r[i] in r;
    }
    GetIs(PutNewest(d, k, v), k, v);
  }

  lemma {:induction false} GetIs<V(!new)>(d: Dict<V>, k: string, v: V)
    requires UniqueKeys(d)
    requires (k, v) in d
    ensures Get(d, k) == Some(v)
  {
    assert d == [d[0]] + d[1..];
    if d[0].0 == k {
      var i :| 0 <= i < |d| && d[i] == (k, v);
    } else {
      GetIs(d[1..], k, v);
    }
  }

  lemma {:induction false} RemoveAbsent<V(!new)>(d: Dict<V>, k: string)
    requires forall e :: e in d ==> e.0 != k
    ensures Remove(d, k) == d
  {
    if d != [] {
      assert d == [d[0]] + d[1..];
      RemoveAbsent(d[1..], k);
    }
  }

  lemma {:induction false} RemoveAppend<V(!new)>(a: Dict<V>, b: Dict<V>, k: string)
    ensures Remove(a + b, k) == Remove(a, k) + Remove(b, k)
  {
    if a == [] {
      assert a + b == b;
    } else {
      assert (a + b)[1..] == a[1..] + b;
      RemoveAppend(a[1..], b, k);
    }
  }

  /** The other entries keep their order. */
  lemma RemoveOne<V(!new)>(a: Dict<V>, k: string, v: V, b: Dict<V>)
    requires UniqueKeys(a + [(k, v)] + b)
    ensures Remove(a + [(k, v)] + b, k) == a + b
  {
    KeyElsewhere(a, k, v, b);
    RemoveAbsent(a, k);
    RemoveAbsent(b, k);
    hide UniqueKeys;
    assert a + [(k, v)] + b == a + ([(k, v)] + b) && ([(k, v)] + b)[1..] == b;
    RemoveAppend(a, [(k, v)] + b, k);
  }

  lemma KeyElsewhere<V(!new)>(a: Dict<V>, k: string, v: V, b: Dict<V>)
    requires UniqueKeys(a + [(k, v)] + b)
    ensures (forall e :: e in a ==> e.0 != k) && (forall e :: e in b ==> e.0 != k)
  {
    var d := a + [(k, v)] + b;
    assert forall i :: 0 <= i < |a| ==> d[i] == a[i];
    assert forall i :: 0 <= i < |b| ==> d[|a| + 1 + i] == b[i];
    assert d[|a|] == (k, v);
  }
}
