/** Python `dict` with string keys, as the loader and the serialiser use it:
    an insertion-ordered list of bindings. Assigning to a present key
    replaces its value where it stands; assigning to a new key appends. */
module PyDict {
  import opened Wrappers

  type Dict<V> = seq<(string, V)>

  function Keys<V>(d: Dict<V>): set<string> {
    set i | 0 <= i < |d| :: d[i].0
  }

  predicate DistinctKeys<V>(d: Dict<V>) {
    forall i, j :: 0 <= i < j < |d| ==> d[i].0 != d[j].0
  }

  lemma KeysSnoc<V>(d: Dict<V>)
    requires d != []
    ensures Keys(d) == Keys(d[..|d| - 1]) + {d[|d| - 1].0}
  {
    var p := d[..|d| - 1];
    forall k | k in Keys(d) ensures k in Keys(p) + {d[|d| - 1].0} {
      var i :| 0 <= i < |d| && d[i].0 == k;
      if i < |d| - 1 { assert p[i] == d[i]; }
    }
    forall k | k in Keys(p) ensures k in Keys(d) {
      var i :| 0 <= i < |p| && p[i].0 == k;
      assert d[i] == p[i];
    }
  }

  /** `d[k]` when `k in d`: the value bound to `k` (the last binding, should
      a list of bindings repeat a key). */
  function Lookup<V>(d: Dict<V>, k: string): (r: Option<V>)
    ensures r.Some? <==> k in Keys(d)
    decreases |d|
  {
    if d == [] then None
    else
      KeysSnoc(d);
      if d[|d| - 1].0 == k then Some(d[|d| - 1].1) else Lookup(d[..|d| - 1], k)
  }

  /** The value `Lookup` finds is that of the last binding of the key. */
  lemma {:induction false} LookupLastBinding<V>(d: Dict<V>, k: string)
    ensures Lookup(d, k).Some? ==>
      exists i :: 0 <= i < |d| && d[i] == (k, Lookup(d, k).value) && forall j :: i < j < |d| ==> d[j].0 != k
    decreases |d|
  {
    if d == [] {
    } else if d[|d| - 1].0 == k {
      LastBindingAt(d, k, |d| - 1);
    } else {
      var p := d[..|d| - 1];
      assert Lookup(d, k) == Lookup(p, k);
      LookupLastBinding(p, k);
      if Lookup(p, k).Some? {
        var i :| 0 <= i < |p| && p[i] == (k, Lookup(p, k).value) && forall j :: i < j < |p| ==> p[j].0 != k;
        assert d[i] == p[i];
        assert forall j :: i < j < |d| ==> d[j].0 != k by {
          forall j | i < j < |d| ensures d[j].0 != k {
            if j < |p| { assert d[j] == p[j]; }
          }
        }
      }
    }
  }

  lemma LastBindingAt<V>(d: Dict<V>, k: string, i: int)
    requires i == |d| - 1 && 0 <= i && d[i].0 == k
    ensures Lookup(d, k) == Some(d[i].1)
    ensures d[i] == (k, Lookup(d, k).value) && forall j :: i < j < |d| ==> d[j].0 != k
  {
  }

  /** In a dict with distinct keys each binding is the one `Lookup` finds. */
  lemma {:induction false} LookupDistinct<V>(d: Dict<V>, i: int)
    requires DistinctKeys(d) && 0 <= i < |d|
    ensures Lookup(d, d[i].0) == Some(d[i].1)
    decreases |d|
  {
    if i < |d| - 1 {
      var p := d[..|d| - 1];
      assert p[i] == d[i];
      assert DistinctKeys(p) by {
        forall a, b | 0 <= a < b < |p| ensures p[a].0 != p[b].0 { assert p[a] == d[a] && p[b] == d[b]; }
      }
      LookupDistinct(p, i);
    }
  }

  /** `d[k] = v`. */
  function Set<V>(d: Dict<V>, k: string, v: V): (r: Dict<V>)
  {
    if k in Keys(d) then seq(|d|, i requires 0 <= i < |d| => if d[i].0 == k then (k, v) else d[i])
    else d + [(k, v)]
  }

  /** `d.update(e)`: the bindings of `e` assigned one after the other. */
  function Update<V>(d: Dict<V>, e: Dict<V>): Dict<V>
    decreases |e|
  {
    if e == [] then d else Update(Set(d, e[0].0, e[0].1), e[1..])
  }

  lemma {:induction false} LookupReplaced<V>(d: Dict<V>, k: string, v: V, k': string)
    ensures var r := seq(|d|, i requires 0 <= i < |d| => if d[i].0 == k then (k, v) else d[i]);
      Lookup(r, k') == if k' == k && k in Keys(d) then Some(v) else if k' == k then None else Lookup(d, k')
    decreases |d|
  {
    var r := seq(|d|, i requires 0 <= i < |d| => if d[i].0 == k then (k, v) else d[i]);
    if d != [] {
      var p := d[..|d| - 1];
      var rp := seq(|p|, i requires 0 <= i < |p| => if p[i].0 == k then (k, v) else p[i]);
      assert r[..|r| - 1] == rp;
      LookupReplaced(p, k, v, k');
      KeysSnoc(d);
    }
  }

  lemma KeysReplaced<V>(d: Dict<V>, k: string, v: V)
    ensures var r := seq(|d|, i requires 0 <= i < |d| => if d[i].0 == k then (k, v) else d[i]);
      Keys(r) == Keys(d) && |r| == |d| && forall i :: 0 <= i < |d| ==> r[i].0 == d[i].0
  {
    var r := seq(|d|, i requires 0 <= i < |d| => if d[i].0 == k then (k, v) else d[i]);
    forall x | x in Keys(r) ensures x in Keys(d) {
      var i :| 0 <= i < |r| && r[i].0 == x;
    }
    forall x | x in Keys(d) ensures x in Keys(r) {
      var i :| 0 <= i < |d| && d[i].0 == x;
      assert r[i].0 == x;
    }
  }

  lemma KeysAppend<V>(d: Dict<V>, k: string, v: V)
    ensures Keys(d + [(k, v)]) == Keys(d) + {k}
  {
    var r := d + [(k, v)];
    assert r[..|r| - 1] == d;
    KeysSnoc(r);
  }

  /** After `d[k] = v`, `k` maps to `v` and every other key keeps its value. */
  lemma SetLookup<V>(d: Dict<V>, k: string, v: V, k': string)
    ensures Lookup(Set(d, k, v), k') == if k' == k then Some(v) else Lookup(d, k')
  {
    if k in Keys(d) {
      LookupReplaced(d, k, v, k');
    } else {
      var r := d + [(k, v)];
      assert r[..|r| - 1] == d;
    }
  }

  /** `d[k] = v` adds `k` to the keys, keeps every existing key where it
      stands, and keeps the keys distinct. */
  lemma SetShape<V>(d: Dict<V>, k: string, v: V)
    ensures Keys(Set(d, k, v)) == Keys(d) + {k}
    ensures |Set(d, k, v)| == if k in Keys(d) then |d| else |d| + 1
    ensures forall i :: 0 <= i < |d| ==> Set(d, k, v)[i].0 == d[i].0
    ensures DistinctKeys(d) ==> DistinctKeys(Set(d, k, v))
  {
    if k in Keys(d) {
      KeysReplaced(d, k, v);
    } else {
      KeysAppend(d, k, v);
      var r := Set(d, k, v);
      if DistinctKeys(d) {
        forall i, j | 0 <= i < j < |r| ensures r[i].0 != r[j].0 {
          if j == |d| {
            assert r[i].0 == d[i].0 && d[i].0 in Keys(d);
          }
        }
      }
    }
  }

  /** After `d.update(e)`, a key of `e` maps to its value in `e`; any other
      key keeps its value in `d`. */
  lemma {:induction false} UpdateLookup<V>(d: Dict<V>, e: Dict<V>, k: string)
    ensures Lookup(Update(d, e), k) == if k in Keys(e) then Lookup(e, k) else Lookup(d, k)
    decreases |e|
  {
    if e != [] {
      var d' := Set(d, e[0].0, e[0].1);
      UpdateLookup(d', e[1..], k);
      SetLookup(d, e[0].0, e[0].1, k);
      KeysFirst(e);
      if k in Keys(e[1..]) {
        LookupFirst(e, k);
      } else if k == e[0].0 {
        LookupFirst(e, k);
      }
    }
  }

  lemma KeysFirst<V>(e: Dict<V>)
    requires e != []
    ensures Keys(e) == {e[0].0} + Keys(e[1..])
  {
    forall x | x in Keys(e) ensures x in {e[0].0} + Keys(e[1..]) {
      var i :| 0 <= i < |e| && e[i].0 == x;
      if i > 0 { assert e[1..][i - 1] == e[i]; }
    }
    forall x | x in Keys(e[1..]) ensures x in Keys(e) {
      var i :| 0 <= i < |e[1..]| && e[1..][i].0 == x;
      assert e[i + 1] == e[1..][i];
    }
  }

  /** Looking up in `e` is looking up in its tail, unless the key occurs
      only at the head. */
  lemma {:induction false} LookupFirst<V>(e: Dict<V>, k: string)
    requires e != []
    ensures Lookup(e, k) == if k in Keys(e[1..]) then Lookup(e[1..], k)
                            else if k == e[0].0 then Some(e[0].1) else None
    decreases |e|
  {
    if |e| == 1 {
      assert e[1..] == [];
    } else {
      var p := e[..|e| - 1];
      assert p[1..] == e[1..][..|e[1..]| - 1];
      assert e[1..][|e[1..]| - 1] == e[|e| - 1];
      LookupFirst(p, k);
      KeysSnoc(e[1..]);
      KeysSnoc(e);
    }
  }

  /** `d.update(e)` has the keys of both, keeps the keys of `d` in their
      places, and keeps the keys distinct. */
  lemma {:induction false} UpdateShape<V>(d: Dict<V>, e: Dict<V>)
    ensures Keys(Update(d, e)) == Keys(d) + Keys(e)
    ensures |Update(d, e)| >= |d|
    ensures forall i :: 0 <= i < |d| ==> Update(d, e)[i].0 == d[i].0
    ensures DistinctKeys(d) ==> DistinctKeys(Update(d, e))
    decreases |e|
  {
    if e != [] {
      var d' := Set(d, e[0].0, e[0].1);
      SetShape(d, e[0].0, e[0].1);
      UpdateShape(d', e[1..]);
      KeysFirst(e);
    }
  }

  /** `d.update(e)` with keys that are new and distinct appends `e`. */
  lemma {:induction false} UpdateFresh<V>(d: Dict<V>, e: Dict<V>)
    requires DistinctKeys(e) && Keys(d) !! Keys(e)
    ensures Update(d, e) == d + e
    decreases |e|
  {
    if e != [] {
      KeysFirst(e);
      KeysAppend(d, e[0].0, e[0].1);
      assert DistinctKeys(e[1..]) by {
        forall i, j | 0 <= i < j < |e[1..]| ensures e[1..][i].0 != e[1..][j].0 {
          assert e[1..][i] == e[i + 1] && e[1..][j] == e[j + 1];
        }
      }
      assert e[0].0 !in Keys(e[1..]) by {
        forall i | 0 <= i < |e[1..]| ensures e[1..][i].0 != e[0].0 { assert e[1..][i] == e[i + 1]; }
      }
      UpdateFresh(d + [e[0]], e[1..]);
      assert (d + [e[0]]) + e[1..] == d + e;
    }
  }
}
