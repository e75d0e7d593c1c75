/** Sums over lists and over the values of a dictionary. */
module Sums {
  import opened Collections

  function Sum<V>(vs: seq<V>, f: V -> nat): nat {
    if vs == [] then 0 else Sum(vs[..|vs| - 1], f) + f(vs[|vs| - 1])
  }

  lemma SumSnoc<V>(vs: seq<V>, v: V, f: V -> nat)
    ensures Sum(vs + [v], f) == Sum(vs, f) + f(v)
  {
    assert (vs + [v])[..|vs|] == vs;
  }

  lemma {:induction false} SumConcat<V>(a: seq<V>, b: seq<V>, f: V -> nat)
    ensures Sum(a + b, f) == Sum(a, f) + Sum(b, f)
    decreases |b|
  {
    if b == [] {
      assert a + b == a;
    } else {
      var init := b[..|b| - 1];
      SumConcat(a, init, f);
      assert a + b == a + init + [b[|b| - 1]];
      SumSnoc(a + init, b[|b| - 1], f);
    }
  }

  lemma SumReplace<V>(vs: seq<V>, i: nat, v: V, f: V -> nat)
    requires i < |vs|
    ensures Sum(vs[i := v], f) + f(vs[i]) == Sum(vs, f) + f(v)
  {
    var a, b := vs[..i], vs[i + 1..];
    assert vs == a + [vs[i]] + b && vs[i := v] == a + [v] + b;
    SumConcat(a + [vs[i]], b, f);
    SumConcat(a + [v], b, f);
    SumSnoc(a, vs[i], f);
    SumSnoc(a, v, f);
  }

  /** Sums of functions that agree on the list agree. */
  lemma {:induction false} SumSame<V>(vs: seq<V>, f: V -> nat, g: V -> nat)
    requires forall v | v in vs :: f(v) == g(v)
    ensures Sum(vs, f) == Sum(vs, g)
    decreases |vs|
  {
    if vs != [] {
      SumSame(vs[..|vs| - 1], f, g);
    }
  }

  /** A sum splits into the sums of two parts of its terms. */
  lemma {:induction false} SumSplit<V>(vs: seq<V>, f: V -> nat, g: V -> nat, h: V -> nat)
    requires forall v | v in vs :: f(v) == g(v) + h(v)
    ensures Sum(vs, f) == Sum(vs, g) + Sum(vs, h)
    decreases |vs|
  {
    if vs != [] {
      SumSplit(vs[..|vs| - 1], f, g, h);
    }
  }

  // ------------------------------------------------------------- dictionary values

  function ValuesAt<K, V>(keys: seq<K>, at: map<K, V>): seq<V> {
    if keys == [] then []
    else
      var init, k := ValuesAt(keys[..|keys| - 1], at), keys[|keys| - 1];
      if k in at then init + [at[k]] else init
  }

  /** `d.values()` */
  function Vals<K, V>(d: Dict<K, V>): seq<V> {
    ValuesAt(d.keys, d.at)
  }

  lemma {:induction false} ValuesAtIndex<K, V>(keys: seq<K>, at: map<K, V>)
    requires forall i :: 0 <= i < |keys| ==> keys[i] in at
    ensures |ValuesAt(keys, at)| == |keys|
    ensures forall i :: 0 <= i < |keys| ==> ValuesAt(keys, at)[i] == at[keys[i]]
    decreases |keys|
  {
    if keys != [] {
      ValuesAtIndex(keys[..|keys| - 1], at);
    }
  }

  lemma ValsIndex<K, V>(d: Dict<K, V>)
    requires d.Valid()
    ensures |Vals(d)| == |d.keys|
    ensures forall i :: 0 <= i < |d.keys| ==> d.keys[i] in d.at && Vals(d)[i] == d.at[d.keys[i]]
  {
    forall i | 0 <= i < |d.keys| ensures d.keys[i] in d.at {
      assert d.keys[i] in d.keys;
    }
    ValuesAtIndex(d.keys, d.at);
  }

  /** Storing under a new key appends a value. */
  lemma ValsNew<K, V>(d: Dict<K, V>, k: K, v: V)
    requires d.Valid() && k !in d.at
    ensures Vals(d.Put(k, v)) == Vals(d) + [v]
  {
    d.PutValid(k, v);
    var d' := d.Put(k, v);
    ValsIndex(d);
    ValsIndex(d');
    hide Vals;
    assert forall i :: 0 <= i < |d.keys| ==> d'.keys[i] == d.keys[i] && d'.at[d.keys[i]] == d.at[d.keys[i]];
    assert Vals(d')[|d.keys|] == v;
  }

  /** Storing under an old key replaces its value. */
  lemma ValsOld<K, V>(d: Dict<K, V>, k: K, v: V) returns (i: nat)
    requires d.Valid() && k in d.at
    ensures i < |Vals(d)| && Vals(d)[i] == d.at[k] && Vals(d.Put(k, v)) == Vals(d)[i := v]
  {
    d.PutValid(k, v);
    var d' := d.Put(k, v);
    ValsIndex(d);
    ValsIndex(d');
    hide Vals;
    assert k in d.keys;
    i :| 0 <= i < |d.keys| && d.keys[i] == k;
    forall j | 0 <= j < |d.keys| ensures Vals(d')[j] == Vals(d)[i := v][j] {
      assert j != i ==> d.keys[j] != k;
    }
  }

  /** What storing does to a sum over the values. */
  lemma ValsPut<K, V>(d: Dict<K, V>, k: K, v: V, f: V -> nat)
    requires d.Valid()
    ensures Sum(Vals(d.Put(k, v)), f) + (if k in d.at then f(d.at[k]) else 0) == Sum(Vals(d), f) + f(v)
  {
    if k in d.at {
      var i := ValsOld(d, k, v);
      SumReplace(Vals(d), i, v, f);
    } else {
      ValsNew(d, k, v);
      SumSnoc(Vals(d), v, f);
    }
  }

  // ------------------------------------------------------------------------ tallies

  /** `counts[k] += n` on a dictionary of integers that start at 0. */
  function Bump<K>(d: Dict<K, nat>, k: K, n: nat): Dict<K, nat> {
    d.Put(k, (if k in d.at then d.at[k] else 0) + n)
  }

  function Identity(n: nat): nat { n }

  /** A bump adds to the total of a tally what it adds to one entry. */
  lemma BumpAdds<K>(d: Dict<K, nat>, k: K, n: nat)
    requires d.Valid()
    ensures Sum(Vals(Bump(d, k, n)), Identity) == Sum(Vals(d), Identity) + n
  {
    hide Sum, Vals;
    ValsPut(d, k, (if k in d.at then d.at[k] else 0) + n, Identity);
  }
}
