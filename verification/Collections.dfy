/** The few containers the modules share: Python dictionaries, which remember the
    order of their keys, and lists of strings sorted by code point. */
module Collections {

  /** A revision identifier. */
  datatype Rev = Rev(id: string)

  datatype Option<+T> = None | Some(value: T)

  /** A decoded JSON value. */
  datatype Json =
    | JNull
    | JBool(b: bool)
    | JInt(n: int)
    | JStr(s: string)
    | JList(items: seq<Json>)
    | JDict(fields: map<string, Json>)

  ghost predicate NoRepeats<T>(s: seq<T>) {
    forall i, j :: 0 <= i < j < |s| ==> s[i] != s[j]
  }

  datatype Dict<K(==), V> = Dict(keys: seq<K>, at: map<K, V>) {

    ghost predicate Valid() {
      NoRepeats(keys) && (forall k | k in keys :: k in at) && (forall k | k in at :: k in keys)
    }

    /** A new key goes last; a key already there keeps its place. */
    function Put(k: K, v: V): Dict<K, V> {
      if k in at then Dict(keys, at[k := v]) else Dict(keys + [k], at[k := v])
    }

    lemma PutValid(k: K, v: V)
      requires Valid()
      ensures Put(k, v).Valid()
    {
    }
  }

  function EmptyDict<K, V>(): (d: Dict<K, V>)
    ensures d.Valid()
  {
    Dict([], map[])
  }

  // ------------------------------------------------------------ sorted strings

  predicate Leq(a: string, b: string) {
    a == [] || (b != [] && (a[0] < b[0] || (a[0] == b[0] && Leq(a[1..], b[1..]))))
  }

  lemma LeqTotal(a: string, b: string)
    ensures Leq(a, b) || Leq(b, a)
    ensures Leq(a, b) && Leq(b, a) ==> a == b
  {
    if a != [] && b != [] {
      LeqTotal(a[1..], b[1..]);
      assert a == [a[0]] + a[1..] && b == [b[0]] + b[1..];
    }
  }

  lemma LeqTrans(a: string, b: string, c: string)
    requires Leq(a, b) && Leq(b, c)
    ensures Leq(a, c)
  {
  }

  ghost predicate Sorted(s: seq<Rev>) {
    forall i, j :: 0 <= i < j < |s| ==> Leq(s[i].id, s[j].id)
  }

  function Insert(x: Rev, s: seq<Rev>): (r: seq<Rev>)
    ensures multiset(r) == multiset(s) + multiset{x}
    ensures Sorted(s) ==> Sorted(r)
  {
    if s == [] || Leq(x.id, s[0].id) then
      InsertFront(x, s);
      [x] + s
    else
      InsertBehind(x, s);
      [s[0]] + Insert(x, s[1..])
  }

  lemma InsertFront(x: Rev, s: seq<Rev>)
    requires s == [] || Leq(x.id, s[0].id)
    ensures Sorted(s) ==> Sorted([x] + s)
  {
    if Sorted(s) {
      forall j | 0 <= j < |s| ensures Leq(x.id, s[j].id) {
        if j > 0 {
          LeqTrans(x.id, s[0].id, s[j].id);
        }
      }
    }
  }

  lemma InsertBehind(x: Rev, s: seq<Rev>)
    requires s != [] && !Leq(x.id, s[0].id)
    ensures multiset(s) == multiset{s[0]} + multiset(s[1..])
    ensures forall r: seq<Rev> :: Sorted(s) && Sorted(r) && multiset(r) == multiset(s[1..]) + multiset{x} ==> Sorted([s[0]] + r)
  {
    assert s == [s[0]] + s[1..];
    LeqTotal(x.id, s[0].id);
    forall r: seq<Rev> | Sorted(s) && Sorted(r) && multiset(r) == multiset(s[1..]) + multiset{x}
      ensures Sorted([s[0]] + r)
    {
      forall j | 0 <= j < |r| ensures Leq(s[0].id, r[j].id) {
        assert r[j] in multiset(r);
        if r[j] != x {
          assert r[j] in s[1..];
        }
      }
    }
  }

  /** Python's `sorted` on a list of revisions. */
  function SortRevs(s: seq<Rev>): (r: seq<Rev>)
    ensures multiset(r) == multiset(s) && Sorted(r)
  {
    if s == [] then []
    else
      assert s == [s[0]] + s[1..];
      Insert(s[0], SortRevs(s[1..]))
  }

  lemma SortKeepsMembers(s: seq<Rev>)
    ensures forall x :: x in SortRevs(s) <==> x in s
    ensures NoRepeats(s) ==> NoRepeats(SortRevs(s))
  {
    var r := SortRevs(s);
    forall x ensures x in r <==> x in s {
      assert x in multiset(r) <==> x in multiset(s);
    }
    if NoRepeats(s) {
      forall x: Rev ensures multiset(r)[x] <= 1 {
        OnceInMultiset(s, x);
      }
      NoRepeatsFromMultiset(r);
    }
  }

  lemma NoRepeatsFromMultiset(r: seq<Rev>)
    requires forall x: Rev :: multiset(r)[x] <= 1
    ensures NoRepeats(r)
  {
    forall i, j | 0 <= i < j < |r| ensures r[i] != r[j] {
      assert r == r[..j] + [r[j]] + r[j + 1..];
      assert multiset(r) == multiset(r[..j]) + multiset{r[j]} + multiset(r[j + 1..]);
      assert r[i] == r[..j][i] && r[i] in multiset(r[..j]);
      assert multiset(r)[r[i]] <= 1;
    }
  }

  lemma OnceInMultiset<T>(s: seq<T>, x: T)
    requires NoRepeats(s)
    ensures multiset(s)[x] <= 1
  {
    if s != [] {
      assert s == [s[0]] + s[1..];
      OnceInMultiset(s[1..], x);
    }
  }
}
